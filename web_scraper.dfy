/**
 * `ContentExtractor`: from the first element the selector matches, keep the
 * text nodes past the skip count that do not start with a filter pattern,
 * each followed by one newline.
 */
module WebScraper {
  import opened Wrappers
  import opened Text
  import Config

  /** The one filter pattern an extractor is built with. */
  const PubfutureTag := "window.pubfuturetag"

  datatype ContentExtractor = ContentExtractor(selector: string, skipNodes: nat, filterPatterns: seq<string>)

  /**
   * What HTML parsing and CSS matching yield for a document and a selector
   * string: the selector does not parse, or the text nodes of every matched
   * element, elements and nodes in document order.
   */
  datatype Selection = InvalidSelector(reason: string) | Matches(elements: seq<seq<string>>)

  /** `ContentExtractor::new`: the selector and skip count come from the configuration, the filter list does not. */
  function NewExtractor(config: Config.ScrapingConfig): (r: Result<ContentExtractor, string>)
    ensures r.Ok?
    ensures r.value.selector == config.selector && r.value.skipNodes == config.skipTextNodes
    ensures r.value.filterPatterns == [PubfutureTag]
  {
    Ok(ContentExtractor(config.selector, config.skipTextNodes, [PubfutureTag]))
  }

  /** The configured `filter_patterns` play no part in the extractor. */
  lemma ExtractorIgnoresConfiguredPatterns(config: Config.ScrapingConfig, patterns: seq<string>)
    ensures NewExtractor(config.(filterPatterns := patterns)) == NewExtractor(config)
  {
  }

  /** `should_filter_text`: a node is dropped when it starts with some pattern. */
  function ShouldFilterText(patterns: seq<string>, text: string): (r: bool)
    ensures r <==> exists k :: 0 <= k < |patterns| && IsPrefix(patterns[k], text)
  {
    if patterns == [] then false
    else
      var rest := ShouldFilterText(patterns[1..], text);
      assert forall k :: 1 <= k < |patterns| ==> patterns[k] == patterns[1..][k - 1];
      IsPrefix(patterns[0], text) || rest
  }

  /** The filter is a prefix test: the pattern in the middle of a node does not drop it. */
  lemma PatternInsideIsKept(lead: string)
    requires lead != [] && lead[0] != 'w'
    ensures Contains(lead + PubfutureTag, PubfutureTag)
    ensures !ShouldFilterText([PubfutureTag], lead + PubfutureTag)
  {
    ContainsMiddle(lead, PubfutureTag, "");
    assert lead + PubfutureTag + "" == lead + PubfutureTag;
    assert (lead + PubfutureTag)[0] != PubfutureTag[0];
  }

  /** The nodes that reach the output, in document order: index at least `skip`, not filtered. */
  function Kept(nodes: seq<string>, skip: nat, patterns: seq<string>): seq<string>
    decreases |nodes|
  {
    if nodes == [] then []
    else
      var i := |nodes| - 1;
      Kept(nodes[..i], skip, patterns)
        + (if i < skip || ShouldFilterText(patterns, nodes[i]) then [] else [nodes[i]])
  }

  /** Each kept node followed by exactly one newline. */
  function Lines(kept: seq<string>): string
    decreases |kept|
  {
    if kept == [] then ""
    else Lines(kept[..|kept| - 1]) + kept[|kept| - 1] + "\n"
  }

  lemma LinesSnoc(kept: seq<string>, node: string)
    ensures Lines(kept + [node]) == Lines(kept) + node + "\n"
  {
    assert (kept + [node])[..|kept|] == kept;
  }

  const NoElementMessage := "No element found matching the selector"

  function SelectorErrorMessage(selector: string, reason: string): string
  {
    "Failed to parse CSS selector '" + selector + "': " + reason
  }

  /**
   * `extract_content`: an unparsable selector or no matching element is an
   * error; otherwise only the first matched element is used, and the result
   * may well be empty.
   */
  method ExtractContent(ex: ContentExtractor, selection: Selection) returns (r: Result<string, string>)
    ensures selection.InvalidSelector? ==> r == Err(SelectorErrorMessage(ex.selector, selection.reason))
    ensures selection.Matches? && selection.elements == [] ==> r == Err(NoElementMessage)
    ensures selection.Matches? && selection.elements != [] ==>
      r == Ok(Lines(Kept(selection.elements[0], ex.skipNodes, ex.filterPatterns)))
  {
    if selection.InvalidSelector? {
      return Err(SelectorErrorMessage(ex.selector, selection.reason));
    }
    if selection.elements == [] {
      return Err(NoElementMessage);
    }
    var nodes := selection.elements[0];
    var content := "";
    for i := 0 to |nodes|
      invariant content == Lines(Kept(nodes[..i], ex.skipNodes, ex.filterPatterns))
    {
      assert nodes[..i + 1][..i] == nodes[..i];
      assert Kept(nodes[..i + 1], ex.skipNodes, ex.filterPatterns) == Kept(nodes[..i], ex.skipNodes, ex.filterPatterns)
        + (if i < ex.skipNodes || ShouldFilterText(ex.filterPatterns, nodes[i]) then [] else [nodes[i]]);
      ghost var before := Kept(nodes[..i], ex.skipNodes, ex.filterPatterns);
      assert before + [] == before;
      if i < ex.skipNodes {
        continue;
      }
      if ShouldFilterText(ex.filterPatterns, nodes[i]) {
        continue;
      }
      LinesSnoc(before, nodes[i]);
      content := content + nodes[i];
      content := content + "\n";
    }
    assert nodes[..|nodes|] == nodes;
    return Ok(content);
  }

  // ---------------------------------------------------------------------------
  // Properties of the extracted text

  function TotalLength(kept: seq<string>): nat
    decreases |kept|
  {
    if kept == [] then 0 else TotalLength(kept[..|kept| - 1]) + |kept[|kept| - 1]|
  }

  /** The output's length is the sum of (node length + 1) over the kept nodes. */
  lemma {:induction false} LinesLength(kept: seq<string>)
    ensures |Lines(kept)| == TotalLength(kept) + |kept|
    decreases |kept|
  {
    if kept != [] {
      LinesLength(kept[..|kept| - 1]);
    }
  }

  /** The output is empty exactly when every node was skipped or filtered. */
  lemma LinesEmptyIff(kept: seq<string>)
    ensures Lines(kept) == "" <==> kept == []
  {
    LinesLength(kept);
  }

  /** Nodes before the skip count never influence the output. */
  lemma {:induction false} KeptIgnoresSkipped(a: seq<string>, b: seq<string>, skip: nat, patterns: seq<string>)
    requires |a| == |b|
    requires forall j :: skip <= j < |a| ==> a[j] == b[j]
    ensures Kept(a, skip, patterns) == Kept(b, skip, patterns)
    decreases |a|
  {
    if a != [] {
      var i := |a| - 1;
      KeptIgnoresSkipped(a[..i], b[..i], skip, patterns);
    }
  }

  /** At most the nodes past the skip count are kept. */
  lemma {:induction false} KeptBound(nodes: seq<string>, skip: nat, patterns: seq<string>)
    ensures |Kept(nodes, skip, patterns)| <= if |nodes| <= skip then 0 else |nodes| - skip
    decreases |nodes|
  {
    if nodes != [] {
      KeptBound(nodes[..|nodes| - 1], skip, patterns);
    }
  }

  /** A string is kept exactly when it stands at some index past the skip count and starts with no pattern. */
  lemma {:induction false} KeptMembers(nodes: seq<string>, skip: nat, patterns: seq<string>, x: string)
    ensures x in Kept(nodes, skip, patterns) <==>
      (exists j :: skip <= j < |nodes| && nodes[j] == x) && !ShouldFilterText(patterns, x)
    decreases |nodes|
  {
    if nodes != [] {
      var i := |nodes| - 1;
      var front := nodes[..i];
      KeptMembers(front, skip, patterns, x);
      assert forall j :: 0 <= j < i ==> front[j] == nodes[j];
      if (exists j :: skip <= j < |nodes| && nodes[j] == x) && !ShouldFilterText(patterns, x) {
        var j :| skip <= j < |nodes| && nodes[j] == x;
        if j < i {
          assert skip <= j < |front| && front[j] == x;
        }
      }
    }
  }
}
