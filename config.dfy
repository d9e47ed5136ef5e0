/**
 * `ScrapingConfig`: its defaults, the ordered chain of range checks in
 * `validate`, and how `from_args` combines an optional configuration file
 * with command-line overrides.
 */
module Config {
  import opened Wrappers
  import opened Text

  datatype ScrapingConfig = ScrapingConfig(
    maxConcurrentTasks: nat,
    taskDelayMs: nat,
    inputFile: string,
    outputDir: string,
    selector: string,
    skipTextNodes: nat,
    filterPatterns: seq<string>,
    requestTimeoutSecs: nat,
    userAgent: string,
    verbose: bool)

  // ---------------------------------------------------------------------------
  // Whitespace and `str::trim`

  /** Rust's `char::is_whitespace`: the Unicode White_Space property. */
  predicate IsWhitespace(c: char)
  {
    || c == ' '
    || '\t' <= c <= '\r'
    || c == '\U{0085}' || c == '\U{00A0}' || c == '\U{1680}'
    || '\U{2000}' <= c <= '\U{200A}'
    || c == '\U{2028}' || c == '\U{2029}' || c == '\U{202F}' || c == '\U{205F}' || c == '\U{3000}'
  }

  predicate IsBlank(s: string)
  {
    forall i :: 0 <= i < |s| ==> IsWhitespace(s[i])
  }

  lemma BlankAfterWhitespace(c: char, s: string)
    requires IsWhitespace(c) && IsBlank(s)
    ensures IsBlank([c] + s)
  {
    forall i | 0 <= i < |[c] + s|
      ensures IsWhitespace(([c] + s)[i])
    {
      if i > 0 {
        assert ([c] + s)[i] == s[i - 1];
      }
    }
  }

  /** Drops leading whitespace. */
  function TrimStart(s: string): (r: string)
    ensures IsSuffix(r, s)
    ensures IsBlank(s[..|s| - |r|])
    ensures r == [] || !IsWhitespace(r[0])
    decreases |s|
  {
    if s != [] && IsWhitespace(s[0]) then
      var r := TrimStart(s[1..]);
      var dropped := s[1..][..|s[1..]| - |r|];
      assert s[..|s| - |r|] == [s[0]] + dropped;
      BlankAfterWhitespace(s[0], dropped);
      assert s[|s| - |r|..] == s[1..][|s[1..]| - |r|..];
      r
    else
      assert s[|s| - |s|..] == s;
      s
  }

  /** Drops trailing whitespace. */
  function TrimEnd(s: string): (r: string)
    ensures IsPrefix(r, s)
    ensures IsBlank(s[|r|..])
    ensures r == [] || !IsWhitespace(r[|r| - 1])
    decreases |s|
  {
    if s != [] && IsWhitespace(s[|s| - 1]) then
      var r := TrimEnd(s[..|s| - 1]);
      assert s[|r|..] == s[..|s| - 1][|r|..] + [s[|s| - 1]];
      assert s[..|r|] == s[..|s| - 1][..|r|];
      r
    else
      assert s[..|s|] == s;
      s
  }

  /** `str::trim`: a piece of the input that neither starts nor ends with whitespace. */
  function Trim(s: string): (r: string)
    ensures |r| <= |s|
    ensures r == [] || (!IsWhitespace(r[0]) && !IsWhitespace(r[|r| - 1]))
  {
    var t := TrimStart(s);
    var r := TrimEnd(t);
    assert r == [] || r[0] == t[0];
    r
  }

  /** Trimming leaves nothing exactly when every character is whitespace. */
  lemma TrimEmptyIffBlank(s: string)
    ensures Trim(s) == [] <==> IsBlank(s)
  {
    var t := TrimStart(s);
    if t == [] {
      assert s[..|s| - |t|] == s;
    } else {
      assert !IsWhitespace(t[0]);
      assert t[0] == s[|s| - |t|];
    }
  }

  // ---------------------------------------------------------------------------
  // Defaults

  const DefaultSelector := "main, article, " + ".content, .post-content, .entry-content, #content"

  const DefaultUserAgent := "Mozilla/5.0 (Windows NT 10.0; Win64; x64) AppleWebKit/537.36 (KHTML, like Gecko) Chrome/120.0.0.0 Safari/537.36"

  const DefaultFilterPatterns := [
    "window.", "document.", "function(", "Advertisement", "Subscribe",
    "Cookie", "Privacy Policy", "Terms of Service", "Sign up", "Log in"]

  /** `ScrapingConfig::default()`; it satisfies every validation rule. */
  function Default(): (c: ScrapingConfig)
    ensures forall e :: !Violates(c, e)
    ensures c.maxConcurrentTasks == 8 && c.taskDelayMs == 250 && c.requestTimeoutSecs == 45
    ensures c.skipTextNodes == 2 && !c.verbose
  {
    assert !IsWhitespace(DefaultSelector[0]);
    ScrapingConfig(
      maxConcurrentTasks := 8,
      taskDelayMs := 250,
      inputFile := "./out/links.csv",
      outputDir := "./out",
      selector := DefaultSelector,
      skipTextNodes := 2,
      filterPatterns := DefaultFilterPatterns,
      requestTimeoutSecs := 45,
      userAgent := DefaultUserAgent,
      verbose := false)
  }

  // ---------------------------------------------------------------------------
  // Validation

  /** The six rules `validate` enforces, in the order it checks them. */
  datatype ConfigError = ZeroTasks | TooManyTasks | DelayTooShort | EmptySelector | ZeroTimeout | TimeoutTooLong

  function Rank(e: ConfigError): nat
  {
    match e
    case ZeroTasks => 0
    case TooManyTasks => 1
    case DelayTooShort => 2
    case EmptySelector => 3
    case ZeroTimeout => 4
    case TimeoutTooLong => 5
  }

  /** What each rule forbids, stated independently of the check chain. */
  predicate Violates(c: ScrapingConfig, e: ConfigError)
  {
    match e
    case ZeroTasks => c.maxConcurrentTasks == 0
    case TooManyTasks => c.maxConcurrentTasks > 50
    case DelayTooShort => c.taskDelayMs < 50
    case EmptySelector => IsBlank(c.selector)
    case ZeroTimeout => c.requestTimeoutSecs == 0
    case TimeoutTooLong => c.requestTimeoutSecs > 300
  }

  function ErrorMessage(e: ConfigError): string
  {
    match e
    case ZeroTasks => "max_concurrent_tasks must be greater than 0"
    case TooManyTasks => "max_concurrent_tasks should not exceed 50 to be respectful to servers"
    case DelayTooShort => "task_delay_ms should be at least 50ms to avoid overwhelming servers"
    case EmptySelector => "selector cannot be empty"
    case ZeroTimeout => "request_timeout_secs must be greater than 0"
    case TimeoutTooLong => "request_timeout_secs should not exceed 300 seconds (5 minutes)"
  }

  /** The warning printed when the input file is missing. */
  function MissingInputWarning(inputFile: string): string
  {
    "\U{26A0}\U{FE0F}  Warning: Input file \"" + inputFile + "\" does not exist"
  }

  /**
   * `validate`: the first rule broken, in check order, is the error; a missing
   * input file only adds a warning (the value of `Ok`).
   */
  function Validate(c: ScrapingConfig, inputFileExists: bool): (r: Result<seq<string>, ConfigError>)
    ensures r.Ok? <==> forall e :: !Violates(c, e)
    ensures r.Err? ==> Violates(c, r.error) && forall e :: Rank(e) < Rank(r.error) ==> !Violates(c, e)
    ensures r.Ok? ==> r.value == (if inputFileExists then [] else [MissingInputWarning(c.inputFile)])
  {
    TrimEmptyIffBlank(c.selector);
    if c.maxConcurrentTasks == 0 then
      assert Violates(c, ZeroTasks);
      Err(ZeroTasks)
    else if c.maxConcurrentTasks > 50 then
      assert Violates(c, TooManyTasks);
      PassedBefore(c, 1);
      Err(TooManyTasks)
    else if c.taskDelayMs < 50 then
      assert Violates(c, DelayTooShort);
      PassedBefore(c, 2);
      Err(DelayTooShort)
    else if Trim(c.selector) == [] then
      assert Violates(c, EmptySelector);
      PassedBefore(c, 3);
      Err(EmptySelector)
    else if c.requestTimeoutSecs == 0 then
      assert Violates(c, ZeroTimeout);
      PassedBefore(c, 4);
      Err(ZeroTimeout)
    else if c.requestTimeoutSecs > 300 then
      assert Violates(c, TimeoutTooLong);
      PassedBefore(c, 5);
      Err(TimeoutTooLong)
    else
      PassedBefore(c, 6);
      if !inputFileExists then Ok([MissingInputWarning(c.inputFile)]) else Ok([])
  }

  /** Passing the first `n` checks means breaking none of the first `n` rules. */
  lemma PassedBefore(c: ScrapingConfig, n: nat)
    requires n > 0 ==> c.maxConcurrentTasks != 0
    requires n > 1 ==> c.maxConcurrentTasks <= 50
    requires n > 2 ==> c.taskDelayMs >= 50
    requires n > 3 ==> !IsBlank(c.selector)
    requires n > 4 ==> c.requestTimeoutSecs != 0
    requires n > 5 ==> c.requestTimeoutSecs <= 300
    ensures forall e :: Rank(e) < n ==> !Violates(c, e)
  {
  }

  /** The accepted configurations, as ranges. */
  lemma ValidIffInRanges(c: ScrapingConfig, inputFileExists: bool)
    ensures Validate(c, inputFileExists).Ok? <==>
      && 1 <= c.maxConcurrentTasks <= 50
      && c.taskDelayMs >= 50
      && !IsBlank(c.selector)
      && 1 <= c.requestTimeoutSecs <= 300
  {
    assert !Violates(c, ZeroTasks) <==> c.maxConcurrentTasks != 0;
    assert !Violates(c, TooManyTasks) <==> c.maxConcurrentTasks <= 50;
    assert !Violates(c, DelayTooShort) <==> c.taskDelayMs >= 50;
    assert !Violates(c, EmptySelector) <==> !IsBlank(c.selector);
    assert !Violates(c, ZeroTimeout) <==> c.requestTimeoutSecs != 0;
    assert !Violates(c, TimeoutTooLong) <==> c.requestTimeoutSecs <= 300;
  }

  /** Whether the input file exists never changes the verdict. */
  lemma MissingInputOnlyWarns(c: ScrapingConfig)
    ensures Validate(c, false).Ok? == Validate(c, true).Ok?
    ensures Validate(c, true).Ok? ==> Validate(c, true).value == []
  {
  }

  lemma DefaultValidates(inputFileExists: bool)
    ensures Validate(Default(), inputFileExists).Ok?
  {
  }

  // ---------------------------------------------------------------------------
  // Loading and command-line overrides

  /** The parsed command line (`Args`). */
  datatype Args = Args(
    config: Option<string>,
    input: Option<string>,
    output: Option<string>,
    selector: Option<string>,
    concurrent: Option<nat>,
    delay: Option<nat>,
    verbose: bool,
    generateConfig: Option<string>)

  /** Why `from_file` failed: the file could not be read or parsed, or its contents broke a rule. */
  datatype LoadError = Unreadable(reason: string) | Invalid(error: ConfigError)

  /**
   * `from_file`: `parsed` is what reading and TOML-decoding the file gave; the
   * decoded configuration must also pass validation.
   */
  function FromFile(parsed: Result<ScrapingConfig, string>, fileExists: string -> bool): (r: Result<ScrapingConfig, LoadError>)
    ensures r.Ok? <==> parsed.Ok? && forall e :: !Violates(parsed.value, e)
    ensures r.Ok? ==> r.value == parsed.value
  {
    match parsed
    case Err(reason) => Err(Unreadable(reason))
    case Ok(c) =>
      match Validate(c, fileExists(c.inputFile))
      case Err(e) => Err(Invalid(e))
      case Ok(_) => Ok(c)
  }

  /**
   * The configuration `from_args` starts from: the file's when one is named and
   * it loads, otherwise the defaults. Either way it passes validation.
   */
  function Starting(args: Args, parsed: Result<ScrapingConfig, string>, fileExists: string -> bool): (c: ScrapingConfig)
    ensures forall e :: !Violates(c, e)
    ensures args.config.Some? && FromFile(parsed, fileExists).Ok? ==> c == parsed.value
    ensures args.config.None? || FromFile(parsed, fileExists).Err? ==> c == Default()
  {
    if args.config.Some? then
      match FromFile(parsed, fileExists)
      case Ok(c) => c
      case Err(_) => Default()
    else Default()
  }

  /** A given option replaces its field; `--verbose` can only switch verbosity on. */
  function Merge(base: ScrapingConfig, args: Args): ScrapingConfig
  {
    base.(
      inputFile := if args.input.Some? then args.input.value else base.inputFile,
      outputDir := if args.output.Some? then args.output.value else base.outputDir,
      selector := if args.selector.Some? then args.selector.value else base.selector,
      maxConcurrentTasks := if args.concurrent.Some? then args.concurrent.value else base.maxConcurrentTasks,
      taskDelayMs := if args.delay.Some? then args.delay.value else base.taskDelayMs,
      verbose := base.verbose || args.verbose)
  }

  /** The overrides of `from_args`, applied field by field in source order. */
  method ApplyOverrides(base: ScrapingConfig, args: Args) returns (config: ScrapingConfig)
    ensures config == Merge(base, args)
  {
    config := base;
    if args.input.Some? {
      config := config.(inputFile := args.input.value);
    }
    if args.output.Some? {
      config := config.(outputDir := args.output.value);
    }
    if args.selector.Some? {
      config := config.(selector := args.selector.value);
    }
    if args.concurrent.Some? {
      config := config.(maxConcurrentTasks := args.concurrent.value);
    }
    if args.delay.Some? {
      config := config.(taskDelayMs := args.delay.value);
    }
    if args.verbose {
      config := config.(verbose := true);
    }
  }

  /**
   * `from_args`: start from the file or the defaults, overwrite field by field
   * with the options given, then validate; the result is returned only if it
   * passes.
   */
  method FromArgs(args: Args, parsed: Result<ScrapingConfig, string>, fileExists: string -> bool)
    returns (r: Result<ScrapingConfig, ConfigError>)
    ensures r.Ok? <==> forall e :: !Violates(Merge(Starting(args, parsed, fileExists), args), e)
    ensures r.Ok? ==> r.value == Merge(Starting(args, parsed, fileExists), args)
    ensures r.Err? ==> Validate(Merge(Starting(args, parsed, fileExists), args), fileExists(Merge(Starting(args, parsed, fileExists), args).inputFile)) == Err(r.error)
  {
    var start := Starting(args, parsed, fileExists);
    var config := ApplyOverrides(start, args);
    var v := Validate(config, fileExists(config.inputFile));
    if v.Err? {
      return Err(v.error);
    }
    return Ok(config);
  }

  /** With no option given, `from_args` returns the starting configuration unchanged. */
  lemma NoOverridesKeepStart(args: Args, base: ScrapingConfig)
    requires args.input.None? && args.output.None? && args.selector.None?
    requires args.concurrent.None? && args.delay.None? && !args.verbose
    ensures Merge(base, args) == base
  {
  }

  /** Fields without a command-line option always keep the loaded value; verbosity is never switched off. */
  lemma MergeKeepsUnexposedFields(base: ScrapingConfig, args: Args)
    ensures var m := Merge(base, args);
      && m.skipTextNodes == base.skipTextNodes
      && m.filterPatterns == base.filterPatterns
      && m.requestTimeoutSecs == base.requestTimeoutSecs
      && m.userAgent == base.userAgent
      && (base.verbose ==> m.verbose)
  {
  }

  /** An option given on the command line wins over the file. */
  lemma GivenOptionsWin(base: ScrapingConfig, args: Args)
    ensures args.input.Some? ==> Merge(base, args).inputFile == args.input.value
    ensures args.output.Some? ==> Merge(base, args).outputDir == args.output.value
    ensures args.selector.Some? ==> Merge(base, args).selector == args.selector.value
    ensures args.concurrent.Some? ==> Merge(base, args).maxConcurrentTasks == args.concurrent.value
    ensures args.delay.Some? ==> Merge(base, args).taskDelayMs == args.delay.value
  {
  }

  /** Without options, `from_args` always succeeds: the starting configuration already passed validation. */
  lemma NoOverridesAlwaysValid(args: Args, parsed: Result<ScrapingConfig, string>, fileExists: string -> bool)
    requires args.input.None? && args.output.None? && args.selector.None?
    requires args.concurrent.None? && args.delay.None?
    ensures forall e :: !Violates(Merge(Starting(args, parsed, fileExists), args), e)
  {
    var base := Starting(args, parsed, fileExists);
    var m := Merge(base, args);
    assert m == base.(verbose := base.verbose || args.verbose);
    forall e ensures !Violates(m, e) {
      assert Violates(m, e) == Violates(base, e);
    }
  }
}
