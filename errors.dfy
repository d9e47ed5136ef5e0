/**
 * The application's error taxonomy (`ScrapperError`): one variant per failure
 * kind, the constructor helpers, the recoverability classification, the URL
 * accessor, the user-facing and developer-facing renderings, and the
 * conversions from library errors.
 */
module Errors {
  import opened Wrappers
  import opened Text

  /** An HTTP status code as Rust's `u16` holds it. */
  type U16 = x: int | 0 <= x < 0x1_0000

  /** Paths (`PathBuf`) are kept as their string form. */
  type Path = string

  datatype ScrapperError =
    | Config(message: string)
    | Csv(message: string)
    | FileSystem(message: string, path: Option<Path>)
    | WebScraping(url: string, message: string)
    | ContentExtraction(url: string, message: string)
    | Http(url: string, status: Option<U16>, message: string)
    | TaskExecution(message: string)
    | Progress(message: string)
    | Validation(field: string, message: string)
    | Io(message: string, path: Option<Path>)

  /** HTTP statuses that indicate a transient condition. */
  const RecoverableStatuses: set<int> := {429, 502, 503}

  // ---------------------------------------------------------------------------
  // Classification

  /**
   * Rate limiting (429), bad gateway (502), service unavailable (503) and a
   * connection failure without any status are transient; nothing else is.
   */
  function IsRecoverable(e: ScrapperError): (r: bool)
    ensures r <==> e.Http? && (e.status.None? || e.status.value in RecoverableStatuses)
  {
    match e
    case Http(_, Some(429), _) => true
    case Http(_, Some(503), _) => true
    case Http(_, Some(502), _) => true
    case Http(_, None, _) => true
    case _ => false
  }

  /** The URL a failure is about, for the three variants that carry one. */
  function Url(e: ScrapperError): (r: Option<string>)
    ensures r.Some? <==> e.WebScraping? || e.ContentExtraction? || e.Http?
    ensures r.Some? ==> r.value == e.url
  {
    match e
    case WebScraping(url, _) => Some(url)
    case ContentExtraction(url, _) => Some(url)
    case Http(url, _, _) => Some(url)
    case _ => None
  }

  // ---------------------------------------------------------------------------
  // Constructors

  function NewConfig(message: string): (e: ScrapperError)
    ensures e.Config? && e.message == message
    ensures !IsRecoverable(e) && Url(e).None?
  {
    Config(message)
  }

  function NewCsv(message: string): (e: ScrapperError)
    ensures e.Csv? && e.message == message
    ensures !IsRecoverable(e) && Url(e).None?
  {
    Csv(message)
  }

  function NewFileSystem(message: string, path: Option<Path>): (e: ScrapperError)
    ensures e.FileSystem? && e.message == message && e.path == path
    ensures !IsRecoverable(e) && Url(e).None?
  {
    FileSystem(message, path)
  }

  function NewWebScraping(url: string, message: string): (e: ScrapperError)
    ensures e.WebScraping? && e.url == url && e.message == message
    ensures !IsRecoverable(e) && Url(e) == Some(url)
  {
    WebScraping(url, message)
  }

  function NewContentExtraction(url: string, message: string): (e: ScrapperError)
    ensures e.ContentExtraction? && e.url == url && e.message == message
    ensures !IsRecoverable(e) && Url(e) == Some(url)
  {
    ContentExtraction(url, message)
  }

  function NewHttp(url: string, status: Option<U16>, message: string): (e: ScrapperError)
    ensures e.Http? && e.url == url && e.status == status && e.message == message
    ensures IsRecoverable(e) <==> status.None? || status.value in RecoverableStatuses
    ensures Url(e) == Some(url)
  {
    Http(url, status, message)
  }

  function NewTaskExecution(message: string): (e: ScrapperError)
    ensures e.TaskExecution? && e.message == message
    ensures !IsRecoverable(e) && Url(e).None?
  {
    TaskExecution(message)
  }

  function NewProgress(message: string): (e: ScrapperError)
    ensures e.Progress? && e.message == message
    ensures !IsRecoverable(e) && Url(e).None?
  {
    Progress(message)
  }

  function NewValidation(field: string, message: string): (e: ScrapperError)
    ensures e.Validation? && e.field == field && e.message == message
    ensures !IsRecoverable(e) && Url(e).None?
  {
    Validation(field, message)
  }

  function NewIo(message: string, path: Option<Path>): (e: ScrapperError)
    ensures e.Io? && e.message == message && e.path == path
    ensures !IsRecoverable(e) && Url(e).None?
  {
    Io(message, path)
  }

  // ---------------------------------------------------------------------------
  // Conversions from library errors (their text, URL and status are given)

  /** `From<std::io::Error>`: an I/O error without a path. */
  function FromIoError(text: string): (e: ScrapperError)
    ensures e == Io(text, None)
    ensures !IsRecoverable(e) && Url(e).None?
  {
    NewIo(text, None)
  }

  /** `From<reqwest::Error>`: an HTTP error; a missing URL becomes the empty string. */
  function FromReqwestError(url: Option<string>, status: Option<U16>, text: string): (e: ScrapperError)
    ensures e.Http? && e.status == status && e.message == text
    ensures e.url == (if url.Some? then url.value else "")
    ensures IsRecoverable(e) <==> status.None? || status.value in RecoverableStatuses
  {
    NewHttp(if url.Some? then url.value else "", status, text)
  }

  /** `From<csv_async::Error>` */
  function FromCsvError(text: string): (e: ScrapperError)
    ensures e == Csv(text) && !IsRecoverable(e)
  {
    NewCsv(text)
  }

  /** `From<toml::de::Error>` */
  function FromTomlError(text: string): (e: ScrapperError)
    ensures e.Config? && IsPrefix("TOML parsing error: ", e.message) && !IsRecoverable(e)
  {
    NewConfig("TOML parsing error: " + text)
  }

  /** `From<tokio::task::JoinError>`: a panicked or cancelled task. */
  function FromJoinError(text: string): (e: ScrapperError)
    ensures e == TaskExecution(text)
    ensures !IsRecoverable(e) && Url(e).None?
  {
    NewTaskExecution(text)
  }

  // ---------------------------------------------------------------------------
  // Renderings

  /** `{:?}` of a path: the path in double quotes (escaping is not modelled). */
  function DebugPath(p: Path): string
  {
    "\"" + p + "\""
  }

  /** `{:?}` of an `Option<PathBuf>` */
  function DebugOptionPath(p: Option<Path>): string
  {
    if p.Some? then "Some(" + DebugPath(p.value) + ")" else "None"
  }

  /** `{:?}` of an `Option<u16>` */
  function DebugStatus(status: Option<U16>): string
  {
    if status.Some? then "Some(" + NatToString(status.value) + ")" else "None"
  }

  /** The `Display` text that `thiserror` derives from each variant's `#[error]` attribute. */
  function Display(e: ScrapperError): string
  {
    match e
    case Config(m) => "Configuration error: " + m
    case Csv(m) => "CSV processing error: " + m
    case FileSystem(m, _) => "File system error: " + m
    case WebScraping(url, m) => "Web scraping error for URL '" + url + "': " + m
    case ContentExtraction(url, m) => "Content extraction error for URL '" + url + "': " + m
    case Http(url, _, m) => "HTTP request error for URL '" + url + "': " + m
    case TaskExecution(m) => "Task execution error: " + m
    case Progress(m) => "Progress tracking error: " + m
    case Validation(field, m) => "Validation error: " + field + " - " + m
    case Io(m, _) => "IO error: " + m
  }

  /** Which of the six HTTP message texts a status selects, in the order the match tries them. */
  datatype HttpMessageKind = NotFound | AccessDenied | RateLimited | ServerError | OtherStatus | ConnectionError

  function HttpKind(status: Option<U16>): (k: HttpMessageKind)
    ensures k == ConnectionError <==> status.None?
    ensures k == NotFound <==> status == Some(404)
    ensures k == AccessDenied <==> status == Some(403)
    ensures k == RateLimited <==> status == Some(429)
    ensures k == ServerError <==> status.Some? && 500 <= status.value <= 599
  {
    match status
    case None => ConnectionError
    case Some(s) =>
      if s == 404 then NotFound
      else if s == 403 then AccessDenied
      else if s == 429 then RateLimited
      else if 500 <= s <= 599 then ServerError
      else OtherStatus
  }

  /** The fixed opening of each HTTP message text. */
  function HttpLead(k: HttpMessageKind): string
  {
    match k
    case NotFound => "Page not found (404): "
    case AccessDenied => "Access denied (403) for "
    case RateLimited => "Rate limited (429) for "
    case ServerError => "Server error ("
    case OtherStatus => "HTTP error ("
    case ConnectionError => "Connection error for "
  }

  /** The user message of an HTTP error: the match on the status, tried in source order. */
  function HttpMessage(url: string, status: Option<U16>, m: string): string
  {
    match status
    case Some(404) => "Page not found (404): " + url + ". Check if the URL is correct."
    case Some(403) => "Access denied (403) for " + url + ". The site might be blocking scrapers."
    case Some(429) => "Rate limited (429) for " + url + ". Increase delays between requests."
    case Some(s) =>
      if 500 <= s <= 599 then "Server error (" + DebugStatus(status) + ") for " + url + ": " + m + ". Try again later."
      else "HTTP error (" + NatToString(s) + ") for " + url + ": " + m
    case None => "Connection error for " + url + ": " + m + ". Check your internet connection."
  }

  /** A message with a debugging hint, chosen by the variant and, for HTTP, by the status. */
  function UserFriendlyMessage(e: ScrapperError): string
  {
    match e
    case Config(m) =>
      "Configuration issue: " + m + ". Check your config file or command-line arguments."
    case Csv(m) =>
      "CSV file issue: " + m + ". Ensure your CSV has the correct format with 'url,chapter_number' columns."
    case FileSystem(m, path) =>
      if path.Some? then "File system error at " + DebugPath(path.value) + ": " + m + ". Check file permissions and disk space."
      else "File system error: " + m + ". Check file permissions and disk space."
    case WebScraping(url, m) =>
      "Failed to scrape " + url + ": " + m + ". The website might be down or blocking requests."
    case ContentExtraction(url, m) =>
      "Couldn't extract content from " + url + ": " + m + ". The page structure might have changed."
    case Http(url, status, m) => HttpMessage(url, status, m)
    case TaskExecution(m) =>
      "Task execution failed: " + m + ". This might indicate a programming error."
    case Progress(m) =>
      "Progress tracking error: " + m + ". This doesn't affect scraping functionality."
    case Validation(field, m) =>
      "Invalid " + field + ": " + m + ". Please check your configuration."
    case Io(m, path) =>
      if path.Some? then "I/O error at " + DebugPath(path.value) + ": " + m + ". Check file permissions."
      else "I/O error: " + m + ". Check file permissions."
  }

  /** Developer-facing detail; variants without a dedicated format fall back to `Display`. */
  function DebugInfo(e: ScrapperError): string
  {
    match e
    case Http(url, status, m) => "URL: " + url + ", Status: " + DebugStatus(status) + ", Details: " + m
    case FileSystem(m, path) => "Path: " + DebugOptionPath(path) + ", Details: " + m
    case Io(m, path) => "Path: " + DebugOptionPath(path) + ", Details: " + m
    case WebScraping(url, m) => "URL: " + url + ", Details: " + m
    case ContentExtraction(url, m) => "URL: " + url + ", Details: " + m
    case Validation(field, m) => "Field: " + field + ", Details: " + m
    case _ => Display(e)
  }

  // ---------------------------------------------------------------------------
  // Properties

  /** The two cases the source's own tests check: 429 is transient, 404 is not. */
  lemma RecoverableExamples(url: string, message: string)
    ensures IsRecoverable(NewHttp(url, Some(429), message))
    ensures !IsRecoverable(NewHttp(url, Some(404), message))
    ensures IsRecoverable(NewHttp(url, Some(502), message)) && IsRecoverable(NewHttp(url, Some(503), message))
    ensures IsRecoverable(NewHttp(url, None, message))
    ensures !IsRecoverable(NewHttp(url, Some(403), message)) && !IsRecoverable(NewHttp(url, Some(500), message))
  {
  }

  /** `lead + url + tail`, built left to right, opens with `lead` and contains `url`. */
  lemma Framed(lead: string, url: string, tail: string)
    ensures IsPrefix(lead, lead + url + tail)
    ensures Contains(lead + url + tail, url)
  {
    PrefixOfConcat(lead, url);
    PrefixGrows(lead, lead + url, tail);
    ContainsEnd(lead, url);
    ContainsGrows(lead + url, url, tail);
  }

  lemma NotFoundText(url: string, m: string)
    ensures IsPrefix("Page not found (404): ", HttpMessage(url, Some(404), m))
    ensures Contains(HttpMessage(url, Some(404), m), url)
  {
    Framed("Page not found (404): ", url, ". Check if the URL is correct.");
  }

  lemma AccessDeniedText(url: string, m: string)
    ensures IsPrefix("Access denied (403) for ", HttpMessage(url, Some(403), m))
    ensures Contains(HttpMessage(url, Some(403), m), url)
  {
    Framed("Access denied (403) for ", url, ". The site might be blocking scrapers.");
  }

  lemma RateLimitedText(url: string, m: string)
    ensures IsPrefix("Rate limited (429) for ", HttpMessage(url, Some(429), m))
    ensures Contains(HttpMessage(url, Some(429), m), url)
  {
    Framed("Rate limited (429) for ", url, ". Increase delays between requests.");
  }

  lemma ConnectionErrorText(url: string, m: string)
    ensures IsPrefix("Connection error for ", HttpMessage(url, None, m))
    ensures Contains(HttpMessage(url, None, m), url)
  {
    var lead := "Connection error for ";
    Framed(lead, url, ": ");
    PrefixGrows(lead, lead + url + ": ", m);
    ContainsGrows(lead + url + ": ", url, m);
    PrefixGrows(lead, lead + url + ": " + m, ". Check your internet connection.");
    ContainsGrows(lead + url + ": " + m, url, ". Check your internet connection.");
  }

  lemma ServerErrorText(url: string, m: string, s: U16)
    requires 500 <= s <= 599
    ensures IsPrefix("Server error (", HttpMessage(url, Some(s), m))
    ensures Contains(HttpMessage(url, Some(s), m), url)
  {
    var lead := "Server error (" + DebugStatus(Some(s)) + ") for ";
    PrefixOfConcat("Server error (", DebugStatus(Some(s)));
    PrefixGrows("Server error (", "Server error (" + DebugStatus(Some(s)), ") for ");
    Framed(lead, url, ": ");
    PrefixGrows("Server error (", lead, url);
    PrefixGrows("Server error (", lead + url, ": ");
    PrefixGrows("Server error (", lead + url + ": ", m);
    ContainsGrows(lead + url + ": ", url, m);
    PrefixGrows("Server error (", lead + url + ": " + m, ". Try again later.");
    ContainsGrows(lead + url + ": " + m, url, ". Try again later.");
  }

  lemma OtherStatusText(url: string, m: string, s: U16)
    requires !(500 <= s <= 599) && s != 404 && s != 403 && s != 429
    ensures IsPrefix("HTTP error (", HttpMessage(url, Some(s), m))
    ensures Contains(HttpMessage(url, Some(s), m), url)
  {
    var lead := "HTTP error (" + NatToString(s) + ") for ";
    PrefixOfConcat("HTTP error (", NatToString(s));
    PrefixGrows("HTTP error (", "HTTP error (" + NatToString(s), ") for ");
    Framed(lead, url, ": ");
    PrefixGrows("HTTP error (", lead, url);
    PrefixGrows("HTTP error (", lead + url, ": ");
    PrefixGrows("HTTP error (", lead + url + ": ", m);
    ContainsGrows(lead + url + ": ", url, m);
  }

  /** Each HTTP message opens with the fixed text of the branch its status selects, and names the URL. */
  lemma HttpMessageText(url: string, status: Option<U16>, m: string)
    ensures IsPrefix(HttpLead(HttpKind(status)), HttpMessage(url, status, m))
    ensures Contains(HttpMessage(url, status, m), url)
  {
    match HttpKind(status)
    case NotFound => NotFoundText(url, m);
    case AccessDenied => AccessDeniedText(url, m);
    case RateLimited => RateLimitedText(url, m);
    case ConnectionError => ConnectionErrorText(url, m);
    case ServerError => ServerErrorText(url, m, status.value);
    case OtherStatus => OtherStatusText(url, m, status.value);
  }

  lemma UserMessageOfHttp(e: ScrapperError)
    requires e.Http?
    ensures UserFriendlyMessage(e) == HttpMessage(e.url, e.status, e.message)
  {
  }

  /** The transient 502 and 503 are reported with the server-error text. */
  lemma RecoverableGatewayStatusesAreServerErrors(url: string, message: string, status: U16)
    requires status == 502 || status == 503
    ensures IsRecoverable(NewHttp(url, Some(status), message))
    ensures IsPrefix("Server error (", UserFriendlyMessage(NewHttp(url, Some(status), message)))
  {
    UserMessageOfHttp(NewHttp(url, Some(status), message));
    ServerErrorText(url, message, status);
  }

  /** The first letters of the six leads differ. */
  lemma LeadInitial(k: HttpMessageKind)
    ensures |HttpLead(k)| > 0
    ensures HttpLead(k)[0] == match k
      case NotFound => 'P' case AccessDenied => 'A' case RateLimited => 'R'
      case ServerError => 'S' case OtherStatus => 'H' case ConnectionError => 'C'
  {
  }

  /** Two HTTP errors with the same user message were classified into the same message kind. */
  lemma HttpMessageDeterminesKind(e1: ScrapperError, e2: ScrapperError)
    requires e1.Http? && e2.Http?
    requires UserFriendlyMessage(e1) == UserFriendlyMessage(e2)
    ensures HttpKind(e1.status) == HttpKind(e2.status)
  {
    var k1, k2 := HttpKind(e1.status), HttpKind(e2.status);
    UserMessageOfHttp(e1);
    UserMessageOfHttp(e2);
    HttpMessageText(e1.url, e1.status, e1.message);
    HttpMessageText(e2.url, e2.status, e2.message);
    LeadInitial(k1);
    LeadInitial(k2);
    var msg := UserFriendlyMessage(e1);
    assert msg[0] == HttpLead(k1)[0] && msg[0] == HttpLead(k2)[0];
  }

  const NotFoundHint := "Check if the URL is correct"

  /** The fixed end of the 404 message holds the hint. */
  lemma NotFoundTailHoldsHint()
    ensures Contains(". Check if the URL is correct.", NotFoundHint)
  {
    assert ". Check if the URL is correct." == ". " + NotFoundHint + ".";
    ContainsMiddle(". ", NotFoundHint, ".");
  }

  /** The source's own message test: a 404 tells the user the page was missing and to check the URL. */
  lemma NotFoundMessage(url: string, message: string)
    ensures IsPrefix("Page not found", UserFriendlyMessage(NewHttp(url, Some(404), message)))
    ensures Contains(UserFriendlyMessage(NewHttp(url, Some(404), message)), NotFoundHint)
  {
    UserMessageOfHttp(NewHttp(url, Some(404), message));
    var lead := "Page not found (404): ";
    assert IsPrefix("Page not found", lead);
    PrefixGrows("Page not found", lead, url);
    PrefixGrows("Page not found", lead + url, ". Check if the URL is correct.");
    NotFoundTailHoldsHint();
    ContainsBehind(lead + url, ". Check if the URL is correct.", NotFoundHint);
  }

  /** Every user message about a failure that carries a URL names that URL. */
  lemma UserMessageNamesUrl(e: ScrapperError)
    requires Url(e).Some?
    ensures Contains(UserFriendlyMessage(e), Url(e).value)
  {
    match e
    case WebScraping(url, m) =>
      Framed("Failed to scrape ", url, ": ");
      ContainsGrows("Failed to scrape " + url + ": ", url, m);
      ContainsGrows("Failed to scrape " + url + ": " + m, url, ". The website might be down or blocking requests.");
    case ContentExtraction(url, m) =>
      Framed("Couldn't extract content from ", url, ": ");
      ContainsGrows("Couldn't extract content from " + url + ": ", url, m);
      ContainsGrows("Couldn't extract content from " + url + ": " + m, url, ". The page structure might have changed.");
    case Http(url, status, m) =>
      UserMessageOfHttp(e);
      HttpMessageText(url, status, m);
  }

  /** The developer detail of every variant includes the error's own message. */
  lemma DebugInfoNamesMessage(e: ScrapperError)
    ensures Contains(DebugInfo(e), e.message)
  {
    var lead := match e
      case Http(url, status, _) => "URL: " + url + ", Status: " + DebugStatus(status) + ", Details: "
      case FileSystem(_, path) => "Path: " + DebugOptionPath(path) + ", Details: "
      case Io(_, path) => "Path: " + DebugOptionPath(path) + ", Details: "
      case WebScraping(url, _) => "URL: " + url + ", Details: "
      case ContentExtraction(url, _) => "URL: " + url + ", Details: "
      case Validation(field, _) => "Field: " + field + ", Details: "
      case Config(_) => "Configuration error: "
      case Csv(_) => "CSV processing error: "
      case TaskExecution(_) => "Task execution error: "
      case Progress(_) => "Progress tracking error: ";
    assert DebugInfo(e) == lead + e.message;
    ContainsEnd(lead, e.message);
  }
}
