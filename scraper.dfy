/**
 * The decisions of src/scraper.py: which provider a URL belongs to, which title a page
 * gets, which element texts make up its content, and the shape of the scraped document.
 *
 * Fetching and HTML parsing are outside the model: a fetch arrives as a parameter,
 * either the parser's findings on the page or the text of the exception raised.
 * The URL is taken apart as Python's `urllib.parse.urlparse` does, as far as the
 * network location and the path are concerned.
 */
module Scraper {
  import opened Wrappers
  import opened Text
  import opened Records

  // ---------------------------------------------------------------------------
  // Inputs from the parser

  /**
   * What the parser found on a fetched page, after scripts, styles and navigation were
   * removed: the text of the first `<title>` and of the first `<h1>`, if any, and the
   * texts of the content elements inside the main element or the body, if there is one.
   */
  datatype ParsedPage = ParsedPage(title: Option<string>, h1: Option<string>, mainTexts: Option<seq<string>>)

  /** The outcome of fetching and parsing a URL. */
  datatype Fetch = Fetched(page: ParsedPage) | FetchFailed(message: string)

  // ---------------------------------------------------------------------------
  // Characters and substrings

  predicate IsAsciiAlpha(c: char) {
    'a' <= c <= 'z' || 'A' <= c <= 'Z'
  }

  predicate IsAsciiUpper(c: char) {
    'A' <= c <= 'Z'
  }

  /** A character allowed in a URL scheme: a letter, a digit, `+`, `-` or `.`. */
  predicate IsSchemeChar(c: char) {
    IsAsciiAlpha(c) || '0' <= c <= '9' || c == '+' || c == '-' || c == '.'
  }

  predicate AllSchemeChars(s: string) {
    forall i :: 0 <= i < |s| ==> IsSchemeChar(s[i])
  }

  /** Python's `sub in s`. */
  predicate Contains(s: string, sub: string) {
    exists i :: 0 <= i <= |s| && sub <= s[i..]
  }

  /** `s.lower()` on ASCII letters; every other character is kept. */
  function Lower(s: string): (r: string)
    ensures |r| == |s|
    ensures forall i :: 0 <= i < |r| ==> !IsAsciiUpper(r[i])
    ensures forall i :: 0 <= i < |s| && !IsAsciiUpper(s[i]) ==> r[i] == s[i]
    ensures forall i :: 0 <= i < |s| && IsAsciiUpper(s[i]) ==>
      'a' <= r[i] <= 'z' && r[i] as int - 'a' as int == s[i] as int - 'A' as int
  {
    seq(|s|, i requires 0 <= i < |s| => if IsAsciiUpper(s[i]) then (s[i] as int + 32) as char else s[i])
  }

  /** Python's `s.find(c, lo)`: the first `c` at or after `lo`, or -1. */
  function Find(s: string, c: char, lo: nat): (r: int)
    requires lo <= |s|
    ensures r == -1 || (lo <= r < |s| && s[r] == c)
    ensures forall i :: lo <= i < (if r == -1 then |s| else r) ==> s[i] != c
    decreases |s| - lo
  {
    if lo == |s| then -1
    else if s[lo] == c then lo
    else Find(s, c, lo + 1)
  }

  /** `s.split(c, 1)` when `c` occurs in `s`, else `s` and the empty string. */
  function SplitOnce(s: string, c: char): (string, string) {
    var i := Find(s, c, 0);
    if i == -1 then (s, "") else (s[..i], s[i + 1..])
  }

  // ---------------------------------------------------------------------------
  // urlparse

  /** The six components `urlparse` returns. */
  datatype Url = Url(scheme: string, netloc: string, path: string, params: string, query: string, fragment: string)

  /** The C0 control characters and the space, stripped from the front of a URL. */
  predicate IsControlOrSpace(c: char) {
    c <= ' '
  }

  function StripLeadingControl(s: string): (r: string)
    ensures r <= s || (|r| <= |s| && r == s[|s| - |r|..])
    ensures r == [] || !IsControlOrSpace(r[0])
    decreases |s|
  {
    if s != [] && IsControlOrSpace(s[0]) then StripLeadingControl(s[1..]) else s
  }

  /** Tab, carriage return and line feed are deleted from a URL wherever they occur. */
  function RemoveUnsafe(s: string): (r: string)
    ensures forall c :: c in r ==> c in s && c != '\t' && c != '\r' && c != '\n'
    decreases |s|
  {
    if s == [] then []
    else (if s[0] in "\t\r\n" then [] else [s[0]]) + RemoveUnsafe(s[1..])
  }

  /** The scheme, lower-cased, and the rest, when the text before the first ':' is a scheme. */
  function SplitScheme(url: string): (string, string) {
    var i := Find(url, ':', 0);
    if i > 0 && IsAsciiAlpha(url[0]) && AllSchemeChars(url[..i]) then (Lower(url[..i]), url[i + 1..])
    else ("", url)
  }

  /** The first position at or after `i` holding `/`, `?` or `#`, else the length: where a netloc ends. */
  function NetlocEnd(s: string, i: nat): (e: nat)
    requires i <= |s|
    ensures i <= e <= |s|
    ensures forall k :: i <= k < e ==> s[k] !in "/?#"
    ensures e < |s| ==> s[e] in "/?#"
    decreases |s| - i
  {
    if i == |s| || s[i] in "/?#" then i else NetlocEnd(s, i + 1)
  }

  /** The schemes whose last path segment may carry `;params`. */
  const UsesParams: seq<string> :=
    ["", "ftp", "hdl", "prospero", "http", "imap", "https", "shttp", "rtsp", "rtspu",
     "sip", "sips", "mms", "sftp", "tel"]

  /** `_splitparams`: cuts the path at the first ';' of its last segment. */
  function SplitParams(path: string): (string, string) {
    var slash := RFind(path, '/', 0, |path|);
    var i := if slash >= 0 then Find(path, ';', slash) else Find(path, ';', 0);
    if i < 0 then (path, "") else (path[..i], path[i + 1..])
  }

  /** The network location after a leading "//", up to the first '/', '?' or '#', and the rest. */
  function SplitNetloc(rest: string): (string, string) {
    if |rest| >= 2 && rest[..2] == "//" then
      var e := NetlocEnd(rest, 2);
      (rest[2..e], rest[e..])
    else ("", rest)
  }

  /** `urlsplit(url)`: scheme, network location, path, query and fragment. */
  function UrlSplit(url: string): Url {
    var (scheme, rest) := SplitScheme(RemoveUnsafe(StripLeadingControl(url)));
    var (netloc, rest) := SplitNetloc(rest);
    var (rest, fragment) := SplitOnce(rest, '#');
    var (path, query) := SplitOnce(rest, '?');
    Url(scheme, netloc, path, "", query, fragment)
  }

  /** `urlparse(url)`: `urlsplit` with `;params` cut off the path for the schemes that use them. */
  function UrlParse(url: string): Url {
    var u := UrlSplit(url);
    if u.scheme in UsesParams && ';' in u.path then
      var (path, params) := SplitParams(u.path);
      u.(path := path, params := params)
    else u
  }

  // ---------------------------------------------------------------------------
  // The scraper's decisions

  /** `_get_source`: the provider label for a URL's lower-cased network location (lines 56-61). */
  function GetSource(url: string): string {
    SourceLabel(Lower(UrlParse(url).netloc))
  }

  /** The label for a lower-cased domain, by substring priority (lines 58-61). */
  function SourceLabel(domain: string): string {
    if Contains(domain, "anthropic") then "Claude API"
    else if Contains(domain, "google") || Contains(domain, "ai.google.dev") then "Gemini API"
    else if Contains(domain, "github") then "GitHub API"
    else domain
  }

  /** `path.split('/')[-1]`: what follows the last '/'. */
  function LastSegment(path: string): (seg: string)
    ensures '/' !in seg
    ensures |seg| <= |path|
    ensures path == path[..|path| - |seg|] + seg
    ensures |seg| < |path| ==> path[|path| - |seg| - 1] == '/'
  {
    var i := RFind(path, '/', 0, |path|);
    RFindIsLast(path, '/', 0, |path|);
    assert path == path[..i + 1] + path[i + 1..];
    path[i + 1..]
  }

  /** `_get_title`: the `<title>` text, else the `<h1>` text, else the URL's last path segment (lines 38-43). */
  function GetTitle(page: ParsedPage, url: string): string {
    match page.title
    case Some(t) => CleanText(t)
    case None =>
      match page.h1
      case Some(h) => CleanText(h)
      case None => PathTitle(UrlParse(url).path)
  }

  /** The title a URL path gives: its last segment, or "API Documentation" when that is empty (line 43). */
  function PathTitle(path: string): (title: string)
    ensures title != "" && '/' !in title
    ensures LastSegment(path) != "" ==> title == LastSegment(path)
    ensures LastSegment(path) == "" ==> title == "API Documentation"
  {
    var seg := LastSegment(path);
    if seg == "" then "API Documentation" else seg
  }

  /** The stripped element texts longer than ten characters, in order (line 52). */
  function Kept(texts: seq<string>): seq<string>
    decreases |texts|
  {
    if texts == [] then [] else KeepOne(texts[0]) + Kept(texts[1..])
  }

  /** One element text's contribution: its stripped form when that is longer than ten characters. */
  function KeepOne(t: string): seq<string> {
    var s := Strip(t);
    if |s| > 10 then [s] else []
  }

  /** `_get_content`: the kept texts separated by blank lines, "" without a main element or body (lines 45-54). */
  function GetContent(mainTexts: Option<seq<string>>): string {
    match mainTexts
    case None => ""
    case Some(texts) => Join("\n\n", Kept(texts))
  }

  /** `scrape_url`: the document for a fetch, the error document when it failed (lines 16-36). */
  function ScrapeUrl(url: string, fetch: Fetch): (doc: Document)
    ensures doc.url == Some(url)
    ensures doc.IsScraped() <==> fetch.Fetched?
    ensures doc.IsFailure() <==> fetch.FetchFailed?
    ensures fetch.FetchFailed? ==> doc.error == Some(fetch.message)
  {
    match fetch
    case FetchFailed(message) => Document(Some(url), None, None, None, Some(message))
    case Fetched(page) =>
      Document(Some(url), Some(GetTitle(page, url)), Some(CleanText(GetContent(page.mainTexts))), Some(GetSource(url)), None)
  }

  // ---------------------------------------------------------------------------
  // Lemmas: URLs

  /** `scheme://host/path` parses back into that host and that path. */
  lemma ParseSimpleUrl(scheme: string, host: string, path: string)
    requires scheme != [] && IsAsciiAlpha(scheme[0]) && AllSchemeChars(scheme)
    requires forall c :: c in host ==> c !in "/?#\t\r\n"
    requires path == [] || path[0] == '/'
    requires forall c :: c in path ==> c !in "?#;\t\r\n"
    ensures UrlParse(scheme + "://" + host + path).netloc == host
    ensures UrlParse(scheme + "://" + host + path).path == path
  {
    SplitSimpleUrl(scheme, host, path);
  }

  /**
   * A URL with a query and a fragment, `scheme://host/path?query#fragment`, parses into
   * that host, path, query and fragment, with no `;params`.
   */
  lemma ParseFullUrl(scheme: string, host: string, path: string, query: string, fragment: string)
    requires scheme != [] && IsAsciiAlpha(scheme[0]) && AllSchemeChars(scheme)
    requires forall c :: c in host ==> c !in "/?#\t\r\n"
    requires path == [] || path[0] == '/'
    requires forall c :: c in path ==> c !in "?#;\t\r\n"
    requires forall c :: c in query ==> c !in "#\t\r\n"
    requires forall c :: c in fragment ==> c !in "\t\r\n"
    ensures var u := UrlParse(scheme + "://" + host + path + "?" + query + "#" + fragment);
      u.netloc == host && u.path == path && u.params == "" && u.query == query && u.fragment == fragment
  {
    var tail := path + "?" + query + "#" + fragment;
    assert scheme + "://" + host + path + "?" + query + "#" + fragment == scheme + "://" + host + tail;
    TailSafe(path, query, fragment);
    SplitWithTail(scheme, host, tail);
    TailSplit(path, query, fragment);
  }

  /** After `scheme://host`, the rest of a URL is split at its first '#', then at its first '?'. */
  lemma SplitWithTail(scheme: string, host: string, tail: string)
    requires scheme != [] && IsAsciiAlpha(scheme[0]) && AllSchemeChars(scheme)
    requires forall c :: c in host ==> c !in "/?#\t\r\n"
    requires forall c :: c in tail ==> c !in "\t\r\n"
    requires tail == [] || tail[0] in "/?#"
    ensures var (rest, fragment) := SplitOnce(tail, '#');
      var (path, query) := SplitOnce(rest, '?');
      UrlSplit(scheme + "://" + host + tail) == Url(Lower(scheme), host, path, "", query, fragment)
  {
    var url := scheme + "://" + host + tail;
    SimpleUrlSafe(scheme, host, tail);
    PreparedUnchanged(url);
    assert url == scheme + ":" + ("//" + host + tail);
    SchemeSplit(scheme, "//" + host + tail);
    NetlocSplit(host, tail);
  }

  lemma TailSafe(path: string, query: string, fragment: string)
    requires forall c :: c in path ==> c !in "\t\r\n"
    requires forall c :: c in query ==> c !in "\t\r\n"
    requires forall c :: c in fragment ==> c !in "\t\r\n"
    ensures forall c :: c in path + "?" + query + "#" + fragment ==> c !in "\t\r\n"
  {
  }

  /** The part after the network location splits into path, query and fragment. */
  lemma TailSplit(path: string, query: string, fragment: string)
    requires forall c :: c in path ==> c !in "?#"
    requires forall c :: c in query ==> c != '#'
    ensures var (rest, f) := SplitOnce(path + "?" + query + "#" + fragment, '#');
      f == fragment && SplitOnce(rest, '?') == (path, query)
  {
    var front := path + "?" + query;
    assert '#' !in front;
    assert path + "?" + query + "#" + fragment == front + ['#'] + fragment;
    SplitOnceAt(front, '#', fragment);
    assert '?' !in path;
    assert front == path + ['?'] + query;
    SplitOnceAt(path, '?', query);
  }

  lemma SplitSimpleUrl(scheme: string, host: string, path: string)
    requires scheme != [] && IsAsciiAlpha(scheme[0]) && AllSchemeChars(scheme)
    requires forall c :: c in host ==> c !in "/?#\t\r\n"
    requires path == [] || path[0] == '/'
    requires forall c :: c in path ==> c !in "?#\t\r\n"
    ensures UrlSplit(scheme + "://" + host + path).netloc == host
    ensures UrlSplit(scheme + "://" + host + path).path == path
  {
    var url := scheme + "://" + host + path;
    var rest := "//" + host + path;
    SimpleUrlSafe(scheme, host, path);
    PreparedUnchanged(url);
    assert url == scheme + ":" + rest;
    SchemeSplit(scheme, rest);
    NetlocSplit(host, path);
    SplitOnceAbsent(path, '#');
    SplitOnceAbsent(path, '?');
  }

  lemma SimpleUrlSafe(scheme: string, host: string, path: string)
    requires scheme != [] && IsAsciiAlpha(scheme[0]) && AllSchemeChars(scheme)
    requires forall c :: c in host ==> c !in "\t\r\n"
    requires forall c :: c in path ==> c !in "\t\r\n"
    ensures var url := scheme + "://" + host + path;
      url != [] && IsAsciiAlpha(url[0]) && forall c :: c in url ==> c !in "\t\r\n"
  {
    var url := scheme + "://" + host + path;
    assert url[0] == scheme[0];
    forall c | c in url
      ensures c !in "\t\r\n"
    {
      var i :| 0 <= i < |url| && url[i] == c;
      if i < |scheme| {
        assert IsSchemeChar(scheme[i]);
      } else if i < |scheme| + 3 {
      } else if i < |scheme| + 3 + |host| {
        assert host[i - |scheme| - 3] in host;
      } else {
        assert path[i - |scheme| - 3 - |host|] in path;
      }
    }
  }

  lemma PreparedUnchanged(url: string)
    requires url != [] && IsAsciiAlpha(url[0])
    requires forall c :: c in url ==> c !in "\t\r\n"
    ensures RemoveUnsafe(StripLeadingControl(url)) == url
  {
    assert StripLeadingControl(url) == url;
    NoUnsafeKept(url);
  }

  lemma SchemeSplit(scheme: string, rest: string)
    requires scheme != [] && IsAsciiAlpha(scheme[0]) && AllSchemeChars(scheme)
    ensures SplitScheme(scheme + ":" + rest) == (Lower(scheme), rest)
  {
    var url := scheme + ":" + rest;
    forall k | 0 <= k < |scheme|
      ensures url[k] != ':'
    {
      assert url[k] == scheme[k];
    }
    assert url[|scheme|] == ':';
    assert Find(url, ':', 0) == |scheme|;
    assert url[..|scheme|] == scheme;
    assert url[|scheme| + 1..] == rest;
  }

  lemma NetlocSplit(host: string, path: string)
    requires forall c :: c in host ==> c !in "/?#"
    requires path == [] || path[0] in "/?#"
    ensures SplitNetloc("//" + host + path) == (host, path)
  {
    var rest := "//" + host + path;
    forall k | 2 <= k < 2 + |host|
      ensures rest[k] !in "/?#"
    {
      assert rest[k] == host[k - 2];
      assert host[k - 2] in host;
    }
    NetlocEndAt(rest, 2, 2 + |host|);
    assert rest[2..2 + |host|] == host;
    assert rest[2 + |host|..] == path;
  }

  /** `s.partition(c)` at the first `c`: what precedes it and what follows it. */
  lemma SplitOnceAt(a: string, c: char, b: string)
    requires c !in a
    ensures SplitOnce(a + [c] + b, c) == (a, b)
  {
    var s := a + [c] + b;
    assert s[|a|] == c;
    forall k | 0 <= k < |a|
      ensures s[k] != c
    {
      assert s[k] == a[k];
      assert a[k] in a;
    }
    assert Find(s, c, 0) == |a|;
    assert s[..|a|] == a && s[|a| + 1..] == b;
  }

  lemma SplitOnceAbsent(s: string, c: char)
    requires c !in s
    ensures SplitOnce(s, c) == (s, "")
  {
  }

  lemma {:induction false} NetlocEndAt(s: string, i: nat, j: nat)
    requires i <= j <= |s|
    requires forall k :: i <= k < j ==> s[k] !in "/?#"
    requires j == |s| || s[j] in "/?#"
    ensures NetlocEnd(s, i) == j
    decreases j - i
  {
    if i < j {
      NetlocEndAt(s, i + 1, j);
    }
  }

  lemma {:induction false} NoUnsafeKept(s: string)
    requires forall c :: c in s ==> c !in "\t\r\n"
    ensures RemoveUnsafe(s) == s
    decreases |s|
  {
    if s != [] {
      NoUnsafeKept(s[1..]);
      assert s[0] in s;
      assert s == [s[0]] + s[1..];
    }
  }

  /** A piece of a prefix of `s` is a prefix of the matching suffix of `s`. */
  lemma InnerPrefix(s: string, p: string, a: nat, b: nat)
    requires p <= s && a <= b <= |p|
    ensures p[a..b] <= s[a..]
  {
    assert forall j :: a <= j < b ==> p[j] == s[j];
  }

  /** The `'ai.google.dev'` clause adds nothing: such a domain already contains `'google'`. */
  lemma GoogleClauseSubsumed(domain: string)
    ensures Contains(domain, "ai.google.dev") ==> Contains(domain, "google")
  {
    if Contains(domain, "ai.google.dev") {
      var i :| 0 <= i <= |domain| && "ai.google.dev" <= domain[i..];
      var long := "ai.google.dev";
      assert long[3..9] == "google";
      InnerPrefix(domain[i..], long, 3, 9);
      assert domain[i..][3..] == domain[i + 3..];
    }
  }

  /**
   * The provider label follows the substring checks in priority order, and any other
   * domain is its own, lower-cased, label.
   */
  lemma SourcePriority(url: string)
    ensures var domain := Lower(UrlParse(url).netloc);
      && (GetSource(url) == "Claude API" <==> Contains(domain, "anthropic"))
      && (GetSource(url) == "Gemini API" <==> !Contains(domain, "anthropic") && Contains(domain, "google"))
      && (GetSource(url) == "GitHub API" <==>
            (!Contains(domain, "anthropic") && !Contains(domain, "google") && Contains(domain, "github")))
      && ((!Contains(domain, "anthropic") && !Contains(domain, "google") && !Contains(domain, "github")) ==>
            GetSource(url) == domain)
  {
    var domain := Lower(UrlParse(url).netloc);
    GoogleClauseSubsumed(domain);
    if domain != [] {
      assert !IsAsciiUpper(domain[0]);
    }
    assert IsAsciiUpper("Claude API"[0]) && IsAsciiUpper("Gemini API"[0]) && IsAsciiUpper("GitHub API"[0]);
  }

  /** The label of `scheme://host/path` is decided by the lower-cased host alone. */
  lemma SimpleUrlSource(scheme: string, host: string, path: string)
    requires scheme != [] && IsAsciiAlpha(scheme[0]) && AllSchemeChars(scheme)
    requires forall c :: c in host ==> c !in "/?#\t\r\n"
    requires path == [] || path[0] == '/'
    requires forall c :: c in path ==> c !in "?#;\t\r\n"
    ensures GetSource(scheme + "://" + host + path) == SourceLabel(Lower(host))
  {
    ParseSimpleUrl(scheme, host, path);
  }

  /** Host names are compared case-insensitively: an upper-case Anthropic host is still 'Claude API'. */
  lemma UpperCaseHostSource()
    ensures SourceLabel(Lower("DOCS.ANTHROPIC.COM")) == "Claude API"
  {
    var domain := Lower("DOCS.ANTHROPIC.COM");
    assert domain[5..14] == "anthropic";
    assert "anthropic" <= domain[5..];
  }

  /** Anthropic's documentation host is labelled as the Claude API. */
  lemma AnthropicDocsSource()
    ensures SourceLabel(Lower("docs.anthropic.com")) == "Claude API"
  {
    var domain := Lower("docs.anthropic.com");
    assert domain == "docs.anthropic.com";
    assert "anthropic" <= domain[5..];
  }

  // ---------------------------------------------------------------------------
  // Lemmas: title and content

  /**
   * The title is looked for in order: the cleaned `<title>` text, else the cleaned
   * `<h1>` text, else the title the URL's path gives.
   */
  lemma TitleChain(page: ParsedPage, url: string)
    ensures page.title.Some? ==> GetTitle(page, url) == CleanText(page.title.value)
    ensures page.title.None? && page.h1.Some? ==> GetTitle(page, url) == CleanText(page.h1.value)
    ensures page.title.None? && page.h1.None? ==> GetTitle(page, url) == PathTitle(UrlParse(url).path)
  {
  }

  /** The content is "" without a main element or body, and otherwise exactly when no text is kept. */
  lemma GetContentEmpty(mainTexts: Option<seq<string>>)
    ensures mainTexts.None? ==> GetContent(mainTexts) == ""
    ensures mainTexts.Some? ==> (GetContent(mainTexts) == "" <==> Kept(mainTexts.value) == [])
  {
    if mainTexts.Some? && Kept(mainTexts.value) != [] {
      var kept := Kept(mainTexts.value);
      KeptSound(mainTexts.value);
      assert kept[0] in kept;
      JoinStartsWithFirst("\n\n", kept);
    }
  }

  /** The kept element texts are laid out in order: text k sits at its offset, and the last one ends the content. */
  lemma GetContentLayout(texts: seq<string>, k: nat)
    requires k < |Kept(texts)|
    ensures var content, kept := GetContent(Some(texts)), Kept(texts);
      var off := JoinOffset("\n\n", kept, k);
      && off + |kept[k]| <= |content| && content[off..off + |kept[k]|] == kept[k]
      && (k + 1 == |kept| ==> off + |kept[k]| == |content|)
  {
    JoinPlacesParts("\n\n", Kept(texts), k);
  }

  /** A blank line separates each kept element text from the next one. */
  lemma GetContentBlankLines(texts: seq<string>, k: nat)
    requires k + 1 < |Kept(texts)|
    ensures var content, kept := GetContent(Some(texts)), Kept(texts);
      var end := JoinOffset("\n\n", kept, k) + |kept[k]|;
      end + 2 <= |content| && content[end] == '\n' && content[end + 1] == '\n'
  {
    var kept, sep := Kept(texts), "\n\n";
    JoinPlacesParts(sep, kept, k);
    var s, end := Join(sep, kept), JoinOffset(sep, kept, k) + |kept[k]|;
    assert s[end..end + 2] == sep;
    assert s[end] == s[end..end + 2][0] && s[end + 1] == s[end..end + 2][1];
  }

  /**
   * A title taken from a `<title>` or `<h1>` is in `clean_text`'s normal form.
   */
  lemma TitleFromTags(page: ParsedPage, url: string)
    requires page.title.Some? || page.h1.Some?
    ensures IsNormalized(GetTitle(page, url))
  {
    if page.title.Some? {
      CleanTextNormalForm(page.title.value);
    } else {
      CleanTextNormalForm(page.h1.value);
    }
  }

  /** Every kept text is stripped and longer than ten characters. */
  lemma {:induction false} KeptSound(texts: seq<string>)
    ensures forall s :: s in Kept(texts) ==> |s| > 10 && IsStripped(s)
    ensures forall s :: s in Kept(texts) ==> exists i :: 0 <= i < |texts| && s == Strip(texts[i])
    decreases |texts|
  {
    if texts != [] {
      KeptSound(texts[1..]);
      forall s | s in Kept(texts)
        ensures exists i :: 0 <= i < |texts| && s == Strip(texts[i])
      {
        if s !in Kept(texts[1..]) {
          assert s == Strip(texts[0]);
        } else {
          var j :| 0 <= j < |texts[1..]| && s == Strip(texts[1..][j]);
          assert s == Strip(texts[j + 1]);
        }
      }
    }
  }

  /** A single element text is kept, stripped, exactly when its stripped form is longer than ten characters. */
  lemma KeptSingle(t: string)
    ensures Kept([t]) == (if |Strip(t)| > 10 then [Strip(t)] else [])
  {
    assert [t][1..] == [];
  }

  /** Every element text whose stripped form is longer than ten characters is kept. */
  lemma {:induction false} KeptComplete(texts: seq<string>)
    ensures forall i :: 0 <= i < |texts| && |Strip(texts[i])| > 10 ==> Strip(texts[i]) in Kept(texts)
    decreases |texts|
  {
    if texts != [] {
      KeptComplete(texts[1..]);
      forall i | 1 <= i < |texts| && |Strip(texts[i])| > 10
        ensures Strip(texts[i]) in Kept(texts)
      {
        assert texts[i] == texts[1..][i - 1];
      }
    }
  }

  lemma KeptCons(a: seq<string>, b: seq<string>)
    requires a != []
    ensures Kept(a + b) == KeepOne(a[0]) + Kept(a[1..] + b)
  {
    assert (a + b)[0] == a[0] && (a + b)[1..] == a[1..] + b;
  }

  /** Filtering keeps document order: the texts of two element lists are kept list by list. */
  lemma {:induction false} KeptAppend(a: seq<string>, b: seq<string>)
    ensures Kept(a + b) == Kept(a) + Kept(b)
    decreases |a|
  {
    if a != [] {
      KeptAppend(a[1..], b);
      KeptCons(a, b);
      SeqAssoc(KeepOne(a[0]), Kept(a[1..]), Kept(b));
    } else {
      assert a + b == b;
    }
  }

  /**
   * A scraped document's content is in `clean_text`'s normal form: the blank lines that
   * separated the element texts are gone, and no two spaces are adjacent.
   */
  lemma ScrapedContentNormalized(url: string, page: ParsedPage)
    ensures var doc := ScrapeUrl(url, Fetched(page));
      && IsNormalized(doc.content.value)
      && '\n' !in doc.content.value
  {
    var content := CleanText(GetContent(page.mainTexts));
    CleanTextNormalForm(GetContent(page.mainTexts));
  }
}
