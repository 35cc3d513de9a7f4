/** The part of Python's `urllib.parse.urlparse` the spider reads: the scheme,
    the network location and the path of a URL string. Query, fragment and
    `;params` are split off the way `urlparse` does and then dropped. */
module Url {
  import opened Text

  datatype UrlParts = UrlParts(scheme: string, netloc: string, path: string)

  /** `urllib.parse.scheme_chars`: ASCII letters, digits and `+-.`. */
  predicate IsSchemeChar(c: char) { IsAlnum(c) || c == '+' || c == '-' || c == '.' }

  /** A scheme as `urlparse` reports it: a letter first, scheme characters
      only, already lower-case. */
  predicate IsScheme(s: string)
  {
    s != [] && IsAlpha(s[0]) && AllChars(s, IsSchemeChar) && !exists k | 0 <= k < |s| :: IsUpperAlpha(s[k])
  }

  /** Ends the network location: `/`, `?` or `#`. */
  predicate IsNetlocDelim(c: char) { c == '/' || c == '?' || c == '#' }

  predicate NotNetlocDelim(c: char) { !IsNetlocDelim(c) }

  /** `urllib.parse.uses_params`: the schemes whose last path segment may
      carry `;params`. */
  const UsesParams: set<string> := {"", "ftp", "hdl", "prospero", "http", "imap", "https",
                                    "shttp", "rtsp", "rtsps", "rtspu", "sip", "sips", "mms",
                                    "sftp", "tel"}

  /** The scheme is the text before the first `:` when it starts with a letter
      and holds scheme characters only; it is lower-cased. Otherwise there is
      no scheme and the whole string is the remainder. */
  function SplitScheme(url: string): (r: (string, string))
    ensures r.0 == [] || IsScheme(r.0)
  {
    var i := IndexOf(url, ':');
    if 0 < i < |url| && IsAlpha(url[0]) && AllChars(url[..i], IsSchemeChar) then
      var scheme := Lower(url[..i]);
      assert IsAlpha(scheme[0]);
      assert forall k :: 0 <= k < |scheme| ==> !IsUpperAlpha(scheme[k]);
      (scheme, url[i + 1..])
    else ([], url)
  }

  /** After `//`, the network location runs up to the first `/`, `?` or `#`. */
  function SplitNetloc(rest: string): (r: (string, string))
    ensures forall k :: 0 <= k < |r.0| ==> NotNetlocDelim(r.0[k])
    ensures !StartsWith(rest, "//") ==> r == ([], rest)
  {
    if StartsWith(rest, "//") then
      var delim := SpanWhile(rest, 2, NotNetlocDelim);
      (rest[2..delim], rest[delim..])
    else ([], rest)
  }

  /** The path as `urlparse` reports it for the given scheme: fragment and
      query removed, then, for the schemes of `UsesParams`, the `;params` of
      the last segment. */
  function PathOf(scheme: string, rest: string): (path: string)
    ensures '#' !in path && '?' !in path
    ensures StartsWith(rest, path)
  {
    var noFragment := rest[..IndexOf(rest, '#')];
    var noQuery := noFragment[..IndexOf(noFragment, '?')];
    assert forall k :: 0 <= k < |noQuery| ==> noQuery[k] == rest[k];
    if scheme in UsesParams then
      var from := AfterLast(noQuery, '/');
      noQuery[..from + IndexOf(noQuery[from..], ';')]
    else noQuery
  }

  /** `urlparse(url)` restricted to scheme, netloc and path. */
  function UrlParse(url: string): (r: UrlParts)
    ensures r.scheme == [] || IsScheme(r.scheme)
    ensures forall k :: 0 <= k < |r.netloc| ==> NotNetlocDelim(r.netloc[k])
    ensures '#' !in r.path && '?' !in r.path
  {
    var (scheme, afterScheme) := SplitScheme(url);
    var (netloc, rest) := SplitNetloc(afterScheme);
    UrlParts(scheme, netloc, PathOf(scheme, rest))
  }

  /** The inverse of `UrlParse` on the URLs the spider composes:
      `scheme://netloc` followed by a path. */
  function Compose(p: UrlParts): string
  {
    p.scheme + "://" + p.netloc + p.path
  }

  /** A path `urlparse` hands back unchanged: rooted (or empty), without
      query or fragment markers, and with no `;` in its last segment. */
  predicate IsPlainPath(path: string)
  {
    && (path == [] || path[0] == '/')
    && '?' !in path && '#' !in path
    && forall k :: AfterLast(path, '/') <= k < |path| ==> path[k] != ';'
  }

  /** Composing parts and parsing the result gives the parts back. */
  lemma ParseCompose(p: UrlParts)
    requires IsScheme(p.scheme)
    requires forall k :: 0 <= k < |p.netloc| ==> NotNetlocDelim(p.netloc[k])
    requires IsPlainPath(p.path)
    ensures UrlParse(Compose(p)) == p
  {
    var afterScheme := "//" + p.netloc + p.path;
    SplitSchemeOfScheme(p.scheme, afterScheme);
    assert Compose(p) == p.scheme + ":" + afterScheme;
    SplitNetlocOfNetloc(p.netloc, p.path);
    PathOfPlain(p.scheme, p.path);
  }

  lemma SplitSchemeOfScheme(s: string, rest: string)
    requires IsScheme(s)
    ensures SplitScheme(s + ":" + rest) == (s, rest)
  {
    var url := s + ":" + rest;
    assert forall k :: 0 <= k < |s| ==> url[k] == s[k] && s[k] != ':';
    assert url[|s|] == ':';
    assert IndexOf(url, ':') == |s|;
    assert url[..|s|] == s;
    assert forall k :: 0 <= k < |s| ==> LowerChar(s[k]) == s[k];
    assert Lower(s) == s;
    assert url[|s| + 1..] == rest;
  }

  lemma SplitNetlocOfNetloc(netloc: string, path: string)
    requires forall k :: 0 <= k < |netloc| ==> NotNetlocDelim(netloc[k])
    requires path == [] || path[0] == '/'
    ensures SplitNetloc("//" + netloc + path) == (netloc, path)
  {
    var rest := "//" + netloc + path;
    assert StartsWith(rest, "//");
    var stop := 2 + |netloc|;
    assert forall k :: 2 <= k < stop ==> rest[k] == netloc[k - 2];
    assert stop < |rest| ==> rest[stop] == '/';
    SpanWhileStops(rest, 2, stop, NotNetlocDelim);
    assert rest[2..stop] == netloc;
    assert rest[stop..] == path;
  }

  lemma PathOfPlain(scheme: string, path: string)
    requires IsPlainPath(path)
    ensures PathOf(scheme, path) == path
  {
    assert IndexOf(path, '#') == |path|;
    assert path[..|path|] == path;
    assert IndexOf(path, '?') == |path|;
    var from := AfterLast(path, '/');
    assert IndexOf(path[from..], ';') == |path| - from;
  }
}
