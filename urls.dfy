/** URL normalisation as the extension uses it: `new URL(u)` followed by
    origin + pathname (the request interceptor's getUriFromUrl) or
    protocol, two slashes, host and pathname (the highlighter's normalizeUrl).

    The WHATWG URL parser is modelled on a restricted family of inputs: an `http` or
    `https` scheme (any letter case), a colon and two slashes, a plain domain host without port or
    credentials, an optional path, an optional query and an optional fragment. On these
    inputs the parser only lower-cases the scheme and host and supplies "/" for an empty
    path. Every other string is treated as unparsable, so both functions return it
    unchanged, as they do when the real parser throws. */
module Urls {
  import opened Wrappers
  import opened Text

  /** The two slashes that follow a scheme's colon. */
  const SLASHES: string := ['/', '/']

  /** What separates a scheme from its host: a colon and two slashes. */
  const SCHEME_SEPARATOR: string := [':'] + SLASHES

  /** The parts of a URL the normalisations read, already in the parser's output form. */
  datatype Url = Url(scheme: string, host: string, path: string)

  predicate IsSchemeChar(c: char) { IsAsciiLetter(c) }

  predicate IsHostChar(c: char) { IsAsciiAlnum(c) || c == '-' || c == '.' }

  /** Characters the parser keeps as they are in a path: printable ASCII other than the
      path percent-encode set, `%`, the backslash and the delimiters `?` and `#`. */
  predicate IsPathChar(c: char) {
    '!' <= c <= '~' && c != '"' && c != '#' && c != '<' && c != '>' && c != '?'
    && c != '`' && c != '{' && c != '}' && c != '\\' && c != '%'
  }

  predicate IsHostEnd(c: char) { c == '/' || c == '?' || c == '#' }

  predicate IsPathEnd(c: char) { c == '?' || c == '#' }

  /** The longest prefix of `s` with no character satisfying `stop`. */
  function TakeUntil(s: string, stop: char -> bool): (r: string)
    ensures IsPrefix(r, s)
    ensures forall i :: 0 <= i < |r| ==> !stop(r[i])
    ensures |r| == |s| || stop(s[|r|])
  {
    if s == [] || stop(s[0]) then [] else [s[0]] + TakeUntil(s[1..], stop)
  }

  lemma {:induction false} TakeUntilOf(a: string, b: string, stop: char -> bool)
    requires forall i :: 0 <= i < |a| ==> !stop(a[i])
    requires b == [] || stop(b[0])
    ensures TakeUntil(a + b, stop) == a
  {
    if a == [] {
      assert a + b == b;
    } else {
      assert (a + b)[0] == a[0];
      assert (a + b)[1..] == a[1..] + b;
      TakeUntilOf(a[1..], b, stop);
    }
  }

  predicate IsSpecialScheme(scheme: string) {
    ToLower(scheme) == "http" || ToLower(scheme) == "https"
  }

  /** A domain the host parser returns lower-cased and otherwise unchanged: dot-separated
      non-empty labels of letters, digits and '-', whose last label starts with a letter
      (so it is not read as an IPv4 address), and without an IDNA "xn--" label. */
  predicate IsSimpleHost(h: string) {
    && |h| >= 1
    && AllHostChars(h)
    && DotsSeparateLabels(h)
    && IsAsciiLetter(h[LastLabelStart(h, |h|)])
    && NoPunycodeLabel(h)
  }

  predicate AllHostChars(h: string) {
    forall i :: 0 <= i < |h| ==> IsHostChar(h[i])
  }

  /** No label is empty. */
  predicate DotsSeparateLabels(h: string) {
    && (|h| >= 1 ==> h[0] != '.' && h[|h| - 1] != '.')
    && (forall i :: 0 <= i < |h| - 1 ==> !(h[i] == '.' && h[i + 1] == '.'))
  }

  predicate NoPunycodeLabel(h: string) {
    forall i :: 0 <= i < |h| - 3 && (i == 0 || h[i - 1] == '.') ==> !IsPunycodePrefixAt(h, i)
  }

  /** "xn--", in either letter case, at index i. */
  predicate IsPunycodePrefixAt(h: string, i: nat)
    requires i + 4 <= |h|
  {
    LowerChar(h[i]) == 'x' && LowerChar(h[i + 1]) == 'n' && h[i + 2] == '-' && h[i + 3] == '-'
  }

  /** The index where the label ending before `k` starts. */
  function LastLabelStart(h: string, k: nat): (j: nat)
    requires k <= |h|
    ensures j <= k && (j == 0 || h[j - 1] == '.')
    ensures forall i :: j <= i < k ==> h[i] != '.'
  {
    if k == 0 || h[k - 1] == '.' then k else LastLabelStart(h, k - 1)
  }

  /** A path the parser leaves as it is: empty, or starting with '/', made of path
      characters, with no segment starting with '.' (so no "." or ".." segment). */
  predicate IsSimplePath(p: string) {
    && (p == [] || p[0] == '/')
    && (forall i :: 0 <= i < |p| ==> IsPathChar(p[i]))
    && (forall i :: 0 <= i < |p| - 1 ==> !(p[i] == '/' && p[i + 1] == '.'))
  }

  predicate IsNotSchemeChar(c: char) { !IsSchemeChar(c) }

  /** The raw scheme, host and path of `s`, when a run of letters is followed by the scheme separator. */
  function Components(s: string): Option<(string, string, string)> {
    var scheme := TakeUntil(s, IsNotSchemeChar);
    var rest := s[|scheme|..];
    if !IsPrefix(SCHEME_SEPARATOR, rest) then None
    else
      var afterScheme := rest[3..];
      var host := TakeUntil(afterScheme, IsHostEnd);
      Some((scheme, host, TakeUntil(afterScheme[|host|..], IsPathEnd)))
  }

  /** `new URL(s)` on the modelled inputs; None stands for every other input. */
  function Parse(s: string): Option<Url> {
    match Components(s)
    case None => None
    case Some((scheme, host, path)) =>
      if IsSpecialScheme(scheme) && IsSimpleHost(host) && IsSimplePath(path)
      then Some(Url(ToLower(scheme), ToLower(host), if path == [] then "/" else path))
      else None
  }

  function Render(u: Url): string {
    u.scheme + SCHEME_SEPARATOR + u.host + u.path
  }

  /** getUriFromUrl: origin + pathname, or the input itself when it cannot be parsed. */
  function GetUriFromUrl(s: string): string {
    match Parse(s)
    case Some(u) => Render(u)
    case None => s
  }

  /** normalizeUrl: protocol, two slashes, host and pathname, or the input itself. Without a port
      the host equals the origin's host, so this is the same string as getUriFromUrl. */
  function NormalizeUrl(s: string): string {
    match Parse(s)
    case Some(u) => u.scheme + ":" + SLASHES + u.host + u.path
    case None => s
  }

  /** An optional `?query` part followed by an optional `#fragment` part. */
  predicate IsQueryAndFragment(t: string) {
    t == [] || IsPathEnd(t[0])
  }

  lemma ToLowerLetters(s: string)
    requires forall i :: 0 <= i < |s| ==> IsSchemeChar(s[i])
    ensures forall i :: 0 <= i < |ToLower(s)| ==> IsSchemeChar(ToLower(s)[i])
  {
  }

  lemma ComponentsOfParts(scheme: string, host: string, path: string, qf: string)
    requires forall i :: 0 <= i < |scheme| ==> IsSchemeChar(scheme[i])
    requires forall i :: 0 <= i < |host| ==> !IsHostEnd(host[i])
    requires forall i :: 0 <= i < |path| ==> !IsPathEnd(path[i])
    requires IsQueryAndFragment(qf) && (path == [] || path[0] == '/')
    ensures Components(scheme + SCHEME_SEPARATOR + host + path + qf) == Some((scheme, host, path))
  {
    var u := path + qf;
    var t := SCHEME_SEPARATOR + (host + u);
    assert scheme + SCHEME_SEPARATOR + host + path + qf == scheme + t;
    ComponentsOfSplit(scheme, host, path, qf);
  }

  /** The same, with the string associated to the right, one component at a time. */
  lemma ComponentsOfSplit(scheme: string, host: string, path: string, qf: string)
    requires forall i :: 0 <= i < |scheme| ==> IsSchemeChar(scheme[i])
    requires forall i :: 0 <= i < |host| ==> !IsHostEnd(host[i])
    requires forall i :: 0 <= i < |path| ==> !IsPathEnd(path[i])
    requires IsQueryAndFragment(qf) && (path == [] || path[0] == '/')
    ensures Components(scheme + (SCHEME_SEPARATOR + (host + (path + qf)))) == Some((scheme, host, path))
  {
    var u := path + qf;
    var t := SCHEME_SEPARATOR + (host + u);
    var s := scheme + t;
    TakeUntilOf(scheme, t, IsNotSchemeChar);
    assert s[|scheme|..] == t;
    assert t[3..] == host + u;
    assert u == [] || IsHostEnd(u[0]);
    TakeUntilOf(host, u, IsHostEnd);
    assert (host + u)[|host|..] == u;
    TakeUntilOf(path, qf, IsPathEnd);
  }

  /** The result of either normalisation depends only on scheme, host and path: any
      query and fragment are dropped, the scheme and host are lower-cased, and an empty
      path becomes "/". */
  lemma GetUriFromUrlOfParts(scheme: string, host: string, path: string, qf: string)
    requires forall i :: 0 <= i < |scheme| ==> IsSchemeChar(scheme[i])
    requires IsSpecialScheme(scheme) && IsSimpleHost(host) && IsSimplePath(path)
    requires IsQueryAndFragment(qf)
    ensures GetUriFromUrl(scheme + SCHEME_SEPARATOR + host + path + qf)
         == ToLower(scheme) + SCHEME_SEPARATOR + ToLower(host) + (if path == [] then "/" else path)
  {
    ComponentsOfParts(scheme, host, path, qf);
  }

  lemma RenderHref(u: Url)
    ensures u.scheme + ":" + SLASHES + u.host + u.path == Render(u)
  {
    assert u.scheme + ":" + SLASHES == u.scheme + SCHEME_SEPARATOR;
  }

  /** Both normalisations always agree. */
  lemma NormalizeUrlIsGetUriFromUrl(s: string)
    ensures NormalizeUrl(s) == GetUriFromUrl(s)
  {
    var p := Parse(s);
    if p.Some? {
      RenderHref(p.value);
    }
  }

  /** A normalised URL has no query or fragment. */
  lemma ParsedHasNoQueryOrFragment(s: string)
    requires Parse(s).Some?
    ensures forall i :: 0 <= i < |GetUriFromUrl(s)| ==> !IsPathEnd(GetUriFromUrl(s)[i])
  {
    var u := Parse(s).value;
    ParsedPartsPlain(s);
    NoPathEndAppend(u.scheme, SCHEME_SEPARATOR);
    NoPathEndAppend(u.scheme + SCHEME_SEPARATOR, u.host);
    NoPathEndAppend(u.scheme + SCHEME_SEPARATOR + u.host, u.path);
  }

  predicate NoPathEnd(s: string) {
    forall i :: 0 <= i < |s| ==> !IsPathEnd(s[i])
  }

  lemma NoPathEndAppend(a: string, b: string)
    requires NoPathEnd(a) && NoPathEnd(b)
    ensures NoPathEnd(a + b)
  {
    forall i | 0 <= i < |a + b|
      ensures !IsPathEnd((a + b)[i])
    {
      if i >= |a| {
        assert (a + b)[i] == b[i - |a|];
      }
    }
  }

  /** None of the parts of a parsed URL holds a '?' or a '#'. */
  lemma ParsedPartsPlain(s: string)
    requires Parse(s).Some?
    ensures var u := Parse(s).value; NoPathEnd(u.scheme) && NoPathEnd(u.host) && NoPathEnd(u.path)
  {
    var c := Components(s).value;
    ComponentsPlain(s);
    LowerPlain(c.0);
    LowerPlain(c.1);
  }

  /** The raw scheme, host and path hold no '?' or '#'. */
  lemma ComponentsPlain(s: string)
    requires Components(s).Some?
    ensures var c := Components(s).value; NoPathEnd(c.0) && NoPathEnd(c.1) && NoPathEnd(c.2)
  {
  }

  lemma LowerPlain(s: string)
    requires NoPathEnd(s)
    ensures NoPathEnd(ToLower(s))
  {
    forall i | 0 <= i < |s|
      ensures !IsPathEnd(ToLower(s)[i])
    {
      assert ToLower(s)[i] == LowerChar(s[i]);
    }
  }

  lemma ToLowerIdempotent(s: string)
    ensures ToLower(ToLower(s)) == ToLower(s)
  {
    forall i | 0 <= i < |s| ensures ToLower(ToLower(s))[i] == ToLower(s)[i] {
      LowerCharIdempotent(s[i]);
    }
  }

  lemma LowerKeepsDots(h: string)
    ensures forall i :: 0 <= i < |h| ==> (ToLower(h)[i] == '.' <==> h[i] == '.')
  {
  }

  lemma LowerKeepsHostChars(h: string)
    requires AllHostChars(h)
    ensures AllHostChars(ToLower(h))
  {
  }

  lemma LowerKeepsLabels(h: string)
    requires DotsSeparateLabels(h)
    ensures DotsSeparateLabels(ToLower(h))
  {
    LowerKeepsDots(h);
  }

  lemma LowerKeepsNoPunycode(h: string)
    requires NoPunycodeLabel(h)
    ensures NoPunycodeLabel(ToLower(h))
  {
    var l := ToLower(h);
    LowerKeepsDots(h);
    forall i | 0 <= i < |l| - 3 && (i == 0 || l[i - 1] == '.')
      ensures !IsPunycodePrefixAt(l, i)
    {
      assert !IsPunycodePrefixAt(h, i);
      LowerCharIdempotent(h[i]);
      LowerCharIdempotent(h[i + 1]);
    }
  }

  /** Lower-casing a simple host keeps it simple. */
  lemma LowerSimpleHost(h: string)
    requires IsSimpleHost(h)
    ensures IsSimpleHost(ToLower(h))
  {
    LowerKeepsHostChars(h);
    LowerKeepsLabels(h);
    LowerKeepsNoPunycode(h);
    LastLabelStartLower(h, |h|);
  }

  lemma {:induction false} LastLabelStartLower(h: string, k: nat)
    requires k <= |h|
    ensures LastLabelStart(ToLower(h), k) == LastLabelStart(h, k)
  {
    if k > 0 && h[k - 1] != '.' {
      LastLabelStartLower(h, k - 1);
    }
  }

  lemma LowerSpecialScheme(scheme: string)
    requires IsSpecialScheme(scheme)
    ensures IsSpecialScheme(ToLower(scheme))
  {
    ToLowerIdempotent(scheme);
  }

  lemma SlashIsSimplePath()
    ensures IsSimplePath("/")
  {
  }

  /** The form Parse gives its result in. */
  predicate IsNormalForm(u: Url) {
    && (forall i :: 0 <= i < |u.scheme| ==> IsSchemeChar(u.scheme[i]))
    && IsSpecialScheme(u.scheme) && ToLower(u.scheme) == u.scheme
    && IsSimpleHost(u.host) && ToLower(u.host) == u.host
    && IsSimplePath(u.path) && u.path != []
  }

  lemma ParseNormalForm(s: string)
    requires Parse(s).Some?
    ensures IsNormalForm(Parse(s).value)
  {
    var scheme, host, path := ParsedParts(s);
    NormalFormOfParts(scheme, host, path);
  }

  /** The raw parts behind a successful parse. */
  lemma ParsedParts(s: string) returns (scheme: string, host: string, path: string)
    requires Parse(s).Some?
    ensures forall i :: 0 <= i < |scheme| ==> IsSchemeChar(scheme[i])
    ensures IsSpecialScheme(scheme) && IsSimpleHost(host) && IsSimplePath(path)
    ensures Parse(s).value == Url(ToLower(scheme), ToLower(host), if path == [] then "/" else path)
  {
    scheme, host, path := Components(s).value.0, Components(s).value.1, Components(s).value.2;
    assert scheme == TakeUntil(s, IsNotSchemeChar);
  }

  lemma NormalFormOfParts(scheme: string, host: string, path: string)
    requires forall i :: 0 <= i < |scheme| ==> IsSchemeChar(scheme[i])
    requires IsSpecialScheme(scheme) && IsSimpleHost(host) && IsSimplePath(path)
    ensures IsNormalForm(Url(ToLower(scheme), ToLower(host), if path == [] then "/" else path))
  {
    LowerSimpleHost(host);
    LowerSpecialScheme(scheme);
    ToLowerLetters(scheme);
    ToLowerIdempotent(scheme);
    ToLowerIdempotent(host);
    if path == [] {
      SlashIsSimplePath();
    }
  }

  lemma RenderNormalForm(u: Url)
    requires IsNormalForm(u)
    ensures GetUriFromUrl(Render(u)) == Render(u)
  {
    GetUriFromUrlOfParts(u.scheme, u.host, u.path, []);
    assert u.scheme + SCHEME_SEPARATOR + u.host + u.path + [] == Render(u);
  }

  /** Normalising twice is normalising once. */
  lemma GetUriFromUrlIdempotent(s: string)
    ensures GetUriFromUrl(GetUriFromUrl(s)) == GetUriFromUrl(s)
  {
    if Parse(s).Some? {
      ParseNormalForm(s);
      RenderNormalForm(Parse(s).value);
    }
  }
}
