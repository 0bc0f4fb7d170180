/** URLs as keys, and what normalize_url does to the text of one. */
module Urls {
  import opened Strings

  datatype Url = Url(text: string)

  predicate Blank(url: Url) { url.text == "" }

  // ---------------------------------------------------------------- urlparse

  /** The parts normalize_url looks at; it drops the params, as it does the fragment. */
  datatype Parts = Parts(scheme: string, netloc: string, path: string, query: string)

  /** What urlsplit strips from the front of a URL, and removes anywhere in it. */
  predicate IsControl(c: char) { c <= ' ' }

  const UNSAFE := {'\t', '\r', '\n'}

  function Cleaned(raw: string): string {
    Remove(LeftStrip(raw, IsControl), UNSAFE)
  }

  predicate IsLetter(c: char) { 'a' <= c <= 'z' || 'A' <= c <= 'Z' }

  predicate IsSchemeChar(c: char) { IsLetter(c) || '0' <= c <= '9' || c == '+' || c == '-' || c == '.' }

  predicate IsScheme(s: string) {
    s != "" && IsLetter(s[0]) && forall c <- s :: IsSchemeChar(c)
  }

  /** The scheme in lower case, and what follows its colon; no scheme without a colon or with other
      characters before it. */
  function SplitScheme(s: string): (string, string) {
    var i := Until(s, {':'});
    if i < |s| && IsScheme(s[..i]) then (LowerCase(s[..i]), s[i + 1..]) else ("", s)
  }

  const NETLOC_ENDS := {'/', '?', '#'}

  /** What stands between two slashes and the next delimiter, and the rest. */
  function SplitNetloc(s: string): (string, string) {
    if |s| >= 2 && s[..2] == "//" then
      var i := Until(s[2..], NETLOC_ENDS);
      (s[2..][..i], s[2..][i..])
    else ("", s)
  }

  /** The path and the query, the fragment cut off. */
  function SplitQuery(s: string): (string, string) {
    var t := s[..Until(s, {'#'})];
    var i := Until(t, {'?'});
    (t[..i], if i < |t| then t[i + 1..] else "")
  }

  predicate TakesParams(scheme: string) {
    scheme in {"", "ftp", "hdl", "prospero", "http", "imap", "https", "shttp", "rtsp", "rtsps", "rtspu",
               "sip", "sips", "mms", "sftp", "tel"}
  }

  /** Where the params of the last segment start. */
  function ParamsAt(path: string): (i: nat)
    ensures SegmentStart(path) <= i <= |path|
    ensures forall k :: SegmentStart(path) <= k < i ==> path[k] != ';'
    ensures i < |path| ==> path[i] == ';'
  {
    var start := SegmentStart(path);
    start + Until(path[start..], {';'})
  }

  function WithoutParams(scheme: string, path: string): string {
    if TakesParams(scheme) then path[..ParamsAt(path)] else path
  }

  function Parse(raw: string): Parts {
    ParseClean(Cleaned(raw))
  }

  function ParseClean(s: string): Parts {
    var (scheme, afterScheme) := SplitScheme(s);
    var (netloc, afterNetloc) := SplitNetloc(afterScheme);
    var (path, query) := SplitQuery(afterNetloc);
    Parts(scheme, netloc, WithoutParams(scheme, path), query)
  }

  // ---------------------------------------------------------------- normalize_url

  /** A lone slash is dropped, and so is one trailing slash of a longer path. */
  function NormalizePath(path: string): string {
    if path == "/" then ""
    else if |path| > 1 && path[|path| - 1] == '/' then path[..|path| - 1]
    else path
  }

  function SchemeOf(u: Parts): string {
    if u.scheme == "" then "http" else u.scheme
  }

  function QueryText(query: string): string {
    if query == "" then "" else "?" + query
  }

  function Assembled(u: Parts): string {
    SchemeOf(u) + ("://" + (LowerCase(u.netloc) + (NormalizePath(u.path) + QueryText(u.query))))
  }

  /** `bad` says which netlocs urlparse refuses, as it does some with brackets. */
  predicate Refused(raw: string, bad: string -> bool) {
    Parse(raw).netloc != "" && bad(Parse(raw).netloc)
  }

  function NormalizeUrl(raw: string, bad: string -> bool): string {
    if raw == "" then ""
    else if Refused(raw, bad) then Strip(raw)
    else Assembled(Parse(raw))
  }

  // ---------------------------------------------------------------- reading back what was assembled

  /** What the parts of a parsed URL cannot contain. */
  ghost predicate WellParsed(u: Parts) {
    && (u.scheme == "" || (IsScheme(u.scheme) && LowerCase(u.scheme) == u.scheme))
    && (forall c <- u.netloc :: c !in NETLOC_ENDS && c !in UNSAFE)
    && (forall c <- u.path :: c != '?' && c != '#' && c !in UNSAFE)
    && (forall c <- u.query :: c != '#' && c !in UNSAFE)
    && (u.netloc != "" && u.path != "" ==> u.path[0] == '/')
  }

  lemma LowerCaseTwice(s: string)
    ensures LowerCase(LowerCase(s)) == LowerCase(s)
  {
  }

  lemma LowerCaseIsScheme(scheme: string)
    requires IsScheme(scheme)
    ensures IsScheme(LowerCase(scheme))
  {
    var s := LowerCase(scheme);
    forall c <- s ensures IsSchemeChar(c) {
      var k :| 0 <= k < |s| && s[k] == c;
      assert scheme[k] in scheme;
    }
  }

  lemma SchemeFacts(s: string)
    ensures
      var (scheme, rest) := SplitScheme(s);
      && (scheme == "" || (IsScheme(scheme) && LowerCase(scheme) == scheme))
      && forall c <- rest :: c in s
  {
    var i := Until(s, {':'});
    if i < |s| && IsScheme(s[..i]) {
      LowerCaseIsScheme(s[..i]);
      LowerCaseTwice(s[..i]);
    }
  }

  lemma NetlocFacts(s: string)
    ensures
      var (netloc, rest) := SplitNetloc(s);
      && (forall c <- netloc :: c in s && c !in NETLOC_ENDS)
      && (forall c <- rest :: c in s)
      && (netloc != "" && rest != "" ==> rest[0] in NETLOC_ENDS)
  {
    if |s| >= 2 && s[..2] == "//" {
      var i := Until(s[2..], NETLOC_ENDS);
      assert forall c <- s[2..] :: c in s;
      assert i < |s[2..]| ==> s[2..][i..][0] == s[2..][i];
    }
  }

  lemma QueryFacts(s: string)
    ensures
      var (path, query) := SplitQuery(s);
      && (forall c <- path :: c in s && c != '?' && c != '#')
      && (forall c <- query :: c in s && c != '#')
      && (path != "" ==> s != "" && path[0] == s[0])
  {
    var t := s[..Until(s, {'#'})];
    assert forall c <- t :: c in s && c != '#';
    var i := Until(t, {'?'});
    assert forall c <- t[..i] :: c in t && c != '?';
  }

  lemma ParsedWell(raw: string)
    ensures WellParsed(Parse(raw))
  {
    var s := Cleaned(raw);
    var (scheme, afterScheme) := SplitScheme(s);
    var (netloc, afterNetloc) := SplitNetloc(afterScheme);
    var (path, query) := SplitQuery(afterNetloc);
    SchemeFacts(s);
    NetlocFacts(afterScheme);
    QueryFacts(afterNetloc);
    var kept := WithoutParams(scheme, path);
    assert forall c <- kept :: c in path;
    assert kept != "" ==> kept[0] == path[0];
    if netloc != "" && path != "" {
      assert path[0] != '?' && path[0] != '#' by { assert path[0] in path; }
    }
  }

  lemma SchemeReads(scheme: string, rest: string)
    requires IsScheme(scheme)
    ensures SplitScheme(scheme + (":" + rest)) == (LowerCase(scheme), rest)
  {
    var s := scheme + (":" + rest);
    assert !IsSchemeChar(':') && forall c <- scheme :: IsSchemeChar(c);
    UntilIs(scheme, ":" + rest, {':'});
    assert s[..|scheme|] == scheme && s[|scheme| + 1..] == rest;
  }

  lemma NetlocReads(netloc: string, rest: string)
    requires (forall c <- netloc :: c !in NETLOC_ENDS) && (rest == "" || rest[0] in NETLOC_ENDS)
    ensures SplitNetloc("//" + (netloc + rest)) == (netloc, rest)
  {
    var s := "//" + (netloc + rest);
    UntilIs(netloc, rest, NETLOC_ENDS);
    assert s[..2] == "//" && s[2..] == netloc + rest;
    assert (netloc + rest)[..|netloc|] == netloc && (netloc + rest)[|netloc|..] == rest;
  }

  lemma NoFragment(s: string)
    requires '#' !in s
    ensures s[..Until(s, {'#'})] == s
  {
    UntilIs(s, "", {'#'});
    assert s + "" == s;
  }

  lemma QueryReads(path: string, query: string)
    requires (forall c <- path :: c != '?' && c != '#') && (forall c <- query :: c != '#')
    ensures SplitQuery(path + QueryText(query)) == (path, query)
  {
    var q := QueryText(query);
    assert '#' !in q;
    NoFragment(path + q);
    UntilIs(path, q, {'?'});
    assert (path + q)[..|path|] == path;
    if query != "" { assert (path + q)[|path| + 1..] == query; }
  }

  lemma CleanStays(s: string)
    requires s != "" && !IsControl(s[0]) && forall c <- s :: c !in UNSAFE
    ensures Cleaned(s) == s
  {
    NothingToRemove(s, UNSAFE);
  }

  /** A text written as scheme, netloc, path and query is read as them, but for the params. */
  lemma ReadsBack(scheme: string, netloc: string, path: string, query: string)
    requires IsScheme(scheme)
    requires WellParsed(Parts("", netloc, path, query))
    requires path == "" || path[0] == '/'
    ensures Parse(scheme + ("://" + (netloc + (path + QueryText(query))))) ==
            Parts(LowerCase(scheme), netloc, WithoutParams(LowerCase(scheme), path), query)
  {
    var rest := netloc + (path + QueryText(query));
    assert "://" + rest == ":" + ("//" + rest);
    var tail := path + QueryText(query);
    TailFacts(netloc, path, query);
    WrittenIsClean(scheme, "://" + rest);
    SchemeReads(scheme, "//" + rest);
    NetlocReads(netloc, tail);
    QueryReads(path, query);
    Composed(scheme + ("://" + rest), LowerCase(scheme), "//" + rest, netloc, tail, path, query);
  }

  lemma TailFacts(netloc: string, path: string, query: string)
    requires WellParsed(Parts("", netloc, path, query)) && (path == "" || path[0] == '/')
    ensures
      var tail := path + QueryText(query);
      && (tail == "" || tail[0] in NETLOC_ENDS)
      && forall c <- "://" + (netloc + tail) :: c !in UNSAFE
  {
    var tail := path + QueryText(query);
    assert tail != "" ==> tail[0] == if path != "" then path[0] else '?';
    assert forall c <- QueryText(query) :: c !in UNSAFE;
    assert forall c <- "://" :: c !in UNSAFE;
  }

  lemma Composed(s: string, scheme: string, afterScheme: string, netloc: string, afterNetloc: string,
                 path: string, query: string)
    requires SplitScheme(s) == (scheme, afterScheme) && SplitNetloc(afterScheme) == (netloc, afterNetloc)
    requires SplitQuery(afterNetloc) == (path, query)
    ensures ParseClean(s) == Parts(scheme, netloc, WithoutParams(scheme, path), query)
  {
  }

  lemma WrittenIsClean(scheme: string, rest: string)
    requires IsScheme(scheme) && forall c <- rest :: c !in UNSAFE
    ensures Cleaned(scheme + rest) == scheme + rest
  {
    var s := scheme + rest;
    assert !IsSchemeChar('\t') && !IsSchemeChar('\r') && !IsSchemeChar('\n');
    assert forall c <- scheme :: IsSchemeChar(c);
    assert s[0] == scheme[0];
    CleanStays(s);
  }

  // ---------------------------------------------------------------- a second time

  /** The text assembled from these parts has no slash between its two slashes and the path, so that the
      path's first segment is read as the netloc. */
  predicate Rootless(u: Parts) {
    u.netloc == "" && u.path != "" && u.path[0] != '/'
  }

  function FirstSegment(path: string): string {
    path[..Until(path, {'/'})]
  }

  function AfterFirstSegment(path: string): string {
    path[Until(path, {'/'})..]
  }

  /** The netloc and the path that a second call reads. */
  function HostAgain(u: Parts): string {
    if Rootless(u) then FirstSegment(u.path) else LowerCase(u.netloc)
  }

  function PathAgain(u: Parts): string {
    if Rootless(u) then AfterFirstSegment(NormalizePath(u.path)) else NormalizePath(u.path)
  }

  predicate EndsInTwoSlashes(path: string) {
    |path| >= 2 && path[|path| - 2] == '/' && path[|path| - 1] == '/'
  }

  predicate ParamsInLastSegment(path: string) {
    ';' in path[SegmentStart(path)..]
  }

  predicate LowerCased(s: string) {
    forall c <- s :: !('A' <= c <= 'Z')
  }

  predicate RefusedAgain(u: Parts, bad: string -> bool) {
    HostAgain(u) != "" && bad(HostAgain(u))
  }

  /** No trailing double slash; a path that does not start with a slash has its first segment in lower
      case; and no params are left in the last segment. Where the second call is refused, it only strips. */
  predicate Stable(u: Parts, bad: string -> bool) {
    if RefusedAgain(u, bad) then
      !IsSpace(Assembled(u)[|Assembled(u)| - 1])
    else
      && !EndsInTwoSlashes(u.path)
      && (Rootless(u) ==> LowerCased(FirstSegment(u.path)))
      && !(TakesParams(u.scheme) && ParamsInLastSegment(PathAgain(u)))
  }

  lemma RootlessAgain(u: Parts)
    requires WellParsed(u) && Rootless(u)
    ensures HostAgain(u) + PathAgain(u) == LowerCase(u.netloc) + NormalizePath(u.path)
    ensures PathAgain(u) == "" || PathAgain(u)[0] == '/'
    ensures WellParsed(Parts("", HostAgain(u), PathAgain(u), u.query))
  {
    var p := NormalizePath(u.path);
    FirstSegmentKept(u.path);
    var i := Until(p, {'/'});
    assert forall c <- p :: c in u.path;
    assert forall c <- p[..i] :: c in p && c != '/';
    assert forall c <- p[i..] :: c in p;
    assert LowerCase("") + p == p[..i] + p[i..];
  }

  lemma FirstSegmentKept(path: string)
    requires path != "" && path[0] != '/'
    ensures FirstSegment(NormalizePath(path)) == FirstSegment(path)
  {
    var p, i := NormalizePath(path), Until(path, {'/'});
    assert Until(p, {'/'}) == i && p[..i] == path[..i];
  }

  lemma LowerCaseIsHost(netloc: string)
    requires forall c <- netloc :: c !in NETLOC_ENDS && c !in UNSAFE
    ensures forall c <- LowerCase(netloc) :: c !in NETLOC_ENDS && c !in UNSAFE
  {
    forall c <- LowerCase(netloc) ensures c !in NETLOC_ENDS && c !in UNSAFE {
      var k :| 0 <= k < |netloc| && LowerCase(netloc)[k] == c;
      assert netloc[k] in netloc;
    }
  }

  lemma PathsAgain(u: Parts)
    requires WellParsed(u)
    ensures HostAgain(u) + PathAgain(u) == LowerCase(u.netloc) + NormalizePath(u.path)
    ensures PathAgain(u) == "" || PathAgain(u)[0] == '/'
    ensures WellParsed(Parts("", HostAgain(u), PathAgain(u), u.query))
  {
    if Rootless(u) {
      RootlessAgain(u);
    } else {
      LowerCaseIsHost(u.netloc);
      assert forall c <- NormalizePath(u.path) :: c in u.path;
    }
  }

  lemma Regroup(a: string, b: string, c: string, d: string, q: string)
    requires a + b == c + d
    ensures a + (b + q) == c + (d + q)
  {
    assert a + (b + q) == (a + b) + q && c + (d + q) == (c + d) + q;
  }

  lemma AssembledAgain(u: Parts)
    requires WellParsed(u)
    ensures Assembled(u) == SchemeOf(u) + ("://" + (HostAgain(u) + (PathAgain(u) + QueryText(u.query))))
  {
    PathsAgain(u);
    Regroup(LowerCase(u.netloc), NormalizePath(u.path), HostAgain(u), PathAgain(u), QueryText(u.query));
  }

  /** What the second call parses. */
  function PartsAgain(u: Parts): Parts {
    Parts(SchemeOf(u), HostAgain(u), WithoutParams(SchemeOf(u), PathAgain(u)), u.query)
  }

  lemma SecondCall(u: Parts)
    requires WellParsed(u)
    ensures Parse(Assembled(u)) == PartsAgain(u)
  {
    AssembledAgain(u);
    PathsAgain(u);
    assert IsScheme("http") && LowerCase("http") == "http";
    ReadsBack(SchemeOf(u), HostAgain(u), PathAgain(u), u.query);
  }

  /** Dropping params and a trailing slash leaves a path as it is exactly if there is neither. */
  lemma PathStays(scheme: string, path: string)
    ensures NormalizePath(WithoutParams(scheme, path)) == path <==>
      (path == "" || path[|path| - 1] != '/') && !(TakesParams(scheme) && ParamsInLastSegment(path))
  {
    ParamsSeen(path);
    assert path[..|path|] == path;
    if TakesParams(scheme) && ParamsInLastSegment(path) {
      assert |WithoutParams(scheme, path)| < |path|;
    } else {
      assert WithoutParams(scheme, path) == path;
    }
  }

  lemma ParamsSeen(path: string)
    ensures ParamsInLastSegment(path) <==> ParamsAt(path) < |path|
  {
    var start, i := SegmentStart(path), ParamsAt(path);
    if i < |path| {
      assert path[start..][i - start] == ';';
    } else {
      assert forall k :: start <= k < |path| ==> path[start..][k - start] == path[k];
    }
  }

  lemma TrailingSlashAgain(u: Parts)
    ensures EndsInTwoSlashes(u.path) <==> PathAgain(u) != "" && PathAgain(u)[|PathAgain(u)| - 1] == '/'
  {
    var p := NormalizePath(u.path);
    if Rootless(u) && Until(p, {'/'}) < |p| {
      assert PathAgain(u)[|PathAgain(u)| - 1] == p[|p| - 1];
    }
  }

  lemma LowerCasedStays(s: string)
    ensures LowerCase(s) == s <==> LowerCased(s)
  {
    if LowerCase(s) == s {
      forall c <- s ensures !('A' <= c <= 'Z') {
        var k :| 0 <= k < |s| && s[k] == c;
        assert LowerCase(s)[k] == Lower(s[k]);
      }
    } else {
      var k :| 0 <= k < |s| && LowerCase(s)[k] != s[k];
      assert s[k] in s;
    }
  }

  lemma {:induction false} StripStays(s: string)
    requires s != "" && !IsSpace(s[0])
    ensures Strip(s) == s <==> !IsSpace(s[|s| - 1])
  {
    var pad := RightStripSplits(s);
    assert LeftStrip(s, IsSpace) == s;
    assert |RightStrip(s, IsSpace)| == |s| ==> pad == "";
  }

  /** Two texts with the same scheme and query are the same exactly if their parts are. */
  lemma SameText(scheme: string, h: string, p: string, q: string, h': string, p': string)
    requires |h| == |h'|
    ensures scheme + ("://" + (h + (p + q))) == scheme + ("://" + (h' + (p' + q))) <==> h == h' && p == p'
  {
    var s, t := scheme + ("://" + (h + (p + q))), scheme + ("://" + (h' + (p' + q)));
    if s == t {
      var n := |scheme| + 3;
      assert s[n..] == h + (p + q) && t[n..] == h' + (p' + q);
      assert s[n..][..|h|] == h && t[n..][..|h|] == h';
      assert s[n..][|h|..] == p + q && t[n..][|h|..] == p' + q;
      assert |p| == |p'|;
      assert (p + q)[..|p|] == p && (p' + q)[..|p|] == p';
    }
  }

  /** Normalizing what was read back changes nothing exactly if no part of it changes. */
  lemma SameAssembled(scheme: string, host: string, path: string, query: string)
    requires scheme != ""
    ensures Assembled(Parts(scheme, host, WithoutParams(scheme, path), query)) ==
            scheme + ("://" + (host + (path + QueryText(query))))
            <==> LowerCased(host) && (path == "" || path[|path| - 1] != '/')
                 && !(TakesParams(scheme) && ParamsInLastSegment(path))
  {
    SameText(scheme, LowerCase(host), NormalizePath(WithoutParams(scheme, path)), QueryText(query), host, path);
    PathStays(scheme, path);
    LowerCasedStays(host);
  }

  lemma StableExactly(u: Parts, bad: string -> bool)
    requires WellParsed(u) && !RefusedAgain(u, bad)
    ensures Assembled(PartsAgain(u)) == Assembled(u) <==> Stable(u, bad)
  {
    AssembledAgain(u);
    SameAssembled(SchemeOf(u), HostAgain(u), PathAgain(u), u.query);
    TrailingSlashAgain(u);
    LowerCaseTwice(u.netloc);
    LowerCasedStays(LowerCase(u.netloc));
    assert TakesParams(SchemeOf(u)) == TakesParams(u.scheme);
  }

  /** A second call is refused exactly if the netloc it reads is. */
  lemma SecondNormalize(u: Parts, bad: string -> bool)
    requires WellParsed(u)
    ensures Assembled(u) != "" && IsLetter(Assembled(u)[0])
    ensures NormalizeUrl(Assembled(u), bad) ==
            if RefusedAgain(u, bad) then Strip(Assembled(u)) else Assembled(PartsAgain(u))
  {
    SecondCall(u);
    assert Assembled(u)[0] == SchemeOf(u)[0];
  }

  lemma StableRefused(u: Parts, bad: string -> bool)
    requires RefusedAgain(u, bad) && Assembled(u) != "" && IsLetter(Assembled(u)[0])
    ensures Strip(Assembled(u)) == Assembled(u) <==> Stable(u, bad)
  {
    StripStays(Assembled(u));
  }

  lemma StableParts(u: Parts, bad: string -> bool)
    requires WellParsed(u)
    ensures NormalizeUrl(Assembled(u), bad) == Assembled(u) <==> Stable(u, bad)
  {
    SecondNormalize(u, bad);
    if RefusedAgain(u, bad) {
      StableRefused(u, bad);
    } else {
      StableExactly(u, bad);
    }
  }

  lemma AcceptedExactly(raw: string, bad: string -> bool)
    requires !Refused(raw, bad)
    ensures NormalizeUrl(NormalizeUrl(raw, bad), bad) == NormalizeUrl(raw, bad) <==> Stable(Parse(raw), bad)
  {
    if raw == "" {
      assert Parse("") == Parts("", "", "", "");
    } else {
      ParsedWell(raw);
      StableParts(Parse(raw), bad);
    }
  }

  /** The text is written as normalize_url writes: a scheme, a netloc in lower case, a path without a trailing
      slash, and nothing that is dropped. */
  predicate IsNormal(t: string) {
    var u := Parse(t);
    && u.scheme != "" && LowerCased(u.netloc) && (u.path == "" || u.path[|u.path| - 1] != '/')
    && t == u.scheme + ("://" + (u.netloc + (u.path + QueryText(u.query))))
  }

  lemma NormalParts(u: Parts)
    requires u == PartsAgain(u)
    ensures u.scheme != "" && LowerCased(u.netloc) && (u.path == "" || u.path[|u.path| - 1] != '/')
  {
    assert !Rootless(u);
    LowerCasedStays(u.netloc);
    assert |u.path| <= |NormalizePath(u.path)|;
  }

  lemma NormalExactly(t: string, bad: string -> bool)
    requires t != "" && !Refused(t, bad)
    ensures NormalizeUrl(t, bad) == t <==> IsNormal(t)
  {
    var u := Parse(t);
    ParsedWell(t);
    LowerCasedStays(u.netloc);
    if Assembled(u) == t {
      SecondCall(u);
      NormalParts(u);
    }
  }

  /** The text's parts are stable. A URL that is refused is only stripped: then the stripped text must be refused
      too, or be normal already. */
  predicate IdempotentOn(raw: string, bad: string -> bool) {
    if Refused(raw, bad) then Strip(raw) == "" || Refused(Strip(raw), bad) || IsNormal(Strip(raw))
    else Stable(Parse(raw), bad)
  }

  /** Normalizing the text of a URL a second time changes nothing if and only if its parts say so. */
  lemma NormalizeIsIdempotentExactly(raw: string, bad: string -> bool)
    ensures NormalizeUrl(NormalizeUrl(raw, bad), bad) == NormalizeUrl(raw, bad) <==> IdempotentOn(raw, bad)
  {
    if !Refused(raw, bad) {
      AcceptedExactly(raw, bad);
    } else {
      RefusedExactly(raw, bad);
    }
  }

  lemma RefusedExactly(raw: string, bad: string -> bool)
    requires Refused(raw, bad)
    ensures NormalizeUrl(NormalizeUrl(raw, bad), bad) == NormalizeUrl(raw, bad) == Strip(raw) <==>
      Strip(raw) == "" || Refused(Strip(raw), bad) || IsNormal(Strip(raw))
    ensures NormalizeUrl(raw, bad) == Strip(raw)
  {
    assert raw != "" by { assert Parse("") == Parts("", "", "", ""); }
    var t := Strip(raw);
    StripTwice(raw);
    if t != "" && !Refused(t, bad) { NormalExactly(t, bad); }
  }

  // ---------------------------------------------------------------- the three ways to change again

  function Written(scheme: string, netloc: string, path: string): string {
    scheme + ("://" + (netloc + (path + QueryText(""))))
  }

  predicate Ordinary(s: string) {
    forall c <- s :: c !in NETLOC_ENDS && c !in UNSAFE
  }

  ghost predicate Changes(raw: string, bad: string -> bool) {
    NormalizeUrl(NormalizeUrl(raw, bad), bad) != NormalizeUrl(raw, bad)
  }

  lemma WrittenReads(scheme: string, netloc: string, path: string)
    requires IsScheme(scheme) && Ordinary(netloc) && path != "" && path[0] == '/'
    requires forall c <- path :: c == '/' || (c !in NETLOC_ENDS && c !in UNSAFE)
    ensures Parse(Written(scheme, netloc, path)) ==
            Parts(LowerCase(scheme), netloc, WithoutParams(LowerCase(scheme), path), "")
  {
    ReadsBack(scheme, netloc, path, "");
  }

  /** http://h/a// loses its slashes one at a time. */
  lemma DoubleSlashChanges(scheme: string, host: string, path: string, bad: string -> bool)
    requires IsScheme(scheme) && Ordinary(host) && !bad(host) && !bad(LowerCase(host))
    requires path != "" && path[0] == '/' && EndsInTwoSlashes(path)
    requires forall c <- path :: c == '/' || (c !in NETLOC_ENDS && c !in UNSAFE)
    ensures Changes(Written(scheme, host, path), bad)
  {
    WrittenReads(scheme, host, path);
    LastSegmentEmpty(LowerCase(scheme), path);
    AcceptedExactly(Written(scheme, host, path), bad);
  }

  /** http://h/a// becomes http://h/a/ and that http://h/a; so does http://h//. */
  lemma SlashesGo(scheme: string, host: string, path: string, bad: string -> bool)
    requires IsScheme(scheme) && Ordinary(host) && !bad(host) && !bad(LowerCase(host))
    requires path != "" && path[0] == '/' && EndsInTwoSlashes(path)
    requires forall c <- path :: c == '/' || (c !in NETLOC_ENDS && c !in UNSAFE)
    ensures
      var s, h, once := LowerCase(scheme), LowerCase(host), path[..|path| - 1];
      && NormalizeUrl(Written(scheme, host, path), bad) == Written(s, h, once)
      && NormalizeUrl(Written(s, h, once), bad) == Written(s, h, NormalizePath(once))
  {
    var s, h, once := LowerCase(scheme), LowerCase(host), path[..|path| - 1];
    assert NormalizePath(path) == once && once[|once| - 1] == '/';
    assert forall c <- once :: c in path;
    WrittenNormalizes(scheme, host, path, bad);
    LowerCaseTwice(scheme);
    LowerCaseTwice(host);
    LowerCaseIsHost(host);
    LowerCaseIsScheme(scheme);
    WrittenNormalizes(s, h, once, bad);
  }

  lemma WrittenNormalizes(scheme: string, host: string, path: string, bad: string -> bool)
    requires IsScheme(scheme) && Ordinary(host) && !bad(host)
    requires path != "" && path[0] == '/' && path[|path| - 1] == '/'
    requires forall c <- path :: c == '/' || (c !in NETLOC_ENDS && c !in UNSAFE)
    ensures NormalizeUrl(Written(scheme, host, path), bad) ==
            Written(LowerCase(scheme), LowerCase(host), NormalizePath(path))
  {
    WrittenReads(scheme, host, path);
    LastSegmentEmpty(LowerCase(scheme), path);
    assert Written(scheme, host, path) != "" && LowerCase(scheme) != "";
  }

  lemma LastSegmentEmpty(scheme: string, path: string)
    requires path != "" && path[|path| - 1] == '/'
    ensures WithoutParams(scheme, path) == path
  {
    assert SegmentStart(path) == |path| && path[..|path|] == path;
  }

  /** http://h/a;p/ keeps its params the first time, as the last segment is empty, and loses them the
      second. */
  lemma ParamsBeforeSlashChange(scheme: string, host: string, front: string, params: string, bad: string -> bool)
    requires IsScheme(scheme) && TakesParams(LowerCase(scheme))
    requires Ordinary(host) && !bad(host) && !bad(LowerCase(host)) && Ordinary(front) && Ordinary(params)
    ensures Changes(Written(scheme, host, "/" + front + ";" + params + "/"), bad)
  {
    var once := "/" + front + ";" + params;
    var path := once + "/";
    WrittenReads(scheme, host, path);
    LastSegmentEmpty(LowerCase(scheme), path);
    var u := Parse(Written(scheme, host, path));
    assert u.path == path && !Rootless(u) && path[..|path| - 1] == once && PathAgain(u) == once;
    LastSegmentHolds(front, params);
    AcceptedExactly(Written(scheme, host, path), bad);
  }

  lemma LastSegmentHolds(front: string, params: string)
    requires Ordinary(front) && Ordinary(params)
    ensures ParamsInLastSegment("/" + front + ";" + params)
  {
    var path := "/" + front + ";" + params;
    assert forall k :: 1 <= k < |path| ==> path[k] == (front + ";" + params)[k - 1];
    assert forall c <- front + ";" + params :: c != '/';
    assert SegmentStart(path) <= 1;
    assert path[SegmentStart(path)..][1 + |front| - SegmentStart(path)] == ';';
  }

  /** A path that does not start with a slash. */
  predicate IsRootless(segment: string, rest: string) {
    && segment != "" && Ordinary(segment) && !IsControl(segment[0]) && (rest == "" || rest[0] == '/')
    && (forall c <- rest :: c == '/' || (c !in NETLOC_ENDS && c !in UNSAFE))
    && forall c <- segment + rest :: c != ':' && c != ';'
  }

  /** example.com/x has neither scheme nor netloc. */
  lemma SegmentReads(segment: string, rest: string)
    requires IsRootless(segment, rest)
    ensures Parse(segment + rest) == Parts("", "", segment + rest, "")
  {
    var raw := segment + rest;
    assert raw[0] == segment[0] && segment[0] in segment;
    CleanStays(raw);
    UntilIs(raw, "", {':'});
    assert raw + "" == raw;
    RootlessReads(segment, rest, "");
  }

  /** mailto:info@example.com has a scheme and no netloc. */
  lemma OpaqueReads(scheme: string, segment: string, rest: string)
    requires IsScheme(scheme) && IsRootless(segment, rest)
    ensures Parse(scheme + (":" + (segment + rest))) == Parts(LowerCase(scheme), "", segment + rest, "")
  {
    var raw := scheme + (":" + (segment + rest));
    WrittenIsClean(scheme, ":" + (segment + rest));
    SchemeReads(scheme, segment + rest);
    RootlessReads(segment, rest, LowerCase(scheme));
  }

  lemma RootlessReads(segment: string, rest: string, scheme: string)
    requires IsRootless(segment, rest)
    ensures SplitNetloc(segment + rest) == ("", segment + rest)
    ensures SplitQuery(segment + rest) == (segment + rest, "")
    ensures WithoutParams(scheme, segment + rest) == segment + rest
  {
    var raw := segment + rest;
    assert raw[0] == segment[0] && segment[0] in segment;
    assert raw + QueryText("") == raw;
    QueryReads(raw, "");
    NoParams(raw);
  }

  lemma NoParams(path: string)
    requires ';' !in path
    ensures path[..ParamsAt(path)] == path
  {
    assert forall k :: 0 <= k < |path| ==> path[k] in path;
  }

  /** Example.com/x and mailto:Info@Example.com have their first segment read as a path the first time and
      as a host the second. */
  lemma UpperCaseSegmentChanges(scheme: string, segment: string, rest: string, bad: string -> bool)
    requires IsRootless(segment, rest) && !LowerCased(segment) && !bad(segment)
    ensures Changes(segment + rest, bad)
    ensures IsScheme(scheme) ==> Changes(scheme + (":" + (segment + rest)), bad)
  {
    SegmentReads(segment, rest);
    FirstSegmentIs(segment, rest);
    AcceptedExactly(segment + rest, bad);
    if IsScheme(scheme) {
      OpaqueReads(scheme, segment, rest);
      AcceptedExactly(scheme + (":" + (segment + rest)), bad);
    }
  }

  lemma FirstSegmentIs(segment: string, rest: string)
    requires IsRootless(segment, rest)
    ensures FirstSegment(segment + rest) == segment && (segment + rest)[0] != '/'
  {
    UntilIs(segment, rest, {'/'});
    assert (segment + rest)[..|segment|] == segment;
    assert segment[0] in segment && (segment + rest)[0] == segment[0];
  }
}
