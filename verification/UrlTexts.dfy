/** What normalize_url makes of a URL's text, however it is written. */
module UrlTexts {
  import opened Collections
  import opened Strings
  import opened Urls

  /** The text of a URL: blanks, and the parts that are there with their marks. */
  datatype Writing = Writing(blanks: string, scheme: Option<string>, authority: Option<string>, path: string,
                             params: Option<string>, query: Option<string>, fragment: Option<string>)

  function Marked(mark: string, part: Option<string>): string {
    if part.Some? then mark + part.value else ""
  }

  function PathText(w: Writing): string { w.path + Marked(";", w.params) }

  function QueryAndFragment(w: Writing): string { Marked("?", w.query) + Marked("#", w.fragment) }

  function AfterScheme(w: Writing): string { Marked("//", w.authority) + (PathText(w) + QueryAndFragment(w)) }

  function Body(w: Writing): string {
    (if w.scheme.Some? then w.scheme.value + ":" else "") + AfterScheme(w)
  }

  function TextOf(w: Writing): string { w.blanks + Body(w) }

  // ---------------------------------------------------------------- what can be written

  predicate Letter(c: char) { 'a' <= c <= 'z' || 'A' <= c <= 'Z' }

  /** RFC 3986, section 3.1 */
  predicate SchemeText(s: string) {
    && s != "" && Letter(s[0])
    && forall c <- s :: Letter(c) || '0' <= c <= '9' || c == '+' || c == '-' || c == '.'
  }

  /** The schemes whose last path segment urlparse looks for params in. */
  predicate HasParams(scheme: string) {
    scheme in ["", "ftp", "hdl", "prospero", "http", "imap", "https", "shttp", "rtsp", "rtsps", "rtspu",
               "sip", "sips", "mms", "sftp", "tel"]
  }

  function SchemeRead(w: Writing): string { if w.scheme.Some? then LowerCase(w.scheme.value) else "" }

  /** No semicolon after the last slash. */
  predicate LastSegmentPlain(path: string) {
    forall k :: 0 <= k < |path| && path[k] == ';' ==> exists j :: k < j < |path| && path[j] == '/'
  }

  predicate Without(part: Option<string>, chars: string) {
    part.Some? ==> forall c <- chars :: c !in part.value
  }

  predicate PathOk(w: Writing) {
    && '?' !in w.path && '#' !in w.path
    && (w.authority.Some? ==> if w.path == "" then w.params.None? else w.path[0] == '/')
    && (w.authority.None? ==> |w.path| < 2 || w.path[0] != '/' || w.path[1] != '/')
    && (w.scheme.None? && w.authority.None? && ':' in w.path ==> !SchemeText(w.path[..Until(w.path, {':'})]))
    && (w.params.None? ==> LastSegmentPlain(w.path) || !HasParams(SchemeRead(w)))
    && (w.params.Some? ==> LastSegmentPlain(w.path) && HasParams(SchemeRead(w)))
  }

  predicate Writable(w: Writing) {
    && (forall c <- w.blanks :: c <= ' ')
    && (w.scheme.Some? ==> SchemeText(w.scheme.value))
    && Without(w.authority, "/?#") && Without(w.params, "/?#") && Without(w.query, "#")
    && PathOk(w)
    && Body(w) != "" && Body(w)[0] > ' ' && forall c <- Body(w) :: c != '\t' && c != '\r' && c != '\n'
  }

  // ---------------------------------------------------------------- what it is read as

  lemma {:induction false} BlanksGo(blanks: string, body: string)
    requires (forall c <- blanks :: c <= ' ') && body != "" && body[0] > ' '
    ensures LeftStrip(blanks + body, IsControl) == body
  {
    if blanks == "" {
      assert blanks + body == body;
    } else {
      assert (blanks + body)[0] == blanks[0] && (blanks + body)[1..] == blanks[1..] + body;
      assert blanks[0] in blanks && forall c <- blanks[1..] :: c in blanks;
      BlanksGo(blanks[1..], body);
    }
  }

  lemma {:induction false} CleanedBody(w: Writing)
    requires Writable(w)
    ensures Cleaned(TextOf(w)) == Body(w)
  {
    BlanksGo(w.blanks, Body(w));
    NothingToRemove(Body(w), UNSAFE);
  }

  lemma {:induction false} SchemeWritten(scheme: string, colon: string, rest: string)
    requires SchemeText(scheme) && colon == ":"
    ensures SplitScheme(scheme + colon + rest) == (LowerCase(scheme), rest)
  {
    assert IsScheme(scheme);
    SchemeReads(scheme, rest);
    assert scheme + colon + rest == scheme + (colon + rest);
  }

  lemma {:induction false} SchemeOfBody(w: Writing)
    requires Writable(w)
    ensures SplitScheme(Body(w)) == (SchemeRead(w), AfterScheme(w))
  {
    var rest := AfterScheme(w);
    if w.scheme.Some? {
      SchemeWritten(w.scheme.value, ":", rest);
    } else {
      NoSchemeRead(w);
      assert Body(w) == rest;
    }
  }

  lemma {:induction false} ColonInPath(path: string, rest: string)
    requires ':' in path
    ensures var i := Until(path, {':'}); i < |path| && Until(path + rest, {':'}) == i && (path + rest)[..i] == path[..i]
  {
    var i, s := Until(path, {':'}), path + rest;
    var k :| 0 <= k < |path| && path[k] == ':';
    assert i <= k;
    assert s[i] == path[i] && forall m :: 0 <= m < i ==> s[m] == path[m];
    assert s[..i] == path[..i];
  }

  lemma {:induction false} NoSchemeInPath(path: string, rest: string)
    requires ':' in path && !SchemeText(path[..Until(path, {':'})])
    ensures SplitScheme(path + rest) == ("", path + rest)
  {
    ColonInPath(path, rest);
    var start := path[..Until(path, {':'})];
    assert IsScheme(start) ==> SchemeText(start);
  }

  /** A mark before the first colon is in no scheme. */
  lemma {:induction false} NoSchemePastPath(path: string, rest: string)
    requires ':' !in path && (rest == "" || rest[0] in {';', '?', '#', '/'})
    ensures SplitScheme(path + rest) == ("", path + rest)
  {
    var s, k := path + rest, |path|;
    var i := Until(s, {':'});
    assert s[..k] == path;
    if i < |s| {
      assert forall m :: 0 <= m < k ==> s[m] == path[m] && path[m] in path;
      var start := s[..i];
      assert k < i && start[k] == rest[0] && start[k] in start;
      assert !IsSchemeChar(rest[0]);
    }
  }

  /** What stands before the first colon, if any, is no scheme. */
  lemma {:induction false} NoSchemeRead(w: Writing)
    requires PathOk(w) && w.scheme.None?
    ensures SplitScheme(AfterScheme(w)) == ("", AfterScheme(w))
  {
    var s, q := AfterScheme(w), QueryAndFragment(w);
    var rest := Marked(";", w.params) + q;
    if w.authority.Some? {
      assert s[0] == '/' && "" + s == s;
      NoSchemePastPath("", s);
    } else {
      QueryMarked(w);
      MarkedFacts(';', w.params);
      assert s == w.path + rest;
      if ':' in w.path { NoSchemeInPath(w.path, rest); } else { NoSchemePastPath(w.path, rest); }
    }
  }

  /** What follows a path begins with a mark of its own. */
  lemma {:induction false} MarksFollow(path: string, params: Option<string>, rest: string)
    requires rest == "" || rest[0] == '?' || rest[0] == '#'
    ensures var s := path + Marked(";", params) + rest;
            && s[..|path|] == path
            && (|s| > |path| ==> s[|path|] in {';', '?', '#'} && (s[|path|] == ';' ==> params.Some?))
  {
    var s := path + Marked(";", params) + rest;
    if params.Some? {
      assert s[|path|] == Marked(";", params)[0];
    } else {
      assert s == path + rest;
    }
  }

  lemma {:induction false} QueryMarked(w: Writing)
    ensures var s := QueryAndFragment(w); s == "" || s[0] == '?' || s[0] == '#'
  {
  }

  lemma {:induction false} NoNetloc(s: string)
    requires |s| < 2 || s[0] != '/' || s[1] != '/'
    ensures SplitNetloc(s) == ("", s)
  {
  }

  lemma {:induction false} SplitsNetloc(authority: Option<string>, tail: string)
    requires authority.Some? ==> (forall c <- authority.value :: c !in NETLOC_ENDS)
    requires authority.Some? ==> tail == "" || tail[0] in NETLOC_ENDS
    requires authority.None? ==> |tail| < 2 || tail[0] != '/' || tail[1] != '/'
    ensures SplitNetloc(Marked("//", authority) + tail) == (if authority.Some? then authority.value else "", tail)
  {
    if authority.Some? {
      var netloc := authority.value;
      var mark := "//";
      assert mark + netloc + tail == mark + (netloc + tail);
      NetlocReads(netloc, tail);
    } else {
      assert "" + tail == tail;
      NoNetloc(tail);
    }
  }

  /** How the text after scheme and authority may begin. */
  lemma {:induction false} TailStarts(path: string, params: Option<string>, rest: string)
    requires rest == "" || rest[0] == '?' || rest[0] == '#'
    ensures var tail := path + Marked(";", params) + rest;
            && (path == "" && params.None? ==> tail == "" || tail[0] in NETLOC_ENDS)
            && (path != "" ==> tail[0] == path[0])
            && (|path| < 2 || path[0] != '/' || path[1] != '/' ==> |tail| < 2 || tail[0] != '/' || tail[1] != '/')
  {
    MarksFollow(path, params, rest);
    var tail := path + Marked(";", params) + rest;
    assert |path| >= 2 ==> tail[0] == path[0] && tail[1] == path[1];
  }

  lemma {:induction false} NetlocOfText(w: Writing)
    requires Without(w.authority, "/?#") && PathOk(w)
    ensures SplitNetloc(AfterScheme(w)) ==
            (if w.authority.Some? then w.authority.value else "", PathText(w) + QueryAndFragment(w))
  {
    var rest := QueryAndFragment(w);
    QueryMarked(w);
    TailStarts(w.path, w.params, rest);
    if w.authority.Some? { assert '/' in "/?#" && '?' in "/?#" && '#' in "/?#"; }
    SplitsNetloc(w.authority, PathText(w) + rest);
  }

  /** A part that is marked, or not there. */
  lemma {:induction false} MarkedFacts(mark: char, part: Option<string>)
    ensures var s := Marked([mark], part);
            && (s == "" || s[0] == mark)
            && (part.Some? ==> s[1..] == part.value)
            && (forall c <- s :: c == mark || (part.Some? && c in part.value))
  {
  }

  lemma {:induction false} SplitsQuery(p: string, query: Option<string>, fragment: Option<string>)
    requires (forall c <- p :: c != '?' && c != '#') && (query.Some? ==> '#' !in query.value)
    ensures SplitQuery(p + (Marked("?", query) + Marked("#", fragment))) ==
            (p, if query.Some? then query.value else "")
  {
    var q, f := Marked("?", query), Marked("#", fragment);
    MarkedFacts('?', query);
    MarkedFacts('#', fragment);
    var t := p + q;
    assert p + (q + f) == t + f;
    UntilIs(t, f, {'#'});
    assert (t + f)[..|t|] == t;
    UntilIs(p, q, {'?'});
    assert t[..|p|] == p && t[|p|..] == q;
    if query.Some? { assert t[|p| + 1..] == q[1..]; }
  }

  lemma {:induction false} QueryOfText(w: Writing)
    requires Writable(w)
    ensures SplitQuery(PathText(w) + QueryAndFragment(w)) ==
            (PathText(w), if w.query.Some? then w.query.value else "")
  {
    MarkedFacts(';', w.params);
    SplitsQuery(PathText(w), w.query, w.fragment);
  }

  lemma {:induction false} SegmentStartIs(path: string, last: string)
    requires '/' !in last
    ensures SegmentStart(path + last) == SegmentStart(path)
  {
    if last != "" {
      var whole := path + last;
      var init := last[..|last| - 1];
      assert last[|last| - 1] in last && forall c <- init :: c in last;
      assert whole[|whole| - 1] == last[|last| - 1] && whole[..|whole| - 1] == path + init;
      SegmentStartIs(path, init);
    } else {
      assert path + last == path;
    }
  }

  lemma LastSegmentHasNone(path: string)
    requires LastSegmentPlain(path)
    ensures forall k :: SegmentStart(path) <= k < |path| ==> path[k] != ';'
  {
  }

  lemma {:induction false} ParamsGo(path: string, params: Option<string>)
    requires LastSegmentPlain(path) && Without(params, "/?#")
    ensures ParamsAt(path + Marked(";", params)) == |path|
  {
    var m := Marked(";", params);
    MarkedFacts(';', params);
    if params.Some? { assert '/' in "/?#"; }
    var whole, start := path + m, SegmentStart(path);
    SegmentStartIs(path, m);
    LastSegmentHasNone(path);
    var last := path[start..];
    assert whole[start..] == last + m;
    assert forall c <- last :: c !in {';'};
    UntilIs(last, m, {';'});
  }

  lemma {:induction false} ParamsOfText(w: Writing)
    requires Writable(w)
    ensures WithoutParams(SchemeRead(w), PathText(w)) == w.path
  {
    var scheme := SchemeRead(w);
    assert HasParams(scheme) <==> TakesParams(scheme);
    assert w.params.None? ==> PathText(w) == w.path;
    if HasParams(scheme) {
      ParamsGo(w.path, w.params);
      assert PathText(w)[..|w.path|] == w.path;
    }
  }

  // ---------------------------------------------------------------- what it becomes

  /** One trailing slash less. */
  function LessSlash(path: string): string {
    if path != "" && path[|path| - 1] == '/' then path[..|path| - 1] else path
  }

  /** A text is read as it was written. */
  lemma {:induction false} ReadsWriting(w: Writing)
    requires Writable(w)
    ensures Parse(TextOf(w)) ==
            Parts(SchemeRead(w), if w.authority.Some? then w.authority.value else "", w.path,
                  if w.query.Some? then w.query.value else "")
  {
    CleanedBody(w);
    SchemeOfBody(w);
    NetlocOfText(w);
    QueryOfText(w);
    ParamsOfText(w);
  }

  lemma AssembledIs(u: Parts)
    ensures Assembled(u) ==
            (if u.scheme == "" then "http" else u.scheme) + "://" + LowerCase(u.netloc) + LessSlash(u.path) +
            (if u.query == "" then "" else "?" + u.query)
  {
    var scheme, host, path, query := SchemeOf(u), LowerCase(u.netloc), NormalizePath(u.path), QueryText(u.query);
    assert path == LessSlash(u.path);
    assert scheme + ("://" + (host + (path + query))) == scheme + "://" + host + path + query;
  }

  /** normalize_url, for every text: scheme and authority in lower case, http where no scheme is written, the path less
      a trailing slash, and the query; blanks, params and fragment are dropped. */
  lemma {:induction false} NormalizesWriting(w: Writing, bad: string -> bool)
    requires Writable(w) && !(w.authority.Some? && w.authority.value != "" && bad(w.authority.value))
    ensures NormalizeUrl(TextOf(w), bad) ==
            (if w.scheme.Some? then LowerCase(w.scheme.value) else "http") + "://" +
            (if w.authority.Some? then LowerCase(w.authority.value) else "") + LessSlash(w.path) +
            (if w.query.Some? && w.query.value != "" then "?" + w.query.value else "")
  {
    ReadsWriting(w);
    var t := TextOf(w);
    var u := Parse(t);
    AssembledIs(u);
    assert t != "" && !Refused(t, bad);
    assert LowerCase("") == "";
  }

  lemma EmptyStays(bad: string -> bool)
    ensures |NormalizeUrl("", bad)| == 0
  {
  }

  /** A text whose authority urlparse refuses is only stripped. */
  lemma {:induction false} RefusedIsStripped(w: Writing, bad: string -> bool)
    requires Writable(w) && w.authority.Some? && w.authority.value != "" && bad(w.authority.value)
    ensures NormalizeUrl(TextOf(w), bad) == Strip(TextOf(w))
  {
    ReadsWriting(w);
    var t := TextOf(w);
    assert t != "" && Refused(t, bad);
  }

  /** Whatever the text, if it is not refused: it becomes one with the scheme it had, or http, and with its netloc in
      lower case, and is read as such the next time. */
  lemma {:induction false} SchemeAndHostStay(raw: string, bad: string -> bool)
    requires raw != "" && !Refused(raw, bad)
    ensures
      var u, t := Parse(raw), NormalizeUrl(raw, bad);
      var scheme := if u.scheme == "" then "http" else u.scheme;
      && scheme + "://" <= t
      && Parse(t).scheme == scheme
      && (u.netloc != "" ==> Parse(t).netloc == LowerCase(u.netloc))
  {
    var u := Parse(raw);
    ParsedWell(raw);
    SecondCall(u);
    AssembledBegins(u);
    assert NormalizeUrl(raw, bad) == Assembled(u);
  }

  lemma AssembledBegins(u: Parts)
    ensures (if u.scheme == "" then "http" else u.scheme) + "://" <= Assembled(u)
  {
    AssembledIs(u);
  }

  lemma {:induction false} RemoveJoins(a: string, b: string, drop: set<char>)
    ensures Remove(a + b, drop) == Remove(a, drop) + Remove(b, drop)
  {
    if a == "" {
      assert a + b == b;
    } else {
      assert (a + b)[0] == a[0] && (a + b)[1..] == a[1..] + b;
      RemoveJoins(a[1..], b, drop);
    }
  }

  lemma {:induction false} RemovesOne(a: string, m: string, b: string, drop: set<char>)
    requires |m| == 1 && m[0] in drop
    ensures Remove(a + m + b, drop) == Remove(a + b, drop)
  {
    var am := a + m;
    RemoveJoins(am, b, drop);
    RemoveJoins(a, m, drop);
    RemoveJoins(a, b, drop);
    RemovesAll(m, drop);
  }

  lemma RemovesAll(m: string, drop: set<char>)
    requires |m| == 1 && m[0] in drop
    ensures Remove(m, drop) == ""
  {
    assert m[1..] == "";
  }

  lemma {:induction false} LeadingGo(a: string, rest: string)
    requires forall c <- a :: IsControl(c)
    ensures LeftStrip(a + rest, IsControl) == LeftStrip(rest, IsControl)
  {
    if a == "" {
      assert a + rest == rest;
    } else {
      assert (a + rest)[0] == a[0] && (a + rest)[1..] == a[1..] + rest;
      assert a[0] in a && forall c <- a[1..] :: c in a;
      LeadingGo(a[1..], rest);
    }
  }

  lemma {:induction false} LeadingStops(a: string, rest: string)
    requires exists c :: c in a && !IsControl(c)
    ensures LeftStrip(a + rest, IsControl) == LeftStrip(a, IsControl) + rest
  {
    assert (a + rest)[0] == a[0] && (a + rest)[1..] == a[1..] + rest;
    if IsControl(a[0]) {
      var c :| c in a && !IsControl(c);
      assert c in a[1..];
      LeadingStops(a[1..], rest);
    }
  }

  /** Tabs and line ends make no difference anywhere in a text. */
  lemma {:induction false} LineEndsGo(a: string, c: char, b: string)
    requires c == '\t' || c == '\r' || c == '\n'
    ensures Parse(a + [c] + b) == Parse(a + b)
  {
    var s, t := a + [c] + b, a + b;
    assert Cleaned(s) == Cleaned(t) by {
      if forall d <- a :: IsControl(d) {
        LeadingGo(a + [c], b);
        LeadingGo(a, b);
      } else {
        var start := LeftStrip(a, IsControl);
        LeadingStops(a, [c] + b);
        LeadingStops(a, b);
        assert s == a + ([c] + b) && start + ([c] + b) == start + [c] + b;
        RemovesOne(start, [c], b, UNSAFE);
      }
    }
  }
}
