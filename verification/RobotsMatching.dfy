/** How robots.txt patterns match a path: the regular expression the code builds, the glob it amounts
    to, and where that differs from RFC 9309. */
module RobotsMatching {

  // ---------------------------------------------------------------- the regular expression

  /** The expression a pattern becomes: its characters stand for themselves, but a star for any run. */
  datatype Rx = Literal(c: char) | DotStar

  function Translate(pattern: string): (rx: seq<Rx>)
    ensures |rx| == |pattern|
  {
    if pattern == "" then [] else [if pattern[0] == '*' then DotStar else Literal(pattern[0])] + Translate(pattern[1..])
  }

  predicate NoNewline(s: string) { '\n' !in s }

  /** The whole of s matches; a dot matches anything but a newline. */
  ghost predicate FullMatch(rx: seq<Rx>, s: string)
    decreases |rx|, 0
  {
    if rx == [] then s == ""
    else
      match rx[0]
      case Literal(c) => s != "" && s[0] == c && FullMatch(rx[1..], s[1..])
      case DotStar => exists k :: DotsThen(rx[1..], s, k)
  }

  /** k dots and then rx match the whole of s. */
  ghost predicate DotsThen(rx: seq<Rx>, s: string, k: int)
    decreases |rx|, 1
  {
    0 <= k <= |s| && NoNewline(s[..k]) && FullMatch(rx, s[k..])
  }

  predicate EndsInDollar(pattern: string) {
    pattern != "" && pattern[|pattern| - 1] == '$'
  }

  /** Searching a path: a pattern with a final '$' is searched for anywhere before the end (or before a final
      newline), any other only at the start. */
  ghost predicate RegexSearch(path: string, pattern: string) {
    if pattern == "" then false
    else if EndsInDollar(pattern) then
      var rx := Translate(pattern[..|pattern| - 1]);
      exists i, j :: EndMatch(rx, path, i, j)
    else
      exists j :: 0 <= j <= |path| && FullMatch(Translate(pattern), path[..j])
  }

  ghost predicate EndMatch(rx: seq<Rx>, path: string, i: int, j: int) {
    0 <= i <= j <= |path| && FullMatch(rx, path[i..j]) && (j == |path| || path[j..] == "\n")
  }

  // ---------------------------------------------------------------- globs

  /** The pattern matches all of s, '*' standing for any run of characters of a line. */
  predicate FullGlob(pattern: string, s: string)
    decreases |pattern| + |s|
  {
    if pattern == "" then s == ""
    else if pattern[0] == '*' then
      FullGlob(pattern[1..], s) || (s != "" && s[0] != '\n' && FullGlob(pattern, s[1..]))
    else s != "" && s[0] == pattern[0] && FullGlob(pattern[1..], s[1..])
  }

  /** The pattern matches some beginning of s. */
  predicate PrefixGlob(pattern: string, s: string)
    decreases |pattern| + |s|
  {
    if pattern == "" then true
    else if pattern[0] == '*' then
      PrefixGlob(pattern[1..], s) || (s != "" && s[0] != '\n' && PrefixGlob(pattern, s[1..]))
    else s != "" && s[0] == pattern[0] && PrefixGlob(pattern[1..], s[1..])
  }

  predicate PathMatches(path: string, pattern: string) {
    if pattern == "" then false
    else if EndsInDollar(pattern) then
      var body := pattern[..|pattern| - 1];
      exists i :: 0 <= i <= |path| && EndGlob(body, path, i)
    else PrefixGlob(pattern, path)
  }

  /** The pattern matches what path holds from i on, up to the end or to a final newline. */
  predicate EndGlob(body: string, path: string, i: nat)
    requires i <= |path|
  {
    || FullGlob(body, path[i..])
    || (i < |path| && path[|path| - 1] == '\n' && FullGlob(body, path[i..|path| - 1]))
  }

  lemma {:induction false} GlobIsRegex(pattern: string, s: string)
    ensures FullGlob(pattern, s) <==> FullMatch(Translate(pattern), s)
    decreases |pattern| + |s|
  {
    if pattern != "" {
      assert Translate(pattern)[1..] == Translate(pattern[1..]);
      if pattern[0] == '*' {
        StarIsDotStar(pattern, s);
      } else if s != "" {
        GlobIsRegex(pattern[1..], s[1..]);
      }
    }
  }

  lemma {:induction false} StarIsDotStar(pattern: string, s: string)
    requires pattern != "" && pattern[0] == '*'
    ensures FullGlob(pattern, s) <==> FullMatch(Translate(pattern), s)
    decreases |pattern| + |s|, 0
  {
    var rest := Translate(pattern[1..]);
    assert Translate(pattern)[1..] == rest && Translate(pattern)[0] == DotStar;
    GlobIsRegex(pattern[1..], s);
    assert FullMatch(rest, s) <==> DotsThen(rest, s, 0) by { assert s[0..] == s && s[..0] == ""; }
    if s != "" {
      StarIsDotStar(pattern, s[1..]);
      if s[0] != '\n' && FullMatch(Translate(pattern), s[1..]) {
        var k :| DotsThen(rest, s[1..], k);
        OneMoreDot(rest, s, k);
        assert DotsThen(rest, s, k + 1);
      }
    }
    assert FullMatch(Translate(pattern), s) == exists k :: DotsThen(rest, s, k);
    if FullMatch(Translate(pattern), s) {
      var k :| DotsThen(rest, s, k);
      if k > 0 {
        assert s[0] == s[..k][0];
        OneMoreDot(rest, s, k - 1);
        assert DotsThen(rest, s[1..], k - 1);
      }
    }
  }

  lemma OneMoreDot(rx: seq<Rx>, s: string, k: int)
    requires s != "" && s[0] != '\n'
    ensures DotsThen(rx, s[1..], k) <==> k >= 0 && DotsThen(rx, s, k + 1)
  {
    if 0 <= k <= |s| - 1 {
      assert s[1..][k..] == s[k + 1..];
      assert s[..k + 1] == [s[0]] + s[1..][..k];
    }
  }

  lemma {:induction false} PrefixIsSomeBeginning(pattern: string, s: string)
    ensures PrefixGlob(pattern, s) <==> exists j :: 0 <= j <= |s| && FullGlob(pattern, s[..j])
    decreases |pattern| + |s|
  {
    if pattern == "" {
      assert FullGlob(pattern, s[..0]);
    } else {
      if pattern[0] == '*' { PrefixIsSomeBeginning(pattern[1..], s); }
      if s != "" { PrefixIsSomeBeginning(if pattern[0] == '*' then pattern else pattern[1..], s[1..]); }
      forall j | 0 <= j <= |s|
        ensures FullGlob(pattern, s[..j]) ==> PrefixGlob(pattern, s)
      {
        if j > 0 { assert s[..j][0] == s[0] && s[..j][1..] == s[1..][..j - 1]; }
      }
      if PrefixGlob(pattern, s) {
        if pattern[0] == '*' && PrefixGlob(pattern[1..], s) {
          var j :| 0 <= j <= |s| && FullGlob(pattern[1..], s[..j]);
          assert FullGlob(pattern, s[..j]);
        } else {
          var tail := if pattern[0] == '*' then pattern else pattern[1..];
          var j :| 0 <= j <= |s| - 1 && FullGlob(tail, s[1..][..j]);
          assert s[..j + 1][0] == s[0] && s[..j + 1][1..] == s[1..][..j];
          assert FullGlob(pattern, s[..j + 1]);
        }
      }
    }
  }

  /** The recursive glob matcher decides exactly what the regular expression search finds. */
  lemma MatchesAsRegex(path: string, pattern: string)
    ensures PathMatches(path, pattern) <==> RegexSearch(path, pattern)
  {
    if EndsInDollar(pattern) {
      var body := pattern[..|pattern| - 1];
      forall i, j | EndMatch(Translate(body), path, i, j)
        ensures EndGlob(body, path, i)
      {
        MatchIsEndGlob(path, body, i, j);
      }
      forall i | 0 <= i <= |path| && EndGlob(body, path, i)
        ensures exists j :: EndMatch(Translate(body), path, i, j)
      {
        EndGlobIsMatch(path, body, i);
      }
    } else if pattern != "" {
      PrefixIsSomeBeginning(pattern, path);
      forall j | 0 <= j <= |path|
        ensures FullGlob(pattern, path[..j]) <==> FullMatch(Translate(pattern), path[..j])
      {
        GlobIsRegex(pattern, path[..j]);
      }
    }
  }

  lemma MatchIsEndGlob(path: string, body: string, i: int, j: int)
    requires EndMatch(Translate(body), path, i, j)
    ensures EndGlob(body, path, i)
  {
    GlobIsRegex(body, path[i..j]);
    if j == |path| {
      assert path[i..j] == path[i..];
    } else {
      assert |path[j..]| == 1 && path[j..][0] == path[j];
    }
  }

  lemma EndGlobIsMatch(path: string, body: string, i: nat)
    requires i <= |path| && EndGlob(body, path, i)
    ensures exists j :: EndMatch(Translate(body), path, i, j)
  {
    if FullGlob(body, path[i..]) {
      assert path[i..] == path[i..|path|];
      GlobIsRegex(body, path[i..]);
      assert EndMatch(Translate(body), path, i, |path|);
    } else {
      GlobIsRegex(body, path[i..|path| - 1]);
      assert path[|path| - 1..] == "\n";
      assert EndMatch(Translate(body), path, i, |path| - 1);
    }
  }

  // ---------------------------------------------------------------- consequences

  /** Without a final '$', what matches a path matches everything below it. */
  lemma {:induction false} ExtendingKeepsMatch(pattern: string, path: string, more: string)
    requires PrefixGlob(pattern, path)
    ensures PrefixGlob(pattern, path + more)
    decreases |pattern| + |path|
  {
    if pattern != "" {
      if path != "" { assert (path + more)[0] == path[0] && (path + more)[1..] == path[1..] + more; }
      if pattern[0] == '*' {
        if PrefixGlob(pattern[1..], path) {
          ExtendingKeepsMatch(pattern[1..], path, more);
        } else {
          ExtendingKeepsMatch(pattern, path[1..], more);
        }
      } else {
        ExtendingKeepsMatch(pattern[1..], path[1..], more);
      }
    }
  }

  /** With a final '$', what matches a path matches every path that ends in it. */
  lemma DollarMatchesAnySuffix(pattern: string, before: string, path: string)
    requires EndsInDollar(pattern) && PathMatches(path, pattern)
    ensures PathMatches(before + path, pattern)
  {
    var body := pattern[..|pattern| - 1];
    var i :| 0 <= i <= |path| && EndGlob(body, path, i);
    var whole := before + path;
    var k := |before| + i;
    assert whole[k..] == path[i..];
    if i < |path| {
      assert whole[|whole| - 1] == path[|path| - 1];
      assert whole[k..|whole| - 1] == path[i..|path| - 1];
    }
    assert EndGlob(body, whole, k);
  }

  /** RFC 9309, section 2.2.3: '$' ends the pattern, and matching starts at the path's first octet. */
  predicate RfcMatches(path: string, body: string) {
    FullGlob(body, path)
  }

  lemma {:induction false} StarAbsorbs(body: string, s: string, i: nat)
    requires body != "" && body[0] == '*' && i <= |s| && NoNewline(s) && FullGlob(body, s[i..])
    ensures FullGlob(body, s)
    decreases i
  {
    if i == 0 {
      assert s[0..] == s;
    } else {
      assert s[1..][i - 1..] == s[i..];
      assert s[0] in s && forall c <- s[1..] :: c in s;
      StarAbsorbs(body, s[1..], i - 1);
    }
  }

  /** The pattern with its stars left out, which it matches. */
  function Plain(body: string): string {
    if body == "" then "" else (if body[0] == '*' then "" else [body[0]]) + Plain(body[1..])
  }

  lemma {:induction false} PlainMatches(body: string)
    requires NoNewline(body)
    ensures FullGlob(body, Plain(body)) && NoNewline(Plain(body))
  {
    if body != "" {
      assert body == [body[0]] + body[1..];
      PlainMatches(body[1..]);
      if body[0] != '*' {
        assert Plain(body)[1..] == Plain(body[1..]);
      } else {
        assert Plain(body) == Plain(body[1..]);
      }
    }
  }

  /** The code and RFC 9309 agree on a pattern with a final '$', over all paths, if and only if the
      pattern begins with '*'. */
  lemma DollarAgreesWithRfcExactly(body: string)
    requires NoNewline(body)
    ensures (forall path :: NoNewline(path) ==> (PathMatches(path, body + "$") <==> RfcMatches(path, body)))
            <==> body != "" && body[0] == '*'
  {
    var pattern := body + "$";
    assert pattern[..|pattern| - 1] == body;
    if body != "" && body[0] == '*' {
      forall path | NoNewline(path)
        ensures PathMatches(path, pattern) <==> RfcMatches(path, body)
      {
        StarPatternAgrees(path, body);
      }
    } else {
      var first := if body != "" && body[0] == 'a' then 'b' else 'a';
      var path := [first] + Plain(body);
      PlainMatches(body);
      assert path[1..] == Plain(body);
      assert !RfcMatches(path, body);
      assert EndGlob(body, path, 1);
      assert PathMatches(path, pattern);
      assert NoNewline(path);
    }
  }

  lemma StarPatternAgrees(path: string, body: string)
    requires body != "" && body[0] == '*' && NoNewline(path)
    ensures PathMatches(path, body + "$") <==> RfcMatches(path, body)
  {
    assert (body + "$")[..|body + "$"| - 1] == body;
    assert path[0..] == path;
    assert |path| > 0 ==> path[|path| - 1] in path;
    forall i | 0 <= i <= |path| && EndGlob(body, path, i)
      ensures FullGlob(body, path)
    {
      StarAbsorbs(body, path, i);
    }
    assert FullGlob(body, path) ==> EndGlob(body, path, 0);
  }
}
