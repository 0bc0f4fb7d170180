/** What Python's str methods do, on sequences of characters. */
module Strings {
  /** str.lower, on ASCII letters. */
  function LowerCase(s: string): (t: string)
    ensures |t| == |s|
    ensures forall k :: 0 <= k < |s| ==> t[k] == Lower(s[k])
  {
    seq(|s|, k requires 0 <= k < |s| => Lower(s[k]))
  }

  function Lower(c: char): char {
    if 'A' <= c <= 'Z' then (c as int + 32) as char else c
  }

  /** str.isspace */
  predicate IsSpace(c: char) {
    || '\t' <= c <= '\r' || '\U{1c}' <= c <= ' ' || c == '\U{85}' || c == '\U{a0}' || c == '\U{1680}'
    || '\U{2000}' <= c <= '\U{200a}' || c == '\U{2028}' || c == '\U{2029}' || c == '\U{202f}' || c == '\U{205f}'
    || c == '\U{3000}'
  }

  /** Where the first of these characters is, or the end. */
  function Until(s: string, stops: set<char>): (i: nat)
    ensures i <= |s|
    ensures forall k :: 0 <= k < i ==> s[k] !in stops
    ensures i < |s| ==> s[i] in stops
  {
    if s == "" || s[0] in stops then 0 else 1 + Until(s[1..], stops)
  }

  lemma {:induction false} UntilIs(s: string, t: string, stops: set<char>)
    requires (forall c <- s :: c !in stops) && (t == "" || t[0] in stops)
    ensures Until(s + t, stops) == |s|
  {
    assert forall k :: 0 <= k < |s| ==> (s + t)[k] == s[k] && s[k] in s;
    assert t != "" ==> (s + t)[|s|] == t[0];
  }

  /** Where the text after the last slash starts. */
  function SegmentStart(s: string): (i: nat)
    ensures i <= |s|
    ensures forall k :: i <= k < |s| ==> s[k] != '/'
    ensures i > 0 ==> s[i - 1] == '/'
  {
    if s == "" || s[|s| - 1] == '/' then |s| else SegmentStart(s[..|s| - 1])
  }

  function Remove(s: string, drop: set<char>): (t: string)
    ensures forall c :: c in t <==> c in s && c !in drop
  {
    if s == "" then ""
    else
      assert s == [s[0]] + s[1..];
      (if s[0] in drop then "" else [s[0]]) + Remove(s[1..], drop)
  }

  lemma {:induction false} NothingToRemove(s: string, drop: set<char>)
    requires forall c <- s :: c !in drop
    ensures Remove(s, drop) == s
  {
    if s != "" {
      assert s == [s[0]] + s[1..];
      NothingToRemove(s[1..], drop);
    }
  }

  // ---------------------------------------------------------------- strip

  function LeftStrip(s: string, isSpace: char -> bool): (t: string)
    ensures t == "" || !isSpace(t[0])
    ensures forall c <- t :: c in s
  {
    if s == "" || !isSpace(s[0]) then s
    else
      assert s == [s[0]] + s[1..];
      LeftStrip(s[1..], isSpace)
  }

  function RightStrip(s: string, isSpace: char -> bool): string {
    if s != "" && isSpace(s[|s| - 1]) then RightStrip(s[..|s| - 1], isSpace) else s
  }

  function Strip(s: string): string {
    RightStrip(LeftStrip(s, IsSpace), IsSpace)
  }

  predicate AllBlank(s: string) { forall c <- s :: IsSpace(c) }

  predicate Trimmed(s: string) {
    s == "" || (!IsSpace(s[0]) && !IsSpace(s[|s| - 1]))
  }

  lemma {:induction false} LeftStripDropsPad(pad: string, s: string)
    requires AllBlank(pad)
    ensures LeftStrip(pad + s, IsSpace) == LeftStrip(s, IsSpace)
  {
    if pad == "" {
      assert pad + s == s;
    } else {
      assert (pad + s)[0] == pad[0] && (pad + s)[1..] == pad[1..] + s;
      assert forall c <- pad[1..] :: c in pad;
      LeftStripDropsPad(pad[1..], s);
    }
  }

  lemma {:induction false} RightStripDropsPad(s: string, pad: string)
    requires AllBlank(pad)
    ensures RightStrip(s + pad, IsSpace) == RightStrip(s, IsSpace)
  {
    if pad == "" {
      assert s + pad == s;
    } else {
      var shorter := pad[..|pad| - 1];
      assert (s + pad)[|s + pad| - 1] == pad[|pad| - 1] && (s + pad)[..|s + pad| - 1] == s + shorter;
      assert forall c <- shorter :: c in pad;
      RightStripDropsPad(s, shorter);
    }
  }

  /** Text between blanks is what strip leaves of it. */
  lemma StripDropsPads(left: string, s: string, right: string)
    requires AllBlank(left) && AllBlank(right) && Trimmed(s)
    ensures Strip(left + s + right) == s
  {
    assert left + s + right == left + (s + right);
    LeftStripDropsPad(left, s + right);
    if s == "" {
      assert s + right == right + "";
      LeftStripDropsPad(right, "");
    } else {
      assert (s + right)[0] == s[0];
      RightStripDropsPad(s, right);
    }
  }

  lemma {:induction false} LeftStripStops(s: string, rest: string)
    requires rest != "" && (!IsSpace(rest[0]) || (s != "" && !IsSpace(s[|s| - 1])))
    ensures LeftStrip(s + rest, IsSpace) == LeftStrip(s, IsSpace) + rest
  {
    if s == "" {
      assert s + rest == rest;
    } else {
      assert (s + rest)[0] == s[0] && (s + rest)[1..] == s[1..] + rest;
      if IsSpace(s[0]) { LeftStripStops(s[1..], rest); }
    }
  }

  lemma {:induction false} RightStripStops(start: string, s: string)
    requires start != "" && !IsSpace(start[|start| - 1])
    ensures RightStrip(start + s, IsSpace) == start + RightStrip(s, IsSpace)
  {
    if s == "" {
      assert start + s == start;
    } else {
      var whole := start + s;
      assert whole[|whole| - 1] == s[|s| - 1] && whole[..|whole| - 1] == start + s[..|s| - 1];
      if IsSpace(s[|s| - 1]) { RightStripStops(start, s[..|s| - 1]); }
    }
  }

  lemma {:induction false} LeftStripTwice(s: string)
    ensures LeftStrip(LeftStrip(s, IsSpace), IsSpace) == LeftStrip(s, IsSpace)
  {
    if s != "" && IsSpace(s[0]) { LeftStripTwice(s[1..]); }
  }

  lemma {:induction false} RightStripSplits(s: string) returns (pad: string)
    ensures s == RightStrip(s, IsSpace) + pad && AllBlank(pad)
    ensures RightStrip(s, IsSpace) == "" || !IsSpace(RightStrip(s, IsSpace)[|RightStrip(s, IsSpace)| - 1])
  {
    if s != "" && IsSpace(s[|s| - 1]) {
      var shorter := RightStripSplits(s[..|s| - 1]);
      pad := shorter + [s[|s| - 1]];
    } else {
      pad := "";
    }
  }

  lemma StripAfterRightStrip(s: string)
    ensures Strip(RightStrip(s, IsSpace)) == Strip(s)
  {
    var w := RightStrip(s, IsSpace);
    var pad := RightStripSplits(s);
    if w == "" {
      assert s == pad + "";
      LeftStripDropsPad(pad, "");
    } else if pad != "" {
      LeftStripStops(w, pad);
      RightStripDropsPad(LeftStrip(w, IsSpace), pad);
    }
  }

  lemma StripTwice(s: string)
    ensures Strip(Strip(s)) == Strip(s)
  {
    var t := LeftStrip(s, IsSpace);
    var pad := RightStripSplits(t);
    assert Strip(s) != "" ==> Strip(s)[0] == t[0];
    StripDropsPads("", Strip(s), "");
    assert "" + Strip(s) + "" == Strip(s);
  }

  lemma {:induction false} LeftStripKeeps(s: string, c: char)
    requires !IsSpace(c)
    ensures c in LeftStrip(s, IsSpace) <==> c in s
  {
    if s != "" && IsSpace(s[0]) {
      assert s == [s[0]] + s[1..];
      LeftStripKeeps(s[1..], c);
    }
  }

  lemma {:induction false} RightStripKeeps(s: string, c: char)
    requires !IsSpace(c)
    ensures c in RightStrip(s, IsSpace) <==> c in s
  {
    if s != "" && IsSpace(s[|s| - 1]) {
      assert s == s[..|s| - 1] + [s[|s| - 1]];
      RightStripKeeps(s[..|s| - 1], c);
    }
  }

  /** Stripping loses blanks only. */
  lemma StripKeeps(s: string, c: char)
    requires !IsSpace(c)
    ensures c in Strip(s) <==> c in s
  {
    LeftStripKeeps(s, c);
    RightStripKeeps(LeftStrip(s, IsSpace), c);
  }

  /** Lowering, in ASCII codes: 65 to 90 become 97 to 122. */
  lemma LowersLetters(c: char)
    ensures Lower(c) as int == if 65 <= c as int <= 90 then c as int + 32 else c as int
  {
  }

  /** The blanks by their code points. */
  lemma BlanksByCode(c: char)
    ensures IsSpace(c) <==>
      || 9 <= c as int <= 13 || 28 <= c as int <= 32 || 8192 <= c as int <= 8202
      || c as int in {133, 160, 5760, 8232, 8233, 8239, 8287, 12288}
  {
  }
}
