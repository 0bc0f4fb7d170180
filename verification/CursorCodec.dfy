/** How a page's last id becomes the opaque cursor a client sends back. */
module CursorCodec {
  import opened Collections

  type Byte = b: int | 0 <= b < 256

  type Sextet = v: int | 0 <= v < 64

  // ---------------------------------------------------------------- URL-safe base64

  function CharOf(v: Sextet): char {
    if v < 26 then ('A' as int + v) as char
    else if v < 52 then ('a' as int + (v - 26)) as char
    else if v < 62 then ('0' as int + (v - 52)) as char
    else if v == 62 then '-' else '_'
  }

  /** The value of a character, if it is in the alphabet; urlsafe_b64decode also takes '+' and '/'. */
  function ValueOf(c: char): Option<Sextet> {
    if 'A' <= c <= 'Z' then Some(c as int - 'A' as int)
    else if 'a' <= c <= 'z' then Some(c as int - 'a' as int + 26)
    else if '0' <= c <= '9' then Some(c as int - '0' as int + 52)
    else if c == '-' || c == '+' then Some(62)
    else if c == '_' || c == '/' then Some(63)
    else None
  }

  lemma CharHasItsValue(v: Sextet)
    ensures ValueOf(CharOf(v)) == Some(v) && CharOf(v) != '='
  {
  }

  function Encode64(bytes: seq<Byte>): string {
    if bytes == [] then ""
    else
      var a := bytes[0];
      if |bytes| == 1 then [CharOf(a / 4), CharOf(a % 4 * 16), '=', '=']
      else
        var b := bytes[1];
        if |bytes| == 2 then [CharOf(a / 4), CharOf(a % 4 * 16 + b / 16), CharOf(b % 16 * 4), '=']
        else
          var c := bytes[2];
          [CharOf(a / 4), CharOf(a % 4 * 16 + b / 16), CharOf(b % 16 * 4 + c / 64), CharOf(c % 64)] +
          Encode64(bytes[3..])
  }

  /** The lenient decoder between two characters: `quad` characters of the current four have been read and
      left the bits `left`, `pads` padding characters came since, `out` is decoded. */
  datatype Decoder = Decoder(quad: nat, left: nat, pads: nat, out: seq<Byte>, done: bool) {
    predicate Ok() {
      quad <= 3 && left < 64 && (quad == 2 ==> left < 16) && (quad == 3 ==> left < 4)
    }
  }

  /** One character: enough padding ends the input, and what is not in the alphabet is skipped. */
  function Feed(d: Decoder, c: char): (e: Decoder)
    requires d.Ok()
    ensures e.Ok()
  {
    if d.done then d
    else if c == '=' then
      if d.quad < 2 then d
      else if d.quad + d.pads + 1 >= 4 then d.(done := true)
      else d.(pads := d.pads + 1)
    else
      match ValueOf(c)
      case None => d
      case Some(v) => FeedValue(d, v)
  }

  function FeedValue(d: Decoder, v: Sextet): (e: Decoder)
    requires d.Ok() && !d.done
    ensures e.Ok()
  {
    match d.quad
    case 0 => Decoder(1, v, 0, d.out, false)
    case 1 => Decoder(2, v % 16, 0, d.out + [d.left * 4 + v / 16], false)
    case 2 => Decoder(3, v % 4, 0, d.out + [d.left * 16 + v / 4], false)
    case _ => Decoder(0, 0, 0, d.out + [d.left * 64 + v], false)
  }

  function FeedAll(d: Decoder, s: string): Decoder
    requires d.Ok()
    decreases |s|
  {
    if s == "" then d else FeedAll(Feed(d, s[0]), s[1..])
  }

  /** urlsafe_b64decode; None where it raises. */
  function Decode64(s: string): Option<seq<Byte>> {
    var d := FeedAll(Decoder(0, 0, 0, [], false), s);
    if d.done || d.quad == 0 then Some(d.out) else None
  }

  lemma {:induction false} FeedFour(d: Decoder, s: string)
    requires d.Ok() && |s| >= 4
    ensures FeedAll(d, s) == FeedAll(Feed(Feed(Feed(Feed(d, s[0]), s[1]), s[2]), s[3]), s[4..])
  {
    var d1 := Feed(d, s[0]);
    var d2 := Feed(d1, s[1]);
    var d3 := Feed(d2, s[2]);
    FeedOne(d, s);
    FeedOne(d1, s[1..]);
    assert s[1..][1..] == s[2..];
    FeedOne(d2, s[2..]);
    assert s[2..][1..] == s[3..];
    FeedOne(d3, s[3..]);
    assert s[3..][1..] == s[4..];
  }

  lemma FeedOne(d: Decoder, s: string)
    requires d.Ok() && s != ""
    ensures FeedAll(d, s) == FeedAll(Feed(d, s[0]), s[1..])
  {
  }

  lemma FeedChar(d: Decoder, v: Sextet)
    requires d.Ok() && !d.done
    ensures Feed(d, CharOf(v)) == FeedValue(d, v)
  {
    CharHasItsValue(v);
  }

  lemma ThreeBytes(out: seq<Byte>, pads: nat, a: Byte, b: Byte, c: Byte, s: string)
    requires |s| >= 4 && s[0] == CharOf(a / 4) && s[1] == CharOf(a % 4 * 16 + b / 16)
    requires s[2] == CharOf(b % 16 * 4 + c / 64) && s[3] == CharOf(c % 64)
    ensures FeedAll(Decoder(0, 0, pads, out, false), s) == FeedAll(Decoder(0, 0, 0, out + [a, b, c], false), s[4..])
  {
    FeedFour(Decoder(0, 0, pads, out, false), s);
    var d2 := TwoChars(out, pads, a, a % 4 * 16 + b / 16);
    LastChars(out + [a], b / 16, b, c);
    assert out + [a] + [b, c] == out + [a, b, c];
  }

  /** The other two hold the rest of the second byte and the third. */
  lemma LastChars(out: seq<Byte>, left: nat, b: Byte, c: Byte)
    requires left == b / 16
    ensures Feed(Feed(Decoder(2, left, 0, out, false), CharOf(b % 16 * 4 + c / 64)), CharOf(c % 64)) ==
            Decoder(0, 0, 0, out + [b, c], false)
  {
    FeedChar(Decoder(2, left, 0, out, false), b % 16 * 4 + c / 64);
    FeedChar(Decoder(3, c / 64, 0, out + [b], false), c % 64);
    assert out + [b] + [c] == out + [b, c];
  }

  /** Two characters hold the first byte; their last four bits are left. */
  lemma TwoChars(out: seq<Byte>, pads: nat, a: Byte, v: Sextet) returns (d: Decoder)
    requires v / 16 == a % 4
    ensures d == Decoder(2, v % 16, 0, out + [a], false)
    ensures Feed(Feed(Decoder(0, 0, pads, out, false), CharOf(a / 4)), CharOf(v)) == d
  {
    var d0 := Decoder(0, 0, pads, out, false);
    FeedChar(d0, a / 4);
    FeedChar(FeedValue(d0, a / 4), v);
    d := FeedValue(FeedValue(d0, a / 4), v);
  }

  lemma OneByte(out: seq<Byte>, pads: nat, a: Byte, s: string)
    requires s == [CharOf(a / 4), CharOf(a % 4 * 16), '=', '=']
    ensures FeedAll(Decoder(0, 0, pads, out, false), s) == Decoder(2, 0, 1, out + [a], true)
  {
    FeedFour(Decoder(0, 0, pads, out, false), s);
    var _ := TwoChars(out, pads, a, a % 4 * 16);
    assert s[4..] == "";
  }

  lemma TwoBytes(out: seq<Byte>, pads: nat, a: Byte, b: Byte, s: string)
    requires s == [CharOf(a / 4), CharOf(a % 4 * 16 + b / 16), CharOf(b % 16 * 4), '=']
    ensures FeedAll(Decoder(0, 0, pads, out, false), s) == Decoder(3, 0, 0, out + [a, b], true)
  {
    FeedFour(Decoder(0, 0, pads, out, false), s);
    var d2 := TwoChars(out, pads, a, a % 4 * 16 + b / 16);
    FeedChar(d2, b % 16 * 4);
    assert out + [a] + [b] == out + [a, b];
    assert s[4..] == "";
  }

  lemma {:induction false} FedBack(bytes: seq<Byte>, out: seq<Byte>, pads: nat)
    ensures
      var d := FeedAll(Decoder(0, 0, pads, out, false), Encode64(bytes));
      (d.done || d.quad == 0) && d.out == out + bytes
    decreases |bytes|, 1
  {
    var s := Encode64(bytes);
    if |bytes| == 1 {
      OneByte(out, pads, bytes[0], s);
      assert bytes == [bytes[0]];
    } else if |bytes| == 2 {
      TwoBytes(out, pads, bytes[0], bytes[1], s);
      assert bytes == [bytes[0], bytes[1]];
    } else if |bytes| >= 3 {
      FedBackThree(bytes, out, pads);
    }
  }

  lemma {:induction false} FedBackThree(bytes: seq<Byte>, out: seq<Byte>, pads: nat)
    requires |bytes| >= 3
    ensures
      var d := FeedAll(Decoder(0, 0, pads, out, false), Encode64(bytes));
      (d.done || d.quad == 0) && d.out == out + bytes
    decreases |bytes|, 0
  {
    var s, three := Encode64(bytes), [bytes[0], bytes[1], bytes[2]];
    ThreeBytes(out, pads, bytes[0], bytes[1], bytes[2], s);
    assert s[4..] == Encode64(bytes[3..]);
    FedBack(bytes[3..], out + three, 0);
    assert bytes == three + bytes[3..];
    assert out + three + bytes[3..] == out + bytes;
  }

  /** Every sequence of bytes survives. */
  lemma Base64RoundTrip(bytes: seq<Byte>)
    ensures Decode64(Encode64(bytes)) == Some(bytes)
  {
    FedBack(bytes, [], 0);
    assert [] + bytes == bytes;
  }

  // ---------------------------------------------------------------- ids in decimal

  const ZERO: Byte := 48
  const MINUS: Byte := 45

  function DigitOf(v: nat): Byte
    requires v <= 9
  {
    ZERO + v
  }

  /** str(n) for n >= 0, as the bytes of its digits. */
  function Digits(n: nat): (d: seq<Byte>)
    ensures d != [] && MINUS !in d
  {
    if n < 10 then [DigitOf(n)] else Digits(n / 10) + [DigitOf(n % 10)]
  }

  function Str(n: int): seq<Byte> {
    if n < 0 then [MINUS] + Digits(-n) else Digits(n)
  }

  function ReadDigits(d: seq<Byte>): Option<nat> {
    if d == [] || !(ZERO <= d[|d| - 1] <= ZERO + 9) then None
    else if |d| == 1 then Some(d[0] - ZERO)
    else
      var front := ReadDigits(d[..|d| - 1]);
      if front.None? then None else Some(10 * front.value + (d[|d| - 1] - ZERO))
  }

  /** int(s) where s is an optional '-' and digits; None otherwise. */
  function ReadInt(s: seq<Byte>): Option<int> {
    var negative := s != [] && s[0] == MINUS;
    var n := ReadDigits(if negative then s[1..] else s);
    if n.None? then None else Some(if negative then -(n.value as int) else n.value as int)
  }

  /** Nothing but decimal digits reads as a number, and any of them do. */
  lemma {:induction false} DigitsRead(d: seq<Byte>)
    ensures ReadDigits(d).Some? <==> d != [] && forall i :: 0 <= i < |d| ==> 48 <= d[i] <= 57
  {
    if |d| > 1 {
      DigitsRead(d[..|d| - 1]);
      assert d == d[..|d| - 1] + [d[|d| - 1]];
    }
  }

  lemma ReadOneMore(d: seq<Byte>, n: nat, digit: nat)
    requires digit <= 9 && ReadDigits(d) == Some(n)
    ensures ReadDigits(d + [DigitOf(digit)]) == Some(10 * n + digit)
  {
    assert (d + [DigitOf(digit)])[..|d|] == d;
  }

  lemma {:induction false} DigitsRoundTrip(n: nat)
    ensures ReadDigits(Digits(n)) == Some(n)
  {
    if n >= 10 {
      DigitsRoundTrip(n / 10);
      ReadOneMore(Digits(n / 10), n / 10, n % 10);
      assert 10 * (n / 10) + n % 10 == n;
    }
  }

  lemma IntRoundTrip(id: int)
    ensures ReadInt(Str(id)) == Some(id)
  {
    if id < 0 {
      DigitsRoundTrip(-id);
      assert Str(id)[1..] == Digits(-id);
    } else {
      DigitsRoundTrip(id);
    }
  }

  // ---------------------------------------------------------------- cursors

  function EncodeCursor(id: int): string { Encode64(Str(id)) }

  function DecodeCursor(cursor: string): Option<seq<Byte>> { Decode64(cursor) }

  /** A cursor given back decodes to the id it was made of, and is not the empty string, which would start
      the scan over. */
  lemma CursorRoundTrip(id: int)
    ensures EncodeCursor(id) != ""
    ensures DecodeCursor(EncodeCursor(id)).Some? && ReadInt(DecodeCursor(EncodeCursor(id)).value) == Some(id)
  {
    var text := Str(id);
    Base64RoundTrip(text);
    IntRoundTrip(id);
    assert text != [] && Encode64(text) != "";
  }

  // ---------------------------------------------------------------- the standard's forms

  /** The alphabet of RFC 4648, section 5, in ASCII codes: capitals, small letters, digits, minus and underscore. */
  lemma UrlSafeAlphabet(v: Sextet)
    ensures CharOf(v) as int ==
            if v < 26 then v + 65 else if v < 52 then v + 71 else if v < 62 then v - 4 else if v == 62 then 45 else 95
  {
  }

  /** The decoder takes the two characters of the other alphabet as well. */
  lemma BothAlphabets(v: Sextet, c: char)
    ensures c == CharOf(v) || (c == '+' && v == 62) || (c == '/' && v == 63) ==> ValueOf(c) == Some(v)
    ensures ValueOf(c) == Some(v) ==> c == CharOf(v) || (c == '+' && v == 62) || (c == '/' && v == 63)
  {
    CharHasItsValue(v);
  }

  function ByteAt(bytes: seq<Byte>, i: nat): int { if i < |bytes| then bytes[i] else 0 }

  /** What a character counts for; a pad counts for nothing. */
  function Worth(c: char): int { match ValueOf(c) case None => 0 case Some(v) => v }

  lemma WorthOfChar(v: Sextet)
    ensures Worth(CharOf(v)) == v && CharOf(v) != '='
  {
    CharHasItsValue(v);
  }

  lemma WorthOfShort(bytes: seq<Byte>)
    requires 1 <= |bytes| <= 2
    ensures
      var n, t := |bytes|, Encode64(bytes);
      && |t| == 4
      && 262144 * Worth(t[0]) + 4096 * Worth(t[1]) + 64 * Worth(t[2]) + Worth(t[3]) ==
           65536 * ByteAt(bytes, 0) + 256 * ByteAt(bytes, 1)
      && t[0] != '=' && t[1] != '=' && (t[2] == '=' <==> n == 1) && t[3] == '='
  {
    var a, b, t := ByteAt(bytes, 0), ByteAt(bytes, 1), Encode64(bytes);
    assert t[0] == CharOf(a / 4) && t[1] == CharOf(a % 4 * 16 + b / 16);
    WorthOfChar(a / 4);
    WorthOfChar(a % 4 * 16 + b / 16);
    WorthOfChar(b % 16 * 4);
  }

  lemma WorthOfThree(bytes: seq<Byte>)
    requires |bytes| >= 3
    ensures
      var t := Encode64(bytes);
      && |t| >= 4
      && 262144 * Worth(t[0]) + 4096 * Worth(t[1]) + 64 * Worth(t[2]) + Worth(t[3]) ==
           65536 * ByteAt(bytes, 0) + 256 * ByteAt(bytes, 1) + ByteAt(bytes, 2)
      && t[0] != '=' && t[1] != '=' && t[2] != '=' && t[3] != '=' && t[4..] == Encode64(bytes[3..])
  {
    var a, b, c := ByteAt(bytes, 0), ByteAt(bytes, 1), ByteAt(bytes, 2);
    WorthOfChar(a / 4);
    WorthOfChar(a % 4 * 16 + b / 16);
    WorthOfChar(b % 16 * 4 + c / 64);
    WorthOfChar(c % 64);
  }

  /** Three bytes and the four characters they become are the same number, in base 256 and in base 64; after one or two
      bytes, pads stand for what is missing. */
  lemma EncodesInGroups(bytes: seq<Byte>)
    requires bytes != []
    ensures
      var n, t := |bytes|, Encode64(bytes);
      && |t| >= 4
      && 262144 * Worth(t[0]) + 4096 * Worth(t[1]) + 64 * Worth(t[2]) + Worth(t[3]) ==
           65536 * ByteAt(bytes, 0) + 256 * ByteAt(bytes, 1) + ByteAt(bytes, 2)
      && t[0] != '=' && t[1] != '=' && (t[2] == '=' <==> n == 1) && (t[3] == '=' <==> n <= 2)
      && t[4..] == if n > 3 then Encode64(bytes[3..]) else ""
  {
    if |bytes| < 3 {
      WorthOfShort(bytes);
    } else {
      WorthOfThree(bytes);
      if |bytes| == 3 { assert bytes[3..] == [] && Encode64(bytes[3..]) == ""; }
    }
  }

  /** Decimal text: the digits are those of ASCII, the last one is the remainder by ten, and a minus sign goes first. */
  lemma DecimalText(n: int)
    ensures 0 <= n < 10 ==> Str(n) == [48 + n]
    ensures n >= 10 ==> Str(n) == Str(n / 10) + [48 + n % 10]
    ensures n < 0 ==> Str(n) == [45] + Str(-n)
  {
  }

  /** A character outside both alphabets makes no difference to what is decoded. */
  lemma {:induction false} ForeignIsSkipped(d: Decoder, a: string, c: char, b: string)
    requires d.Ok() && ValueOf(c) == None && c != '='
    ensures FeedAll(d, a + [c] + b) == FeedAll(d, a + b)
    decreases |a|
  {
    var s, t := a + [c] + b, a + b;
    if a == "" {
      assert s[0] == c && s[1..] == b && t == b;
    } else {
      assert s[0] == a[0] == t[0] && s[1..] == a[1..] + [c] + b && t[1..] == a[1..] + b;
      ForeignIsSkipped(Feed(d, a[0]), a[1..], c, b);
    }
  }

  /** Two characters and two pads are one byte, three and one pad are two; with fewer pads a text that ends in the
      middle of a group is refused. */
  lemma {:induction false} PadsDecide(s: string, v: Sextet, w: Sextet, x: Sextet)
    requires |s| == 3 && ValueOf(s[0]) == Some(v) && ValueOf(s[1]) == Some(w) && ValueOf(s[2]) == Some(x)
    ensures Decode64(s[..1]) == None && Decode64(s[..2]) == None && Decode64(s) == None
    ensures Decode64(s[..2] + ['=']) == None
    ensures Decode64(s[..2] + ['=', '=']) == Some([4 * v + w / 16])
    ensures Decode64(s + ['=']) == Some([4 * v + w / 16, w % 16 * 16 + x / 4])
  {
    var d := Decoder(0, 0, 0, [], false);
    var d1, d2, d3 := Feed(d, s[0]), Feed(Feed(d, s[0]), s[1]), Feed(Feed(Feed(d, s[0]), s[1]), s[2]);
    assert d1 == Decoder(1, v, 0, [], false);
    assert d2 == Decoder(2, w % 16, 0, [] + [v * 4 + w / 16], false) && d2.out == [4 * v + w / 16];
    assert d3.out == d2.out + [w % 16 * 16 + x / 4] == [4 * v + w / 16, w % 16 * 16 + x / 4] && d3.quad == 3;
    FedAlong(d, s[..1]);
    FedAlong(d, s[..2]);
    FedAlong(d, s);
    FedAlong(d, s[..2] + ['=']);
    FedAlong(d, s[..2] + ['=', '=']);
    FedAlong(d, s + ['=']);
  }

  /** Feeding up to four characters, one by one. */
  lemma {:induction false} FedAlong(d: Decoder, s: string)
    requires d.Ok() && 1 <= |s| <= 4
    ensures
      FeedAll(d, s) ==
        var d1 := Feed(d, s[0]);
        var d2 := if |s| > 1 then Feed(d1, s[1]) else d1;
        var d3 := if |s| > 2 then Feed(d2, s[2]) else d2;
        if |s| > 3 then Feed(d3, s[3]) else d3
    decreases |s|
  {
    FeedOne(d, s);
    if |s| > 1 { FedAlong(Feed(d, s[0]), s[1..]); } else { assert s[1..] == ""; }
  }
}
