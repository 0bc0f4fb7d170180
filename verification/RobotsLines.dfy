/** How one line of robots.txt is read. */
module RobotsLines {
  import opened Collections
  import opened Strings

  /** Text compared as a whole: an agent's name, a pattern, a sitemap's address. */
  datatype Text = Text(chars: string)

  datatype Key = Allow | Disallow | CrawlDelay | OtherKey

  /** A line as parse reads it; Ignored has no key once its comment is cut off. */
  datatype Line = Agent(name: Text) | Sitemap(url: Text) | Directive(key: Key, value: Text) | Ignored

  /** The key and the value of a line, if it has them once its comment is cut off. */
  function Fields(raw: string): Option<(string, string)> {
    var line := Strip(raw[..Until(raw, {'#'})]);
    var colon := Until(line, {':'});
    if colon == |line| then None else Some((Strip(line[..colon]), Strip(line[colon + 1..])))
  }

  function Read(raw: string, lower: string -> string): Line {
    match Fields(raw)
    case None => Ignored
    case Some((key, value)) =>
      if lower(key) == "user-agent" then Agent(Text(lower(value)))
      else if lower(key) == "sitemap" then Sitemap(Text(value))
      else if lower(key) == "allow" then Directive(Allow, Text(value))
      else if lower(key) == "disallow" then Directive(Disallow, Text(value))
      else if lower(key) == "crawl-delay" then Directive(CrawlDelay, Text(value))
      else Directive(OtherKey, Text(value))
  }

  function ReadAll(content: seq<string>, lower: string -> string): (lines: seq<Line>)
    ensures |lines| == |content|
    ensures forall i :: 0 <= i < |content| ==> lines[i] == Read(content[i], lower)
  {
    seq(|content|, i requires 0 <= i < |content| => Read(content[i], lower))
  }

  // ---------------------------------------------------------------- reading back what was written

  lemma {:induction false} StripsBothEnds(key: string, mid: char, value: string)
    requires !IsSpace(mid)
    ensures Strip(key + [mid] + value) == LeftStrip(key, IsSpace) + [mid] + RightStrip(value, IsSpace)
  {
    var k, rest := LeftStrip(key, IsSpace), [mid] + value;
    assert key + [mid] + value == key + rest;
    LeftStripStops(key, rest);
    var start := k + [mid];
    assert k + rest == start + value;
    RightStripStops(start, value);
  }

  /** A line is read as what is before its first colon and what is after it up to a comment, both
      stripped; the value may itself hold colons. */
  lemma ReadsBack(key: string, value: string, comment: string)
    requires ':' !in key && '#' !in key && '#' !in value
    requires comment == "" || comment[0] == '#'
    ensures Fields(key + ":" + value + comment) == Some((Strip(key), Strip(value)))
  {
    var line := key + ":" + value;
    UntilIs(line, comment, {'#'});
    assert (line + comment)[..|line|] == line;
    var k, v := LeftStrip(key, IsSpace), RightStrip(value, IsSpace);
    StripsBothEnds(key, ':', value);
    assert k + ":" + v == k + (":" + v);
    UntilIs(k, ":" + v, {':'});
    assert (k + ":" + v)[..|k|] == k && (k + ":" + v)[|k| + 1..] == v;
    LeftStripTwice(key);
    StripAfterRightStrip(value);
  }

  /** What a line becomes, by its key: the value of a user-agent line is lowered, that of another is not. */
  lemma {:induction false} KeyDecides(key: string, value: string, comment: string, lower: string -> string)
    requires ':' !in key && '#' !in key && '#' !in value
    requires comment == "" || comment[0] == '#'
    ensures
      var line, k, v := Read(key + ":" + value + comment, lower), lower(Strip(key)), Text(Strip(value));
      && (k == "user-agent" <==> line.Agent?) && (line.Agent? ==> line.name == Text(lower(v.chars)))
      && (k == "sitemap" <==> line == Sitemap(v))
      && (k == "allow" <==> line == Directive(Allow, v))
      && (k == "disallow" <==> line == Directive(Disallow, v))
      && (k == "crawl-delay" <==> line == Directive(CrawlDelay, v))
      && (k != "user-agent" && k != "sitemap" ==> line.Directive? && line.value == v)
  {
    ReadsBack(key, value, comment);
    var raw := key + ":" + value + comment;
    assert Fields(raw) == Some((Strip(key), Strip(value)));
  }

  /** A line is ignored if and only if no colon comes before its comment. */
  lemma {:induction false} IgnoredExactly(line: string, comment: string, lower: string -> string)
    requires '#' !in line && (comment == "" || comment[0] == '#')
    ensures Read(line + comment, lower) == Ignored <==> ':' !in line
  {
    UntilIs(line, comment, {'#'});
    assert (line + comment)[..|line|] == line;
    StripKeeps(line, ':');
  }
}
