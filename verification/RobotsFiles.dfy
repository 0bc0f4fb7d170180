/** Whole robots.txt files, from their text to the decision. */
module RobotsFiles {
  import opened Collections
  import opened Strings
  import opened RobotsLines
  import opened RobotsMatching
  import opened Robots

  /** A line as it is written: a key, a colon, a value and perhaps a comment. */
  datatype Entry = Entry(key: string, value: string, comment: string)

  function Spelled(e: Entry): string { e.key + ":" + e.value + e.comment }

  predicate WellWritten(e: Entry) {
    && ':' !in e.key && '#' !in e.key && '#' !in e.value
    && (e.comment == "" || e.comment[0] == '#')
  }

  function KeyOf(e: Entry, lower: string -> string): string { lower(Strip(e.key)) }

  /** One user-agent line, and then lines with other keys. */
  predicate OneGroup(entries: seq<Entry>, lower: string -> string) {
    && entries != [] && (forall e <- entries :: WellWritten(e))
    && forall i :: 0 <= i < |entries| ==> (KeyOf(entries[i], lower) == "user-agent" <==> i == 0)
  }

  function NameOf(entries: seq<Entry>, lower: string -> string): Text
    requires entries != []
  {
    Text(lower(Strip(entries[0].value)))
  }

  /** The non-blank values of the first n lines with this key, in order. */
  function ValuesOf(entries: seq<Entry>, n: nat, key: string, lower: string -> string): seq<Text>
    requires n <= |entries|
  {
    if n == 0 then []
    else
      var e := entries[n - 1];
      ValuesOf(entries, n - 1, key, lower) +
      (if KeyOf(e, lower) == key && Strip(e.value) != "" then [Text(Strip(e.value))] else [])
  }

  /** The last value of the first n lines with this key that reads as a number. */
  function DelayOf(entries: seq<Entry>, n: nat, key: string, lower: string -> string, float: Text -> Option<real>)
    : Option<real>
    requires n <= |entries|
  {
    if n == 0 then None
    else
      var e := entries[n - 1];
      if KeyOf(e, lower) == key && float(Text(Strip(e.value))).Some? then float(Text(Strip(e.value)))
      else DelayOf(entries, n - 1, key, lower, float)
  }

  function RuleOf(entries: seq<Entry>, lower: string -> string, float: Text -> Option<real>): Rule {
    var n := |entries|;
    Rule(ValuesOf(entries, n, "allow", lower), ValuesOf(entries, n, "disallow", lower),
         DelayOf(entries, n, "crawl-delay", lower, float))
  }

  function Content(entries: seq<Entry>): (content: seq<string>)
    ensures |content| == |entries| && forall i :: 0 <= i < |entries| ==> content[i] == Spelled(entries[i])
  {
    seq(|entries|, i requires 0 <= i < |entries| => Spelled(entries[i]))
  }

  /** The line read is what its key says. */
  ghost predicate ReadAs(line: Line, e: Entry, lower: string -> string) {
    var k, v := KeyOf(e, lower), Text(Strip(e.value));
    && (k == "user-agent" <==> line.Agent?)
    && (line.Agent? ==> line.name == Text(lower(Strip(e.value))))
    && (k == "allow" <==> line == Directive(Allow, v))
    && (k == "disallow" <==> line == Directive(Disallow, v))
    && (k == "crawl-delay" <==> line == Directive(CrawlDelay, v))
    && (line.Directive? ==> line.value == v)
  }

  lemma GroupLines(entries: seq<Entry>, lower: string -> string, i: nat)
    requires OneGroup(entries, lower) && i < |entries|
    ensures ReadAs(ReadAll(Content(entries), lower)[i], entries[i], lower)
  {
    var e := entries[i];
    assert WellWritten(e);
    KeyDecides(e.key, e.value, e.comment, lower);
  }

  ghost predicate AllReadAs(lines: seq<Line>, entries: seq<Entry>, lower: string -> string) {
    |lines| == |entries| && forall i :: 0 <= i < |lines| ==> ReadAs(lines[i], entries[i], lower)
  }

  /** The group's agent alone is governed by its lines. */
  lemma {:induction false} OneAgentActive(lines: seq<Line>, entries: seq<Entry>, lower: string -> string, n: nat,
                                          agent: Text)
    requires OneGroup(entries, lower) && AllReadAs(lines, entries, lower) && n <= |lines|
    ensures Active(lines, n, agent) <==> n > 0 && agent == NameOf(entries, lower)
    ensures Named(lines, n, agent) <==> n > 0 && agent == NameOf(entries, lower)
  {
    if n > 0 {
      OneAgentActive(lines, entries, lower, n - 1, agent);
      assert ReadAs(lines[n - 1], entries[n - 1], lower);
      OneStep(lines, n - 1, agent);
      NamedStep(lines, n - 1, agent);
    }
  }

  /** The line governs the agent with this key exactly if the entry's key is this word. */
  ghost predicate Governs(lines: seq<Line>, i: nat, agent: Text, e: Entry, key: Key, word: string,
                          lower: string -> string)
  {
    && i < |lines|
    && (lines[i].Directive? && lines[i].key == key && Active(lines, i, agent) <==> KeyOf(e, lower) == word)
    && (lines[i].Directive? ==> lines[i].value == Text(Strip(e.value)))
  }

  lemma {:induction false} GroupValues(lines: seq<Line>, entries: seq<Entry>, lower: string -> string, n: nat,
                                       agent: Text, key: Key, word: string)
    requires n <= |lines| == |entries|
    requires forall i: nat :: i < n ==> Governs(lines, i, agent, entries[i], key, word, lower)
    ensures Values(lines, n, agent, key) == ValuesOf(entries, n, word, lower)
  {
    if n > 0 {
      GroupValues(lines, entries, lower, n - 1, agent, key, word);
      assert Governs(lines, n - 1, agent, entries[n - 1], key, word, lower);
    }
  }

  lemma {:induction false} GroupDelay(lines: seq<Line>, entries: seq<Entry>, lower: string -> string, n: nat,
                                      agent: Text, word: string, float: Text -> Option<real>)
    requires n <= |lines| == |entries|
    requires forall i: nat :: i < n ==> Governs(lines, i, agent, entries[i], CrawlDelay, word, lower)
    ensures Delay(lines, n, agent, float) == DelayOf(entries, n, word, lower, float)
  {
    if n > 0 {
      GroupDelay(lines, entries, lower, n - 1, agent, word, float);
      assert Governs(lines, n - 1, agent, entries[n - 1], CrawlDelay, word, lower);
    }
  }

  lemma GovernsByKey(lines: seq<Line>, entries: seq<Entry>, lower: string -> string, i: nat)
    requires OneGroup(entries, lower) && AllReadAs(lines, entries, lower) && i < |lines|
    ensures var agent, e := NameOf(entries, lower), entries[i];
            && Governs(lines, i, agent, e, Allow, "allow", lower)
            && Governs(lines, i, agent, e, Disallow, "disallow", lower)
            && Governs(lines, i, agent, e, CrawlDelay, "crawl-delay", lower)
  {
    OneAgentActive(lines, entries, lower, i, NameOf(entries, lower));
    assert ReadAs(lines[i], entries[i], lower);
  }

  lemma GroupRule(lines: seq<Line>, entries: seq<Entry>, lower: string -> string, float: Text -> Option<real>)
    requires OneGroup(entries, lower) && AllReadAs(lines, entries, lower)
    ensures RuleFor(lines, |lines|, NameOf(entries, lower), float) == RuleOf(entries, lower, float)
  {
    var n, agent := |lines|, NameOf(entries, lower);
    forall i: nat | i < n
      ensures Governs(lines, i, agent, entries[i], Allow, "allow", lower)
      ensures Governs(lines, i, agent, entries[i], Disallow, "disallow", lower)
      ensures Governs(lines, i, agent, entries[i], CrawlDelay, "crawl-delay", lower)
    {
      GovernsByKey(lines, entries, lower, i);
    }
    GroupValues(lines, entries, lower, n, agent, Allow, "allow");
    GroupValues(lines, entries, lower, n, agent, Disallow, "disallow");
    GroupDelay(lines, entries, lower, n, agent, "crawl-delay", float);
  }

  lemma ReadsGroup(entries: seq<Entry>, lower: string -> string)
    requires OneGroup(entries, lower)
    ensures AllReadAs(ReadAll(Content(entries), lower), entries, lower)
  {
    var lines := ReadAll(Content(entries), lower);
    forall i: nat | i < |lines| ensures ReadAs(lines[i], entries[i], lower) { GroupLines(entries, lower, i); }
  }

  /** What one group's file says of any agent. */
  lemma GroupPermits(entries: seq<Entry>, lower: string -> string, float: Text -> Option<real>, path: string,
                     agent: Text)
    requires OneGroup(entries, lower)
    ensures
      var lines, name, rule := ReadAll(Content(entries), lower), NameOf(entries, lower), RuleOf(entries, lower, float);
      && (Named(lines, |lines|, agent) <==> agent == name)
      && RuleFor(lines, |lines|, name, float) == rule
      && (Permitted(lines, float, path, agent) <==> (name != agent && name != Text("*")) || Permits(path, rule))
  {
    var lines := ReadAll(Content(entries), lower);
    ReadsGroup(entries, lower);
    OneAgentActive(lines, entries, lower, |lines|, agent);
    OneAgentActive(lines, entries, lower, |lines|, Text("*"));
    GroupRule(lines, entries, lower, float);
  }

  /** From the text of a group to the decision: the parsed rule holds the values of its allow and disallow lines and
      its last crawl delay, and decides for its agent, or for every agent if it is the star; others may do anything. */
  method OneGroupDecides(robots: RobotsService, entries: seq<Entry>, path: string, userAgent: Text)
    returns (rules: map<Text, Rule>, allowed: bool)
    requires OneGroup(entries, robots.lower)
    modifies robots
    ensures robots.rules == rules
    ensures
      var name, rule := NameOf(entries, robots.lower), RuleOf(entries, robots.lower, robots.float);
      && (forall agent :: agent in rules <==> agent == name) && rules[name] == rule
      && (allowed <==>
          (name != Text(robots.lower(userAgent.chars)) && name != Text("*")) || Permits(path, rule))
  {
    robots.Parse(Content(entries));
    rules := robots.rules;
    ghost var lower, float, lines := robots.lower, robots.float, robots.parsed;
    forall agent
      ensures agent in rules <==> agent == NameOf(entries, lower)
      ensures agent in rules ==> rules[agent] == RuleOf(entries, lower, float)
    {
      GroupPermits(entries, lower, float, path, agent);
      assert RuleAt(rules, lines, |lines|, float, agent);
    }
    allowed := robots.IsAllowed(path, userAgent);
    GroupPermits(entries, lower, float, path, Text(lower(userAgent.chars)));
  }
}
