/** robots.txt: which lines govern which agent, and what that permits (RFC 9309, sections 2.2.1 and 2.2.2). */
module Robots {
  import opened Collections
  import opened RobotsLines
  import opened RobotsMatching

  datatype Rule = Rule(allow: seq<Text>, disallow: seq<Text>, delay: Option<real>)

  const EMPTY_RULE := Rule([], [], None)

  // ---------------------------------------------------------------- who governs whom

  ghost predicate AgentAt(lines: seq<Line>, i: int) { 0 <= i < |lines| && lines[i].Agent? }

  ghost predicate DirectiveAt(lines: seq<Line>, i: int) { 0 <= i < |lines| && lines[i].Directive? }

  /** Between line i and line n a directive is followed by a user-agent line: i's group is over. */
  ghost predicate Closed(lines: seq<Line>, i: int, n: int) {
    exists x, y :: i < x < y < n && DirectiveAt(lines, x) && AgentAt(lines, y)
  }

  ghost predicate Opens(lines: seq<Line>, i: int, n: int, agent: Text) {
    0 <= i < n <= |lines| && lines[i] == Agent(agent) && !Closed(lines, i, n)
  }

  /** A directive at line n is for the agent: some user-agent line names it whose group is not over. */
  ghost predicate Active(lines: seq<Line>, n: int, agent: Text) {
    exists i :: Opens(lines, i, n, agent)
  }

  /** Some user-agent line before line n. */
  ghost predicate Started(lines: seq<Line>, n: int) {
    exists i :: i < n && AgentAt(lines, i)
  }

  /** Line x is a directive of a group, and no user-agent line comes between it and line n. */
  ghost predicate LastDirective(lines: seq<Line>, x: int, n: int) {
    x < n && DirectiveAt(lines, x) && Started(lines, x) && forall y :: x < y < n ==> !AgentAt(lines, y)
  }

  ghost predicate Expecting(lines: seq<Line>, n: int) {
    exists x :: LastDirective(lines, x, n)
  }

  ghost predicate Named(lines: seq<Line>, n: int, agent: Text) {
    exists i :: 0 <= i < n <= |lines| && lines[i] == Agent(agent)
  }

  /** The values of this key, in line order, among the first n lines that govern the agent. */
  ghost function Values(lines: seq<Line>, n: nat, agent: Text, key: Key): seq<Text>
    requires n <= |lines|
  {
    if n == 0 then []
    else
      Values(lines, n - 1, agent, key) +
      (if lines[n - 1].Directive? && lines[n - 1].key == key && lines[n - 1].value != Text("") &&
          Active(lines, n - 1, agent)
       then [lines[n - 1].value] else [])
  }

  /** The last crawl delay that reads as a number, among the first n lines that govern the agent. */
  ghost function Delay(lines: seq<Line>, n: nat, agent: Text, float: Text -> Option<real>): Option<real>
    requires n <= |lines|
  {
    if n == 0 then None
    else if lines[n - 1].Directive? && lines[n - 1].key == CrawlDelay && float(lines[n - 1].value).Some? &&
            Active(lines, n - 1, agent)
    then float(lines[n - 1].value)
    else Delay(lines, n - 1, agent, float)
  }

  ghost function RuleFor(lines: seq<Line>, n: nat, agent: Text, float: Text -> Option<real>): Rule
    requires n <= |lines|
  {
    Rule(Values(lines, n, agent, Allow), Values(lines, n, agent, Disallow), Delay(lines, n, agent, float))
  }

  ghost predicate RuleAt(rules: map<Text, Rule>, lines: seq<Line>, n: nat, float: Text -> Option<real>, agent: Text)
    requires n <= |lines|
  {
    && (agent in rules <==> Named(lines, n, agent))
    && (agent in rules ==> rules[agent] == RuleFor(lines, n, agent, float))
  }

  ghost predicate RulesAt(rules: map<Text, Rule>, lines: seq<Line>, n: nat, float: Text -> Option<real>)
    requires n <= |lines|
  {
    forall agent :: RuleAt(rules, lines, n, float, agent)
  }

  /** What parse's local variables hold before line n. */
  ghost predicate Reading(lines: seq<Line>, n: nat, currentAgents: seq<Text>, expectingDirectives: bool)
    requires n <= |lines|
  {
    && NoDuplicates(currentAgents)
    && (forall agent :: agent in currentAgents <==> Active(lines, n, agent))
    && (currentAgents != [] <==> Started(lines, n))
    && (expectingDirectives <==> Expecting(lines, n))
  }

  /** The non-empty sitemaps of the first n lines, each where it is first named. */
  ghost function SitemapsOf(lines: seq<Line>, n: nat): seq<Text>
    requires n <= |lines|
  {
    if n == 0 then []
    else
      var before := SitemapsOf(lines, n - 1);
      if lines[n - 1].Sitemap? && lines[n - 1].url != Text("") && lines[n - 1].url !in before
      then before + [lines[n - 1].url] else before
  }

  // ---------------------------------------------------------------- one line

  lemma StartedStep(lines: seq<Line>, n: nat)
    requires n < |lines|
    ensures Started(lines, n + 1) <==> Started(lines, n) || lines[n].Agent?
  {
    assert lines[n].Agent? ==> AgentAt(lines, n);
  }

  lemma ExpectingStep(lines: seq<Line>, n: nat)
    requires n < |lines|
    ensures Expecting(lines, n + 1) <==>
      match lines[n]
      case Agent(_) => false
      case Directive(_, _) => Started(lines, n)
      case _ => Expecting(lines, n)
  {
    assert lines[n].Agent? ==> AgentAt(lines, n);
    if lines[n].Directive? {
      if Started(lines, n) { assert LastDirective(lines, n, n + 1); }
      if Expecting(lines, n + 1) {
        var x :| LastDirective(lines, x, n + 1);
        var i :| i < x && AgentAt(lines, i);
        assert i < n && AgentAt(lines, i);
      }
    } else if !lines[n].Agent? {
      if Expecting(lines, n + 1) {
        var x :| LastDirective(lines, x, n + 1);
        assert LastDirective(lines, x, n);
      }
      if Expecting(lines, n) {
        var x :| LastDirective(lines, x, n);
        assert LastDirective(lines, x, n + 1);
      }
    }
  }

  lemma ClosedGrows(lines: seq<Line>, i: int, n: nat)
    requires i < n < |lines|
    ensures Closed(lines, i, n) ==> Closed(lines, i, n + 1)
    ensures !lines[n].Agent? ==> (Closed(lines, i, n + 1) <==> Closed(lines, i, n))
  {
  }

  /** A user-agent line ends the group of an earlier one if and only if a directive is waiting. */
  lemma AgentCloses(lines: seq<Line>, i: int, n: nat)
    requires i < n < |lines| && lines[n].Agent? && AgentAt(lines, i) && !Closed(lines, i, n)
    ensures Closed(lines, i, n + 1) <==> Expecting(lines, n)
  {
    assert AgentAt(lines, n);
    if Expecting(lines, n) {
      var x :| LastDirective(lines, x, n);
      assert i < x < n < n + 1 && DirectiveAt(lines, x);
    }
    if Closed(lines, i, n + 1) {
      var x, y :| i < x < y < n + 1 && DirectiveAt(lines, x) && AgentAt(lines, y);
      assert Started(lines, x);
      assert LastDirective(lines, x, n);
    }
  }

  lemma ActiveStep(lines: seq<Line>, n: nat, agent: Text)
    requires n < |lines|
    ensures Active(lines, n + 1, agent) <==>
      if lines[n].Agent? then lines[n].name == agent || (Active(lines, n, agent) && !Expecting(lines, n))
      else Active(lines, n, agent)
  {
    if lines[n] == Agent(agent) {
      assert Opens(lines, n, n + 1, agent);
    } else {
      if Active(lines, n, agent) {
        var i :| Opens(lines, i, n, agent);
        OpensStep(lines, n, agent, i);
      }
      if Active(lines, n + 1, agent) {
        var i :| Opens(lines, i, n + 1, agent);
        OpensStep(lines, n, agent, i);
      }
    }
  }

  lemma OpensStep(lines: seq<Line>, n: nat, agent: Text, i: int)
    requires n < |lines| && lines[n] != Agent(agent)
    ensures Opens(lines, i, n + 1, agent) <==> Opens(lines, i, n, agent) && !(lines[n].Agent? && Expecting(lines, n))
  {
    if 0 <= i < n && lines[i] == Agent(agent) {
      ClosedGrows(lines, i, n);
      if lines[n].Agent? && !Closed(lines, i, n) { AgentCloses(lines, i, n); }
    }
  }

  lemma NamedStep(lines: seq<Line>, n: nat, agent: Text)
    requires n < |lines|
    ensures Named(lines, n + 1, agent) <==> Named(lines, n, agent) || lines[n] == Agent(agent)
  {
  }

  lemma ActiveIsNamed(lines: seq<Line>, n: nat, agent: Text)
    requires Active(lines, n, agent)
    ensures Named(lines, n, agent)
  {
  }

  // ---------------------------------------------------------------- what grouping does not depend on

  /** The state before line n depends on the earlier lines only. */
  lemma {:induction false} SameStart(lines: seq<Line>, others: seq<Line>, n: nat, agent: Text)
    requires n <= |lines| && n <= |others| && lines[..n] == others[..n]
    ensures Active(lines, n, agent) <==> Active(others, n, agent)
    ensures Expecting(lines, n) <==> Expecting(others, n)
    ensures Started(lines, n) <==> Started(others, n)
  {
    if n > 0 {
      assert lines[..n - 1] == lines[..n][..n - 1] && others[..n - 1] == others[..n][..n - 1];
      assert lines[n - 1] == lines[..n][n - 1] == others[n - 1];
      SameStart(lines, others, n - 1, agent);
      OneStep(lines, n - 1, agent);
      OneStep(others, n - 1, agent);
    }
  }

  lemma OneStep(lines: seq<Line>, n: nat, agent: Text)
    requires n < |lines|
    ensures Started(lines, n + 1) <==> Started(lines, n) || lines[n].Agent?
    ensures Expecting(lines, n + 1) <==>
      match lines[n]
      case Agent(_) => false
      case Directive(_, _) => Started(lines, n)
      case _ => Expecting(lines, n)
    ensures Active(lines, n + 1, agent) <==>
      if lines[n].Agent? then lines[n].name == agent || (Active(lines, n, agent) && !Expecting(lines, n))
      else Active(lines, n, agent)
  {
    StartedStep(lines, n);
    ExpectingStep(lines, n);
    ActiveStep(lines, n, agent);
  }

  lemma {:induction false} SameStartSameRule(lines: seq<Line>, others: seq<Line>, n: nat, agent: Text,
                                             float: Text -> Option<real>)
    requires n <= |lines| && n <= |others| && lines[..n] == others[..n]
    ensures RuleFor(lines, n, agent, float) == RuleFor(others, n, agent, float)
  {
    if n > 0 {
      assert lines[..n - 1] == lines[..n][..n - 1] && others[..n - 1] == others[..n][..n - 1];
      assert lines[n - 1] == lines[..n][n - 1] == others[n - 1];
      SameStart(lines, others, n - 1, agent);
      SameStartSameRule(lines, others, n - 1, agent, float);
    }
  }

  /** A sitemap or ignored line in the middle of a group leaves every rule as it is without the line. */
  lemma {:induction false} OtherLinesDoNotBreakGroups(lines: seq<Line>, k: nat, n: nat, agent: Text,
                                                      float: Text -> Option<real>)
    requires k <= n < |lines| && !lines[k].Agent? && !lines[k].Directive?
    ensures
      var others := lines[..k] + lines[k + 1..];
      && (Active(others, n, agent) <==> Active(lines, n + 1, agent))
      && (Expecting(others, n) <==> Expecting(lines, n + 1))
      && (Started(others, n) <==> Started(lines, n + 1))
      && RuleFor(others, n, agent, float) == RuleFor(lines, n + 1, agent, float)
  {
    var others := lines[..k] + lines[k + 1..];
    OneStep(lines, n, agent);
    if n == k {
      assert others[..k] == lines[..k];
      SameStart(lines, others, k, agent);
      SameStartSameRule(lines, others, k, agent, float);
    } else {
      assert others[n - 1] == lines[n];
      OtherLinesDoNotBreakGroups(lines, k, n - 1, agent, float);
      OneStep(others, n - 1, agent);
    }
  }

  /** Once a group is over, the groups that follow are read as in a file of their own. */
  lemma {:induction false} LaterGroupsReadAlone(first: seq<Line>, second: seq<Line>, m: nat, agent: Text)
    requires Expecting(first, |first|) && 1 <= m <= |second| && second[0].Agent?
    ensures
      var whole := first + second;
      && (Active(whole, |first| + m, agent) <==> Active(second, m, agent))
      && (Expecting(whole, |first| + m) <==> Expecting(second, m))
      && Started(whole, |first| + m) && Started(second, m)
  {
    var whole := first + second;
    var n := |first| + m - 1;
    assert whole[n] == second[m - 1];
    OneStep(whole, n, agent);
    OneStep(second, m - 1, agent);
    if m == 1 {
      assert whole[..|first|] == first[..|first|];
      SameStart(whole, first, |first|, agent);
      assert !Active(second, 0, agent);
    } else {
      LaterGroupsReadAlone(first, second, m - 1, agent);
    }
  }

  /** What two files say of an agent, one after the other: the later crawl delay counts. */
  function Joined(first: Rule, second: Rule): Rule {
    Rule(first.allow + second.allow, first.disallow + second.disallow,
         if second.delay.Some? then second.delay else first.delay)
  }

  /** A later group of the same agent is merged into its earlier ones: it adds exactly what it would say as
      a file of its own. */
  lemma {:induction false} LaterGroupsAreMerged(first: seq<Line>, second: seq<Line>, m: nat, agent: Text,
                                                float: Text -> Option<real>)
    requires Expecting(first, |first|) && 1 <= m <= |second| && second[0].Agent?
    ensures RuleFor(first + second, |first| + m, agent, float) ==
            Joined(RuleFor(first, |first|, agent, float), RuleFor(second, m, agent, float))
  {
    var whole := first + second;
    assert whole[|first| + m - 1] == second[m - 1];
    if m == 1 {
      assert whole[..|first|] == first[..|first|];
      SameStartSameRule(whole, first, |first|, agent, float);
      assert RuleFor(second, 0, agent, float) == EMPTY_RULE;
    } else {
      LaterGroupsReadAlone(first, second, m - 1, agent);
      LaterGroupsAreMerged(first, second, m - 1, agent, float);
    }
  }

  lemma SameRules(rules: map<Text, Rule>, again: map<Text, Rule>, lines: seq<Line>, float: Text -> Option<real>)
    requires RulesAt(rules, lines, |lines|, float) && RulesAt(again, lines, |lines|, float)
    ensures rules == again
  {
    forall agent: Text
      ensures (agent in rules <==> agent in again) && (agent in rules ==> rules[agent] == again[agent])
    {
      assert RuleAt(rules, lines, |lines|, float, agent);
      assert RuleAt(again, lines, |lines|, float, agent);
    }
  }

  // ---------------------------------------------------------------- what is permitted

  predicate Outranks(path: string, a: Text, disallow: seq<Text>) {
    forall d <- disallow :: PathMatches(path, d.chars) ==> |d.chars| <= |a.chars|
  }

  predicate Matching(path: string, patterns: seq<Text>) {
    exists p <- patterns :: PathMatches(path, p.chars)
  }

  /** No disallow matches, or some matching allow is at least as long as every matching disallow. */
  predicate Permits(path: string, rule: Rule) {
    || !Matching(path, rule.disallow)
    || exists a <- rule.allow :: PathMatches(path, a.chars) && Outranks(path, a, rule.disallow)
  }

  /** The rule of the agent itself, or else of "*", over the whole file; nothing bars an agent with neither. */
  ghost predicate Permitted(lines: seq<Line>, float: Text -> Option<real>, path: string, agent: Text) {
    var n := |lines|;
    if Named(lines, n, agent) then Permits(path, RuleFor(lines, n, agent, float))
    else if Named(lines, n, Text("*")) then Permits(path, RuleFor(lines, n, Text("*"), float))
    else true
  }

  /** The order of the lines, and repeating one, does not matter to the decision. */
  lemma OrderDoesNotMatter(path: string, r: Rule, s: Rule)
    requires forall p :: p in r.allow <==> p in s.allow
    requires forall p :: p in r.disallow <==> p in s.disallow
    ensures Permits(path, r) <==> Permits(path, s)
  {
    assert forall a :: Outranks(path, a, r.disallow) <==> Outranks(path, a, s.disallow);
  }

  /** One more allow line never bars what was permitted, and one more disallow line never permits what
      was barred. */
  lemma PermitsIsMonotone(path: string, r: Rule, p: Text)
    ensures Permits(path, r) ==> Permits(path, r.(allow := r.allow + [p]))
    ensures Permits(path, r.(disallow := r.disallow + [p])) ==> Permits(path, r)
  {
    assert forall a :: Outranks(path, a, r.disallow + [p]) ==> Outranks(path, a, r.disallow) by {
      assert forall d <- r.disallow :: d in r.disallow + [p];
    }
    assert Matching(path, r.disallow) ==> Matching(path, r.disallow + [p]) by {
      assert forall d <- r.disallow :: d in r.disallow + [p];
    }
    assert forall a <- r.allow :: a in r.allow + [p];
  }

  ghost predicate RuleAdded(before: map<Text, Rule>, rules: map<Text, Rule>, agent: Text, added: bool) {
    && (agent in rules <==> agent in before || added)
    && (agent in rules ==> rules[agent] == if agent in before then before[agent] else EMPTY_RULE)
  }

  ghost predicate RuleGrown(before: map<Text, Rule>, rules: map<Text, Rule>, agent: Text, grown: bool,
                            key: Key, value: Text, float: Text -> Option<real>)
  {
    && (agent in rules <==> agent in before)
    && (agent in before ==> rules[agent] == if grown then Grown(before[agent], key, value, float) else before[agent])
  }

  /** A rule with one more directive. */
  ghost function Grown(rule: Rule, key: Key, value: Text, float: Text -> Option<real>): Rule {
    Rule(rule.allow + (if key == Allow && value != Text("") then [value] else []),
         rule.disallow + (if key == Disallow && value != Text("") then [value] else []),
         if key == CrawlDelay && float(value).Some? then float(value) else rule.delay)
  }

  lemma {:induction false} UnnamedHasNone(lines: seq<Line>, n: nat, agent: Text, float: Text -> Option<real>)
    requires n < |lines| && lines[n].Agent?
    ensures RuleFor(lines, n + 1, agent, float) == RuleFor(lines, n, agent, float)
    ensures !Named(lines, n, agent) ==> RuleFor(lines, n, agent, float) == EMPTY_RULE
  {
    if !Named(lines, n, agent) { NothingGoverns(lines, n, agent, float); }
  }

  lemma {:induction false} NothingGoverns(lines: seq<Line>, n: nat, agent: Text, float: Text -> Option<real>)
    requires n <= |lines| && !Named(lines, n, agent)
    ensures RuleFor(lines, n, agent, float) == EMPTY_RULE
  {
    if n > 0 {
      assert !Active(lines, n - 1, agent);
      assert forall i :: 0 <= i < n - 1 && lines[i] == Agent(agent) ==> i < n;
      NothingGoverns(lines, n - 1, agent, float);
    }
  }

  // ---------------------------------------------------------------- parse's state, line by line

  /** current_agents after a user-agent line. */
  function NextAgents(agents: seq<Text>, expecting: bool, name: Text): (next: seq<Text>)
    ensures name in next
  {
    if expecting then [name] else if name in agents then agents else agents + [name]
  }

  lemma NextAgentsFacts(agents: seq<Text>, expecting: bool, name: Text)
    requires NoDuplicates(agents)
    ensures NoDuplicates(NextAgents(agents, expecting, name))
    ensures forall agent: Text :: agent in NextAgents(agents, expecting, name) <==>
      name == agent || (agent in agents && !expecting)
  {
  }

  lemma NothingRead(lines: seq<Line>, float: Text -> Option<real>)
    ensures RulesAt(map[], lines, 0, float) && Reading(lines, 0, [], false) && SitemapsOf(lines, 0) == []
  {
    assert forall i :: i < 0 ==> !AgentAt(lines, i) && !DirectiveAt(lines, i);
  }

  lemma ReadingAgent(lines: seq<Line>, i: nat, agents: seq<Text>, expecting: bool)
    requires i < |lines| && lines[i].Agent? && Reading(lines, i, agents, expecting)
    ensures Reading(lines, i + 1, NextAgents(agents, expecting, lines[i].name), false)
  {
    var name := lines[i].name;
    var next := NextAgents(agents, expecting, name);
    NextAgentsFacts(agents, expecting, name);
    StartedStep(lines, i);
    ExpectingStep(lines, i);
    var after := i + 1;
    forall agent: Text ensures agent in next <==> Active(lines, after, agent) {
      ActiveStep(lines, i, agent);
      assert agent in agents <==> Active(lines, i, agent);
    }
  }

  lemma ReadingDirective(lines: seq<Line>, i: nat, agents: seq<Text>, expecting: bool)
    requires i < |lines| && lines[i].Directive? && Reading(lines, i, agents, expecting)
    ensures Reading(lines, i + 1, agents, if agents != [] then true else expecting)
  {
    StartedStep(lines, i);
    ExpectingStep(lines, i);
    forall agent: Text ensures Active(lines, i + 1, agent) <==> agent in agents {
      ActiveStep(lines, i, agent);
    }
    if expecting {
      var x :| LastDirective(lines, x, i);
      assert Started(lines, i);
    }
  }

  lemma ReadingOther(lines: seq<Line>, i: nat, agents: seq<Text>, expecting: bool,
                     rules: map<Text, Rule>, float: Text -> Option<real>)
    requires i < |lines| && !lines[i].Agent? && !lines[i].Directive?
    requires Reading(lines, i, agents, expecting) && RulesAt(rules, lines, i, float)
    ensures Reading(lines, i + 1, agents, expecting) && RulesAt(rules, lines, i + 1, float)
  {
    StartedStep(lines, i);
    ExpectingStep(lines, i);
    forall agent: Text ensures Active(lines, i + 1, agent) <==> agent in agents {
      ActiveStep(lines, i, agent);
    }
    var after := i + 1;
    forall agent: Text ensures RuleAt(rules, lines, after, float, agent) {
      assert RuleAt(rules, lines, i, float, agent);
      NamedStep(lines, i, agent);
    }
  }

  lemma AfterAgent(lines: seq<Line>, i: nat, currentAgents: seq<Text>, before: map<Text, Rule>,
                   rules: map<Text, Rule>, float: Text -> Option<real>)
    requires i < |lines| && lines[i].Agent? && lines[i].name in currentAgents
    requires RulesAt(before, lines, i, float)
    requires forall agent <- currentAgents :: Active(lines, i + 1, agent)
    requires forall agent :: RuleAdded(before, rules, agent, agent in currentAgents)
    ensures RulesAt(rules, lines, i + 1, float)
  {
    var after := i + 1;
    forall agent: Text ensures RuleAt(rules, lines, after, float, agent) {
      assert RuleAt(before, lines, i, float, agent);
      assert RuleAdded(before, rules, agent, agent in currentAgents);
      NamedStep(lines, i, agent);
      if agent in currentAgents { ActiveIsNamed(lines, after, agent); }
      UnnamedHasNone(lines, i, agent, float);
    }
  }

  lemma ActiveAreIn(lines: seq<Line>, i: nat, currentAgents: seq<Text>, rules: map<Text, Rule>,
                    float: Text -> Option<real>)
    requires i < |lines| && RulesAt(rules, lines, i, float)
    requires forall agent <- currentAgents :: Active(lines, i, agent)
    ensures forall agent <- currentAgents :: agent in rules
  {
    forall agent <- currentAgents ensures agent in rules {
      ActiveIsNamed(lines, i, agent);
      assert RuleAt(rules, lines, i, float, agent);
    }
  }

  lemma AfterDirective(lines: seq<Line>, i: nat, currentAgents: seq<Text>, before: map<Text, Rule>,
                       rules: map<Text, Rule>, float: Text -> Option<real>)
    requires i < |lines| && lines[i].Directive? && RulesAt(before, lines, i, float)
    requires forall agent :: agent in currentAgents <==> Active(lines, i, agent)
    requires forall agent ::
      RuleGrown(before, rules, agent, agent in currentAgents, lines[i].key, lines[i].value, float)
    ensures RulesAt(rules, lines, i + 1, float)
  {
    var after := i + 1;
    forall agent: Text ensures RuleAt(rules, lines, after, float, agent) {
      assert RuleAt(before, lines, i, float, agent);
      assert RuleGrown(before, rules, agent, agent in currentAgents, lines[i].key, lines[i].value, float);
      NamedStep(lines, i, agent);
    }
  }

  /** The two loops of is_allowed: first the longest matching disallow, then any allow as long. */
  method Decide(path: string, rule: Rule) returns (allowed: bool)
    ensures allowed <==> Permits(path, rule)
  {
    var longestMatchLen := -1;
    allowed := true;
    for i := 0 to |rule.disallow|
      invariant longestMatchLen >= -1
      invariant allowed <==> longestMatchLen == -1
      invariant forall k :: 0 <= k < i && PathMatches(path, rule.disallow[k].chars) ==>
        |rule.disallow[k].chars| <= longestMatchLen
      invariant longestMatchLen == -1 ||
        exists k :: 0 <= k < i && PathMatches(path, rule.disallow[k].chars)
                    && |rule.disallow[k].chars| == longestMatchLen
    {
      var dis := rule.disallow[i].chars;
      if PathMatches(path, dis) && |dis| > longestMatchLen {
        longestMatchLen := |dis|;
        allowed := false;
      }
    }
    ghost var barred := longestMatchLen;
    for i := 0 to |rule.allow|
      invariant longestMatchLen >= barred
      invariant allowed <==> barred == -1 || AllowSoFar(path, rule.allow[..i], barred)
      invariant longestMatchLen > barred ==> allowed
    {
      var a := rule.allow[i].chars;
      assert rule.allow[..i + 1] == rule.allow[..i] + [rule.allow[i]];
      if PathMatches(path, a) && |a| >= longestMatchLen {
        longestMatchLen := |a|;
        allowed := true;
      }
    }
    assert rule.allow[..|rule.allow|] == rule.allow;
  }

  ghost predicate AllowSoFar(path: string, allow: seq<Text>, barred: int) {
    exists a <- allow :: PathMatches(path, a.chars) && |a.chars| >= barred
  }

  class RobotsService {
    var rules: map<Text, Rule>
    var sitemaps: seq<Text>
    /** str.lower and float(...), as functions of the text. */
    const lower: string -> string
    const float: Text -> Option<real>
    ghost var parsed: seq<Line>

    ghost predicate Valid()
      reads this
    {
      && RulesAt(rules, parsed, |parsed|, float)
      && sitemaps == SitemapsOf(parsed, |parsed|)
    }

    constructor (lower: string -> string, float: Text -> Option<real>)
      ensures Valid() && parsed == [] && this.lower == lower && this.float == float
    {
      this.lower := lower;
      this.float := float;
      rules := map[];
      sitemaps := [];
      parsed := [];
    }

    /** Takes the lines of a file one after the other, whatever was parsed before. */
    method Parse(content: seq<string>)
      modifies this
      ensures Valid() && parsed == ReadAll(content, lower)
    {
      TakeLines(ReadAll(content, lower));
    }

    method TakeLines(lines: seq<Line>)
      modifies this
      ensures Valid() && parsed == lines
    {
      rules := map[];
      sitemaps := [];
      var currentAgents: seq<Text> := [];
      var expectingDirectives := false;
      NothingRead(lines, float);
      for i := 0 to |lines|
        invariant RulesAt(rules, lines, i, float)
        invariant sitemaps == SitemapsOf(lines, i)
        invariant Reading(lines, i, currentAgents, expectingDirectives)
      {
        currentAgents, expectingDirectives := TakeLine(lines, i, lines[i], currentAgents, expectingDirectives);
      }
      parsed := lines;
    }

    /** What the loop does with one line, and what it goes on with. */
    method TakeLine(ghost lines: seq<Line>, ghost i: nat, line: Line, agents: seq<Text>, expecting: bool)
      returns (currentAgents: seq<Text>, expectingDirectives: bool)
      requires i < |lines| && lines[i] == line
      requires RulesAt(rules, lines, i, float) && sitemaps == SitemapsOf(lines, i)
      requires Reading(lines, i, agents, expecting)
      modifies this`rules, this`sitemaps
      ensures RulesAt(rules, lines, i + 1, float) && sitemaps == SitemapsOf(lines, i + 1)
      ensures Reading(lines, i + 1, currentAgents, expectingDirectives)
    {
      currentAgents, expectingDirectives := agents, expecting;
      match line {
        case Agent(name) =>
          if expectingDirectives {
            currentAgents := [name];
            expectingDirectives := false;
          } else if name !in currentAgents {
            currentAgents := currentAgents + [name];
          }
          ReadingAgent(lines, i, agents, expecting);
          assert currentAgents == NextAgents(agents, expecting, name);
          AddRules(lines, i, currentAgents);
        case Sitemap(url) =>
          if url != Text("") && url !in sitemaps {
            sitemaps := sitemaps + [url];
          }
          ReadingOther(lines, i, agents, expecting, rules, float);
        case Ignored =>
          ReadingOther(lines, i, agents, expecting, rules, float);
        case Directive(key, value) =>
          if currentAgents != [] {
            expectingDirectives := true;
          }
          ReadingDirective(lines, i, agents, expecting);
          AddDirective(lines, i, key, value, currentAgents);
      }
    }

    /** The loop that gives every current agent a rule. */
    method AddRules(ghost lines: seq<Line>, ghost i: nat, currentAgents: seq<Text>)
      requires i < |lines| && lines[i].Agent? && lines[i].name in currentAgents
      requires RulesAt(rules, lines, i, float) && Reading(lines, i + 1, currentAgents, false)
      modifies this`rules
      ensures RulesAt(rules, lines, i + 1, float)
    {
      ghost var before := rules;
      for j := 0 to |currentAgents|
        invariant forall agent :: RuleAdded(before, rules, agent, agent in currentAgents[..j])
      {
        var agent := currentAgents[j];
        assert currentAgents[..j + 1] == currentAgents[..j] + [agent];
        ghost var was := rules;
        if agent !in rules {
          rules := rules[agent := EMPTY_RULE];
        }
        ghost var done := currentAgents[..j + 1];
        forall other: Text ensures RuleAdded(before, rules, other, other in done) {
          assert RuleAdded(before, was, other, other in currentAgents[..j]);
        }
      }
      assert currentAgents[..|currentAgents|] == currentAgents;
      AfterAgent(lines, i, currentAgents, before, rules, float);
    }

    /** The loop that enters a directive with every current agent. */
    method AddDirective(ghost lines: seq<Line>, ghost i: nat, key: Key, value: Text, currentAgents: seq<Text>)
      requires i < |lines| && lines[i] == Directive(key, value)
      requires NoDuplicates(currentAgents)
      requires RulesAt(rules, lines, i, float)
      requires forall agent :: agent in currentAgents <==> Active(lines, i, agent)
      modifies this`rules
      ensures RulesAt(rules, lines, i + 1, float)
    {
      ghost var before := rules;
      ActiveAreIn(lines, i, currentAgents, rules, float);
      for j := 0 to |currentAgents|
        invariant forall agent :: RuleGrown(before, rules, agent, agent in currentAgents[..j], key, value, float)
      {
        var agent := currentAgents[j];
        assert currentAgents[..j + 1] == currentAgents[..j] + [agent];
        assert RuleGrown(before, rules, agent, agent in currentAgents[..j], key, value, float);
        assert agent in currentAgents;
        var rule := rules[agent];
        match key {
          case Allow => if value != Text("") { rule := rule.(allow := rule.allow + [value]); }
          case Disallow => if value != Text("") { rule := rule.(disallow := rule.disallow + [value]); }
          case CrawlDelay => if float(value).Some? { rule := rule.(delay := float(value)); }
          case OtherKey =>
        }
        ghost var was := rules;
        rules := rules[agent := rule];
        ghost var done := currentAgents[..j + 1];
        forall other: Text ensures RuleGrown(before, rules, other, other in done, key, value, float) {
          assert RuleGrown(before, was, other, other in currentAgents[..j], key, value, float);
        }
      }
      assert currentAgents[..|currentAgents|] == currentAgents;
      AfterDirective(lines, i, currentAgents, before, rules, float);
    }

    /** get_rule_for_agent: the agent's own rule, else that of "*". */
    function RuleForAgent(userAgent: Text): (rule: Option<Rule>)
      reads this
    {
      var agent := Text(lower(userAgent.chars));
      if agent in rules then Some(rules[agent])
      else if Text("*") in rules then Some(rules[Text("*")])
      else None
    }

    method IsAllowed(path: string, userAgent: Text) returns (allowed: bool)
      requires Valid()
      ensures allowed <==> Permitted(parsed, float, path, Text(lower(userAgent.chars)))
    {
      assert RuleAt(rules, parsed, |parsed|, float, Text(lower(userAgent.chars)));
      assert RuleAt(rules, parsed, |parsed|, float, Text("*"));
      var found := RuleForAgent(userAgent);
      if found.None? {
        return true;
      }
      allowed := Decide(path, found.value);
    }
  }

  /** Parsing the same lines again leaves the same rules and sitemaps. */
  method ReparsingChangesNothing(robots: RobotsService, content: seq<string>)
    returns (rules: map<Text, Rule>, sitemaps: seq<Text>)
    modifies robots
    ensures robots.rules == rules && robots.sitemaps == sitemaps
    ensures robots.Valid() && robots.parsed == ReadAll(content, robots.lower)
  {
    robots.Parse(content);
    rules, sitemaps := robots.rules, robots.sitemaps;
    robots.Parse(content);
    SameRules(rules, robots.rules, robots.parsed, robots.float);
  }
}
