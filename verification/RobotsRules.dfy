/**
 The rest of the robots.txt decision (sections 2.2.1 and 2.2.2 of RFC 9309): lines are collected
 into groups in one pass, the groups of the most specific matching agent are merged, and the
 longest matching rule decides.
 */
module RobotsRules {
  import opened Wrappers
  import opened RobotsPattern
  import opened Sequences
  import opened Text

  datatype Rule = Rule(allow: bool, pattern: string)
  datatype Group = Group(agents: seq<string>, rules: seq<Rule>)

  /** What one line says. A rule line may have an empty pattern. */
  datatype Directive = Agent(agent: string) | RuleLine(rule: Rule) | Other

  function Parse(rawLine: string): Directive {
    var line := Trim(rawLine[..IndexOf(rawLine, '#')]);
    var colon := IndexOf(line, ':');
    if colon == |line| then Other else
    var field, value := AsciiLower(Trim(line[..colon])), Trim(line[colon + 1..]);
    if field == "user-agent" then Agent(AsciiLower(value))
    else if field == "allow" then RuleLine(Rule(true, value))
    else if field == "disallow" then RuleLine(Rule(false, value))
    else Other
  }

  function ParseAll(lines: seq<string>): (ds: seq<Directive>)
    ensures |ds| == |lines| && forall i | 0 <= i < |ds| :: ds[i] == Parse(lines[i])
  {
    seq(|lines|, i requires 0 <= i < |lines| => Parse(lines[i]))
  }

  /** The field is what stands in front of the first colon and the value what stands behind it, up
      to a comment; the space around them and the letter case of the field do not matter. */
  lemma LineParses(left: string, right: string, comment: string)
    requires ':' !in left && '#' !in left && '#' !in right && (comment == "" || comment[0] == '#')
    ensures var d, field, value := Parse(left + ":" + right + comment), AsciiLower(Trim(left)), Trim(right);
            && (field == "user-agent" ==> d == Agent(AsciiLower(value)))
            && (field == "allow" ==> d == RuleLine(Rule(true, value)))
            && (field == "disallow" ==> d == RuleLine(Rule(false, value)))
            && (d == Other <==> field !in ["user-agent", "allow", "disallow"])
  {
    hide Trim, AsciiLower;
    var line := left + ":" + right;
    WithoutComment(line, comment);
    FieldAndValue(left, right);
  }

  /** A line without a colon in front of its comment says nothing. */
  lemma LineWithoutColon(line: string, comment: string)
    requires ':' !in line && '#' !in line && (comment == "" || comment[0] == '#')
    ensures Parse(line + comment) == Other
  {
    hide Trim, AsciiLower;
    WithoutComment(line, comment);
    TrimTakesOnly(line);
    assert ':' !in Trim(line);
  }

  lemma TrimTakesOnly(line: string)
    ensures forall c | c in Trim(line) :: c in line
  {
    var before := TrimStartTakes(line);
    var after := TrimEndTakes(TrimStart(line));
  }

  lemma WithoutComment(line: string, comment: string)
    requires '#' !in line && (comment == "" || comment[0] == '#')
    ensures (line + comment)[..IndexOf(line + comment, '#')] == line
  {
    if comment == "" {
      assert line + comment == line;
    } else {
      assert line + comment == line + ['#'] + comment[1..];
      IndexOfFirst(line, '#', comment[1..]);
    }
  }

  lemma FieldAndValue(left: string, right: string)
    requires ':' !in left
    ensures var line := Trim(left + ":" + right);
            var colon := IndexOf(line, ':');
            colon < |line| && Trim(line[..colon]) == Trim(left) && Trim(line[colon + 1..]) == Trim(right)
  {
    TrimOfLine(left, right);
    var pad := TrimStartTakes(left);
    var start, end := TrimStart(left), TrimEnd(right);
    var line := start + ":" + end;
    IndexOfFirst(start, ':', end);
    assert line[..|start|] == start && line[|start| + 1..] == end;
    TrimOfTrimEnd(right);
  }

  /** Nothing is trimmed between the field and the value. */
  lemma TrimOfLine(left: string, right: string)
    ensures Trim(left + ":" + right) == TrimStart(left) + ":" + TrimEnd(right)
  {
    hide Trim, TrimStart, TrimEnd, IsWhitespace, Blank;
    var before := TrimStartTakes(left);
    var after := TrimEndTakes(right);
    var start, end := TrimStart(left), TrimEnd(right);
    InTheMiddle(before, start, ":", end, after);
    EndsInText(start, end);
    TrimOfPadded(before, start + ":" + end, after);
  }

  lemma EndsInText(start: string, end: string)
    requires start == "" || !IsWhitespace(start[0])
    requires end == "" || !IsWhitespace(end[|end| - 1])
    ensures var line := start + ":" + end; !IsWhitespace(line[0]) && !IsWhitespace(line[|line| - 1])
  {
  }

  // ---------- What the lines mean ----------

  /** A user-agent line follows a rule line somewhere after p and before `to`. */
  ghost predicate Closed(ds: seq<Directive>, p: nat, to: nat)
    requires to <= |ds|
  {
    exists q, r :: p < q < r < to && ds[q].RuleLine? && ds[r].Agent?
  }

  /** The rule on line i is for the agent on line p: between the two no user-agent line follows a
      rule line. Rule lines with an empty pattern separate groups but say nothing. */
  ghost predicate Governs(ds: seq<Directive>, p: nat, i: nat) {
    && p < i < |ds| && ds[p].Agent?
    && ds[i].RuleLine? && ds[i].rule.pattern != ""
    && !Closed(ds, p, i)
  }

  /** How specifically a group's agent names the requested one. */
  function AgentMatch(agent: string, requested: string): Option<nat> {
    if agent == "*" then Some(0)
    else if Find(requested, agent).Some? then Some(Utf8Length(agent))
    else None
  }

  /** The star names every agent, anything else those that contain it; a name counts for its bytes. */
  lemma AgentMatchIsContainment(agent: string, requested: string)
    ensures agent == "*" ==> AgentMatch(agent, requested) == Some(0)
    ensures agent != "*" ==>
              (AgentMatch(agent, requested).Some? <==> exists before, after :: requested == before + agent + after)
    ensures agent != "*" && AgentMatch(agent, requested).Some? ==>
              AgentMatch(agent, requested).value == Utf8Length(agent)
  {
    hide Utf8Length;
    if Find(requested, agent).Some? {
      var i := Find(requested, agent).value;
      assert requested == requested[..i] + agent + requested[i + |agent|..];
    }
    if before, after :| requested == before + agent + after {
      assert requested[|before|..|before| + |agent|] == agent;
      assert At(requested, agent, |before|);
    }
  }

  /** No agent in the list is more specific than this one. */
  ghost predicate MostSpecific(agents: iset<string>, agent: string, requested: string) {
    && AgentMatch(agent, requested).Some?
    && forall other | other in agents && AgentMatch(other, requested).Some? ::
         AgentMatch(other, requested).value <= AgentMatch(agent, requested).value
  }

  ghost predicate Names(ds: seq<Directive>, agent: string) {
    Agent(agent) in ds
  }

  ghost function AgentsOfLines(ds: seq<Directive>): iset<string> {
    iset a | Names(ds, a)
  }

  /** The rule stands on a line that is for a most specific agent. */
  ghost predicate Applies(ds: seq<Directive>, requested: string, rule: Rule) {
    exists p: nat, i: nat ::
      Governs(ds, p, i) && ds[i].rule == rule && MostSpecific(AgentsOfLines(ds), ds[p].agent, requested)
  }

  /** Every applicable rule against the path is outdone by an applicable rule for it that is as
      long or longer. */
  ghost predicate Permits(applies: iset<Rule>, path: string) {
    forall no | no in applies && !no.allow && PatternMatch(no.pattern, path).Some? ::
      exists yes ::
        && yes in applies && yes.allow && PatternMatch(yes.pattern, path).Some?
        && PatternMatch(yes.pattern, path).value >= PatternMatch(no.pattern, path).value
  }

  ghost predicate Allowed(ds: seq<Directive>, requested: string, path: string) {
    Permits((iset rule | Applies(ds, requested, rule)), path)
  }

  // ---------- Collecting groups ----------

  /** Where the single pass stands. */
  datatype Pass = Pass(groups: seq<Group>, agents: seq<string>, rules: seq<Rule>, seenRule: bool)

  function Advance(pass: Pass, d: Directive): Pass {
    match d
    case Agent(agent) =>
      if pass.seenRule && pass.agents != [] then
        Pass(pass.groups + [Group(pass.agents, pass.rules)], [agent], [], false)
      else pass.(agents := pass.agents + [agent])
    case RuleLine(rule) =>
      if pass.agents == [] then pass
      else if rule.pattern == "" then pass.(seenRule := true)
      else pass.(seenRule := true, rules := pass.rules + [rule])
    case Other => pass
  }

  function PassOver(ds: seq<Directive>): Pass {
    if ds == [] then Pass([], [], [], false)
    else Advance(PassOver(ds[..|ds| - 1]), ds[|ds| - 1])
  }

  function Groups(ds: seq<Directive>): seq<Group> {
    var pass := PassOver(ds);
    if pass.agents == [] then pass.groups else pass.groups + [Group(pass.agents, pass.rules)]
  }

  /** The collecting loop. */
  method CollectGroups(body: string) returns (groups: seq<Group>)
    ensures groups == Groups(ParseAll(Lines(body)))
  {
    hide Parse;
    var lines := Lines(body);
    ghost var ds := ParseAll(lines);
    groups := [];
    var agents: seq<string>, rules: seq<Rule>, seenRule := [], [], false;
    for k := 0 to |lines|
      invariant Pass(groups, agents, rules, seenRule) == PassOver(ds[..k])
    {
      assert ds[..k + 1][..k] == ds[..k];
      match Parse(lines[k])
      case Other =>
      case Agent(agent) =>
        if seenRule && agents != [] {
          groups := groups + [Group(agents, rules)];
          agents, rules, seenRule := [], [], false;
        }
        agents := agents + [agent];
      case RuleLine(rule) =>
        if agents != [] {
          seenRule := true;
          if rule.pattern != "" {
            rules := rules + [rule];
          }
        }
    }
    assert ds[..|lines|] == ds;
    if agents != [] {
      groups := groups + [Group(agents, rules)];
    }
  }

  // ---------- No line is lost ----------

  function AllAgents(groups: seq<Group>): seq<string> {
    if groups == [] then [] else AllAgents(groups[..|groups| - 1]) + groups[|groups| - 1].agents
  }

  function AllRules(groups: seq<Group>): seq<Rule> {
    if groups == [] then [] else AllRules(groups[..|groups| - 1]) + groups[|groups| - 1].rules
  }

  function AgentValues(ds: seq<Directive>): seq<string> {
    if ds == [] then [] else
    var (init, d) := (ds[..|ds| - 1], ds[|ds| - 1]);
    AgentValues(init) + if d.Agent? then [d.agent] else []
  }

  /** The rules with a pattern behind the first user-agent line. */
  function RuleValues(ds: seq<Directive>): seq<Rule> {
    if ds == [] then [] else
    var (init, d) := (ds[..|ds| - 1], ds[|ds| - 1]);
    RuleValues(init) + if d.RuleLine? && d.rule.pattern != "" && AgentValues(init) != [] then [d.rule] else []
  }

  lemma AllOfExtended(groups: seq<Group>, g: Group)
    ensures AllAgents(groups + [g]) == AllAgents(groups) + g.agents
    ensures AllRules(groups + [g]) == AllRules(groups) + g.rules
  {
    assert (groups + [g])[..|groups|] == groups;
  }

  /** Before the first user-agent line nothing is kept; rules are kept only when a rule was seen. */
  predicate WellFormed(pass: Pass) {
    && (pass.agents == [] ==> pass == Pass([], [], [], false))
    && (pass.rules != [] ==> pass.seenRule)
    && forall g | g in pass.groups :: g.agents != []
  }

  lemma AdvanceLosesNothing(pass: Pass, d: Directive)
    requires WellFormed(pass)
    ensures var next := Advance(pass, d);
            && WellFormed(next)
            && AllAgents(next.groups) + next.agents
               == AllAgents(pass.groups) + pass.agents + (if d.Agent? then [d.agent] else [])
            && AllRules(next.groups) + next.rules
               == AllRules(pass.groups) + pass.rules
                  + (if d.RuleLine? && d.rule.pattern != "" && pass.agents != [] then [d.rule] else [])
  {
    hide AllAgents, AllRules;
    AllOfExtended(pass.groups, Group(pass.agents, pass.rules));
  }

  lemma {:induction false} PassLosesNothing(ds: seq<Directive>)
    ensures var pass := PassOver(ds);
            && AllAgents(pass.groups) + pass.agents == AgentValues(ds)
            && AllRules(pass.groups) + pass.rules == RuleValues(ds)
            && WellFormed(pass)
  {
    if ds == [] {
    } else {
      PassLosesNothing(ds[..|ds| - 1]);
      AdvanceLosesNothing(PassOver(ds[..|ds| - 1]), ds[|ds| - 1]);
    }
  }

  /** Every user-agent value and every rule with a pattern behind the first user-agent line goes
      into one group, once and in order. */
  lemma GroupsLoseNothing(ds: seq<Directive>)
    ensures AllAgents(Groups(ds)) == AgentValues(ds)
    ensures AllRules(Groups(ds)) == RuleValues(ds)
    ensures forall g | g in Groups(ds) :: g.agents != []
  {
    PassLosesNothing(ds);
    var pass := PassOver(ds);
    AllOfExtended(pass.groups, Group(pass.agents, pass.rules));
  }

  // ---------- A group pairs agents and rules as the lines do ----------

  ghost predicate Pairs(groups: seq<Group>, agent: string, rule: Rule) {
    exists g | g in groups :: agent in g.agents && rule in g.rules
  }

  ghost predicate LinesPair(ds: seq<Directive>, agent: string, rule: Rule) {
    exists p: nat, i: nat :: Governs(ds, p, i) && ds[p].agent == agent && ds[i].rule == rule
  }

  /** The agent of line p still collects rules at the end of the lines. */
  ghost predicate Open(ds: seq<Directive>, p: nat) {
    p < |ds| && ds[p].Agent? && !Closed(ds, p, |ds|)
  }

  ghost predicate RuleAfter(ds: seq<Directive>, p: nat) {
    exists q :: p < q < |ds| && ds[q].RuleLine?
  }

  ghost predicate OpenAgent(ds: seq<Directive>, agent: string) {
    exists p: nat :: Open(ds, p) && ds[p].agent == agent
  }

  lemma OpenOfExtended(ds: seq<Directive>, d: Directive, p: nat)
    ensures Open(ds + [d], p) <==>
              if p == |ds| then d.Agent? else Open(ds, p) && !(d.Agent? && RuleAfter(ds, p))
  {
    var es := ds + [d];
    if p < |ds| {
      assert es[p] == ds[p];
      if Closed(es, p, |es|) {
        var q, r :| p < q < r < |es| && es[q].RuleLine? && es[r].Agent?;
        assert es[q] == ds[q];
        if r < |ds| { assert es[r] == ds[r]; }
      }
      if Closed(ds, p, |ds|) {
        var q, r :| p < q < r < |ds| && ds[q].RuleLine? && ds[r].Agent?;
        assert es[q] == ds[q] && es[r] == ds[r];
      }
      if d.Agent? && RuleAfter(ds, p) {
        var q :| p < q < |ds| && ds[q].RuleLine?;
        assert es[q] == ds[q] && es[|ds|] == d;
      }
    }
  }

  lemma GovernsOfExtended(ds: seq<Directive>, d: Directive, p: nat, i: nat)
    ensures Governs(ds + [d], p, i) <==>
              if i == |ds| then Open(ds, p) && d.RuleLine? && d.rule.pattern != "" else Governs(ds, p, i)
  {
    var es := ds + [d];
    if p < i <= |ds| {
      assert es[p] == ds[p];
      assert es[..i] == ds[..i];
      assert Closed(es, p, i) <==> Closed(ds, p, i) by {
        assert forall k | 0 <= k < i :: es[k] == ds[k];
        if Closed(es, p, i) {
          var q, r :| p < q < r < i && es[q].RuleLine? && es[r].Agent?;
          assert ds[q] == es[q] && ds[r] == es[r];
        }
        if Closed(ds, p, i) {
          var q, r :| p < q < r < i && ds[q].RuleLine? && ds[r].Agent?;
          assert ds[q] == es[q] && ds[r] == es[r];
        }
      }
    }
  }

  /** What the single pass knows about the lines it has read. */
  ghost predicate PassAgrees(ds: seq<Directive>, pass: Pass) {
    && (forall agent :: agent in pass.agents <==> OpenAgent(ds, agent))
    && (forall p: nat | Open(ds, p) :: RuleAfter(ds, p) <==> pass.seenRule)
    && (forall agent, rule ::
          Pairs(pass.groups, agent, rule) || (agent in pass.agents && rule in pass.rules)
          <==> LinesPair(ds, agent, rule))
  }

  lemma OpenAgentOfExtended(ds: seq<Directive>, d: Directive, agent: string)
    ensures OpenAgent(ds + [d], agent) <==>
              || d == Agent(agent)
              || exists p: nat :: Open(ds, p) && ds[p].agent == agent && !(d.Agent? && RuleAfter(ds, p))
  {
    var es := ds + [d];
    if OpenAgent(es, agent) {
      var p: nat :| Open(es, p) && es[p].agent == agent;
      OpenOfExtended(ds, d, p);
      if p < |ds| { assert es[p] == ds[p]; }
    }
    if d == Agent(agent) {
      OpenOfExtended(ds, d, |ds|);
      assert Open(es, |ds|);
    }
    if p: nat :| Open(ds, p) && ds[p].agent == agent && !(d.Agent? && RuleAfter(ds, p)) {
      OpenOfExtended(ds, d, p);
      assert Open(es, p);
    }
  }

  lemma LinesPairOfExtended(ds: seq<Directive>, d: Directive, agent: string, rule: Rule)
    ensures LinesPair(ds + [d], agent, rule) <==>
              || LinesPair(ds, agent, rule)
              || (d == RuleLine(rule) && rule.pattern != "" && OpenAgent(ds, agent))
  {
    var es := ds + [d];
    if LinesPair(es, agent, rule) {
      var p: nat, i: nat :| Governs(es, p, i) && es[p].agent == agent && es[i].rule == rule;
      GovernsOfExtended(ds, d, p, i);
      assert es[p] == ds[p];
      if i < |ds| { assert es[i] == ds[i]; }
    }
    if LinesPair(ds, agent, rule) {
      var p: nat, i: nat :| Governs(ds, p, i) && ds[p].agent == agent && ds[i].rule == rule;
      GovernsOfExtended(ds, d, p, i);
      assert es[p] == ds[p] && es[i] == ds[i] && Governs(es, p, i);
    }
    if d == RuleLine(rule) && rule.pattern != "" && OpenAgent(ds, agent) {
      var p: nat :| Open(ds, p) && ds[p].agent == agent;
      GovernsOfExtended(ds, d, p, |ds|);
      assert es[p] == ds[p] && es[|ds|] == d && Governs(es, p, |ds|);
    }
  }

  lemma RuleAfterOfExtended(ds: seq<Directive>, d: Directive, p: nat)
    requires p < |ds|
    ensures RuleAfter(ds + [d], p) <==> RuleAfter(ds, p) || d.RuleLine?
  {
    var es := ds + [d];
    if RuleAfter(ds, p) {
      var q :| p < q < |ds| && ds[q].RuleLine?;
      assert es[q] == ds[q];
    }
    if d.RuleLine? { assert es[|ds|] == d; }
    if RuleAfter(es, p) {
      var q :| p < q < |es| && es[q].RuleLine?;
      if q < |ds| { assert es[q] == ds[q]; }
    }
  }

  lemma RuleNotAfterLast(ds: seq<Directive>, d: Directive)
    ensures !RuleAfter(ds + [d], |ds|)
  {
  }

  lemma OneMoreGroup(groups: seq<Group>, g: Group, agent: string, rule: Rule)
    ensures Pairs(groups + [g], agent, rule) <==>
              Pairs(groups, agent, rule) || (agent in g.agents && rule in g.rules)
  {
    var all := groups + [g];
    assert forall h :: h in all <==> h in groups || h == g;
  }

  lemma {:induction false} PassKeepsPairing(ds: seq<Directive>)
    ensures PassAgrees(ds, PassOver(ds))
    decreases |ds|
  {
    if ds == [] {
      NothingPairs();
    } else {
      var init, d := ds[..|ds| - 1], ds[|ds| - 1];
      assert ds == init + [d];
      PassKeepsPairing(init);
      PassLosesNothing(init);
      AdvanceKeepsAgents(init, PassOver(init), d);
      AdvanceKeepsSeenRule(init, PassOver(init), d);
      AdvanceKeepsPairs(init, PassOver(init), d);
    }
  }

  lemma NothingPairs()
    ensures PassAgrees([], Pass([], [], [], false))
  {
    assert forall agent :: !OpenAgent([], agent);
    assert forall agent, rule :: !LinesPair([], agent, rule) && !Pairs([], agent, rule);
  }

  lemma AdvanceKeepsAgents(ds: seq<Directive>, pass: Pass, d: Directive)
    requires WellFormed(pass) && PassAgrees(ds, pass)
    ensures forall agent :: agent in Advance(pass, d).agents <==> OpenAgent(ds + [d], agent)
  {
    hide Closed, RuleAfter, LinesPair, Pairs;
    forall agent ensures agent in Advance(pass, d).agents <==> OpenAgent(ds + [d], agent) {
      OpenAgentOfExtended(ds, d, agent);
      if p: nat :| Open(ds, p) && ds[p].agent == agent {
        assert OpenAgent(ds, agent);
        assert RuleAfter(ds, p) <==> pass.seenRule;
      }
    }
  }

  lemma AdvanceKeepsSeenRule(ds: seq<Directive>, pass: Pass, d: Directive)
    requires WellFormed(pass) && PassAgrees(ds, pass)
    ensures forall p: nat | Open(ds + [d], p) :: RuleAfter(ds + [d], p) <==> Advance(pass, d).seenRule
  {
    hide RuleAfter, LinesPair, Pairs;
    forall p: nat | Open(ds + [d], p)
      ensures RuleAfter(ds + [d], p) <==> Advance(pass, d).seenRule
    {
      OpenOfExtended(ds, d, p);
      if p < |ds| {
        RuleAfterOfExtended(ds, d, p);
        assert OpenAgent(ds, ds[p].agent);
      } else {
        assert d.Agent? && !RuleAfter(ds + [d], |ds|) by { RuleNotAfterLast(ds, d); }
      }
    }
  }

  lemma AdvanceKeepsPairs(ds: seq<Directive>, pass: Pass, d: Directive)
    requires WellFormed(pass) && PassAgrees(ds, pass)
    ensures var next := Advance(pass, d);
            forall agent, rule ::
              Pairs(next.groups, agent, rule) || (agent in next.agents && rule in next.rules)
              <==> LinesPair(ds + [d], agent, rule)
  {
    hide Open, RuleAfter, LinesPair, Pairs, OpenAgent;
    var next := Advance(pass, d);
    forall agent, rule
      ensures Pairs(next.groups, agent, rule) || (agent in next.agents && rule in next.rules)
              <==> LinesPair(ds + [d], agent, rule)
    {
      LinesPairOfExtended(ds, d, agent, rule);
      OneMoreGroup(pass.groups, Group(pass.agents, pass.rules), agent, rule);
    }
  }

  /** An agent and a rule are in one group exactly when some line of the agent governs some line
      of the rule. */
  lemma GroupsPairAsLinesDo(ds: seq<Directive>, agent: string, rule: Rule)
    ensures Pairs(Groups(ds), agent, rule) <==> LinesPair(ds, agent, rule)
  {
    hide LinesPair, Pairs, OpenAgent, Open, RuleAfter;
    PassKeepsPairing(ds);
    PassLosesNothing(ds);
    var pass := PassOver(ds);
    OneMoreGroup(pass.groups, Group(pass.agents, pass.rules), agent, rule);
  }

  // ---------- The decision ----------

  function Best(agents: seq<string>, requested: string): Option<nat> {
    if agents == [] then None else
    var rest := Best(agents[1..], requested);
    match AgentMatch(agents[0], requested)
    case None => rest
    case Some(n) => if rest.Some? && rest.value > n then rest else Some(n)
  }

  /** The rules of the groups that have an agent of this length. */
  function SelectedRules(groups: seq<Group>, requested: string, length: nat): seq<Rule> {
    if groups == [] then [] else
    (if exists a | a in groups[0].agents :: AgentMatch(a, requested) == Some(length) then groups[0].rules else [])
    + SelectedRules(groups[1..], requested, length)
  }

  /** The greatest (length, allow) among the matching rules. */
  function Decisive(rules: seq<Rule>, path: string): Option<(nat, bool)> {
    if rules == [] then None else
    var rest := Decisive(rules[1..], path);
    match PatternMatch(rules[0].pattern, path)
    case None => rest
    case Some(n) =>
      if rest.Some? && (rest.value.0 > n || (rest.value.0 == n && rest.value.1)) then rest
      else Some((n, rules[0].allow))
  }

  function Verdict(groups: seq<Group>, requested: string, path: string): bool {
    match Best(AllAgents(groups), requested)
    case None => true
    case Some(length) =>
      match Decisive(SelectedRules(groups, requested, length), path)
      case None => true
      case Some(key) => key.1
  }

  lemma {:induction false} BestIsMostSpecific(agents: seq<string>, requested: string)
    ensures var best := Best(agents, requested);
            && (best.None? <==> forall a | a in agents :: AgentMatch(a, requested).None?)
            && (best.Some? ==> exists a | a in agents :: AgentMatch(a, requested) == best)
            && forall a | a in agents && AgentMatch(a, requested).Some? ::
                 best.Some? && AgentMatch(a, requested).value <= best.value
  {
    hide AgentMatch;
    if agents == [] {
    } else {
      BestIsMostSpecific(agents[1..], requested);
      assert agents == [agents[0]] + agents[1..];
    }
  }

  lemma {:induction false} SelectedRulesAre(groups: seq<Group>, requested: string, length: nat, rule: Rule)
    ensures rule in SelectedRules(groups, requested, length) <==>
              exists a :: AgentMatch(a, requested) == Some(length) && Pairs(groups, a, rule)
  {
    hide AgentMatch;
    if groups == [] {
    } else {
      SelectedRulesAre(groups[1..], requested, length, rule);
      assert groups == [groups[0]] + groups[1..];
      forall a ensures Pairs(groups, a, rule) <==>
        Pairs(groups[1..], a, rule) || (a in groups[0].agents && rule in groups[0].rules)
      {
      }
    }
  }

  lemma {:induction false} DecisiveIsGreatest(rules: seq<Rule>, path: string)
    ensures var d := Decisive(rules, path);
            && (d.Some? ==> exists r | r in rules ::
                  PatternMatch(r.pattern, path) == Some(d.value.0) && r.allow == d.value.1)
            && forall r | r in rules && PatternMatch(r.pattern, path).Some? ::
                 var n := PatternMatch(r.pattern, path).value;
                 d.Some? && (n < d.value.0 || (n == d.value.0 && (r.allow ==> d.value.1)))
  {
    hide PatternMatch;
    if rules == [] {
    } else {
      DecisiveIsGreatest(rules[1..], path);
      assert rules == [rules[0]] + rules[1..];
    }
  }

  lemma DecisivePermits(rules: seq<Rule>, path: string)
    ensures Permits((iset r | r in rules), path) <==> Decisive(rules, path).None? || Decisive(rules, path).value.1
  {
    hide PatternMatch, Decisive;
    DecisiveIsGreatest(rules, path);
  }

  ghost predicate HasAgent(groups: seq<Group>, agent: string) {
    exists g | g in groups :: agent in g.agents
  }

  ghost function AgentsOf(groups: seq<Group>): iset<string> {
    iset a | HasAgent(groups, a)
  }

  /** The rule is in a group that has a most specific agent. */
  ghost predicate IsSelected(groups: seq<Group>, requested: string, rule: Rule) {
    exists a :: Pairs(groups, a, rule) && MostSpecific(AgentsOf(groups), a, requested)
  }

  ghost function Selected(groups: seq<Group>, requested: string): iset<Rule> {
    iset rule | IsSelected(groups, requested, rule)
  }

  lemma {:induction false} AllAgentsAre(groups: seq<Group>, a: string)
    ensures a in AllAgents(groups) <==> a in AgentsOf(groups)
  {
    if groups == [] {
    } else {
      AllAgentsAre(groups[..|groups| - 1], a);
      assert groups == groups[..|groups| - 1] + [groups[|groups| - 1]];
    }
  }

  lemma PairHasAgent(groups: seq<Group>, a: string, rule: Rule)
    requires Pairs(groups, a, rule)
    ensures a in AgentsOf(groups)
  {
  }

  /** The verdict chain means: no selected rule against the path goes unanswered. */
  lemma VerdictMeans(groups: seq<Group>, requested: string, path: string)
    ensures Verdict(groups, requested, path) <==> Permits(Selected(groups, requested), path)
  {
    hide AgentMatch, Pairs, Permits, Decisive, SelectedRules, Best, AllAgents;
    var agents := AllAgents(groups);
    BestIsMostSpecific(agents, requested);
    forall a ensures a in agents <==> a in AgentsOf(groups) { AllAgentsAre(groups, a); }
    var best := Best(agents, requested);
    if best.None? {
      assert Selected(groups, requested) == iset{} by {
        hide HasAgent;
        assert forall a :: !MostSpecific(AgentsOf(groups), a, requested) || a !in agents;
        forall a, r | Pairs(groups, a, r) ensures a in agents { PairHasAgent(groups, a, r); }
      }
      NothingForbids(path);
    } else {
      var rules := SelectedRules(groups, requested, best.value);
      forall r ensures r in rules <==> r in Selected(groups, requested) {
        hide HasAgent;
        SelectedRulesAre(groups, requested, best.value, r);
        forall a | Pairs(groups, a, r)
          ensures MostSpecific(AgentsOf(groups), a, requested) <==> AgentMatch(a, requested) == best
        {
          PairHasAgent(groups, a, r);
        }
      }
      assert (iset r | r in rules) == Selected(groups, requested);
      DecisivePermits(rules, path);
    }
  }

  lemma NothingForbids(path: string)
    ensures Permits(iset{}, path)
  {
  }

  // ---------- Main results ----------

  lemma {:induction false} AgentValuesAre(ds: seq<Directive>, a: string)
    ensures a in AgentValues(ds) <==> Names(ds, a)
  {
    if ds == [] {
    } else {
      AgentValuesAre(ds[..|ds| - 1], a);
      assert ds == ds[..|ds| - 1] + [ds[|ds| - 1]];
    }
  }

  /** Deciding on the collected groups is deciding on the lines themselves. */
  lemma GroupsDecideAsLinesDo(ds: seq<Directive>, requested: string, path: string)
    ensures Verdict(Groups(ds), requested, path) <==> Allowed(ds, requested, path)
  {
    hide AgentMatch, Pairs, Permits, Governs, Groups, Verdict, Names, HasAgent, MostSpecific;
    var groups := Groups(ds);
    VerdictMeans(groups, requested, path);
    GroupsLoseNothing(ds);
    forall a ensures a in AgentsOf(groups) <==> a in AgentsOfLines(ds) {
      AllAgentsAre(groups, a);
      AgentValuesAre(ds, a);
    }
    assert AgentsOf(groups) == AgentsOfLines(ds);
    forall rule ensures IsSelected(groups, requested, rule) <==> Applies(ds, requested, rule) {
      SelectedAsApplies(ds, requested, rule);
    }
    assert Selected(groups, requested) == iset rule | Applies(ds, requested, rule);
  }

  lemma SelectedAsApplies(ds: seq<Directive>, requested: string, rule: Rule)
    requires AgentsOf(Groups(ds)) == AgentsOfLines(ds)
    ensures IsSelected(Groups(ds), requested, rule) <==> Applies(ds, requested, rule)
  {
    hide AgentMatch, Pairs, Closed, Groups, Names, HasAgent, MostSpecific;
    var groups := Groups(ds);
    if IsSelected(groups, requested, rule) {
      var a :| Pairs(groups, a, rule) && MostSpecific(AgentsOf(groups), a, requested);
      GroupsPairAsLinesDo(ds, a, rule);
      var p: nat, i: nat :| Governs(ds, p, i) && ds[p].agent == a && ds[i].rule == rule;
    }
    if Applies(ds, requested, rule) {
      var p: nat, i: nat :|
        Governs(ds, p, i) && ds[i].rule == rule && MostSpecific(AgentsOfLines(ds), ds[p].agent, requested);
      GroupsPairAsLinesDo(ds, ds[p].agent, rule);
      assert LinesPair(ds, ds[p].agent, rule);
    }
  }

  /** robots_text_allows on the text of a robots.txt file. */
  method RobotsTextAllows(body: string, path: string, userAgent: string) returns (allowed: bool)
    ensures allowed <==> Allowed(ParseAll(Lines(body)), AsciiLower(userAgent), path)
  {
    hide Allowed, Groups, Verdict;
    var requested := AsciiLower(userAgent);
    var groups := CollectGroups(body);
    GroupsDecideAsLinesDo(ParseAll(Lines(body)), requested, path);
    return Verdict(groups, requested, path);
  }

  /** Of the selected rules that match, one with more text than every opposite one decides; when it allows,
      as much text will do. */
  lemma LongestTextDecides(groups: seq<Group>, requested: string, path: string, rule: Rule)
    requires IsSelected(groups, requested, rule) && PatternMatch(rule.pattern, path).Some?
    requires forall other ::
               IsSelected(groups, requested, other) && PatternMatch(other.pattern, path).Some?
               && other.allow != rule.allow ==>
                 || TextLength(other.pattern) < TextLength(rule.pattern)
                 || (rule.allow && TextLength(other.pattern) == TextLength(rule.pattern))
    ensures Verdict(groups, requested, path) == rule.allow
  {
    hide PatternMatch, TextLength, IsSelected, Verdict;
    VerdictMeans(groups, requested, path);
    forall pattern ensures PatternMatch(pattern, path).Some? ==>
                             PatternMatch(pattern, path).value == TextLength(pattern)
    {
      MatchesWeighTheirText(pattern, path);
    }
    assert rule in Selected(groups, requested);
  }

  /** Of two rules with plain paths in one group, the one with the longer path decides, and the one that
      allows when they are as long; a rule whose path does not match has no say. */
  lemma TwoPlainRules(agent: string, a: Rule, b: Rule, requested: string, path: string)
    requires AgentMatch(agent, requested).Some?
    requires forall p | p in [a.pattern, b.pattern] :: '*' !in p && (p == "" || p[|p| - 1] != '$')
    requires a.pattern <= path
    ensures Verdict([Group([agent], [a, b])], requested, path)
         == if !(b.pattern <= path) || |a.pattern| > |b.pattern| then a.allow
            else if |a.pattern| == |b.pattern| then a.allow || b.allow
            else b.allow
  {
    hide PatternMatch, AgentMatch, Verdict, IsSelected;
    var groups := [Group([agent], [a, b])];
    PlainPatternsArePrefixes(a.pattern, path);
    PlainPatternsArePrefixes(b.pattern, path);
    VerdictMeans(groups, requested, path);
    forall rule ensures IsSelected(groups, requested, rule) <==> rule == a || rule == b {
      OneGroupSelects(agent, [a, b], requested, rule);
    }
    assert a in Selected(groups, requested) && b in Selected(groups, requested);
  }

  lemma OneGroupSelects(agent: string, rules: seq<Rule>, requested: string, rule: Rule)
    requires AgentMatch(agent, requested).Some?
    ensures IsSelected([Group([agent], rules)], requested, rule) <==> rule in rules
  {
    hide AgentMatch;
    var groups := [Group([agent], rules)];
    assert groups[0] in groups && agent in groups[0].agents;
    assert forall x :: HasAgent(groups, x) <==> x == agent;
    assert MostSpecific(AgentsOf(groups), agent, requested);
    assert Pairs(groups, agent, rule) <==> rule in rules;
  }

  /** A verdict depends only on which agents are named and which agent stands with which rule. */
  lemma PairingDecides(groups: seq<Group>, others: seq<Group>, requested: string, path: string)
    requires forall a :: HasAgent(groups, a) <==> HasAgent(others, a)
    requires forall a, rule :: Pairs(groups, a, rule) <==> Pairs(others, a, rule)
    ensures Verdict(groups, requested, path) == Verdict(others, requested, path)
  {
    hide Pairs, HasAgent, MostSpecific, Permits, Verdict;
    VerdictMeans(groups, requested, path);
    VerdictMeans(others, requested, path);
    assert AgentsOf(groups) == AgentsOf(others);
    assert Selected(groups, requested) == Selected(others, requested);
  }

  /** The order of the groups never matters. */
  lemma GroupOrderIsIrrelevant(groups: seq<Group>, others: seq<Group>, requested: string, path: string)
    requires multiset(groups) == multiset(others)
    ensures Verdict(groups, requested, path) == Verdict(others, requested, path)
  {
    hide Verdict;
    assert forall g :: g in groups <==> g in multiset(groups);
    assert forall g :: g in others <==> g in multiset(others);
    PairingDecides(groups, others, requested, path);
  }

  lemma ReplacedRules(groups: seq<Group>, k: nat, rules: seq<Rule>, a: string, rule: Rule)
    requires k < |groups|
    ensures var others := groups[k := groups[k].(rules := rules)];
            && (HasAgent(others, a) <==> HasAgent(groups, a))
            && (Pairs(others, a, rule) <==>
                  || (exists j | 0 <= j < |groups| && j != k :: a in groups[j].agents && rule in groups[j].rules)
                  || (a in groups[k].agents && rule in rules))
            && (Pairs(groups, a, rule) <==>
                  || (exists j | 0 <= j < |groups| && j != k :: a in groups[j].agents && rule in groups[j].rules)
                  || (a in groups[k].agents && rule in groups[k].rules))
  {
    var others := groups[k := groups[k].(rules := rules)];
    assert others[k].agents == groups[k].agents && others[k].rules == rules;
    assert forall j | 0 <= j < |groups| && j != k :: others[j] == groups[j];
    if HasAgent(groups, a) {
      var j :| 0 <= j < |groups| && a in groups[j].agents;
      assert others[j] in others && a in others[j].agents;
    }
    if HasAgent(others, a) {
      var j :| 0 <= j < |others| && a in others[j].agents;
      assert groups[j] in groups && a in groups[j].agents;
    }
    PairsByIndex(groups, a, rule);
    PairsByIndex(others, a, rule);
  }

  lemma PairsByIndex(groups: seq<Group>, a: string, rule: Rule)
    ensures Pairs(groups, a, rule) <==>
              exists j | 0 <= j < |groups| :: a in groups[j].agents && rule in groups[j].rules
  {
    if j :| 0 <= j < |groups| && a in groups[j].agents && rule in groups[j].rules {
      assert groups[j] in groups;
    }
  }

  /** Nor does the order of the rules within a group. */
  lemma RuleOrderIsIrrelevant(groups: seq<Group>, k: nat, rules: seq<Rule>, requested: string, path: string)
    requires k < |groups| && multiset(rules) == multiset(groups[k].rules)
    ensures Verdict(groups[k := groups[k].(rules := rules)], requested, path) == Verdict(groups, requested, path)
  {
    hide Verdict, Pairs, HasAgent;
    var others := groups[k := groups[k].(rules := rules)];
    assert forall r :: r in rules <==> r in multiset(rules);
    assert forall r :: r in groups[k].rules <==> r in multiset(groups[k].rules);
    forall a ensures HasAgent(others, a) <==> HasAgent(groups, a) {
      ReplacedRules(groups, k, rules, a, Rule(true, ""));
    }
    forall a, rule ensures Pairs(others, a, rule) <==> Pairs(groups, a, rule) {
      ReplacedRules(groups, k, rules, a, rule);
    }
    PairingDecides(others, groups, requested, path);
  }

  /** One more Allow rule anywhere never forbids what was allowed. */
  lemma AllowNeverForbids(groups: seq<Group>, k: nat, at: nat, pattern: string, requested: string, path: string)
    requires k < |groups| && at <= |groups[k].rules|
    requires Verdict(groups, requested, path)
    ensures var rules := groups[k].rules[..at] + [Rule(true, pattern)] + groups[k].rules[at..];
            Verdict(groups[k := groups[k].(rules := rules)], requested, path)
  {
    hide Verdict, Pairs, HasAgent, MostSpecific, Permits;
    var before, yes := groups[k].rules, Rule(true, pattern);
    var rules := before[..at] + [yes] + before[at..];
    var others := groups[k := groups[k].(rules := rules)];
    assert forall r :: r in rules <==> r in before || r == yes by {
      assert before == before[..at] + before[at..];
    }
    forall a ensures HasAgent(others, a) <==> HasAgent(groups, a) {
      ReplacedRules(groups, k, rules, a, yes);
    }
    forall a, rule
      ensures Pairs(groups, a, rule) ==> Pairs(others, a, rule)
      ensures Pairs(others, a, rule) ==> Pairs(groups, a, rule) || rule == yes
    {
      ReplacedRules(groups, k, rules, a, rule);
    }
    assert AgentsOf(others) == AgentsOf(groups);
    VerdictMeans(groups, requested, path);
    VerdictMeans(others, requested, path);
    MoreAllowsPermit(Selected(groups, requested), Selected(others, requested), path);
  }

  lemma MoreAllowsPermit(fewer: iset<Rule>, more: iset<Rule>, path: string)
    requires fewer <= more && forall r | r in more && r !in fewer :: r.allow
    requires Permits(fewer, path)
    ensures Permits(more, path)
  {
  }
}
