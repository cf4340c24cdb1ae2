/**
 The groups of nodes whose writes a target summarises (`src/config.rs`): for
 every client, or for one. No node may be in two overlapping groups;
 configurations from before that rule are cleaned when they are read.
 */
module SummariseGroups {
  import opened Prelude

  type NodeId = string

  /** How text is read: what is white space, and what a trimmed text names. */
  datatype Syntax = Syntax(space: char -> bool, node: string -> Option<NodeId>)

  datatype Group = Group(
    name: Option<string>,
    client: Option<string>,      // an address or application URI; for every client if none
    nodes: seq<string>,
    names: map<string, string>)

  /** The old form: one rule per node. */
  datatype IgnoreRule = IgnoreRule(nodeId: string, client: Option<string>, name: Option<string>)

  /** Who writes: an address, and perhaps an application URI. */
  datatype Caller = Caller(address: string, uri: Option<string>)

  function TrimStart(space: char -> bool, s: string): string {
    if s != [] && space(s[0]) then TrimStart(space, s[1..]) else s
  }

  function TrimEnd(space: char -> bool, s: string): string {
    if s != [] && space(Last(s)) then TrimEnd(space, s[..|s| - 1]) else s
  }

  function Trim(space: char -> bool, s: string): string {
    TrimEnd(space, TrimStart(space, s))
  }

  function Parse(syntax: Syntax, s: string): Option<NodeId> {
    syntax.node(Trim(syntax.space, s))
  }

  /** The nodes of a group, without those that do not parse. */
  function NodesOf(syntax: Syntax, g: Group): set<NodeId> {
    set n | n in g.nodes && Parse(syntax, n).Some? :: Parse(syntax, n).value
  }

  /** Whether two groups overlap: the same client, as it is written, or one of
      them is for every client. A group for an address and one for the URI of a
      client there do not overlap, though a write can be for both. */
  predicate Overlap(a: Group, b: Group) {
    a.client.None? || b.client.None? || a.client == b.client
  }

  /** Whether a group is for a caller. */
  predicate IsFor(syntax: Syntax, g: Group, who: Caller) {
    g.client.Some? ==>
      Trim(syntax.space, g.client.value) == who.address || Some(Trim(syntax.space, g.client.value)) == who.uri
  }

  /** Whether a write is summarised: a scan of the groups. */
  predicate Scan(syntax: Syntax, groups: seq<Group>, node: NodeId, who: Caller) {
    exists i :: 0 <= i < |groups| && node in NodesOf(syntax, groups[i]) && IsFor(syntax, groups[i], who)
  }

  // ----- old rules -----

  function ClientOf(syntax: Syntax, rule: IgnoreRule): Option<string> {
    if rule.client.Some? && Trim(syntax.space, rule.client.value) != ""
    then Some(Trim(syntax.space, rule.client.value)) else None
  }

  /** The first group of a client, or the length if there is none. */
  function Position(groups: seq<Group>, client: Option<string>): (i: nat)
    ensures i <= |groups| && (i < |groups| ==> groups[i].client == client)
  {
    if groups == [] || groups[0].client == client then 0 else 1 + Position(groups[1..], client)
  }

  function WithNode(g: Group, nodeId: string, name: Option<string>): Group {
    var nodes := if nodeId in g.nodes then g.nodes else g.nodes + [nodeId];
    g.(nodes := nodes, names := if name.Some? then g.names[nodeId := name.value] else g.names)
  }

  function WithRule(syntax: Syntax, groups: seq<Group>, rule: IgnoreRule): seq<Group> {
    var i := Position(groups, ClientOf(syntax, rule));
    var all := if i == |groups| then groups + [Group(None, ClientOf(syntax, rule), [], map[])] else groups;
    var name := if rule.name.Some? && Trim(syntax.space, rule.name.value) != "" then rule.name else None;
    all[i := WithNode(all[i], Trim(syntax.space, rule.nodeId), name)]
  }

  function WithRules(syntax: Syntax, groups: seq<Group>, rules: seq<IgnoreRule>): seq<Group> {
    if rules == [] then groups
    else WithRule(syntax, WithRules(syntax, groups, rules[..|rules| - 1]), Last(rules))
  }

  /** What an old rule summarised. */
  predicate RuleSays(syntax: Syntax, rule: IgnoreRule, node: NodeId, who: Caller) {
    && Parse(syntax, rule.nodeId) == Some(node)
    && (rule.client.Some? && Trim(syntax.space, rule.client.value) != "" ==>
          || Trim(syntax.space, rule.client.value) == who.address
          || Some(Trim(syntax.space, rule.client.value)) == who.uri)
  }

  lemma {:induction false} TrimStartStays(space: char -> bool, s: string)
    ensures TrimStart(space, TrimStart(space, s)) == TrimStart(space, s)
    ensures TrimStart(space, s) == [] || !space(TrimStart(space, s)[0])
  {
    if s != [] && space(s[0]) {
      TrimStartStays(space, s[1..]);
    }
  }

  lemma {:induction false} TrimEndKeepsStart(space: char -> bool, s: string)
    ensures TrimEnd(space, TrimEnd(space, s)) == TrimEnd(space, s)
    ensures TrimEnd(space, s) != [] ==> s != [] && TrimEnd(space, s)[0] == s[0]
  {
    if s != [] && space(Last(s)) {
      TrimEndKeepsStart(space, s[..|s| - 1]);
    }
  }

  lemma TrimStays(space: char -> bool, s: string)
    ensures Trim(space, Trim(space, s)) == Trim(space, s)
  {
    TrimStartStays(space, s);
    TrimEndKeepsStart(space, TrimStart(space, s));
  }

  lemma NodesWithNode(syntax: Syntax, g: Group, nodeId: string, name: Option<string>)
    ensures NodesOf(syntax, WithNode(g, nodeId, name))
         == NodesOf(syntax, g) + (if Parse(syntax, nodeId).Some? then {Parse(syntax, nodeId).value} else {})
  {
    var nodes := WithNode(g, nodeId, name).nodes;
    assert nodeId in nodes;
    forall n ensures n in nodes <==> n in g.nodes || n == nodeId {
    }
  }

  predicate IsNamed(syntax: Syntax, rule: IgnoreRule) {
    rule.name.Some? && Trim(syntax.space, rule.name.value) != ""
  }

  /** A rule goes to the first group of its client, or a new one at the end if
      there is none; its name, unless blank, becomes that of the node there. */
  lemma RuleGoesToItsClient(syntax: Syntax, groups: seq<Group>, rule: IgnoreRule) returns (i: nat)
    ensures var after, nodeId := WithRule(syntax, groups, rule), Trim(syntax.space, rule.nodeId);
      && i < |after| && nodeId in after[i].nodes
      && (after[i].client.Some? <==> rule.client.Some? && Trim(syntax.space, rule.client.value) != "")
      && (after[i].client.Some? ==> after[i].client.value == Trim(syntax.space, rule.client.value))
      && (forall k :: 0 <= k < i ==> after[k].client != after[i].client)
      && |after| == (if i < |groups| then |groups| else |groups| + 1)
      && (forall k :: 0 <= k < |groups| && k != i ==> after[k] == groups[k])
      && (IsNamed(syntax, rule) ==> nodeId in after[i].names && after[i].names[nodeId] == rule.name.value)
      && (!IsNamed(syntax, rule) && i < |groups| ==> after[i].names == groups[i].names)
  {
    i := Position(groups, ClientOf(syntax, rule));
    FirstOfItsClient(groups, ClientOf(syntax, rule));
  }

  lemma {:induction false} FirstOfItsClient(groups: seq<Group>, client: Option<string>)
    ensures forall k :: 0 <= k < Position(groups, client) ==> groups[k].client != client
  {
    if groups != [] && groups[0].client != client {
      FirstOfItsClient(groups[1..], client);
    }
  }

  lemma RuleKeepsMeaning(syntax: Syntax, groups: seq<Group>, rule: IgnoreRule, node: NodeId, who: Caller)
    ensures Scan(syntax, WithRule(syntax, groups, rule), node, who)
       <==> Scan(syntax, groups, node, who) || RuleSays(syntax, rule, node, who)
  {
    var client, nodeId := ClientOf(syntax, rule), Trim(syntax.space, rule.nodeId);
    TrimStays(syntax.space, rule.nodeId);
    if client.Some? {
      TrimStays(syntax.space, rule.client.value);
    }
    var i, after := Position(groups, client), WithRule(syntax, groups, rule);
    var all := if i == |groups| then groups + [Group(None, client, [], map[])] else groups;
    var name := if rule.name.Some? && Trim(syntax.space, rule.name.value) != "" then rule.name else None;
    NodesWithNode(syntax, all[i], nodeId, name);
    assert all[i].client == client;
    assert RuleSays(syntax, rule, node, who) <==> Parse(syntax, nodeId) == Some(node) && IsFor(syntax, all[i], who);
    if Scan(syntax, after, node, who) {
      var k :| 0 <= k < |after| && node in NodesOf(syntax, after[k]) && IsFor(syntax, after[k], who);
      if k != i {
        assert after[k] == groups[k];
      }
    }
    if Scan(syntax, groups, node, who) {
      var k :| 0 <= k < |groups| && node in NodesOf(syntax, groups[k]) && IsFor(syntax, groups[k], who);
      assert node in NodesOf(syntax, after[k]) && IsFor(syntax, after[k], who);
    }
    if RuleSays(syntax, rule, node, who) {
      assert node in NodesOf(syntax, after[i]) && IsFor(syntax, after[i], who);
    }
  }

  /** What the groups `now` summarise is what `groups` or one of the rules did. */
  predicate Adds(syntax: Syntax, groups: seq<Group>, rules: seq<IgnoreRule>, now: seq<Group>, node: NodeId,
                 who: Caller) {
    Scan(syntax, now, node, who) <==> Scan(syntax, groups, node, who) || SomeRuleSays(syntax, rules, node, who)
  }

  lemma {:induction false} RulesAdd(syntax: Syntax, groups: seq<Group>, rules: seq<IgnoreRule>, node: NodeId,
                                    who: Caller)
    ensures Adds(syntax, groups, rules, WithRules(syntax, groups, rules), node, who)
  {
    if rules != [] {
      var before := rules[..|rules| - 1];
      RulesAdd(syntax, groups, before, node, who);
      OneMoreRuleAdds(syntax, groups, rules, WithRules(syntax, groups, before), node, who);
    }
  }

  lemma OneMoreRuleAdds(syntax: Syntax, groups: seq<Group>, rules: seq<IgnoreRule>, now: seq<Group>, node: NodeId,
                        who: Caller)
    requires rules != [] && Adds(syntax, groups, rules[..|rules| - 1], now, node, who)
    ensures Adds(syntax, groups, rules, WithRule(syntax, now, Last(rules)), node, who)
  {
    RuleKeepsMeaning(syntax, now, Last(rules), node, who);
    SomeRuleOfOneMore(syntax, rules[..|rules| - 1], Last(rules), node, who);
    assert rules == rules[..|rules| - 1] + [Last(rules)];
  }

  /** After the old rules have moved, exactly the writes are summarised that the
      groups or a rule summarised before. */
  lemma MigrationKeepsMeaning(syntax: Syntax, groups: seq<Group>, rules: seq<IgnoreRule>, node: NodeId, who: Caller)
    ensures Scan(syntax, WithRules(syntax, groups, rules), node, who)
       <==> Scan(syntax, groups, node, who) || exists r :: r in rules && RuleSays(syntax, r, node, who)
  {
    RulesAdd(syntax, groups, rules, node, who);
  }

  predicate SomeRuleSays(syntax: Syntax, rules: seq<IgnoreRule>, node: NodeId, who: Caller) {
    exists r :: r in rules && RuleSays(syntax, r, node, who)
  }

  lemma SomeRuleOfOneMore(syntax: Syntax, rules: seq<IgnoreRule>, rule: IgnoreRule, node: NodeId, who: Caller)
    ensures SomeRuleSays(syntax, rules + [rule], node, who)
       <==> SomeRuleSays(syntax, rules, node, who) || RuleSays(syntax, rule, node, who)
  {
    assert forall r :: r in rules + [rule] <==> r in rules || r == rule;
    assert rule in rules + [rule];
  }

  // ----- dropping overlaps -----

  function Without(syntax: Syntax, nodes: seq<string>, taken: set<NodeId>): seq<string> {
    if nodes == [] then []
    else
      var before := Without(syntax, nodes[..|nodes| - 1], taken);
      var p := Parse(syntax, Last(nodes));
      if p.Some? && p.value in taken then before else before + [Last(nodes)]
  }

  /** A group after an earlier one took what belongs to it. */
  function DropBy(syntax: Syntax, first: Group, later: Group): Group {
    if !Overlap(first, later) then later
    else
      var kept := Without(syntax, later.nodes, NodesOf(syntax, first));
      later.(nodes := kept, names := map k | k in later.names && k in kept :: later.names[k])
  }

  function DropByAll(syntax: Syntax, firsts: seq<Group>, later: Group): Group {
    if firsts == [] then later
    else DropBy(syntax, Last(firsts), DropByAll(syntax, firsts[..|firsts| - 1], later))
  }

  /** Each group without what the cleaned groups before it have. */
  function Cleaned(syntax: Syntax, groups: seq<Group>): (cleaned: seq<Group>)
    ensures |cleaned| == |groups|
  {
    if groups == [] then []
    else
      var before := Cleaned(syntax, groups[..|groups| - 1]);
      before + [DropByAll(syntax, before, Last(groups))]
  }

  /** A node dropped from a group, because an earlier one has it. */
  datatype Drop = Drop(node: string, group: nat, first: nat)

  class TargetConfig {
    var summarise: seq<Group>
    var ignored: seq<IgnoreRule>

    constructor (summarise: seq<Group>, ignored: seq<IgnoreRule>)
      ensures this.summarise == summarise && this.ignored == ignored
    {
      this.summarise, this.ignored := summarise, ignored;
    }

    /** A node in two overlapping groups. */
    method SummariseOverlap(syntax: Syntax) returns (found: Option<(string, nat, nat)>)
      ensures found.None? <==> Disjoint(syntax, summarise)
      ensures found.Some? ==>
                var (n, i, j) := found.value;
                && i < j < |summarise| && Overlap(summarise[i], summarise[j])
                && n in summarise[j].nodes && IsTaken(syntax, n, NodesOf(syntax, summarise[i]))
    {
      for i := 0 to |summarise|
        invariant forall a, b :: 0 <= a < i && a < b < |summarise| ==> PairDisjoint(syntax, summarise, a, b)
      {
        var inA := NodesOf(syntax, summarise[i]);
        for j := i + 1 to |summarise|
          invariant forall b :: i < b < j ==> PairDisjoint(syntax, summarise, i, b)
        {
          if Overlap(summarise[i], summarise[j]) {
            var nodes := summarise[j].nodes;
            for k := 0 to |nodes|
              invariant forall m :: 0 <= m < k ==> !IsTaken(syntax, nodes[m], inA)
            {
              if IsTaken(syntax, nodes[k], inA) {
                assert Parse(syntax, nodes[k]).value in NodesOf(syntax, summarise[j]);
                assert !PairDisjoint(syntax, summarise, i, j);
                return Some((nodes[k], i, j));
              }
            }
            NoneTaken(syntax, summarise[j], inA);
          }
          assert PairDisjoint(syntax, summarise, i, j);
        }
      }
      found := None;
    }

    /** Turns every old rule into a node of the first group with its client. */
    method MigrateIgnore(syntax: Syntax)
      modifies this
      ensures ignored == [] && summarise == WithRules(syntax, old(summarise), old(ignored))
    {
      var rules := ignored;
      ignored := [];
      for r := 0 to |rules|
        invariant ignored == [] && summarise == WithRules(syntax, old(summarise), rules[..r])
      {
        assert rules[..r + 1][..r] == rules[..r];
        AddRule(syntax, rules[r]);
      }
      assert rules[..|rules|] == rules;
    }

    method AddRule(syntax: Syntax, rule: IgnoreRule)
      modifies this`summarise
      ensures summarise == WithRule(syntax, old(summarise), rule)
    {
      var client := ClientOf(syntax, rule);
      var i := Position(summarise, client);
      if i == |summarise| {
        summarise := summarise + [Group(None, client, [], map[])];
      }
      var nodeId := Trim(syntax.space, rule.nodeId);
      var name := if rule.name.Some? && Trim(syntax.space, rule.name.value) != "" then rule.name else None;
      var group := summarise[i];
      if nodeId !in group.nodes {
        group := group.(nodes := group.nodes + [nodeId]);
      }
      if name.Some? {
        group := group.(names := group.names[nodeId := name.value]);
      }
      assert group == WithNode(summarise[i], nodeId, name);
      summarise := summarise[i := group];
    }

    /** Takes from group `j` what the earlier group `i` has. */
    method DropFrom(syntax: Syntax, i: nat, j: nat) returns (dropped: seq<Drop>)
      requires i < j < |summarise| && Overlap(summarise[i], summarise[j])
      modifies this`summarise
      ensures summarise == old(summarise)[j := DropBy(syntax, old(summarise)[i], old(summarise)[j])]
      ensures forall d :: d in dropped <==>
                d.first == i && d.group == j
                && d.node in old(summarise)[j].nodes && d.node !in summarise[j].nodes
    {
      var earlier := NodesOf(syntax, summarise[i]);
      var later := summarise[j];
      var before := later.nodes;
      var kept := Without(syntax, before, earlier);
      later := later.(nodes := kept, names := map k | k in later.names && k in kept :: later.names[k]);
      summarise := summarise[j := later];
      dropped := [];
      for k := 0 to |before|
        invariant forall d :: d in dropped <==> d.first == i && d.group == j && d.node in before[..k] && d.node !in kept
      {
        if before[k] !in kept {
          dropped := dropped + [Drop(before[k], j, i)];
        }
      }
    }

    /** Removes nodes that an earlier overlapping group already has, and says
        what it removed. */
    method DropSummariseOverlaps(syntax: Syntax) returns (dropped: seq<Drop>)
      modifies this`summarise
      ensures summarise == Cleaned(syntax, old(summarise))
      ensures forall d :: d in dropped ==> Justified(syntax, old(summarise), summarise, d)
      ensures forall k, n :: Gone(old(summarise), summarise, k, n) ==> Told(dropped, k, n)
    {
      ghost var groups := summarise;
      dropped := [];
      for i := 0 to |summarise|
        invariant |summarise| == |groups|
        invariant Progress(syntax, groups, i, i, summarise, dropped)
      {
        NextGroup(syntax, groups, i, summarise, dropped);
        for j := i + 1 to |summarise|
          invariant |summarise| == |groups|
          invariant Progress(syntax, groups, i, j, summarise, dropped)
        {
          ghost var before, said := summarise, dropped;
          if Overlap(summarise[i], summarise[j]) {
            var more := DropFrom(syntax, i, j);
            dropped := dropped + more;
            OneMorePair(syntax, groups, i, j, before, summarise, said, more);
          } else {
            OneOtherPair(syntax, groups, i, j, summarise, dropped);
          }
        }
        GroupDone(syntax, groups, i, summarise, dropped);
      }
      CleanedInTheEnd(syntax, groups, summarise);
    }
  }

  /** What the two loops have done when they get to groups `i` and `j`. */
  ghost predicate Progress(syntax: Syntax, groups: seq<Group>, i: nat, j: nat, now: seq<Group>, dropped: seq<Drop>) {
    && CleanedBy(syntax, groups, Cleaned(syntax, groups), i, j, now)
    && (forall d :: d in dropped ==> Justified(syntax, groups, Cleaned(syntax, groups), d))
    && (forall k, n :: Gone(groups, now, k, n) ==> Told(dropped, k, n))
  }

  lemma NextGroup(syntax: Syntax, groups: seq<Group>, i: nat, now: seq<Group>, dropped: seq<Drop>)
    requires i < |groups| && Progress(syntax, groups, i, i, now, dropped)
    ensures Progress(syntax, groups, i, i + 1, now, dropped)
  {
  }

  lemma GroupDone(syntax: Syntax, groups: seq<Group>, i: nat, now: seq<Group>, dropped: seq<Drop>)
    requires i < |groups| && Progress(syntax, groups, i, |groups|, now, dropped)
    ensures Progress(syntax, groups, i + 1, i + 1, now, dropped)
  {
  }

  lemma OneOtherPair(syntax: Syntax, groups: seq<Group>, i: nat, j: nat, now: seq<Group>, dropped: seq<Drop>)
    requires i < j < |groups| && Progress(syntax, groups, i, j, now, dropped) && !Overlap(now[i], now[j])
    ensures Progress(syntax, groups, i, j + 1, now, dropped)
  {
    OnePairCleaned(syntax, groups, i, j, now);
    assert now[j := DropBy(syntax, now[i], now[j])] == now;
  }

  lemma OneMorePair(syntax: Syntax, groups: seq<Group>, i: nat, j: nat, before: seq<Group>, now: seq<Group>,
                    said: seq<Drop>, more: seq<Drop>)
    requires i < j < |groups| && Progress(syntax, groups, i, j, before, said) && Overlap(before[i], before[j])
    requires now == before[j := DropBy(syntax, before[i], before[j])]
    requires forall d :: d in more <==> d.first == i && d.group == j && d.node in before[j].nodes && d.node !in now[j].nodes
    ensures Progress(syntax, groups, i, j + 1, now, said + more)
  {
    OnePairCleaned(syntax, groups, i, j, before);
    DropsAreTold(groups, before, now, said, more, i, j);
    DropsAreJustified(syntax, groups, before, more, i, j);
  }

  lemma NoneTaken(syntax: Syntax, g: Group, taken: set<NodeId>)
    requires forall m :: 0 <= m < |g.nodes| ==> !IsTaken(syntax, g.nodes[m], taken)
    ensures NodesOf(syntax, g) !! taken
  {
  }

  /** The string `n` was in group `k` and no longer is. */
  ghost predicate Gone(groups: seq<Group>, now: seq<Group>, k: int, n: string) {
    0 <= k < |groups| && k < |now| && n in groups[k].nodes && n !in now[k].nodes
  }

  ghost predicate Told(dropped: seq<Drop>, k: int, n: string) {
    exists d :: d in dropped && d.group == k && d.node == n
  }

  /** The node was in the group and is gone, and the earlier group named, which
      overlaps, has it. */
  ghost predicate Justified(syntax: Syntax, groups: seq<Group>, cleaned: seq<Group>, d: Drop) {
    && d.first < d.group < |groups| == |cleaned|
    && d.node in groups[d.group].nodes && d.node !in cleaned[d.group].nodes
    && Overlap(groups[d.first], groups[d.group])
    && Parse(syntax, d.node).Some? && Parse(syntax, d.node).value in NodesOf(syntax, cleaned[d.first])
  }

  /** Groups before `j` have lost what the first `i + 1` clean groups have, the
      others what the first `i` have; no group loses anything to a later one. */
  ghost predicate CleanedBy(syntax: Syntax, groups: seq<Group>, cleaned: seq<Group>, i: nat, j: nat, now: seq<Group>) {
    && |groups| == |cleaned| == |now| && i <= j
    && forall k :: 0 <= k < |groups| ==>
         now[k] == DropByAll(syntax, cleaned[..Min(if k < j then i + 1 else i, k)], groups[k])
  }

  predicate IsTaken(syntax: Syntax, n: string, taken: set<NodeId>) {
    Parse(syntax, n).Some? && Parse(syntax, n).value in taken
  }

  lemma {:induction false} WithoutTaken(syntax: Syntax, nodes: seq<string>, taken: set<NodeId>)
    ensures forall n :: n in Without(syntax, nodes, taken) <==> n in nodes && !IsTaken(syntax, n, taken)
  {
    if nodes != [] {
      WithoutTaken(syntax, nodes[..|nodes| - 1], taken);
      assert nodes == nodes[..|nodes| - 1] + [Last(nodes)];
    }
  }

  /** The node is not in any of the groups that overlap with `later`. */
  ghost predicate Free(syntax: Syntax, firsts: seq<Group>, later: Group, n: string) {
    forall i :: 0 <= i < |firsts| && Overlap(firsts[i], later) ==> !IsTaken(syntax, n, NodesOf(syntax, firsts[i]))
  }

  lemma {:induction false} DropByAllKeepsFree(syntax: Syntax, firsts: seq<Group>, later: Group)
    ensures DropByAll(syntax, firsts, later).client == later.client
    ensures forall n :: n in DropByAll(syntax, firsts, later).nodes <==> n in later.nodes && Free(syntax, firsts, later, n)
  {
    if firsts != [] {
      var before, last := firsts[..|firsts| - 1], Last(firsts);
      DropByAllKeepsFree(syntax, before, later);
      var g := DropByAll(syntax, before, later);
      WithoutTaken(syntax, g.nodes, NodesOf(syntax, last));
      forall n ensures Free(syntax, firsts, later, n) <==>
          Free(syntax, before, later, n) && (Overlap(last, later) ==> !IsTaken(syntax, n, NodesOf(syntax, last)))
      {
        FreeOfOneMore(syntax, before, last, later, n);
        assert firsts == before + [last];
      }
    }
  }

  lemma FreeOfOneMore(syntax: Syntax, firsts: seq<Group>, last: Group, later: Group, n: string)
    ensures Free(syntax, firsts + [last], later, n) <==>
              Free(syntax, firsts, later, n) && (Overlap(last, later) ==> !IsTaken(syntax, n, NodesOf(syntax, last)))
  {
    var all := firsts + [last];
    assert all[|firsts|] == last && forall i :: 0 <= i < |firsts| ==> all[i] == firsts[i];
  }

  lemma {:induction false} CleanedAt(syntax: Syntax, groups: seq<Group>, i: nat)
    requires i < |groups|
    ensures Cleaned(syntax, groups)[i] == DropByAll(syntax, Cleaned(syntax, groups)[..i], groups[i])
  {
    var before := groups[..|groups| - 1];
    assert Cleaned(syntax, groups)[..|before|] == Cleaned(syntax, before);
    if i < |before| {
      CleanedAt(syntax, before, i);
      assert Cleaned(syntax, groups)[..i] == Cleaned(syntax, before)[..i];
    }
  }

  /** A cleaned group keeps its client, and exactly the nodes that no cleaned
      overlapping group before it has. */
  lemma CleanedKeepsFree(syntax: Syntax, groups: seq<Group>, i: nat)
    requires i < |groups|
    ensures var cleaned := Cleaned(syntax, groups);
      && cleaned[i].client == groups[i].client
      && forall n :: n in cleaned[i].nodes <==> n in groups[i].nodes && Free(syntax, cleaned[..i], groups[i], n)
  {
    CleanedAt(syntax, groups, i);
    DropByAllKeepsFree(syntax, Cleaned(syntax, groups)[..i], groups[i]);
  }

  lemma OnePairCleaned(syntax: Syntax, groups: seq<Group>, i: nat, j: nat, now: seq<Group>)
    requires i < j < |groups| && CleanedBy(syntax, groups, Cleaned(syntax, groups), i, j, now)
    ensures now[i] == Cleaned(syntax, groups)[i]
    ensures CleanedBy(syntax, groups, Cleaned(syntax, groups), i, j + 1, now[j := DropBy(syntax, now[i], now[j])])
  {
    var cleaned := Cleaned(syntax, groups);
    CleanedAt(syntax, groups, i);
    assert cleaned[..i + 1][..i] == cleaned[..i];
  }

  lemma CleanedInTheEnd(syntax: Syntax, groups: seq<Group>, now: seq<Group>)
    requires CleanedBy(syntax, groups, Cleaned(syntax, groups), |groups|, |groups|, now)
    ensures now == Cleaned(syntax, groups)
  {
    forall k | 0 <= k < |groups| ensures now[k] == Cleaned(syntax, groups)[k] {
      CleanedAt(syntax, groups, k);
    }
  }

  lemma DropsAreTold(groups: seq<Group>, before: seq<Group>, now: seq<Group>, said: seq<Drop>, more: seq<Drop>,
                     i: nat, j: nat)
    requires |groups| == |before| && j < |before| && |now| == |before| && now == before[j := now[j]]
    requires forall k, n :: Gone(groups, before, k, n) ==> Told(said, k, n)
    requires forall d :: d in more <==> d.first == i && d.group == j && d.node in before[j].nodes && d.node !in now[j].nodes
    ensures forall k, n :: Gone(groups, now, k, n) ==> Told(said + more, k, n)
  {
    forall k, n | Gone(groups, now, k, n) ensures Told(said + more, k, n) {
      if Gone(groups, before, k, n) {
        var d :| d in said && d.group == k && d.node == n;
        assert d in said + more;
      } else {
        assert Drop(n, j, i) in more;
        assert Drop(n, j, i) in said + more;
      }
    }
  }

  lemma DropsAreJustified(syntax: Syntax, groups: seq<Group>, before: seq<Group>, more: seq<Drop>, i: nat, j: nat)
    requires i < j < |groups| && CleanedBy(syntax, groups, Cleaned(syntax, groups), i, j, before)
    requires before[i] == Cleaned(syntax, groups)[i] && Overlap(before[i], before[j])
    requires forall d :: d in more ==> d.first == i && d.group == j && d.node in before[j].nodes
    requires forall d :: d in more ==> d.node !in DropBy(syntax, before[i], before[j]).nodes
    ensures forall d :: d in more ==> Justified(syntax, groups, Cleaned(syntax, groups), d)
  {
    var cleaned := Cleaned(syntax, groups);
    WithoutTaken(syntax, before[j].nodes, NodesOf(syntax, before[i]));
    DropByAllKeepsFree(syntax, cleaned[..i], groups[j]);
    CleanedKeepsFree(syntax, groups, i);
    CleanedKeepsFree(syntax, groups, j);
    forall d | d in more ensures Justified(syntax, groups, cleaned, d) {
      assert IsTaken(syntax, d.node, NodesOf(syntax, cleaned[..j][i]));
    }
  }

  // ----- what the cleaned groups are -----

  /** No node is in two overlapping groups. */
  ghost predicate Disjoint(syntax: Syntax, groups: seq<Group>) {
    forall i, j :: 0 <= i < j < |groups| ==> PairDisjoint(syntax, groups, i, j)
  }

  ghost predicate PairDisjoint(syntax: Syntax, groups: seq<Group>, a: int, b: int)
    requires 0 <= a < |groups| && 0 <= b < |groups|
  {
    Overlap(groups[a], groups[b]) ==> NodesOf(syntax, groups[a]) !! NodesOf(syntax, groups[b])
  }

  lemma CleanedIsDisjoint(syntax: Syntax, groups: seq<Group>)
    ensures Disjoint(syntax, Cleaned(syntax, groups))
  {
    var cleaned := Cleaned(syntax, groups);
    forall i, j | 0 <= i < j < |cleaned| ensures PairDisjoint(syntax, cleaned, i, j) {
      CleanedKeepsFree(syntax, groups, i);
      CleanedKeepsFree(syntax, groups, j);
      forall n | n in cleaned[j].nodes && Overlap(cleaned[i], cleaned[j])
        ensures !IsTaken(syntax, n, NodesOf(syntax, cleaned[i]))
      {
        assert cleaned[..j][i] == cleaned[i];
      }
    }
  }

  /** If an earlier group overlaps, names are kept for nodes of the group only. */
  ghost predicate Tidy(firsts: seq<Group>, g: Group) {
    forall k, n :: 0 <= k < |firsts| && Overlap(firsts[k], g) && n in g.names ==> n in g.nodes
  }

  ghost predicate Clean(syntax: Syntax, groups: seq<Group>) {
    Disjoint(syntax, groups) && forall i :: 0 <= i < |groups| ==> Tidy(groups[..i], groups[i])
  }

  lemma {:induction false} DropByAllIsTidy(syntax: Syntax, firsts: seq<Group>, later: Group)
    ensures Tidy(firsts, DropByAll(syntax, firsts, later))
  {
    if firsts != [] {
      var before, last := firsts[..|firsts| - 1], Last(firsts);
      DropByAllIsTidy(syntax, before, later);
      var g := DropByAll(syntax, before, later);
      if !Overlap(last, g) {
        forall k | 0 <= k < |firsts| && Overlap(firsts[k], g) ensures k < |before| && before[k] == firsts[k] {
        }
      }
    }
  }

  lemma CleanedIsClean(syntax: Syntax, groups: seq<Group>)
    ensures Clean(syntax, Cleaned(syntax, groups))
  {
    var cleaned := Cleaned(syntax, groups);
    CleanedIsDisjoint(syntax, groups);
    forall i | 0 <= i < |cleaned| ensures Tidy(cleaned[..i], cleaned[i]) {
      CleanedAt(syntax, groups, i);
      DropByAllIsTidy(syntax, cleaned[..i], groups[i]);
    }
  }

  /** Clean groups are left alone. */
  lemma CleanGroupStays(syntax: Syntax, groups: seq<Group>, i: nat)
    requires i < |groups| && Clean(syntax, groups)
    ensures Cleaned(syntax, groups)[i] == groups[i]
  {
    var cleaned := Cleaned(syntax, groups);
    CleanedAt(syntax, groups, i);
    forall k | 0 <= k < i ensures cleaned[..i][k].client == groups[..i][k].client {
      CleanedKeepsFree(syntax, groups, k);
    }
    forall n | n in groups[i].nodes ensures Free(syntax, cleaned[..i], groups[i], n) {
      forall k | 0 <= k < i && Overlap(cleaned[k], groups[i]) ensures !IsTaken(syntax, n, NodesOf(syntax, cleaned[k])) {
        CleanedShrinks(syntax, groups, k);
        assert PairDisjoint(syntax, groups, k, i);
        assert Parse(syntax, n).Some? ==> Parse(syntax, n).value in NodesOf(syntax, groups[i]);
      }
    }
    SameClientsTidy(groups[..i], cleaned[..i], groups[i]);
    FreeGroupStays(syntax, cleaned[..i], groups[i]);
  }

  lemma SameClientsTidy(a: seq<Group>, b: seq<Group>, g: Group)
    requires |a| == |b| && forall k :: 0 <= k < |a| ==> a[k].client == b[k].client
    requires Tidy(a, g)
    ensures Tidy(b, g)
  {
    forall k, n | 0 <= k < |b| && Overlap(b[k], g) && n in g.names ensures n in g.nodes {
      assert Overlap(a[k], g);
    }
  }

  lemma {:induction false} FreeGroupStays(syntax: Syntax, firsts: seq<Group>, later: Group)
    requires Tidy(firsts, later) && forall n :: n in later.nodes ==> Free(syntax, firsts, later, n)
    ensures DropByAll(syntax, firsts, later) == later
  {
    if firsts != [] {
      var before, last := firsts[..|firsts| - 1], Last(firsts);
      forall n | n in later.nodes
        ensures Free(syntax, before, later, n) && (Overlap(last, later) ==> !IsTaken(syntax, n, NodesOf(syntax, last)))
      {
        assert firsts == before + [last];
        FreeOfOneMore(syntax, before, last, later, n);
      }
      FreeGroupStays(syntax, before, later);
      if Overlap(last, later) {
        NothingTaken(syntax, later.nodes, NodesOf(syntax, last));
        assert Overlap(firsts[|firsts| - 1], later);
        assert (map k | k in later.names && k in later.nodes :: later.names[k]) == later.names;
      }
    }
  }

  /** Cleaning leaves a configuration as it is, names included, exactly if no
      node is in two overlapping groups and an overlapped group has names for its
      own nodes only. */
  lemma CleanGroupsStayIff(syntax: Syntax, groups: seq<Group>)
    ensures Cleaned(syntax, groups) == groups <==> Clean(syntax, groups)
  {
    CleanedIsClean(syntax, groups);
    if Clean(syntax, groups) {
      forall i | 0 <= i < |groups| ensures Cleaned(syntax, groups)[i] == groups[i] {
        CleanGroupStays(syntax, groups, i);
      }
    }
  }

  /** A second run changes nothing. */
  lemma CleanGroupsStay(syntax: Syntax, groups: seq<Group>)
    ensures Cleaned(syntax, Cleaned(syntax, groups)) == Cleaned(syntax, groups)
  {
    CleanedIsClean(syntax, groups);
    CleanGroupsStayIff(syntax, Cleaned(syntax, groups));
  }

  lemma {:induction false} NothingTaken(syntax: Syntax, nodes: seq<string>, taken: set<NodeId>)
    requires forall n :: n in nodes ==> !IsTaken(syntax, n, taken)
    ensures Without(syntax, nodes, taken) == nodes
  {
    if nodes != [] {
      var before := nodes[..|nodes| - 1];
      assert forall n :: n in before ==> n in nodes;
      NothingTaken(syntax, before, taken);
      assert Last(nodes) in nodes;
    }
  }

  /** The group is the first of all that have the node. */
  ghost predicate IsFirst(syntax: Syntax, groups: seq<Group>, i: int, node: NodeId) {
    && 0 <= i < |groups| && node in NodesOf(syntax, groups[i])
    && forall k :: 0 <= k < i ==> node !in NodesOf(syntax, groups[k])
  }

  lemma CleanedShrinks(syntax: Syntax, groups: seq<Group>, i: nat)
    requires i < |groups|
    ensures NodesOf(syntax, Cleaned(syntax, groups)[i]) <= NodesOf(syntax, groups[i])
  {
    CleanedKeepsFree(syntax, groups, i);
  }

  /** Every node stays in the first group that has it, among those that
      overlap. */
  lemma NodeKeepsItsFirstGroup(syntax: Syntax, groups: seq<Group>, i: nat, node: NodeId)
    requires i < |groups| && node in NodesOf(syntax, groups[i])
    requires forall k :: 0 <= k < i && Overlap(groups[k], groups[i]) ==> node !in NodesOf(syntax, groups[k])
    ensures node in NodesOf(syntax, Cleaned(syntax, groups)[i])
  {
    var cleaned := Cleaned(syntax, groups);
    var n :| n in groups[i].nodes && Parse(syntax, n) == Some(node);
    forall k | 0 <= k < i && Overlap(cleaned[k], groups[i]) ensures !IsTaken(syntax, n, NodesOf(syntax, cleaned[k])) {
      CleanedKeepsFree(syntax, groups, k);
    }
    CleanedKeepsFree(syntax, groups, i);
    assert Free(syntax, cleaned[..i], groups[i], n);
  }

  /** Cleaning never makes more writes be summarised. */
  lemma CleaningSummarisesNoMore(syntax: Syntax, groups: seq<Group>, node: NodeId, who: Caller)
    ensures Scan(syntax, Cleaned(syntax, groups), node, who) ==> Scan(syntax, groups, node, who)
  {
    var cleaned := Cleaned(syntax, groups);
    if Scan(syntax, cleaned, node, who) {
      var i :| 0 <= i < |cleaned| && node in NodesOf(syntax, cleaned[i]) && IsFor(syntax, cleaned[i], who);
      CleanedKeepsFree(syntax, groups, i);
      assert node in NodesOf(syntax, groups[i]) && IsFor(syntax, groups[i], who);
    }
  }

  /** Each node of a group for every client is first in one for every client. */
  ghost predicate FirstForAll(syntax: Syntax, groups: seq<Group>) {
    forall j, node :: 0 <= j < |groups| && groups[j].client.None? && node in NodesOf(syntax, groups[j]) ==>
      exists i :: IsFirst(syntax, groups, i, node) && groups[i].client.None?
  }

  lemma {:induction false} FirstExists(syntax: Syntax, groups: seq<Group>, j: nat, node: NodeId) returns (i: nat)
    requires j < |groups| && node in NodesOf(syntax, groups[j])
    ensures i <= j && IsFirst(syntax, groups, i, node)
    decreases j
  {
    if k :| 0 <= k < j && node in NodesOf(syntax, groups[k]) {
      i := FirstExists(syntax, groups, k, node);
    } else {
      i := j;
    }
  }

  /** A group among those of one client that has the node, and is their first. */
  lemma {:induction false} FirstOfClient(syntax: Syntax, groups: seq<Group>, j: nat, node: NodeId) returns (i: nat)
    requires j < |groups| && node in NodesOf(syntax, groups[j]) && groups[j].client.Some?
    ensures i <= j && node in NodesOf(syntax, groups[i]) && groups[i].client == groups[j].client
    ensures forall k :: 0 <= k < i && groups[k].client == groups[i].client ==> node !in NodesOf(syntax, groups[k])
    decreases j
  {
    if k :| 0 <= k < j && node in NodesOf(syntax, groups[k]) && groups[k].client == groups[j].client {
      i := FirstOfClient(syntax, groups, k, node);
    } else {
      i := j;
    }
  }

  lemma SummarisedAsBefore(syntax: Syntax, groups: seq<Group>, node: NodeId, who: Caller)
    requires FirstForAll(syntax, groups) && Scan(syntax, groups, node, who)
    ensures Scan(syntax, Cleaned(syntax, groups), node, who)
  {
    var cleaned := Cleaned(syntax, groups);
    var j :| 0 <= j < |groups| && node in NodesOf(syntax, groups[j]) && IsFor(syntax, groups[j], who);
    var i: int;
    if a :| 0 <= a < |groups| && groups[a].client.None? && node in NodesOf(syntax, groups[a]) {
      i :| IsFirst(syntax, groups, i, node) && groups[i].client.None?;
    } else {
      i := FirstOfClient(syntax, groups, j, node);
    }
    NodeKeepsItsFirstGroup(syntax, groups, i, node);
    CleanedKeepsFree(syntax, groups, i);
    assert IsFor(syntax, cleaned[i], who);
  }

  /** A text longer than every trimmed client, so none of them. */
  lemma {:induction false} OtherText(syntax: Syntax, groups: seq<Group>) returns (text: string)
    ensures forall i :: 0 <= i < |groups| && groups[i].client.Some? ==> |Trim(syntax.space, groups[i].client.value)| < |text|
  {
    if groups == [] {
      text := "x";
    } else {
      var before, last := groups[..|groups| - 1], Last(groups);
      var shorter := OtherText(syntax, before);
      text := shorter + (if last.client.Some? then Trim(syntax.space, last.client.value) else "") + "x";
      forall i | 0 <= i < |groups| && groups[i].client.Some? ensures |Trim(syntax.space, groups[i].client.value)| < |text| {
        assert i < |before| ==> before[i] == groups[i];
      }
    }
  }

  /** Otherwise some client's writes are no longer summarised. */
  lemma SomeWriteIsNoLongerSummarised(syntax: Syntax, groups: seq<Group>) returns (node: NodeId, who: Caller)
    requires !FirstForAll(syntax, groups)
    ensures Scan(syntax, groups, node, who) && !Scan(syntax, Cleaned(syntax, groups), node, who)
  {
    var cleaned := Cleaned(syntax, groups);
    var j, x :| 0 <= j < |groups| && groups[j].client.None? && x in NodesOf(syntax, groups[j])
      && !exists i :: IsFirst(syntax, groups, i, x) && groups[i].client.None?;
    var text := OtherText(syntax, groups);
    node, who := x, Caller(text, None);
    assert IsFor(syntax, groups[j], who);
    var f := FirstExists(syntax, groups, j, node);
    NodeKeepsItsFirstGroup(syntax, groups, f, node);
    forall i | 0 <= i < |cleaned| && node in NodesOf(syntax, cleaned[i]) ensures !IsFor(syntax, cleaned[i], who) {
      CleanedKeepsFree(syntax, groups, i);
      OnlyForItsClient(syntax, groups, f, i, node);
    }
  }

  /** If a node is first in the group of one client, no cleaned group has it for
      every client. */
  lemma OnlyForItsClient(syntax: Syntax, groups: seq<Group>, f: nat, i: nat, node: NodeId)
    requires IsFirst(syntax, groups, f, node) && groups[f].client.Some?
    requires i < |groups| && node in NodesOf(syntax, Cleaned(syntax, groups)[i])
    ensures groups[i].client.Some?
  {
    CleanedShrinks(syntax, groups, i);
    NodeKeepsItsFirstGroup(syntax, groups, f, node);
    CleanedIsDisjoint(syntax, groups);
    CleanedKeepsFree(syntax, groups, f);
    CleanedKeepsFree(syntax, groups, i);
    assert i > f ==> PairDisjoint(syntax, Cleaned(syntax, groups), f, i);
  }

  /** Cleaning leaves what is summarised as it is, for every node and every
      client, exactly if each node of a group for every client is first in such
      a group. */
  lemma CleaningChangesNothingIff(syntax: Syntax, groups: seq<Group>)
    ensures (forall node, who :: Scan(syntax, Cleaned(syntax, groups), node, who) <==> Scan(syntax, groups, node, who))
       <==> FirstForAll(syntax, groups)
  {
    if FirstForAll(syntax, groups) {
      forall node, who ensures Scan(syntax, Cleaned(syntax, groups), node, who) <==> Scan(syntax, groups, node, who) {
        CleaningSummarisesNoMore(syntax, groups, node, who);
        if Scan(syntax, groups, node, who) {
          SummarisedAsBefore(syntax, groups, node, who);
        }
      }
    } else {
      var node, who := SomeWriteIsNoLongerSummarised(syntax, groups);
    }
  }
}

/** The nodes a target summarises, for a quick lookup per write
    (`src/relay/ignore.rs`, `SummariseList`). */
module SummariseList {
  import opened Prelude
  import opened SummariseGroups

  class SummariseList {
    var all: set<NodeId>
    var byClient: map<string, set<NodeId>>

    constructor ()
      ensures all == {} && byClient == map[]
    {
      all, byClient := {}, map[];
    }

    /** Whether a value write to `node` is summarised. */
    predicate Matches(node: NodeId, who: Caller)
      reads this
    {
      || node in all
      || InClient(byClient, who.address, node)
      || (who.uri.Some? && InClient(byClient, who.uri.value, node))
    }

    predicate IsEmpty()
      reads this
    {
      all == {} && byClient == map[]
    }

    /** Replaces the groups. Looking up gives what a scan of them would. */
    method Set(syntax: Syntax, groups: seq<Group>)
      modifies this
      ensures forall node, who :: Matches(node, who) <==> Scan(syntax, groups, node, who)
      ensures IsEmpty() <==> forall i :: 0 <= i < |groups| ==> NodesOf(syntax, groups[i]) == {}
    {
      all, byClient := {}, map[];
      for i := 0 to |groups|
        invariant Indexes(syntax, groups[..i], all, byClient)
      {
        var nodes := NodesOf(syntax, groups[i]);
        IndexOneMore(syntax, groups[..i], groups[i], all, byClient);
        assert groups[..i + 1] == groups[..i] + [groups[i]];
        if groups[i].client.Some? {
          var key := Trim(syntax.space, groups[i].client.value);
          byClient := byClient[key := (if key in byClient then byClient[key] else {}) + nodes];
        } else {
          all := all + nodes;
        }
      }
      assert groups[..|groups|] == groups;
      RetainKeepsIndex(syntax, groups, all, byClient);
      byClient := Retained(byClient);
      forall node, who ensures Matches(node, who) <==> Scan(syntax, groups, node, who) {
        LookupIsScan(syntax, groups, all, byClient, node, who);
      }
      EmptyIndex(syntax, groups, all, byClient);
    }
  }

  predicate InClient(byClient: map<string, set<NodeId>>, key: string, node: NodeId) {
    key in byClient && node in byClient[key]
  }

  predicate ForAll(syntax: Syntax, g: Group, node: NodeId) {
    g.client.None? && node in NodesOf(syntax, g)
  }

  predicate ForKey(syntax: Syntax, g: Group, key: string, node: NodeId) {
    g.client.Some? && Trim(syntax.space, g.client.value) == key && node in NodesOf(syntax, g)
  }

  ghost predicate Indexes(syntax: Syntax, groups: seq<Group>, all: set<NodeId>, byClient: map<string, set<NodeId>>) {
    && (forall node :: node in all <==> exists g :: g in groups && ForAll(syntax, g, node))
    && (forall key, node :: InClient(byClient, key, node) <==> exists g :: g in groups && ForKey(syntax, g, key, node))
  }

  function Added(syntax: Syntax, g: Group, all: set<NodeId>): set<NodeId> {
    if g.client.None? then all + NodesOf(syntax, g) else all
  }

  function AddedFor(syntax: Syntax, g: Group, byClient: map<string, set<NodeId>>): map<string, set<NodeId>> {
    if g.client.None? then byClient
    else
      var key := Trim(syntax.space, g.client.value);
      byClient[key := (if key in byClient then byClient[key] else {}) + NodesOf(syntax, g)]
  }

  function Retained(byClient: map<string, set<NodeId>>): map<string, set<NodeId>> {
    map key | key in byClient && byClient[key] != {} :: byClient[key]
  }

  lemma RetainKeepsIndex(syntax: Syntax, groups: seq<Group>, all: set<NodeId>, byClient: map<string, set<NodeId>>)
    requires Indexes(syntax, groups, all, byClient)
    ensures Indexes(syntax, groups, all, Retained(byClient))
  {
    forall key, node ensures InClient(Retained(byClient), key, node) <==> InClient(byClient, key, node) {
    }
  }

  lemma IndexOneMore(syntax: Syntax, groups: seq<Group>, g: Group, all: set<NodeId>, byClient: map<string, set<NodeId>>)
    requires Indexes(syntax, groups, all, byClient)
    ensures Indexes(syntax, groups + [g], Added(syntax, g, all), AddedFor(syntax, g, byClient))
  {
    var more := groups + [g];
    assert forall h :: h in more <==> h in groups || h == g;
    forall node ensures node in Added(syntax, g, all) <==> exists h :: h in more && ForAll(syntax, h, node) {
      assert ForAll(syntax, g, node) ==> g in more;
    }
    forall key, node
      ensures InClient(AddedFor(syntax, g, byClient), key, node) <==> exists h :: h in more && ForKey(syntax, h, key, node)
    {
      assert InClient(AddedFor(syntax, g, byClient), key, node) <==>
               InClient(byClient, key, node) || ForKey(syntax, g, key, node);
      assert ForKey(syntax, g, key, node) ==> g in more;
    }
  }

  lemma LookupIsScan(syntax: Syntax, groups: seq<Group>, all: set<NodeId>, byClient: map<string, set<NodeId>>,
                     node: NodeId, who: Caller)
    requires Indexes(syntax, groups, all, byClient)
    ensures Scan(syntax, groups, node, who) <==>
              node in all || InClient(byClient, who.address, node)
              || (who.uri.Some? && InClient(byClient, who.uri.value, node))
  {
    if Scan(syntax, groups, node, who) {
      var i :| 0 <= i < |groups| && node in NodesOf(syntax, groups[i]) && IsFor(syntax, groups[i], who);
      var g := groups[i];
      assert g in groups;
      assert ForAll(syntax, g, node) || ForKey(syntax, g, who.address, node)
          || (who.uri.Some? && ForKey(syntax, g, who.uri.value, node));
    }
    if g :| g in groups && node in NodesOf(syntax, g) && IsFor(syntax, g, who) {
      var i :| 0 <= i < |groups| && groups[i] == g;
    } else {
      assert forall g :: g in groups ==>
        !ForAll(syntax, g, node) && !ForKey(syntax, g, who.address, node)
        && (who.uri.Some? ==> !ForKey(syntax, g, who.uri.value, node));
    }
  }

  lemma GroupIsIndexed(syntax: Syntax, groups: seq<Group>, all: set<NodeId>, byClient: map<string, set<NodeId>>,
                       i: nat, node: NodeId)
    requires Indexes(syntax, groups, all, byClient) && i < |groups| && node in NodesOf(syntax, groups[i])
    ensures groups[i].client.None? ==> node in all
    ensures groups[i].client.Some? ==> InClient(byClient, Trim(syntax.space, groups[i].client.value), node)
  {
    var g := groups[i];
    assert g in groups;
    assert g.client.None? ==> ForAll(syntax, g, node);
    assert g.client.Some? ==> ForKey(syntax, g, Trim(syntax.space, g.client.value), node);
  }

  lemma IndexedIsInGroup(syntax: Syntax, groups: seq<Group>, all: set<NodeId>, byClient: map<string, set<NodeId>>,
                         key: string, node: NodeId)
    requires Indexes(syntax, groups, all, byClient) && (node in all || InClient(byClient, key, node))
    ensures exists i :: 0 <= i < |groups| && node in NodesOf(syntax, groups[i])
  {
    var g :| g in groups && (ForAll(syntax, g, node) || ForKey(syntax, g, key, node));
    assert ForAll(syntax, g, node) || ForKey(syntax, g, key, node);
    assert g.client.None? || g.client.Some?;
    assert node in NodesOf(syntax, g);
    var i :| 0 <= i < |groups| && groups[i] == g;
    assert NodesOf(syntax, groups[i]) == NodesOf(syntax, g);
  }

  lemma EmptyIndex(syntax: Syntax, groups: seq<Group>, all: set<NodeId>, byClient: map<string, set<NodeId>>)
    requires Indexes(syntax, groups, all, byClient) && forall key :: key in byClient ==> byClient[key] != {}
    ensures all == {} && byClient == map[] <==> forall i :: 0 <= i < |groups| ==> NodesOf(syntax, groups[i]) == {}
  {
    forall i, node | 0 <= i < |groups| && node in NodesOf(syntax, groups[i]) ensures all != {} || byClient != map[] {
      GroupIsIndexed(syntax, groups, all, byClient, i, node);
    }
    if node :| node in all {
      IndexedIsInGroup(syntax, groups, all, byClient, "", node);
    }
    if key :| key in byClient {
      var node :| node in byClient[key];
      IndexedIsInGroup(syntax, groups, all, byClient, key, node);
    }
  }
}
