/**
 Writes that are counted per node instead of recorded one by one
 (`src/relay/ignore.rs`): the pending summaries of a target.
 */
module Summaries {
  import opened Prelude
  import opened Event

  const MAX_CLIENTS: nat := 20
  const MAX_NODES: nat := 10_000

  datatype IgnoredWrite = IgnoredWrite(nodeId: string, displayName: Option<string>, value: AuditValue, status: string)

  datatype Summary = Summary(
    displayName: Option<string>,
    count: nat,
    failed: nat,
    first: Time,
    last: Time,
    lastValue: AuditValue,
    lastStatus: string,
    clients: set<string>)

  /** A write as it is counted: when, and from which client. */
  datatype Arrival = Arrival(write: IgnoredWrite, at: Time, client: string)

  predicate Failed(status: string) {
    !("Good" <= status)
  }

  function Joined(clients: set<string>, client: string): set<string> {
    if |clients| < MAX_CLIENTS then clients + {client} else clients
  }

  function Named(known: Option<string>, found: Option<string>): Option<string> {
    if found.Some? then found else known
  }

  function FirstOf(a: Arrival): Summary {
    Summary(None, 0, 0, a.at, a.at, a.write.value, "", {})
  }

  function Counting(s: Summary, a: Arrival): Summary {
    Summary(Named(s.displayName, a.write.displayName), s.count + 1,
            s.failed + (if Failed(a.write.status) then 1 else 0),
            s.first, a.at, a.write.value, a.write.status, Joined(s.clients, a.client))
  }

  /** There is no room for another node. */
  predicate TurnedAway(nodes: map<string, Summary>, a: Arrival) {
    a.write.nodeId !in nodes && |nodes| >= MAX_NODES
  }

  function AddTo(nodes: map<string, Summary>, a: Arrival): map<string, Summary> {
    if TurnedAway(nodes, a) then nodes
    else
      var summary := if a.write.nodeId in nodes then nodes[a.write.nodeId] else FirstOf(a);
      nodes[a.write.nodeId := Counting(summary, a)]
  }

  class IgnoredWrites {
    var nodes: map<string, Summary>

    constructor ()
      ensures nodes == map[]
    {
      nodes := map[];
    }

    /** Counts one write, or refuses it when too many nodes are pending. */
    method Add(a: Arrival) returns (added: bool)
      modifies this
      ensures added == !TurnedAway(old(nodes), a)
      ensures nodes == AddTo(old(nodes), a)
    {
      var node := a.write.nodeId;
      if node !in nodes && |nodes| >= MAX_NODES {
        return false;
      }
      var summary := if node in nodes then nodes[node] else FirstOf(a);
      var count, failed := summary.count + 1, summary.failed;
      if Failed(a.write.status) {
        failed := failed + 1;
      }
      var displayName, clients := summary.displayName, summary.clients;
      if a.write.displayName.Some? {
        displayName := a.write.displayName;
      }
      if |clients| < MAX_CLIENTS {
        clients := clients + {a.client};
      }
      nodes := nodes[node := Summary(displayName, count, failed, summary.first, a.at,
                                     a.write.value, a.write.status, clients)];
      added := true;
    }

    /** Hands over what is pending and starts anew. */
    method Take() returns (taken: map<string, Summary>)
      modifies this
      ensures taken == old(nodes) && nodes == map[]
    {
      taken := nodes;
      nodes := map[];
    }
  }

  // ----- a period between two calls of `Take` -----

  function AddAll(nodes: map<string, Summary>, arrivals: seq<Arrival>): map<string, Summary> {
    if arrivals == [] then nodes
    else AddTo(AddAll(nodes, arrivals[..|arrivals| - 1]), Last(arrivals))
  }

  /** The writes to one node, in order of arrival. */
  function To(arrivals: seq<Arrival>, node: string): seq<Arrival> {
    if arrivals == [] then []
    else
      var before := To(arrivals[..|arrivals| - 1], node);
      if Last(arrivals).write.nodeId == node then before + [Last(arrivals)] else before
  }

  /** The writes with a status that does not begin with "Good". */
  function Failures(arrivals: seq<Arrival>): nat {
    if arrivals == [] then 0
    else
      var status := Last(arrivals).write.status;
      Failures(arrivals[..|arrivals| - 1]) + (if |status| >= 4 && status[..4] == "Good" then 0 else 1)
  }

  /** A summary tells how many writes there were, how many failed, when the first
      and the last came, and what the last one wrote. */
  predicate Tells(s: Summary, writes: seq<Arrival>) {
    && writes != []
    && s.count == |writes| && s.failed == Failures(writes)
    && s.first == writes[0].at && s.last == Last(writes).at
    && s.lastValue == Last(writes).write.value && s.lastStatus == Last(writes).write.status
    && |s.clients| <= 20
    && (forall c :: c in s.clients ==> exists a :: a in writes && a.client == c)
    && (|s.clients| < 20 ==> forall a :: a in writes ==> a.client in s.clients)
    && s.displayName == LastName(writes)
  }

  /** The name that came last, if one did. */
  function LastName(writes: seq<Arrival>): Option<string> {
    if writes == [] then None
    else match Last(writes).write.displayName
         case Some(name) => Some(name)
         case None => LastName(writes[..|writes| - 1])
  }

  lemma CountingTells(s: Summary, writes: seq<Arrival>, a: Arrival)
    requires if writes == [] then s == FirstOf(a) else Tells(s, writes)
    ensures Tells(Counting(s, a), writes + [a])
  {
    var all := writes + [a];
    assert all[..|all| - 1] == writes;
    forall c | c in Joined(s.clients, a.client) ensures exists b :: b in all && b.client == c {
      if c == a.client {
        assert a in all;
      } else {
        var b :| b in writes && b.client == c;
        assert b in all;
      }
    }
  }

  /** What the summaries say about a node, after its `writes`. */
  predicate Accounts(nodes: map<string, Summary>, writes: seq<Arrival>, node: string) {
    if node in nodes then Tells(nodes[node], writes) else writes == [] || |nodes| == 10_000
  }

  /** Between two summaries the writes to a node are either all in its one
      summary, which tells about every one of them, or, when the node came
      after ten thousand others, all refused and so recorded as usual. No write
      goes unnoticed, and none is counted twice. */
  lemma {:induction false} EveryWriteIsCountedOrRefused(arrivals: seq<Arrival>, node: string)
    ensures var nodes := AddAll(map[], arrivals);
      && |nodes| <= 10_000
      && Accounts(nodes, To(arrivals, node), node)
  {
    if arrivals != [] {
      var before := arrivals[..|arrivals| - 1];
      var a := Last(arrivals);
      EveryWriteIsCountedOrRefused(before, node);
      OneMore(AddAll(map[], before), To(before, node), a, node);
    }
  }

  lemma OneMore(nodes: map<string, Summary>, writes: seq<Arrival>, a: Arrival, node: string)
    requires |nodes| <= MAX_NODES && Accounts(nodes, writes, node)
    ensures |AddTo(nodes, a)| <= MAX_NODES
    ensures Accounts(AddTo(nodes, a), if a.write.nodeId == node then writes + [a] else writes, node)
  {
    AddedNodes(nodes, a);
    if !TurnedAway(nodes, a) && a.write.nodeId == node {
      CountingTells(if node in nodes then nodes[node] else FirstOf(a), writes, a);
    }
  }

  /** A write adds its node, or finds no room; other summaries stay. */
  lemma AddedNodes(nodes: map<string, Summary>, a: Arrival)
    requires |nodes| <= MAX_NODES
    ensures var after := AddTo(nodes, a);
      && after.Keys == (if TurnedAway(nodes, a) then nodes.Keys else nodes.Keys + {a.write.nodeId})
      && |after| == (if TurnedAway(nodes, a) || a.write.nodeId in nodes then |nodes| else |nodes| + 1)
      && |after| <= MAX_NODES
      && (forall n :: n in nodes && n != a.write.nodeId ==> after[n] == nodes[n])
  {
    if a.write.nodeId in nodes {
      assert AddTo(nodes, a).Keys == nodes.Keys;
    }
  }

  /** Which of the two it is does not change within the period: a write is
      refused exactly if its node is not among the summaries at the end. */
  lemma {:induction false} RefusedStaysRefused(nodes: map<string, Summary>, arrivals: seq<Arrival>, i: nat)
    requires i < |arrivals|
    ensures TurnedAway(AddAll(nodes, arrivals[..i]), arrivals[i]) <==> arrivals[i].write.nodeId !in AddAll(nodes, arrivals)
  {
    SummariesGrow(nodes, arrivals, i);
    assert arrivals[..i + 1][..i] == arrivals[..i];
    SummariesGrow(nodes, arrivals, i + 1);
  }

  lemma {:induction false} SummariesGrow(nodes: map<string, Summary>, arrivals: seq<Arrival>, i: nat)
    requires i <= |arrivals|
    ensures AddAll(nodes, arrivals[..i]).Keys <= AddAll(nodes, arrivals).Keys
    ensures |AddAll(nodes, arrivals[..i])| >= MAX_NODES ==> AddAll(nodes, arrivals[..i]).Keys == AddAll(nodes, arrivals).Keys
  {
    if i == |arrivals| {
      assert arrivals[..i] == arrivals;
    } else {
      var before := arrivals[..|arrivals| - 1];
      SummariesGrow(nodes, before, i);
      assert before[..i] == arrivals[..i];
    }
  }

  // ----- when there is room for all -----

  function NodesIn(arrivals: seq<Arrival>): set<string> {
    set a | a in arrivals :: a.write.nodeId
  }

  lemma {:induction false} SummariesAreOfNodes(nodes: map<string, Summary>, arrivals: seq<Arrival>)
    requires |nodes| <= MAX_NODES
    ensures AddAll(nodes, arrivals).Keys <= nodes.Keys + NodesIn(arrivals)
    ensures |AddAll(nodes, arrivals)| <= MAX_NODES
  {
    if arrivals != [] {
      var before, a := arrivals[..|arrivals| - 1], Last(arrivals);
      SummariesAreOfNodes(nodes, before);
      assert a in arrivals && forall b :: b in before ==> b in arrivals;
      AddedNodes(AddAll(nodes, before), a);
    }
  }

  /** No write is refused exactly if the nodes pending and those of the writes
      are together no more than fit. */
  lemma AllFitIff(nodes: map<string, Summary>, arrivals: seq<Arrival>)
    requires |nodes| <= MAX_NODES
    ensures NodesIn(arrivals) <= AddAll(nodes, arrivals).Keys <==> |nodes.Keys + NodesIn(arrivals)| <= 10_000
  {
    var after, all := AddAll(nodes, arrivals), nodes.Keys + NodesIn(arrivals);
    SummariesAreOfNodes(nodes, arrivals);
    SummariesGrow(nodes, arrivals, 0);
    if NodesIn(arrivals) <= after.Keys {
      assert after.Keys == all;
    } else {
      var node :| node in NodesIn(arrivals) && node !in after;
      var i :| 0 <= i < |arrivals| && arrivals[i].write.nodeId == node;
      RefusedStaysRefused(nodes, arrivals, i);
      SummariesGrow(nodes, arrivals, i);
      assert |after.Keys| >= MAX_NODES;
      SmallerSet(after.Keys, all, node);
    }
  }

  lemma SmallerSet(a: set<string>, b: set<string>, x: string)
    requires a <= b && x in b && x !in a
    ensures |a| < |b|
  {
    var rest := b - a;
    assert b == a + rest && x in rest;
    assert |b| == |a| + |rest|;
  }

  /** A name of each length greater than that of `node`. */
  function OtherNode(node: string, n: nat): (other: string)
    ensures |other| == |node| + n
  {
    node + seq(n, _ => 'x')
  }

  /** Writes to `n` nodes, none of them the one given. */
  function OtherWrites(node: string, n: nat): seq<Arrival> {
    if n == 0 then []
    else
      var write := IgnoredWrite(OtherNode(node, n), None, AuditValue("Double", "1.0"), "Good");
      OtherWrites(node, n - 1) + [Arrival(write, 0, "client")]
  }

  lemma {:induction false} OtherWritesFill(node: string, n: nat)
    requires n <= MAX_NODES
    ensures var nodes := AddAll(map[], OtherWrites(node, n));
      |nodes| == n && forall id :: id in nodes.Keys ==> |node| < |id| <= |node| + n
  {
    if n > 0 {
      OtherWritesFill(node, n - 1);
      var all := OtherWrites(node, n);
      var before := OtherWrites(node, n - 1);
      assert all[..|all| - 1] == before && Last(all).write.nodeId == OtherNode(node, n);
      AddedNodes(AddAll(map[], before), Last(all));
    }
  }
}
