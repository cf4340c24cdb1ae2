/**
 What is captured of a Write request before it is forwarded, and how it is
 joined with the response (`src/relay/audit_map.rs`).
 */
module AuditPlan {
  import opened Prelude
  import opened Event
  import opened Summaries

  type NodeId = string

  /** The attribute id of Value. */
  const VALUE: nat := 13

  const MAX_FAILED_ITEMS: nat := 100
  const NAME_CACHE_SIZE: nat := 100_000

  datatype StatusCode = StatusCode(text: string, good: bool, bad: bool)

  const BAD_UNEXPECTED_ERROR: StatusCode := StatusCode("BadUnexpectedError", false, true)

  /** A value read from the server; `text` when it is a localized text. */
  datatype Variant = Variant(shown: AuditValue, text: Option<string>)

  datatype DataValue = DataValue(status: Option<StatusCode>, value: Option<Variant>)

  /** How node and attribute ids are written in the trail. */
  datatype Rendering = Rendering(node: NodeId -> string, attribute: nat -> string)

  datatype WriteValue = WriteValue(
    node: NodeId,
    attribute: nat,
    range: Option<string>,
    value: AuditValue,
    status: Option<string>,
    sourceTimestamp: Option<string>,
    serverTimestamp: Option<string>)

  datatype WriteItem = WriteItem(
    index: nat,              // place among the items sent, hence among the answers
    written: WriteValue,
    nodeId: string,
    attribute: string,
    oldValue: Option<AuditValue>,
    displayName: Option<string>)

  datatype Response = Response(serviceResult: StatusCode, results: Option<seq<StatusCode>>)

  function Planned(render: Rendering, values: seq<WriteValue>): seq<WriteItem> {
    seq(|values|, i requires 0 <= i < |values| =>
      WriteItem(i, values[i], render.node(values[i].node), render.attribute(values[i].attribute), None, None))
  }

  /** The status of item `i`: `unknown` without an answer, that of the service
      if it refused everything, and else what the answer has at place `i`. */
  function ItemStatus(response: Response, i: nat, unknown: Option<string>): string {
    if unknown.Some? then unknown.value
    else if response.serviceResult.bad then response.serviceResult.text
    else if response.results.Some? && i < |response.results.value| then response.results.value[i].text
    else BAD_UNEXPECTED_ERROR.text
  }

  // ----- splitting a plan -----

  function Select(items: seq<WriteItem>, p: WriteItem -> bool): seq<WriteItem> {
    if items == [] then []
    else
      var before := Select(items[..|items| - 1], p);
      if p(Last(items)) then before + [Last(items)] else before
  }

  /** Value writes to a summarised node; writes of other attributes never are. */
  function Ignored(summarised: NodeId -> bool): WriteItem -> bool {
    (w: WriteItem) => w.written.attribute == VALUE && summarised(w.written.node)
  }

  function Not(p: WriteItem -> bool): WriteItem -> bool {
    (w: WriteItem) => !p(w)
  }

  /** The place of item `i` among the selected ones. */
  function Rank(items: seq<WriteItem>, p: WriteItem -> bool, i: nat): nat
    requires i <= |items|
  {
    |Select(items[..i], p)|
  }

  lemma {:induction false} SelectedAt(items: seq<WriteItem>, p: WriteItem -> bool, i: nat)
    requires i < |items| && p(items[i])
    ensures Rank(items, p, i) < |Select(items, p)| && Select(items, p)[Rank(items, p, i)] == items[i]
  {
    if i == |items| - 1 {
    } else {
      var before := items[..|items| - 1];
      SelectedAt(before, p, i);
      assert before[..i] == items[..i];
    }
  }

  /** Each item goes to exactly one side, and the sides hold nothing else. */
  lemma {:induction false} SidesAddUp(items: seq<WriteItem>, p: WriteItem -> bool)
    ensures |Select(items, p)| + |Select(items, Not(p))| == |items|
  {
    if items != [] {
      SidesAddUp(items[..|items| - 1], p);
    }
  }

  /** Selected items have different places. */
  lemma RanksDiffer(items: seq<WriteItem>, p: WriteItem -> bool, i: nat, k: nat)
    requires i < k <= |items| && p(items[i])
    ensures Rank(items, p, i) < Rank(items, p, k)
  {
    SelectedAt(items[..k], p, i);
    assert items[..k][..i] == items[..i];
  }

  /** Every selected item is one of the request, at its place. */
  lemma {:induction false} SelectedFrom(items: seq<WriteItem>, p: WriteItem -> bool, j: nat) returns (i: nat)
    requires j < |Select(items, p)|
    ensures i < |items| && p(items[i]) && Rank(items, p, i) == j && Select(items, p)[j] == items[i]
  {
    var before := items[..|items| - 1];
    if j < |Select(before, p)| {
      i := SelectedFrom(before, p, j);
      assert before[..i] == items[..i];
    } else {
      i := |items| - 1;
    }
  }

  // ----- reads sent together with the request -----

  datatype ReadKind = OldValue | Name

  /** A read, and the item (its place among the recorded ones) it is for. */
  datatype ReadValue = ReadValue(item: nat, kind: ReadKind, node: NodeId, attribute: nat, range: Option<string>)

  const DISPLAY_NAME: nat := 4

  function ReadsOf(w: WriteItem, i: nat, oldValues: bool, known: map<NodeId, string>): seq<ReadValue> {
    (if oldValues then [ReadValue(i, OldValue, w.written.node, w.written.attribute, w.written.range)] else [])
    + (if w.written.node in known then [] else [ReadValue(i, Name, w.written.node, DISPLAY_NAME, None)])
  }

  function Reads(items: seq<WriteItem>, oldValues: bool, known: map<NodeId, string>): seq<ReadValue> {
    if items == [] then []
    else Reads(items[..|items| - 1], oldValues, known)
         + ReadsOf(Last(items), |items| - 1, oldValues, known)
  }

  /** Where the reads of item `i` begin. */
  function ReadsBefore(items: seq<WriteItem>, oldValues: bool, known: map<NodeId, string>, i: nat): nat
    requires i <= |items|
  {
    |Reads(items[..i], oldValues, known)|
  }

  function WithName(w: WriteItem, known: map<NodeId, string>): WriteItem {
    if w.written.node in known then w.(displayName := Some(known[w.written.node])) else w
  }

  function Good(d: DataValue): bool {
    d.status.None? || d.status.value.good
  }

  /** What a read brought, if it was answered and the answer is good. */
  function Answer(answers: seq<DataValue>, k: nat): Option<Variant> {
    if k < |answers| && Good(answers[k]) then answers[k].value else None
  }

  /** The `k`th read brought something: it was answered, with a good status or
      none, and with a value. */
  predicate Brought(answers: seq<DataValue>, k: nat) {
    && k < |answers| && answers[k].value.Some?
    && (answers[k].status.Some? ==> answers[k].status.value.good)
  }

  /** An item after one of its reads. A failed read leaves it as it is. */
  function Filled(w: WriteItem, kind: ReadKind, answer: Option<Variant>): WriteItem {
    match (answer, kind)
    case (Some(v), OldValue) => w.(oldValue := Some(v.shown))
    case (Some(v), Name) => if v.text.Some? then w.(displayName := v.text) else w
    case (None, _) => w
  }

  /** An item after its own reads, which begin at `k`. */
  function FromOwnReads(w: WriteItem, oldValues: bool, known: map<NodeId, string>, answers: seq<DataValue>,
                        k: nat): WriteItem {
    var read := if oldValues then Filled(WithName(w, known), OldValue, Answer(answers, k)) else WithName(w, known);
    if w.written.node in known then read
    else Filled(read, Name, Answer(answers, if oldValues then k + 1 else k))
  }

  // ----- the outcome -----

  function WriteEvent(handle: nat, w: WriteItem, status: string): AuditEvent {
    Write(handle, w.nodeId, w.displayName, w.attribute, w.written.range, w.oldValue, w.written.value,
          w.written.status, w.written.sourceTimestamp, w.written.serverTimestamp, status)
  }

  function EventsAll(handle: nat, items: seq<WriteItem>, response: Response, unknown: Option<string>): seq<AuditEvent> {
    seq(|items|, j requires 0 <= j < |items| =>
      WriteEvent(handle, items[j], ItemStatus(response, items[j].index, unknown)))
  }

  /** Of a request that failed as a whole a sample is enough: it changed nothing. */
  function Sampled(total: nat, response: Response, unknown: Option<string>): nat {
    if response.serviceResult.bad && unknown.None? && total > MAX_FAILED_ITEMS then MAX_FAILED_ITEMS else total
  }

  function EventsWith(handle: nat, items: seq<WriteItem>, response: Response,
                      unknown: Option<string>): seq<AuditEvent> {
    EventsAll(handle, items, response, unknown)[..Sampled(|items|, response, unknown)]
  }

  /** The outcome of a summarised write. */
  function Outcome(w: WriteItem, response: Response, unknown: Option<string>,
                   known: map<NodeId, string>): IgnoredWrite {
    IgnoredWrite(w.nodeId, if w.written.node in known then Some(known[w.written.node]) else None,
                 w.written.value, ItemStatus(response, w.index, unknown))
  }

  function IntentOf(handle: nat, items: seq<WriteItem>): AuditEvent {
    ChangeIntent(handle, "Write",
                 seq(|items|, j requires 0 <= j < |items| => items[j].nodeId),
                 seq(|items|, j requires 0 <= j < |items| => IntentDetail(items[j].attribute, items[j].written.value)))
  }

  function Remember(known: map<NodeId, string>, node: NodeId, name: string): map<NodeId, string> {
    (if |known| >= NAME_CACHE_SIZE then map[] else known)[node := name]
  }

  /** The known names after the first `n` reads are applied. */
  function NamesAfter(known: map<NodeId, string>, items: seq<WriteItem>, wanted: seq<ReadValue>,
                      answers: seq<DataValue>, n: nat): map<NodeId, string>
    requires n <= |wanted| && forall k :: 0 <= k < |wanted| ==> wanted[k].item < |items|
  {
    if n == 0 then known
    else
      var before := NamesAfter(known, items, wanted, answers, n - 1);
      var answer := Answer(answers, n - 1);
      if wanted[n - 1].kind.Name? && answer.Some? && answer.value.text.Some?
      then Remember(before, items[wanted[n - 1].item].written.node, answer.value.text.value)
      else before
  }

  /** The name is there, and the others too, unless there were too many. */
  ghost predicate Adds(before: map<NodeId, string>, after: map<NodeId, string>, node: NodeId, name: string) {
    && node in after && after[node] == name
    && forall n :: n != node ==>
         && (n in after <==> n in before && |before| < 100_000)
         && (n in after ==> after[n] == before[n])
  }

  /** Display names of nodes, so that a name is read only once. */
  class NameCache {
    var known: map<NodeId, string>

    constructor ()
      ensures known == map[]
    {
      known := map[];
    }

    /** Remembers a name; a full cache starts over. */
    method Insert(node: NodeId, name: string)
      modifies this
      ensures known == Remember(old(known), node, name)
      ensures Adds(old(known), known, node, name)
      ensures |old(known)| <= NAME_CACHE_SIZE ==> |known| <= NAME_CACHE_SIZE
    {
      if |known| >= NAME_CACHE_SIZE {
        known := map[];
      }
      assert (known[node := name]).Keys == known.Keys + {node};
      known := known[node := name];
    }
  }

  class WritePlan {
    const handle: nat
    var items: seq<WriteItem>

    constructor (render: Rendering, handle: nat, values: seq<WriteValue>)
      ensures this.handle == handle && items == Planned(render, values)
    {
      this.handle := handle;
      items := Planned(render, values);
    }

    /** Takes the value writes to summarised nodes out of the plan. */
    method TakeIgnored(summarised: NodeId -> bool) returns (taken: seq<WriteItem>)
      modifies this
      ensures taken == Select(old(items), Ignored(summarised))
      ensures items == Select(old(items), Not(Ignored(summarised)))
    {
      var kept: seq<WriteItem> := [];
      taken := [];
      for i := 0 to |items|
        invariant items == old(items)
        invariant taken == Select(items[..i], Ignored(summarised))
        invariant kept == Select(items[..i], Not(Ignored(summarised)))
      {
        var w := items[i];
        assert items[..i + 1][..i] == items[..i];
        if w.written.attribute == VALUE && summarised(w.written.node) {
          taken := taken + [w];
        } else {
          kept := kept + [w];
        }
      }
      assert items[..|items|] == items;
      items := kept;
    }

    /** Fills in the names already known, and lists the reads still needed. */
    method PreRead(oldValues: bool, names: NameCache) returns (wanted: seq<ReadValue>)
      modifies this
      ensures |items| == |old(items)|
      ensures forall i :: 0 <= i < |items| ==> items[i] == WithName(old(items)[i], names.known)
      ensures wanted == Reads(old(items), oldValues, names.known)
    {
      wanted := [];
      for i := 0 to |items|
        invariant |items| == |old(items)|
        invariant forall j :: 0 <= j < i ==> items[j] == WithName(old(items)[j], names.known)
        invariant forall j :: i <= j < |items| ==> items[j] == old(items)[j]
        invariant wanted == Reads(old(items)[..i], oldValues, names.known)
      {
        var w := items[i];
        assert old(items)[..i + 1][..i] == old(items)[..i];
        ghost var before := wanted;
        if oldValues {
          wanted := wanted + [ReadValue(i, OldValue, w.written.node, w.written.attribute, w.written.range)];
        }
        if w.written.node in names.known {
          items := items[i := w.(displayName := Some(names.known[w.written.node]))];
        } else {
          wanted := wanted + [ReadValue(i, Name, w.written.node, DISPLAY_NAME, None)];
        }
        assert wanted == before + ReadsOf(w, i, oldValues, names.known);
      }
      assert old(items)[..|items|] == old(items);
    }

    /** Applies the answers to the reads, each to the item it was made for. */
    method ApplyPreRead(wanted: seq<ReadValue>, answers: seq<DataValue>, names: NameCache)
      requires forall k :: 0 <= k < |wanted| ==> wanted[k].item < |items|
      modifies this, names
      ensures items == Applied(old(items), wanted, answers, |wanted|)
      ensures names.known == NamesAfter(old(names.known), old(items), wanted, answers, |wanted|)
      ensures |old(names.known)| <= NAME_CACHE_SIZE ==> |names.known| <= NAME_CACHE_SIZE
    {
      var n := Min(|wanted|, |answers|);
      var k := 0;
      while k < n
        invariant 0 <= k <= n && |items| == |old(items)|
        invariant items == Applied(old(items), wanted, answers, k)
        invariant names.known == NamesAfter(old(names.known), old(items), wanted, answers, k)
        invariant |old(names.known)| <= NAME_CACHE_SIZE ==> |names.known| <= NAME_CACHE_SIZE
      {
        var i, kind, result := wanted[k].item, wanted[k].kind, answers[k];
        AppliedKeepsWritten(old(items), wanted, answers, k, i);
        if Good(result) && result.value.Some? {
          var value := result.value.value;
          match kind {
            case OldValue =>
              items := items[i := items[i].(oldValue := Some(value.shown))];
            case Name =>
              if value.text.Some? {
                names.Insert(items[i].written.node, value.text.value);
                items := items[i := items[i].(displayName := value.text)];
              }
          }
        }
        k := k + 1;
      }
      UnansweredReadsChangeNothing(old(names.known), old(items), wanted, answers, n, |wanted|);
    }
  }

  /** The cache had the name before, or a read of that node's name brought it. */
  ghost predicate IsRealName(known: map<NodeId, string>, items: seq<WriteItem>, wanted: seq<ReadValue>,
                             answers: seq<DataValue>, node: NodeId, name: string)
    requires forall k :: 0 <= k < |wanted| ==> wanted[k].item < |items|
  {
    || (node in known && known[node] == name)
    || exists k :: 0 <= k < |wanted| && wanted[k].kind == Name && items[wanted[k].item].written.node == node
         && Brought(answers, k) && answers[k].value.value.text == Some(name)
  }

  /** Every name in the cache is one that the server gave for that node. */
  lemma {:induction false} NamesAreReal(known: map<NodeId, string>, items: seq<WriteItem>, wanted: seq<ReadValue>,
                                        answers: seq<DataValue>, n: nat, node: NodeId)
    requires n <= |wanted| && forall k :: 0 <= k < |wanted| ==> wanted[k].item < |items|
    ensures var after := NamesAfter(known, items, wanted, answers, n);
      node in after ==> IsRealName(known, items, wanted, answers, node, after[node])
  {
    if n > 0 {
      NamesAreReal(known, items, wanted, answers, n - 1, node);
      if wanted[n - 1].kind == Name && items[wanted[n - 1].item].written.node == node && Brought(answers, n - 1)
        && answers[n - 1].value.value.text.Some?
      {
        var name := answers[n - 1].value.value.text.value;
        assert IsRealName(known, items, wanted, answers, node, name);
      }
    }
  }

  /** The items after the first `n` reads are applied. */
  function Applied(items: seq<WriteItem>, wanted: seq<ReadValue>, answers: seq<DataValue>,
                   n: nat): (after: seq<WriteItem>)
    requires n <= |wanted| && forall k :: 0 <= k < |wanted| ==> wanted[k].item < |items|
    ensures |after| == |items|
  {
    if n == 0 then items
    else
      var before := Applied(items, wanted, answers, n - 1);
      var i := wanted[n - 1].item;
      before[i := Filled(before[i], wanted[n - 1].kind, Answer(answers, n - 1))]
  }

  lemma {:induction false} AppliedKeepsWritten(items: seq<WriteItem>, wanted: seq<ReadValue>,
                                               answers: seq<DataValue>, n: nat, i: nat)
    requires n <= |wanted| && forall k :: 0 <= k < |wanted| ==> wanted[k].item < |items|
    requires i < |items|
    ensures Applied(items, wanted, answers, n)[i].written == items[i].written
  {
    if n > 0 {
      AppliedKeepsWritten(items, wanted, answers, n - 1, i);
    }
  }

  lemma {:induction false} UnansweredReadsChangeNothing(known: map<NodeId, string>, items: seq<WriteItem>,
                                                        wanted: seq<ReadValue>, answers: seq<DataValue>, n: nat, m: nat)
    requires n <= m <= |wanted| && (n == |wanted| || n == |answers|)
    requires forall k :: 0 <= k < |wanted| ==> wanted[k].item < |items|
    ensures Applied(items, wanted, answers, m) == Applied(items, wanted, answers, n)
    ensures NamesAfter(known, items, wanted, answers, m) == NamesAfter(known, items, wanted, answers, n)
  {
    if m > n {
      UnansweredReadsChangeNothing(known, items, wanted, answers, n, m - 1);
    }
  }

  function WithNames(items: seq<WriteItem>, known: map<NodeId, string>): seq<WriteItem> {
    seq(|items|, i requires 0 <= i < |items| => WithName(items[i], known))
  }

  lemma {:induction false} ReadsAreForItems(items: seq<WriteItem>, oldValues: bool, known: map<NodeId, string>)
    ensures forall k :: 0 <= k < |Reads(items, oldValues, known)| ==> Reads(items, oldValues, known)[k].item < |items|
  {
    if items != [] {
      ReadsAreForItems(items[..|items| - 1], oldValues, known);
    }
  }

  lemma {:induction false} ReadsOfAPrefix(items: seq<WriteItem>, oldValues: bool, known: map<NodeId, string>, n: nat)
    requires n <= |items|
    ensures Reads(items[..n], oldValues, known) <= Reads(items, oldValues, known)
  {
    if n == |items| {
      assert items[..n] == items;
    } else {
      ReadsOfAPrefix(items[..|items| - 1], oldValues, known, n);
      assert items[..|items| - 1][..n] == items[..n];
    }
  }

  /** The reads of item `n` stand right after those of the items before it. */
  lemma ReadsOfOneMore(items: seq<WriteItem>, oldValues: bool, known: map<NodeId, string>, n: nat)
    requires n < |items|
    ensures var wanted, b, own := Reads(items, oldValues, known), ReadsBefore(items, oldValues, known, n),
                                  ReadsOf(items[n], n, oldValues, known);
      && b + |own| == ReadsBefore(items, oldValues, known, n + 1) <= |wanted|
      && wanted[b..b + |own|] == own
  {
    var before, own := Reads(items[..n], oldValues, known), ReadsOf(items[n], n, oldValues, known);
    ReadsOfAPrefix(items, oldValues, known, n + 1);
    assert Reads(items[..n + 1], oldValues, known) == before + own by {
      assert items[..n + 1][..n] == items[..n];
    }
    MiddleOfPrefix(before, own, Reads(items, oldValues, known));
  }

  lemma MiddleOfPrefix<T>(a: seq<T>, b: seq<T>, c: seq<T>)
    requires a + b <= c
    ensures c[|a|..|a| + |b|] == b
  {
    assert c[..|a| + |b|] == a + b;
  }

  /** The reads of one item change that item only. */
  lemma OneItemsReads(items: seq<WriteItem>, wanted: seq<ReadValue>, answers: seq<DataValue>,
                      w: WriteItem, oldValues: bool, known: map<NodeId, string>, b: nat, i: nat)
    requires forall k :: 0 <= k < |wanted| ==> wanted[k].item < |items|
    requires i < |items| && b + |ReadsOf(w, i, oldValues, known)| <= |wanted|
    requires wanted[b..b + |ReadsOf(w, i, oldValues, known)|] == ReadsOf(w, i, oldValues, known)
    requires Applied(items, wanted, answers, b)[i] == WithName(w, known)
    ensures Applied(items, wanted, answers, b + |ReadsOf(w, i, oldValues, known)|)
         == Applied(items, wanted, answers, b)[i := FromOwnReads(w, oldValues, known, answers, b)]
  {
    var own := ReadsOf(w, i, oldValues, known);
    if own != [] {
      assert wanted[b] == own[0];
      OneRead(items, wanted, answers, b);
    }
    if |own| == 2 {
      assert wanted[b + 1] == own[1];
      OneRead(items, wanted, answers, b + 1);
    }
  }

  lemma OneRead(items: seq<WriteItem>, wanted: seq<ReadValue>, answers: seq<DataValue>, k: nat)
    requires k < |wanted| && forall k :: 0 <= k < |wanted| ==> wanted[k].item < |items|
    ensures var now, i := Applied(items, wanted, answers, k), wanted[k].item;
      Applied(items, wanted, answers, k + 1) == now[i := Filled(now[i], wanted[k].kind, Answer(answers, k))]
  {
  }

  /** The reads of item `n` are those of `wanted` from `starts[n]` on. */
  predicate Laid(items: seq<WriteItem>, oldValues: bool, known: map<NodeId, string>,
                 wanted: seq<ReadValue>, starts: seq<nat>)
  {
    && |starts| == |items| + 1 && starts[0] == 0
    && (forall k :: 0 <= k < |wanted| ==> wanted[k].item < |items|)
    && forall n :: 0 <= n < |items| ==> LaidAt(items[n], n, oldValues, known, wanted, starts[n], starts[n + 1])
  }

  predicate LaidAt(w: WriteItem, n: nat, oldValues: bool, known: map<NodeId, string>,
                   wanted: seq<ReadValue>, b: nat, e: nat)
  {
    e == b + |ReadsOf(w, n, oldValues, known)| <= |wanted| && wanted[b..e] == ReadsOf(w, n, oldValues, known)
  }

  function Starts(items: seq<WriteItem>, oldValues: bool, known: map<NodeId, string>): seq<nat> {
    seq(|items| + 1, i requires 0 <= i <= |items| => ReadsBefore(items, oldValues, known, i))
  }

  lemma ReadsAreLaid(items: seq<WriteItem>, oldValues: bool, known: map<NodeId, string>)
    ensures Laid(items, oldValues, known, Reads(items, oldValues, known), Starts(items, oldValues, known))
  {
    ReadsAreForItems(items, oldValues, known);
    forall n | 0 <= n < |items|
      ensures LaidAt(items[n], n, oldValues, known, Reads(items, oldValues, known),
                     ReadsBefore(items, oldValues, known, n), ReadsBefore(items, oldValues, known, n + 1))
    {
      ReadsOfOneMore(items, oldValues, known, n);
    }
  }

  /** The first `n` items have the answers to their reads, the rest only names. */
  predicate FilledUpTo(items: seq<WriteItem>, oldValues: bool, known: map<NodeId, string>,
                       answers: seq<DataValue>, starts: seq<nat>, now: seq<WriteItem>, n: nat)
    requires n <= |items| == |now| < |starts|
  {
    && (forall j :: 0 <= j < n ==> now[j] == FromOwnReads(items[j], oldValues, known, answers, starts[j]))
    && (forall j :: n <= j < |items| ==> now[j] == WithName(items[j], known))
  }

  lemma {:induction false} ItemsSoFar(items: seq<WriteItem>, oldValues: bool, known: map<NodeId, string>,
                                      answers: seq<DataValue>, wanted: seq<ReadValue>, starts: seq<nat>, n: nat)
    requires n <= |items| && Laid(items, oldValues, known, wanted, starts)
    ensures starts[n] <= |wanted|
    ensures FilledUpTo(items, oldValues, known, answers, starts,
                       Applied(WithNames(items, known), wanted, answers, starts[n]), n)
  {
    if n > 0 {
      var i := n - 1;
      ItemsSoFar(items, oldValues, known, answers, wanted, starts, i);
      assert LaidAt(items[i], i, oldValues, known, wanted, starts[i], starts[i + 1]);
      OneItemsReads(WithNames(items, known), wanted, answers, items[i], oldValues, known, starts[i], i);
    }
  }

  /** Every item ends up with the answers to its own reads and no others: its
      old value is what its own node, attribute and range held, and its name
      the known one or what its own read brought. */
  lemma ItemsGetTheirOwnReads(items: seq<WriteItem>, oldValues: bool, known: map<NodeId, string>,
                              answers: seq<DataValue>, i: nat)
    requires i < |items|
    requires forall k :: 0 <= k < |Reads(items, oldValues, known)| ==> Reads(items, oldValues, known)[k].item < |items|
    ensures var wanted := Reads(items, oldValues, known);
      Applied(WithNames(items, known), wanted, answers, |wanted|)[i]
        == FromOwnReads(items[i], oldValues, known, answers, ReadsBefore(items, oldValues, known, i))
  {
    ReadsAreLaid(items, oldValues, known);
    ItemsSoFar(items, oldValues, known, answers, Reads(items, oldValues, known), Starts(items, oldValues, known), |items|);
    assert items[..|items|] == items;
  }

  /** And those reads ask for what the item writes, and for the name of its node. */
  lemma OwnReadsAskForTheItem(items: seq<WriteItem>, oldValues: bool, known: map<NodeId, string>, i: nat)
    requires i < |items|
    ensures var wanted, k, w := Reads(items, oldValues, known), ReadsBefore(items, oldValues, known, i), items[i].written;
      && (oldValues ==> k < |wanted| && wanted[k] == ReadValue(i, OldValue, w.node, w.attribute, w.range))
      && (w.node !in known ==>
            var n := if oldValues then k + 1 else k;
            n < |wanted| && wanted[n] == ReadValue(i, Name, w.node, 4, None))
  {
    ReadsOfOneMore(items, oldValues, known, i);
    var k, own := ReadsBefore(items, oldValues, known, i), ReadsOf(items[i], i, oldValues, known);
    assert forall m :: 0 <= m < |own| ==> Reads(items, oldValues, known)[k..k + |own|][m] == own[m];
  }
}
