/**
 Forwarding a Write request (`src/relay/connection.rs`, `forward`): what is
 handed to the audit trail, to the pending summaries and to the server, and in
 which order.
 */
module Forward {
  import opened Prelude
  import opened Event
  import opened Summaries
  import opened AuditPlan

  const BAD_INTERNAL_ERROR: StatusCode := StatusCode("BadInternalError", false, true)

  datatype Action =
    | Committed(intent: AuditEvent, stored: bool)   // awaited before anything is sent
    | ReadRequest(wanted: seq<ReadValue>)           // sent to the server
    | Change(values: seq<WriteValue>)               // the request itself, sent to the server
    | Counted(write: IgnoredWrite)                  // added to a pending summary
    | Recorded(event: AuditEvent)                   // handed to the audit trail

  datatype Request = Request(handle: nat, values: seq<WriteValue>)

  /** How the server answers, or that it does not. */
  datatype Reply = Answered(response: Response) | Failed(status: StatusCode, maybeSent: bool)

  /** Everything `forward` learns from outside. */
  datatype Circumstances = Circumstances(
    render: Rendering,
    oldValues: bool,
    failClosed: bool,
    summarised: NodeId -> bool,      // for the client of the request
    intentStored: bool,
    readAnswers: seq<DataValue>,     // empty if the read failed
    reply: Reply,
    clock: nat -> Time,
    client: string)                  // as it appears in summaries

  function Fault(status: StatusCode): Response {
    Response(status, None)
  }

  function ResponseOf(reply: Reply): Response {
    match reply
    case Answered(response) => response
    case Failed(status, _) => Fault(status)
  }

  /** The status of a request that was perhaps applied, but never answered. */
  function Unknown(reply: Reply): Option<StatusCode> {
    if reply.Failed? && reply.maybeSent then Some(reply.status) else None
  }

  function UncertainInSummary(unknown: Option<StatusCode>): Option<string> {
    if unknown.Some? then Some("Uncertain: no response (" + unknown.value.text + ")") else None
  }

  function UncertainInRecord(unknown: Option<StatusCode>): Option<string> {
    if unknown.Some?
    then Some("Uncertain: no response (" + unknown.value.text + "); the server may have applied it")
    else None
  }

  /** A summarised write, recorded as usual for want of room. */
  function FallbackEvent(handle: nat, w: IgnoredWrite): AuditEvent {
    Write(handle, w.nodeId, w.displayName, "Value", None, None, w.value, None, None, None, w.status)
  }

  // ----- what a request leads to -----

  function TakenItems(at: Circumstances, request: Request): seq<WriteItem> {
    Select(Planned(at.render, request.values), Ignored(at.summarised))
  }

  function KeptItems(at: Circumstances, request: Request): seq<WriteItem> {
    Select(Planned(at.render, request.values), Not(Ignored(at.summarised)))
  }

  predicate Refused(at: Circumstances, request: Request) {
    KeptItems(at, request) != [] && at.failClosed && !at.intentStored
  }

  function WantedReads(at: Circumstances, request: Request, known: map<NodeId, string>): seq<ReadValue> {
    Reads(KeptItems(at, request), at.oldValues, known)
  }

  function Prologue(at: Circumstances, request: Request, known: map<NodeId, string>): seq<Action> {
    var kept := KeptItems(at, request);
    (if kept != [] && at.failClosed then [Committed(IntentOf(request.handle, kept), at.intentStored)] else [])
    + if Refused(at, request) then []
      else (if WantedReads(at, request, known) != [] then [ReadRequest(WantedReads(at, request, known))] else [])
           + [Change(request.values)]
  }

  function Arrivals(at: Circumstances, request: Request, known: map<NodeId, string>): seq<Arrival> {
    var taken := TakenItems(at, request);
    seq(|taken|, j requires 0 <= j < |taken| =>
      Arrival(Outcome(taken[j], ResponseOf(at.reply), UncertainInSummary(Unknown(at.reply)), known),
              at.clock(j), at.client))
  }

  function CountOrRecord(handle: nat, nodes: map<string, Summary>, a: Arrival): Action {
    if TurnedAway(nodes, a) then Recorded(FallbackEvent(handle, a.write)) else Counted(a.write)
  }

  function Tallying(handle: nat, nodes: map<string, Summary>, arrivals: seq<Arrival>): (actions: seq<Action>)
    ensures |actions| == |arrivals|
  {
    if arrivals == [] then []
    else
      var before := arrivals[..|arrivals| - 1];
      Tallying(handle, nodes, before) + [CountOrRecord(handle, AddAll(nodes, before), Last(arrivals))]
  }

  function Recording(events: seq<AuditEvent>): seq<Action> {
    seq(|events|, j requires 0 <= j < |events| => Recorded(events[j]))
  }

  function KeptAfterReads(at: Circumstances, request: Request, known: map<NodeId, string>): (after: seq<WriteItem>)
    ensures |after| == |KeptItems(at, request)|
  {
    var kept, wanted := KeptItems(at, request), WantedReads(at, request, known);
    ReadsAreForItems(kept, at.oldValues, known);
    Applied(WithNames(kept, known), wanted, at.readAnswers, |wanted|)
  }

  function KnownAfterReads(at: Circumstances, request: Request, known: map<NodeId, string>): map<NodeId, string> {
    var kept, wanted := KeptItems(at, request), WantedReads(at, request, known);
    ReadsAreForItems(kept, at.oldValues, known);
    NamesAfter(known, WithNames(kept, known), wanted, at.readAnswers, |wanted|)
  }

  function Events(at: Circumstances, request: Request, known: map<NodeId, string>): seq<AuditEvent> {
    EventsWith(request.handle, KeptAfterReads(at, request, known),
               ResponseOf(at.reply), UncertainInRecord(Unknown(at.reply)))
  }

  /** All actions of a request, with the names and the summaries known before. */
  function Actions(at: Circumstances, request: Request, known: map<NodeId, string>,
                   nodes: map<string, Summary>): seq<Action> {
    var sent := Prologue(at, request, known);
    if Refused(at, request) then sent
    else Joined(sent, request.handle, nodes, Arrivals(at, request, KnownAfterReads(at, request, known)),
                Events(at, request, known))
  }

  /** What was sent, then what becomes of the summarised items, then the events. */
  function Joined(sent: seq<Action>, handle: nat, nodes: map<string, Summary>, arrivals: seq<Arrival>,
                  events: seq<AuditEvent>): seq<Action>
  {
    sent + Tallying(handle, nodes, arrivals) + Recording(events)
  }

  class Target {
    const names: NameCache
    const pending: IgnoredWrites
    var log: seq<Action>

    constructor ()
      ensures fresh(names) && fresh(pending) && log == []
    {
      names := new NameCache();
      pending := new IgnoredWrites();
      log := [];
    }

    /** Counts the summarised writes; those without room are recorded. */
    method CountAll(handle: nat, arrivals: seq<Arrival>)
      modifies this, pending
      ensures log == old(log) + Tallying(handle, old(pending.nodes), arrivals)
      ensures pending.nodes == AddAll(old(pending.nodes), arrivals)
    {
      for j := 0 to |arrivals|
        invariant log == old(log) + Tallying(handle, old(pending.nodes), arrivals[..j])
        invariant pending.nodes == AddAll(old(pending.nodes), arrivals[..j])
      {
        var a := arrivals[j];
        assert arrivals[..j + 1][..j] == arrivals[..j];
        ConcatAssociates(old(log), Tallying(handle, old(pending.nodes), arrivals[..j]),
                         [CountOrRecord(handle, pending.nodes, a)]);
        var added := pending.Add(a);
        if added {
          log := log + [Counted(a.write)];
        } else {
          log := log + [Recorded(FallbackEvent(handle, a.write))];
        }
      }
      assert arrivals[..|arrivals|] == arrivals;
    }

    method RecordAll(events: seq<AuditEvent>)
      modifies this
      ensures log == old(log) + Recording(events)
    {
      for j := 0 to |events|
        invariant log == old(log) + Recording(events[..j])
      {
        log := log + [Recorded(events[j])];
        assert Recording(events[..j + 1]) == Recording(events[..j]) + [Recorded(events[j])];
      }
      assert events[..|events|] == events;
    }

    /** Commits the intent in fail-closed mode, then sends the reads and the
        request. Without a stored intent nothing is sent. */
    method Send(plan: WritePlan, request: Request, wanted: seq<ReadValue>, failClosed: bool, intentStored: bool)
      returns (sent: bool)
      modifies this
      ensures sent == !(plan.items != [] && failClosed && !intentStored)
      ensures log == old(log)
        + (if plan.items != [] && failClosed then [Committed(IntentOf(plan.handle, plan.items), intentStored)] else [])
        + (if !sent then [] else (if wanted != [] then [ReadRequest(wanted)] else []) + [Change(request.values)])
    {
      if plan.items != [] && failClosed {
        log := log + [Committed(IntentOf(plan.handle, plan.items), intentStored)];
        if !intentStored {
          return false;
        }
      }
      if wanted != [] {
        log := log + [ReadRequest(wanted)];
      }
      log := log + [Change(request.values)];
      sent := true;
    }

    /** Captures what is needed of a request before it is forwarded. */
    method Capture(at: Circumstances, request: Request) returns (plan: WritePlan, taken: seq<WriteItem>,
                   wanted: seq<ReadValue>)
      ensures fresh(plan) && plan.handle == request.handle
      ensures plan.items == WithNames(KeptItems(at, request), names.known)
      ensures taken == TakenItems(at, request) && wanted == WantedReads(at, request, names.known)
    {
      plan := new WritePlan(at.render, request.handle, request.values);
      taken := plan.TakeIgnored(at.summarised);
      wanted := plan.PreRead(at.oldValues, names);
    }

    /** Joins the answers with what was captured. */
    method Settle(at: Circumstances, request: Request, plan: WritePlan, taken: seq<WriteItem>, wanted: seq<ReadValue>)
      requires plan.items == WithNames(KeptItems(at, request), names.known)
      requires taken == TakenItems(at, request) && wanted == WantedReads(at, request, names.known)
      modifies this, names, pending, plan
      ensures names.known == KnownAfterReads(at, request, old(names.known))
      ensures pending.nodes == AddAll(old(pending.nodes), Arrivals(at, request, names.known))
      ensures log == old(log) + Tallying(request.handle, old(pending.nodes), Arrivals(at, request, names.known))
                              + Recording(Events(at, request, old(names.known)))
    {
      ReadsAreForItems(KeptItems(at, request), at.oldValues, names.known);
      plan.ApplyPreRead(wanted, at.readAnswers, names);
      var displayNames := names.known;
      var response, unknown := ResponseOf(at.reply), Unknown(at.reply);
      var arrivals := seq(|taken|, j requires 0 <= j < |taken| =>
        Arrival(Outcome(taken[j], response, UncertainInSummary(unknown), displayNames), at.clock(j), at.client));
      assert arrivals == Arrivals(at, request, displayNames);
      CountAll(request.handle, arrivals);
      RecordAll(EventsWith(request.handle, plan.items, response, UncertainInRecord(unknown)));
    }

    /** Sends a request on as it is, and sees to its audit. */
    method Forward(at: Circumstances, request: Request) returns (response: Response)
      modifies this, names, pending
      ensures log == old(log) + Actions(at, request, old(names.known), old(pending.nodes))
      ensures response == if Refused(at, request) then Fault(BAD_INTERNAL_ERROR) else ResponseOf(at.reply)
      ensures Refused(at, request) ==> response.serviceResult.text == "BadInternalError" && response.results.None?
      ensures Refused(at, request) ==> pending.nodes == old(pending.nodes) && names.known == old(names.known)
      ensures !Refused(at, request) ==>
                && names.known == KnownAfterReads(at, request, old(names.known))
                && pending.nodes == AddAll(old(pending.nodes), Arrivals(at, request, names.known))
    {
      var plan, taken, wanted := Capture(at, request);
      SameIntent(request.handle, KeptItems(at, request), names.known);
      var sent := Send(plan, request, wanted, at.failClosed, at.intentStored);
      SentIsPrologue(at, request, names.known, plan.items, old(log), log);
      if !sent {
        return Fault(BAD_INTERNAL_ERROR);
      }
      ghost var known, nodes := names.known, pending.nodes;
      Settle(at, request, plan, taken, wanted);
      response := ResponseOf(at.reply);
      JoinsUp(old(log), Prologue(at, request, known), Tallying(request.handle, nodes, Arrivals(at, request, names.known)),
              Recording(Events(at, request, known)));
    }
  }

  lemma JoinsUp<T>(a: seq<T>, b: seq<T>, c: seq<T>, d: seq<T>)
    ensures a + b + c + d == a + (b + c + d)
  {
  }

  lemma SentIsPrologue(at: Circumstances, request: Request, known: map<NodeId, string>,
                       items: seq<WriteItem>, before: seq<Action>, after: seq<Action>)
    requires items == WithNames(KeptItems(at, request), known)
    requires var wanted := WantedReads(at, request, known);
      after == before
        + (if items != [] && at.failClosed then [Committed(IntentOf(request.handle, items), at.intentStored)] else [])
        + (if items != [] && at.failClosed && !at.intentStored then []
           else (if wanted != [] then [ReadRequest(wanted)] else []) + [Change(request.values)])
    ensures after == before + Prologue(at, request, known)
  {
    SameIntent(request.handle, KeptItems(at, request), known);
  }

  /** Each arrival finds the summaries that those before it left. */
  lemma {:induction false} TallyingAt(handle: nat, nodes: map<string, Summary>, arrivals: seq<Arrival>, j: nat)
    requires j < |arrivals|
    ensures Tallying(handle, nodes, arrivals)[j] == CountOrRecord(handle, AddAll(nodes, arrivals[..j]), arrivals[j])
  {
    if j < |arrivals| - 1 {
      TallyingAt(handle, nodes, arrivals[..|arrivals| - 1], j);
      assert arrivals[..|arrivals| - 1][..j] == arrivals[..j];
    }
  }

  /** Names do not appear in an intent. */
  lemma SameIntent(handle: nat, items: seq<WriteItem>, known: map<NodeId, string>)
    ensures IntentOf(handle, WithNames(items, known)) == IntentOf(handle, items)
  {
  }

  // ----- what the actions of a request say about its items -----

  /** Where the outcomes begin. */
  function Base(at: Circumstances, request: Request, known: map<NodeId, string>): nat {
    |Prologue(at, request, known)|
  }

  /** The status of item `i` of a request. */
  function StatusAt(at: Circumstances, i: nat, unknown: Option<string>): string {
    ItemStatus(ResponseOf(at.reply), i, unknown)
  }

  /** What the reply of the server says about item `i`: if it never came, though
      the request may have been sent, that this is uncertain; if the service
      refused the request, so much; else what stands at place `i` of the results,
      and if nothing does, that this was not expected. */
  predicate IsStatus(reply: Reply, i: nat, uncertain: string, status: string) {
    && (reply.Failed? && reply.maybeSent ==>
          status == "Uncertain: no response (" + reply.status.text + uncertain)
    && (reply.Failed? && !reply.maybeSent ==>
          status == if reply.status.bad then reply.status.text else "BadUnexpectedError")
    && (reply.Answered? && reply.response.serviceResult.bad ==> status == reply.response.serviceResult.text)
    && (reply.Answered? && !reply.response.serviceResult.bad ==>
          var results := if reply.response.results.Some? then reply.response.results.value else [];
          && (i < |results| ==> status == results[i].text)
          && (i >= |results| ==> status == "BadUnexpectedError"))
  }

  lemma StatusIsOfReply(at: Circumstances, i: nat)
    ensures IsStatus(at.reply, i, ")", StatusAt(at, i, UncertainInSummary(Unknown(at.reply))))
    ensures IsStatus(at.reply, i, "); the server may have applied it",
                     StatusAt(at, i, UncertainInRecord(Unknown(at.reply))))
  {
  }

  lemma SentLast(at: Circumstances, request: Request, known: map<NodeId, string>)
    requires !Refused(at, request)
    ensures Prologue(at, request, known) != [] && Last(Prologue(at, request, known)) == Change(request.values)
  {
  }

  /** The request is sent before any outcome is known. */
  lemma SentBeforeOutcomes(at: Circumstances, request: Request, known: map<NodeId, string>, nodes: map<string, Summary>)
    requires !Refused(at, request)
    ensures var actions, base := Actions(at, request, known, nodes), Base(at, request, known);
      0 < base <= |actions| && actions[base - 1] == Change(request.values)
  {
    SentLast(at, request, known);
  }

  /** Then come the outcomes of the summarised items, then those of the others, in
      order. */
  lemma OutcomesFollow(at: Circumstances, request: Request, known: map<NodeId, string>,
                       nodes: map<string, Summary>, j: nat)
    requires !Refused(at, request)
    ensures var actions, base, n := Actions(at, request, known, nodes), Base(at, request, known), |TakenItems(at, request)|;
      var arrivals := Arrivals(at, request, KnownAfterReads(at, request, known));
      && |actions| == base + n + |Events(at, request, known)| && |arrivals| == n
      && (j < |Events(at, request, known)| ==> actions[base + n + j] == Recorded(Events(at, request, known)[j]))
  {
    var arrivals, events := Arrivals(at, request, KnownAfterReads(at, request, known)), Events(at, request, known);
    assert Actions(at, request, known, nodes) == Joined(Prologue(at, request, known), request.handle, nodes, arrivals, events);
    PartsFollow(Prologue(at, request, known), request.handle, nodes, arrivals, events, j);
  }

  lemma TalliesFollow(at: Circumstances, request: Request, known: map<NodeId, string>,
                      nodes: map<string, Summary>, arrivals: seq<Arrival>, j: nat)
    requires !Refused(at, request)
    requires arrivals == Arrivals(at, request, KnownAfterReads(at, request, known)) && j < |arrivals|
    ensures var actions, base := Actions(at, request, known, nodes), Base(at, request, known);
      base + j < |actions| && actions[base + j] == Tallying(request.handle, nodes, arrivals)[j]
  {
    PartsFollow(Prologue(at, request, known), request.handle, nodes, arrivals, Events(at, request, known), j);
  }

  lemma PartsFollow(sent: seq<Action>, handle: nat, nodes: map<string, Summary>, arrivals: seq<Arrival>,
                    events: seq<AuditEvent>, j: nat)
    ensures var actions := Joined(sent, handle, nodes, arrivals, events);
      && |actions| == |sent| + |arrivals| + |events|
      && (j < |arrivals| ==> actions[|sent| + j] == Tallying(handle, nodes, arrivals)[j])
      && (j < |events| ==> actions[|sent| + |arrivals| + j] == Recorded(events[j]))
  {
    ThreeParts(sent, Tallying(handle, nodes, arrivals), Recording(events), j);
  }

  lemma ThreeParts<T>(a: seq<T>, b: seq<T>, c: seq<T>, j: nat)
    ensures |a + b + c| == |a| + |b| + |c| && (a != [] ==> (a + b + c)[|a| - 1] == Last(a))
    ensures j < |b| ==> (a + b + c)[|a| + j] == b[j]
    ensures j < |c| ==> (a + b + c)[|a| + |b| + j] == c[j]
  {
  }

  /** Item `i` writes the value, attribute 13, of a node that is summarised. */
  predicate IsSummarised(at: Circumstances, request: Request, i: nat)
    requires i < |request.values|
  {
    request.values[i].attribute == 13 && at.summarised(request.values[i].node)
  }

  /** What a summary is told about item `i` of a request. */
  function SummaryOf(at: Circumstances, request: Request, names: map<NodeId, string>, i: nat): IgnoredWrite
    requires i < |request.values|
  {
    var w := request.values[i];
    IgnoredWrite(at.render.node(w.node), if w.node in names then Some(names[w.node]) else None, w.value,
                 StatusAt(at, i, UncertainInSummary(Unknown(at.reply))))
  }

  lemma SummarisedArrival(at: Circumstances, request: Request, names: map<NodeId, string>, i: nat)
    requires i < |request.values| && IsSummarised(at, request, i)
    ensures var r := Rank(Planned(at.render, request.values), Ignored(at.summarised), i);
      && r < |TakenItems(at, request)| == |Arrivals(at, request, names)|
      && Arrivals(at, request, names)[r].write == SummaryOf(at, request, names, i)
  {
    var items := Planned(at.render, request.values);
    var r := Rank(items, Ignored(at.summarised), i);
    SelectedAt(items, Ignored(at.summarised), i);
    assert TakenItems(at, request)[r] == items[i] && items[i].written == request.values[i];
    assert Arrivals(at, request, names)[r].write
        == Outcome(items[i], ResponseOf(at.reply), UncertainInSummary(Unknown(at.reply)), names);
  }

  lemma CountedAt(at: Circumstances, request: Request, known: map<NodeId, string>, nodes: map<string, Summary>, r: nat)
    requires !Refused(at, request) && r < |TakenItems(at, request)|
    ensures var actions, j := Actions(at, request, known, nodes), Base(at, request, known) + r;
      var arrivals := Arrivals(at, request, KnownAfterReads(at, request, known));
      var write := arrivals[r].write;
      && j < |actions|
      && actions[j] == if write.nodeId in AddAll(nodes, arrivals) then Counted(write)
                       else Recorded(FallbackEvent(request.handle, write))
  {
    var arrivals := Arrivals(at, request, KnownAfterReads(at, request, known));
    TalliesFollow(at, request, known, nodes, arrivals, r);
    TallyingAt(request.handle, nodes, arrivals, r);
    RefusedStaysRefused(nodes, arrivals, r);
  }

  /** The write is that of item `i`, with the status the reply has for it. */
  predicate SummaryTells(at: Circumstances, request: Request, names: map<NodeId, string>, i: nat, w: IgnoredWrite)
    requires i < |request.values|
  {
    && w.nodeId == at.render.node(request.values[i].node) && w.value == request.values[i].value
    && (w.displayName.Some? <==> request.values[i].node in names)
    && (w.displayName.Some? ==> w.displayName.value == names[request.values[i].node])
    && IsStatus(at.reply, i, ")", w.status)
  }

  /** The event records the write without what is not kept of it. */
  predicate RecordsShort(e: AuditEvent, handle: nat, w: IgnoredWrite) {
    && e.Write? && e.requestHandle == handle
    && e.nodeId == w.nodeId && e.displayName == w.displayName && e.attribute == "Value"
    && e.newValue == w.value && e.status == w.status
    && e.indexRange.None? && e.oldValue.None? && e.writtenStatus.None?
    && e.sourceTimestamp.None? && e.serverTimestamp.None?
  }

  /** The action counts or records the write, depending on the summaries. */
  predicate Disposes(action: Action, handle: nat, w: IgnoredWrite, after: map<string, Summary>) {
    && (w.nodeId in after ==> action == Counted(w))
    && (w.nodeId !in after ==> action.Recorded? && RecordsShort(action.event, handle, w))
  }

  /** A value write to a summarised node has exactly one outcome, which carries
      the status found at its place in the request: it is counted if its node is
      among the summaries afterwards, and else recorded in short. */
  lemma SummarisedItemIsCounted(at: Circumstances, request: Request, known: map<NodeId, string>,
                                nodes: map<string, Summary>, i: nat) returns (w: IgnoredWrite)
    requires !Refused(at, request) && i < |request.values|
    requires IsSummarised(at, request, i)
    ensures var actions, j := Actions(at, request, known, nodes),
                              Base(at, request, known) + Rank(Planned(at.render, request.values), Ignored(at.summarised), i);
      var names := KnownAfterReads(at, request, known);
      && SummaryTells(at, request, names, i, w)
      && j < |actions| && Disposes(actions[j], request.handle, w, AddAll(nodes, Arrivals(at, request, names)))
  {
    var r := Rank(Planned(at.render, request.values), Ignored(at.summarised), i);
    SummarisedArrival(at, request, KnownAfterReads(at, request, known), i);
    CountedAt(at, request, known, nodes, r);
    StatusIsOfReply(at, i);
    w := SummaryOf(at, request, KnownAfterReads(at, request, known), i);
  }

  /** Item `i` with what its own reads brought. */
  function ItemAfterReads(at: Circumstances, request: Request, known: map<NodeId, string>, i: nat): WriteItem
    requires i < |request.values|
  {
    var items, kept := Planned(at.render, request.values), KeptItems(at, request);
    var r := Rank(items, Not(Ignored(at.summarised)), i);
    FromOwnReads(items[i], at.oldValues, known, at.readAnswers,
                 if r <= |kept| then ReadsBefore(kept, at.oldValues, known, r) else 0)
  }

  lemma RecordedEvent(at: Circumstances, request: Request, known: map<NodeId, string>, i: nat)
    requires i < |request.values| && !IsSummarised(at, request, i)
    ensures var kept, r := KeptItems(at, request), Rank(Planned(at.render, request.values), Not(Ignored(at.summarised)), i);
      && r < |kept| && kept[r] == Planned(at.render, request.values)[i]
      && KeptAfterReads(at, request, known)[r] == ItemAfterReads(at, request, known, i)
      && |Events(at, request, known)| == Sampled(|kept|, ResponseOf(at.reply), UncertainInRecord(Unknown(at.reply)))
  {
    var items, kept := Planned(at.render, request.values), KeptItems(at, request);
    SelectedAt(items, Not(Ignored(at.summarised)), i);
    ReadsAreForItems(kept, at.oldValues, known);
    ItemsGetTheirOwnReads(kept, at.oldValues, known, at.readAnswers, Rank(items, Not(Ignored(at.summarised)), i));
  }

  /** The server refused the request, or never got it. */
  predicate FailedAsWhole(at: Circumstances) {
    match at.reply
    case Answered(response) => response.serviceResult.bad
    case Failed(status, maybeSent) => status.bad && !maybeSent
  }

  function Shown(answer: Option<Variant>): Option<AuditValue> {
    if answer.Some? then Some(answer.value.shown) else None
  }

  function TextOf(answer: Option<Variant>): Option<string> {
    if answer.Some? then answer.value.text else None
  }

  /** The old value is what the `k`th read brought, if it was asked for. */
  predicate TellsOldValue(at: Circumstances, k: nat, told: Option<AuditValue>) {
    && (!at.oldValues || !Brought(at.readAnswers, k) ==> told.None?)
    && (at.oldValues && Brought(at.readAnswers, k) ==> told == Some(at.readAnswers[k].value.value.shown))
  }

  /** The name was known, or is what the `k`th read brought. */
  predicate TellsName(at: Circumstances, known: map<NodeId, string>, node: NodeId, k: nat, told: Option<string>) {
    && (node in known ==> told == Some(known[node]))
    && (node !in known && Brought(at.readAnswers, k) ==> told == at.readAnswers[k].value.value.text)
    && (node !in known && !Brought(at.readAnswers, k) ==> told.None?)
  }

  /** The event tells what item `i` of the request writes, the old value and the
      name that the reads from `k` on brought, and the status at place `i`. */
  predicate TellsOf(at: Circumstances, request: Request, known: map<NodeId, string>, i: nat, k: nat, e: AuditEvent)
    requires i < |request.values|
  {
    var w := request.values[i];
    && e.Write?
    && e.requestHandle == request.handle
    && e.nodeId == at.render.node(w.node)
    && e.attribute == at.render.attribute(w.attribute)
    && e.indexRange == w.range
    && e.newValue == w.value
    && TellsOldValue(at, k, e.oldValue)
    && TellsName(at, known, w.node, if at.oldValues then k + 1 else k, e.displayName)
    && e.writtenStatus == w.status
    && e.sourceTimestamp == w.sourceTimestamp
    && e.serverTimestamp == w.serverTimestamp
    && IsStatus(at.reply, i, "); the server may have applied it", e.status)
  }

  /** Any other write is recorded once, with the status found at its place in
      the request, and the old value and the name its own reads brought. Of a
      request that failed as a whole, the first hundred are. */
  lemma RecordedItemHasItsOutcome(at: Circumstances, request: Request, known: map<NodeId, string>,
                                  nodes: map<string, Summary>, i: nat)
    requires !Refused(at, request) && i < |request.values|
    requires !IsSummarised(at, request, i)
    ensures var kept, r := KeptItems(at, request), Rank(Planned(at.render, request.values), Not(Ignored(at.summarised)), i);
      var actions, j := Actions(at, request, known, nodes), Base(at, request, known) + |TakenItems(at, request)| + r;
      && r < |kept| && kept[r].index == i
      && (r < 100 || !FailedAsWhole(at) ==>
            && j < |actions| && actions[j].Recorded?
            && TellsOf(at, request, known, i, ReadsBefore(kept, at.oldValues, known, r), actions[j].event))
  {
    var r := Rank(Planned(at.render, request.values), Not(Ignored(at.summarised)), i);
    RecordedEvent(at, request, known, i);
    RecordedAt(at, request, known, nodes, r);
    EventTells(at, request, known, i, ReadsBefore(KeptItems(at, request), at.oldValues, known, r));
  }

  lemma EventTells(at: Circumstances, request: Request, known: map<NodeId, string>, i: nat, k: nat)
    requires i < |request.values|
    ensures var item := FromOwnReads(Planned(at.render, request.values)[i], at.oldValues, known, at.readAnswers, k);
      && item.index == i
      && TellsOf(at, request, known, i, k,
                 WriteEvent(request.handle, item, StatusAt(at, i, UncertainInRecord(Unknown(at.reply)))))
  {
    var item := Planned(at.render, request.values)[i];
    StatusIsOfReply(at, i);
    OwnReadsFill(item, at.oldValues, known, at.readAnswers, k);
  }

  lemma OwnReadsFill(w: WriteItem, oldValues: bool, known: map<NodeId, string>, answers: seq<DataValue>, k: nat)
    requires w.oldValue.None? && w.displayName.None?
    ensures FromOwnReads(w, oldValues, known, answers, k) ==
              w.(oldValue := if oldValues then Shown(Answer(answers, k)) else None,
                 displayName := if w.written.node in known then Some(known[w.written.node])
                                else TextOf(Answer(answers, if oldValues then k + 1 else k)))
  {
  }

  lemma RecordedAt(at: Circumstances, request: Request, known: map<NodeId, string>, nodes: map<string, Summary>, r: nat)
    requires !Refused(at, request)
    ensures var actions, j := Actions(at, request, known, nodes), Base(at, request, known) + |TakenItems(at, request)| + r;
      var kept, unknown := KeptAfterReads(at, request, known), UncertainInRecord(Unknown(at.reply));
      r < Sampled(|kept|, ResponseOf(at.reply), unknown) ==>
        && j < |actions|
        && actions[j] == Recorded(WriteEvent(request.handle, kept[r], StatusAt(at, kept[r].index, unknown)))
  {
    OutcomesFollow(at, request, known, nodes, r);
  }

  /** The place of the outcome of item `i` among the actions. */
  function PositionOf(at: Circumstances, request: Request, known: map<NodeId, string>, i: nat): nat
    requires i < |request.values|
  {
    var items, ignored := Planned(at.render, request.values), Ignored(at.summarised);
    if ignored(items[i]) then Base(at, request, known) + Rank(items, ignored, i)
    else Base(at, request, known) + |TakenItems(at, request)| + Rank(items, Not(ignored), i)
  }

  /** The item is beyond the sample of a request that failed as a whole. */
  predicate LeftOut(at: Circumstances, request: Request, i: nat)
    requires i < |request.values|
  {
    var items, ignored := Planned(at.render, request.values), Ignored(at.summarised);
    FailedAsWhole(at) && !ignored(items[i]) && Rank(items, Not(ignored), i) >= 100
  }

  lemma PositionsDiffer(at: Circumstances, request: Request, known: map<NodeId, string>, i: nat, k: nat)
    requires i < k < |request.values|
    ensures PositionOf(at, request, known, i) != PositionOf(at, request, known, k)
  {
    var items, ignored := Planned(at.render, request.values), Ignored(at.summarised);
    if ignored(items[i]) {
      SelectedAt(items, ignored, i);
      RanksDiffer(items, ignored, i, k);
    } else {
      RanksDiffer(items, Not(ignored), i, k);
    }
    if ignored(items[k]) {
      SelectedAt(items, ignored, k);
    }
  }

  lemma PositionIsUsed(at: Circumstances, request: Request, known: map<NodeId, string>,
                       nodes: map<string, Summary>, i: nat)
    requires !Refused(at, request) && i < |request.values|
    ensures PositionOf(at, request, known, i) >= Base(at, request, known)
    ensures PositionOf(at, request, known, i) < |Actions(at, request, known, nodes)| <==> !LeftOut(at, request, i)
  {
    var items, ignored := Planned(at.render, request.values), Ignored(at.summarised);
    OutcomesFollow(at, request, known, nodes, 0);
    if ignored(items[i]) {
      SelectedAt(items, ignored, i);
    } else {
      SelectedAt(items, Not(ignored), i);
    }
  }

  /** Some item has its outcome at place `j`. */
  ghost predicate IsOutcome(at: Circumstances, request: Request, known: map<NodeId, string>, j: nat) {
    exists i :: 0 <= i < |request.values| && PositionOf(at, request, known, i) == j
  }

  lemma PositionHasItem(at: Circumstances, request: Request, known: map<NodeId, string>,
                        nodes: map<string, Summary>, j: nat) returns (i: nat)
    requires !Refused(at, request) && Base(at, request, known) <= j < |Actions(at, request, known, nodes)|
    ensures i < |request.values| && PositionOf(at, request, known, i) == j
  {
    var items, ignored := Planned(at.render, request.values), Ignored(at.summarised);
    OutcomesFollow(at, request, known, nodes, 0);
    var k := j - Base(at, request, known);
    if k < |TakenItems(at, request)| {
      i := SelectedFrom(items, ignored, k);
    } else {
      i := SelectedFrom(items, Not(ignored), k - |TakenItems(at, request)|);
    }
  }

  /** Items and outcomes correspond one to one: different items have different
      places, every action after the request is sent is at the place of an item,
      and the place of every item is one of them, unless the request failed as a
      whole and the item is beyond the first hundred to record. */
  lemma OneOutcomePerItem(at: Circumstances, request: Request, known: map<NodeId, string>, nodes: map<string, Summary>)
    requires !Refused(at, request)
    ensures forall i, k :: 0 <= i < k < |request.values| ==>
              PositionOf(at, request, known, i) != PositionOf(at, request, known, k)
    ensures forall j :: Base(at, request, known) <= j < |Actions(at, request, known, nodes)| ==>
              IsOutcome(at, request, known, j)
    ensures forall i :: 0 <= i < |request.values| ==>
              PositionOf(at, request, known, i) >= Base(at, request, known)
              && (PositionOf(at, request, known, i) < |Actions(at, request, known, nodes)| <==> !LeftOut(at, request, i))
  {
    forall i, k | 0 <= i < k < |request.values|
      ensures PositionOf(at, request, known, i) != PositionOf(at, request, known, k)
    {
      PositionsDiffer(at, request, known, i, k);
    }
    forall j | Base(at, request, known) <= j < |Actions(at, request, known, nodes)|
      ensures IsOutcome(at, request, known, j)
    {
      var i := PositionHasItem(at, request, known, nodes, j);
    }
    forall i | 0 <= i < |request.values|
      ensures PositionOf(at, request, known, i) >= Base(at, request, known)
      ensures PositionOf(at, request, known, i) < |Actions(at, request, known, nodes)| <==> !LeftOut(at, request, i)
    {
      PositionIsUsed(at, request, known, nodes, i);
    }
  }

  /** In fail-closed mode a request with items that are not summarised is sent
      only after an intent that lists exactly those items, in order, has been
      stored; if it cannot be stored, nothing is sent or counted. */
  lemma IntentComesFirst(at: Circumstances, request: Request, known: map<NodeId, string>, nodes: map<string, Summary>)
    requires at.failClosed && KeptItems(at, request) != []
    ensures var actions, kept := Actions(at, request, known, nodes), KeptItems(at, request);
      && actions != [] && actions[0].Committed? && actions[0].stored == at.intentStored
      && actions[0].intent.ChangeIntent? && actions[0].intent.requestHandle == request.handle
      && actions[0].intent.service == "Write"
      && |actions[0].intent.nodeIds| == |actions[0].intent.details| == |kept|
      && (forall j :: 0 <= j < |kept| ==>
            && kept[j].index < |request.values|
            && actions[0].intent.nodeIds[j] == at.render.node(request.values[kept[j].index].node)
            && actions[0].intent.details[j].attribute == at.render.attribute(request.values[kept[j].index].attribute)
            && actions[0].intent.details[j].newValue == request.values[kept[j].index].value)
      && (Change(request.values) in actions <==> at.intentStored)
      && (!at.intentStored ==> |actions| == 1)
  {
    var kept := KeptItems(at, request);
    forall j | 0 <= j < |kept|
      ensures kept[j].index < |request.values| && kept[j] == Planned(at.render, request.values)[kept[j].index]
    {
      var i := SelectedFrom(Planned(at.render, request.values), Not(Ignored(at.summarised)), j);
    }
    if at.intentStored {
      SentBeforeOutcomes(at, request, known, nodes);
    }
  }

  // ----- whether the intent lists all that is recorded -----

  /** An event records item `i` after the request is sent. */
  predicate IsRecorded(at: Circumstances, request: Request, known: map<NodeId, string>, nodes: map<string, Summary>,
                       i: nat)
    requires i < |request.values|
  {
    var actions, j := Actions(at, request, known, nodes), PositionOf(at, request, known, i);
    j < |actions| && actions[j].Recorded?
  }

  /** Item `i` is the `j`th that the intent lists, with its node and value. */
  predicate ListedAt(at: Circumstances, request: Request, intent: AuditEvent, i: nat, j: int)
    requires i < |request.values|
  {
    var kept, w := KeptItems(at, request), request.values[i];
    && 0 <= j < |kept| && kept[j].index == i
    && intent.ChangeIntent? && |intent.nodeIds| == |intent.details| == |kept|
    && intent.nodeIds[j] == at.render.node(w.node)
    && intent.details[j].attribute == at.render.attribute(w.attribute) && intent.details[j].newValue == w.value
  }

  /** A stored intent lists item `i` before anything is sent. */
  ghost predicate WasAnnounced(at: Circumstances, request: Request, known: map<NodeId, string>,
                               nodes: map<string, Summary>, i: nat)
    requires i < |request.values|
  {
    var actions := Actions(at, request, known, nodes);
    && actions != [] && actions[0].Committed? && actions[0].stored
    && exists j :: ListedAt(at, request, actions[0].intent, i, j)
  }

  /** The nodes of the summarised items, as the summaries name them. */
  function TakenNodes(at: Circumstances, request: Request): set<string> {
    set i | 0 <= i < |request.values| && IsSummarised(at, request, i)
      :: at.render.node(request.values[i].node)
  }

  lemma KeptIsAnnounced(at: Circumstances, request: Request, known: map<NodeId, string>, nodes: map<string, Summary>,
                        i: nat)
    requires at.failClosed && !Refused(at, request) && i < |request.values|
    requires !IsSummarised(at, request, i)
    ensures WasAnnounced(at, request, known, nodes, i)
  {
    var r := Rank(Planned(at.render, request.values), Not(Ignored(at.summarised)), i);
    SelectedAt(Planned(at.render, request.values), Not(Ignored(at.summarised)), i);
    assert KeptItems(at, request)[r].index == i;
    IntentComesFirst(at, request, known, nodes);
    assert ListedAt(at, request, Actions(at, request, known, nodes)[0].intent, i, r);
  }

  lemma TakenIsNotAnnounced(at: Circumstances, request: Request, intent: AuditEvent, i: nat, j: int)
    requires i < |request.values| && IsSummarised(at, request, i)
    ensures !ListedAt(at, request, intent, i, j)
  {
    if 0 <= j < |KeptItems(at, request)| {
      var k := SelectedFrom(Planned(at.render, request.values), Not(Ignored(at.summarised)), j);
      assert Planned(at.render, request.values)[k].index == k;
    }
  }

  lemma TakenPosition(at: Circumstances, request: Request, known: map<NodeId, string>, i: nat)
    requires i < |request.values| && IsSummarised(at, request, i)
    ensures PositionOf(at, request, known, i)
         == Base(at, request, known) + Rank(Planned(at.render, request.values), Ignored(at.summarised), i)
  {
  }

  lemma TakenIsRecordedIff(at: Circumstances, request: Request, known: map<NodeId, string>,
                           nodes: map<string, Summary>, i: nat)
    requires !Refused(at, request) && i < |request.values|
    requires IsSummarised(at, request, i)
    ensures var arrivals := Arrivals(at, request, KnownAfterReads(at, request, known));
      IsRecorded(at, request, known, nodes, i)
      <==> at.render.node(request.values[i].node) !in AddAll(nodes, arrivals)
  {
    TakenPosition(at, request, known, i);
    var w := SummarisedItemIsCounted(at, request, known, nodes, i);
  }

  lemma ArrivalsAreOfTaken(at: Circumstances, request: Request, names: map<NodeId, string>)
    ensures NodesIn(Arrivals(at, request, names)) == TakenNodes(at, request)
  {
    var arrivals, items := Arrivals(at, request, names), Planned(at.render, request.values);
    forall a | a in arrivals ensures a.write.nodeId in TakenNodes(at, request) {
      var j :| 0 <= j < |arrivals| && arrivals[j] == a;
      var i := SelectedFrom(items, Ignored(at.summarised), j);
      SummarisedArrival(at, request, names, i);
      assert a.write.nodeId == at.render.node(request.values[i].node);
    }
    forall i | 0 <= i < |request.values| && Ignored(at.summarised)(items[i])
      ensures at.render.node(request.values[i].node) in NodesIn(arrivals)
    {
      SummarisedArrival(at, request, names, i);
      assert arrivals[Rank(items, Ignored(at.summarised), i)] in arrivals;
    }
  }

  /** In fail-closed mode, every item that is recorded after the request was
      listed by an intent stored before it, exactly if the summaries have room
      for the nodes of all summarised items. */
  lemma RecordedWasAnnouncedIff(at: Circumstances, request: Request, known: map<NodeId, string>,
                                nodes: map<string, Summary>)
    requires at.failClosed && !Refused(at, request) && |nodes| <= MAX_NODES
    ensures (forall i :: 0 <= i < |request.values| && IsRecorded(at, request, known, nodes, i) ==>
               WasAnnounced(at, request, known, nodes, i))
       <==> |nodes.Keys + TakenNodes(at, request)| <= 10_000
  {
    var arrivals := Arrivals(at, request, KnownAfterReads(at, request, known));
    ArrivalsAreOfTaken(at, request, KnownAfterReads(at, request, known));
    AllFitIff(nodes, arrivals);
    forall i | 0 <= i < |request.values|
      ensures IsRecorded(at, request, known, nodes, i) && !WasAnnounced(at, request, known, nodes, i)
         <==> IsLeftOver(at, request, AddAll(nodes, arrivals), i)
    {
      LeftOverIff(at, request, known, nodes, i);
    }
    if n :| n in TakenNodes(at, request) && n !in AddAll(nodes, arrivals) {
      var i :| 0 <= i < |request.values| && IsSummarised(at, request, i)
        && at.render.node(request.values[i].node) == n;
      assert IsLeftOver(at, request, AddAll(nodes, arrivals), i);
    }
  }

  /** A summarised item for the node of which there is no room. */
  predicate IsLeftOver(at: Circumstances, request: Request, after: map<string, Summary>, i: nat)
    requires i < |request.values|
  {
    && IsSummarised(at, request, i)
    && at.render.node(request.values[i].node) !in after
  }

  lemma LeftOverIff(at: Circumstances, request: Request, known: map<NodeId, string>, nodes: map<string, Summary>,
                    i: nat)
    requires at.failClosed && !Refused(at, request) && i < |request.values|
    ensures var arrivals := Arrivals(at, request, KnownAfterReads(at, request, known));
      IsRecorded(at, request, known, nodes, i) && !WasAnnounced(at, request, known, nodes, i)
      <==> IsLeftOver(at, request, AddAll(nodes, arrivals), i)
  {
    if IsSummarised(at, request, i) {
      TakenIsRecordedIff(at, request, known, nodes, i);
      var actions := Actions(at, request, known, nodes);
      if actions != [] && actions[0].Committed? {
        forall j ensures !ListedAt(at, request, actions[0].intent, i, j) {
          TakenIsNotAnnounced(at, request, actions[0].intent, i, j);
        }
      }
    } else {
      KeptIsAnnounced(at, request, known, nodes, i);
    }
  }

  lemma NothingIsKept(at: Circumstances, request: Request, known: map<NodeId, string>)
    requires |request.values| == 1 && IsSummarised(at, request, 0)
    ensures KeptItems(at, request) == [] && |TakenItems(at, request)| == 1
    ensures Prologue(at, request, known) == [Change(request.values)] && Events(at, request, known) == []
  {
    var items := Planned(at.render, request.values);
    SelectedAt(items, Ignored(at.summarised), 0);
    SidesAddUp(items, Ignored(at.summarised));
  }

  /** The failing input: with ten thousand other nodes pending, a single write to
      a summarised node is sent without any intent, and then recorded. */
  lemma TurnedAwayIsNotAnnounced(at: Circumstances, request: Request, known: map<NodeId, string>)
    returns (w: IgnoredWrite)
    requires at.failClosed && |request.values| == 1
    requires IsSummarised(at, request, 0)
    ensures SummaryTells(at, request, KnownAfterReads(at, request, known), 0, w)
    ensures var nodes := AddAll(map[], OtherWrites(at.render.node(request.values[0].node), MAX_NODES));
      var actions := Actions(at, request, known, nodes);
      && |actions| == 2 && actions[0] == Change(request.values)
      && actions[1].Recorded? && RecordsShort(actions[1].event, request.handle, w)
  {
    var node := at.render.node(request.values[0].node);
    var nodes := AddAll(map[], OtherWrites(node, MAX_NODES));
    OtherWritesFill(node, MAX_NODES);
    SummariesGrow(nodes, Arrivals(at, request, KnownAfterReads(at, request, known)), 0);
    NothingIsKept(at, request, known);
    OutcomesFollow(at, request, known, nodes, 0);
    SentBeforeOutcomes(at, request, known, nodes);
    w := SummarisedItemIsCounted(at, request, known, nodes, 0);
  }
}
