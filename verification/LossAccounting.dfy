/**
 The accounting of events that could not be stored (`src/audit/mod.rs`): callers,
 one writer thread, a thread that saves the counter, panics and restarts, as
 steps that interleave in any order. A step that is not possible in a state
 changes nothing, so every sequence of steps is a run.

 The fields `submitted`, `sending`, `failing`, `counted` and `refused` say which
 event the program's variables stand for; the program has only the counters.
 */
module LossAccounting {

  type Id = nat

  const MAX_BATCH: nat := 512
  const QUEUE_CAPACITY: nat := 10_000

  /** A queued event; `acked` if its caller waits for the result. */
  datatype Item = Item(id: Id, acked: bool)

  datatype Stored = Caller(id: Id) | EventsLost(count: nat)

  /** Where the writer is. It holds the `saved` lock from `Swapped` to `Saving`;
      a panic releases it. */
  datatype Writer =
    | Collecting(batch: seq<Item>)
    | Swapped(batch: seq<Item>, before: nat)
    | Writing(batch: seq<Item>, before: nat)
    | Committed(batch: seq<Item>)
    | Failed(batch: seq<Item>, before: nat)
    | Saving
    | Panicked

  datatype State = State(
    queue: seq<Item>,
    writer: Writer,
    trail: seq<Stored>,
    count: nat,
    inFlight: nat,
    saved: nat,
    file: nat,
    submitted: seq<Id>,
    sending: seq<Id>,         // not queued, and the caller is about to count it
    failing: seq<Id>,         // the caller was told that its event is not stored
    counted: seq<Id>,         // the losses the counters and the reports stand for
    refused: seq<Id>,         // fail-closed: the caller got the error
    knownAtSave: nat)         // losses known when the file was last saved

  datatype Step =
    | Send(item: Item)
    | SendFails(item: Item)
    | CountLost(caller: nat)
    | HandleError(caller: nat, failOpen: bool)
    | TakeOne
    | Swap
    | SetInFlight
    | Commit
    | Fail
    | Settle
    | FinishSave(ok: bool)
    | SaverSaves(ok: bool)
    | Panic
    | Restart

  function Ids(items: seq<Item>): seq<Id> {
    if items == [] then [] else [items[0].id] + Ids(items[1..])
  }

  function Without(ids: seq<Id>, i: nat): seq<Id>
    requires i < |ids|
  {
    ids[..i] + ids[i + 1..]
  }

  function Acked(items: seq<Item>): seq<Item> {
    if items == [] then [] else (if items[0].acked then [items[0]] else []) + Acked(items[1..])
  }

  function Unacked(items: seq<Item>): seq<Item> {
    if items == [] then [] else (if items[0].acked then [] else [items[0]]) + Unacked(items[1..])
  }

  function CallerIds(trail: seq<Stored>): seq<Id> {
    if trail == [] then []
    else (if trail[0].Caller? then [trail[0].id] else []) + CallerIds(trail[1..])
  }

  /** The losses the trail reports. */
  function Reported(trail: seq<Stored>): nat {
    if trail == [] then 0
    else (if trail[0].EventsLost? then trail[0].count else 0) + Reported(trail[1..])
  }

  /** What one transaction stores: the batch, then the report of the losses
      before it, if there are any. */
  function Records(batch: seq<Item>, before: nat): seq<Stored> {
    seq(|batch|, i requires 0 <= i < |batch| => Caller(batch[i].id))
      + if before > 0 then [EventsLost(before)] else []
  }

  /** Losses taken out of the counter and not yet reported or put back. */
  function Held(st: State): nat {
    match st.writer
    case Swapped(_, before) => before
    case Writing(_, before) => before
    case Failed(_, before) => before
    case Panicked => st.inFlight
    case _ => 0
  }

  /** Events the writer has taken from the queue and not settled. */
  function Unsettled(st: State): seq<Id> {
    match st.writer
    case Collecting(batch) => Ids(batch)
    case Swapped(batch, _) => Ids(batch)
    case Writing(batch, _) => Ids(batch)
    case Failed(batch, _) => Ids(batch)
    case _ => []
  }

  /** Every loss known to the process: reported, counted or held. */
  function Known(st: State): nat {
    Reported(st.trail) + st.count + Held(st)
  }

  /** `save_locked`: nothing to do if the count did not change. */
  function Save(st: State, ok: bool): State {
    if st.count == st.saved then st.(knownAtSave := Known(st))
    else if ok then st.(saved := st.count, file := st.count, knownAtSave := Known(st))
    else st
  }

  function LockIsFree(st: State): bool {
    st.writer.Collecting? || st.writer.Panicked?
  }

  function Next(st: State, step: Step): State {
    match step
    case Send(item) =>
      if |st.queue| < QUEUE_CAPACITY
      then st.(queue := st.queue + [item], submitted := st.submitted + [item.id])
      else st
    case SendFails(item) =>
      // Full for too long, or closed. Only the caller of an event that nobody
      // waits for counts it at once.
      if item.acked
      then st.(submitted := st.submitted + [item.id], failing := st.failing + [item.id])
      else st.(submitted := st.submitted + [item.id], sending := st.sending + [item.id])
    case CountLost(i) =>
      if i < |st.sending|
      then st.(sending := Without(st.sending, i), count := st.count + 1,
               counted := st.counted + [st.sending[i]])
      else st
    case HandleError(i, failOpen) =>
      if i >= |st.failing| then st
      else if failOpen
      then st.(failing := Without(st.failing, i), count := st.count + 1,
               counted := st.counted + [st.failing[i]])
      else st.(failing := Without(st.failing, i), refused := st.refused + [st.failing[i]])
    case TakeOne =>
      if st.writer.Collecting? && st.queue != [] && |st.writer.batch| < MAX_BATCH
      then st.(writer := Collecting(st.writer.batch + [st.queue[0]]), queue := st.queue[1..])
      else st
    case Swap =>
      if st.writer.Collecting? && st.writer.batch != []
      then st.(writer := Swapped(st.writer.batch, st.count), count := 0)
      else st
    case SetInFlight =>
      if st.writer.Swapped?
      then st.(writer := Writing(st.writer.batch, st.writer.before),
               inFlight := st.writer.before + |Unacked(st.writer.batch)|)
      else st
    case Commit =>
      if st.writer.Writing?
      then st.(writer := Committed(st.writer.batch),
               trail := st.trail + Records(st.writer.batch, st.writer.before))
      else st
    case Fail =>
      if st.writer.Writing? then st.(writer := Failed(st.writer.batch, st.writer.before)) else st
    case Settle =>
      if st.writer.Committed? then st.(writer := Saving, inFlight := 0)
      else if st.writer.Failed?
      then st.(writer := Saving, inFlight := 0,
               count := st.count + st.writer.before + |Unacked(st.writer.batch)|,
               counted := st.counted + Ids(Unacked(st.writer.batch)),
               failing := st.failing + Ids(Acked(st.writer.batch)))
      else st
    case FinishSave(ok) =>
      if st.writer.Saving? then Save(st, ok).(writer := Collecting([])) else st
    case SaverSaves(ok) =>
      if LockIsFree(st) then Save(st, ok) else st
    case Panic =>
      // Inside `append` before it commits, or between two batches.
      if st.writer.Writing?
      then st.(writer := Panicked,
               counted := st.counted + Ids(Unacked(st.writer.batch)),
               failing := st.failing + Ids(Acked(st.writer.batch)))
      else if st.writer.Collecting? && st.writer.batch == [] then st.(writer := Panicked)
      else st
    case Restart =>
      if st.writer.Panicked?
      then st.(writer := Collecting([]), count := st.count + st.inFlight, inFlight := 0)
      else st
  }

  function Run(st: State, steps: seq<Step>): State
    decreases steps
  {
    if steps == [] then st else Run(Next(st, steps[0]), steps[1..])
  }

  /** A process that starts with the losses its file holds. */
  function Start(earlier: nat): State {
    State([], Collecting([]), [], earlier, 0, earlier, earlier,
          [], [], [], [], [], earlier)
  }

  // ----- conservation -----

  function Occurrences(ids: seq<Id>, id: Id): nat {
    if ids == [] then 0 else (if ids[0] == id then 1 else 0) + Occurrences(ids[1..], id)
  }

  /** How often an event occurs in all the places an event can be. */
  function Places(st: State, id: Id): nat {
    Occurrences(CallerIds(st.trail), id) + Occurrences(Ids(st.queue), id) + Occurrences(Unsettled(st), id)
    + Occurrences(st.sending, id) + Occurrences(st.failing, id)
    + Occurrences(st.counted, id) + Occurrences(st.refused, id)
  }

  /** Every submitted event is in exactly one place. */
  ghost predicate Placed(st: State) {
    forall id :: Occurrences(st.submitted, id) == Places(st, id)
  }

  /** The counters stand for exactly the counted events (and those of before
      the start). */
  predicate Counted(st: State, earlier: nat) {
    |st.counted| + earlier == Known(st)
  }

  predicate Consistent(st: State) {
    && (st.writer.Writing? ==> st.inFlight == st.writer.before + |Unacked(st.writer.batch)|)
    && (st.writer.Collecting? ==> st.inFlight == 0)
    && (st.writer.Saving? ==> st.inFlight == 0)
    && st.saved == st.file
  }

  lemma {:induction false} OccurrencesConcat(a: seq<Id>, b: seq<Id>, id: Id)
    ensures Occurrences(a + b, id) == Occurrences(a, id) + Occurrences(b, id)
  {
    if a == [] {
      assert a + b == b;
    } else {
      assert (a + b)[1..] == a[1..] + b;
      OccurrencesConcat(a[1..], b, id);
    }
  }

  lemma OccurrencesWithout(ids: seq<Id>, i: nat, id: Id)
    requires i < |ids|
    ensures Occurrences(ids, id) == Occurrences(Without(ids, i), id) + Occurrences([ids[i]], id)
  {
    assert ids == ids[..i] + ([ids[i]] + ids[i + 1..]);
    OccurrencesConcat(ids[..i], [ids[i]] + ids[i + 1..], id);
    OccurrencesConcat([ids[i]], ids[i + 1..], id);
    OccurrencesConcat(ids[..i], ids[i + 1..], id);
  }

  lemma {:induction false} IdsConcat(a: seq<Item>, b: seq<Item>)
    ensures Ids(a + b) == Ids(a) + Ids(b)
  {
    if a == [] {
      assert a + b == b;
    } else {
      assert (a + b)[1..] == a[1..] + b;
      IdsConcat(a[1..], b);
    }
  }

  lemma {:induction false} IdsSplit(items: seq<Item>, id: Id)
    ensures Occurrences(Ids(items), id)
      == Occurrences(Ids(Acked(items)), id) + Occurrences(Ids(Unacked(items)), id)
    ensures |Ids(Unacked(items))| == |Unacked(items)|
  {
    if items != [] {
      IdsSplit(items[1..], id);
      var acked, unacked := Acked(items[1..]), Unacked(items[1..]);
      OccurrencesConcat([items[0].id], Ids(items[1..]), id);
      if items[0].acked {
        assert Acked(items)[1..] == acked && Unacked(items) == unacked;
        OccurrencesConcat([items[0].id], Ids(acked), id);
      } else {
        assert Acked(items) == acked && Unacked(items)[1..] == unacked;
        OccurrencesConcat([items[0].id], Ids(unacked), id);
      }
    }
  }

  lemma {:induction false} TrailConcat(a: seq<Stored>, b: seq<Stored>)
    ensures CallerIds(a + b) == CallerIds(a) + CallerIds(b)
    ensures Reported(a + b) == Reported(a) + Reported(b)
  {
    if a == [] {
      assert a + b == b;
    } else {
      assert (a + b)[1..] == a[1..] + b;
      TrailConcat(a[1..], b);
    }
  }

  lemma {:induction false} RecordsHold(batch: seq<Item>, before: nat)
    ensures CallerIds(Records(batch, before)) == Ids(batch)
    ensures Reported(Records(batch, before)) == before
  {
    if batch == [] {
      assert Records(batch, before) == if before > 0 then [EventsLost(before)] else [];
    } else {
      RecordsHold(batch[1..], before);
      assert Records(batch, before) == [Caller(batch[0].id)] + Records(batch[1..], before);
    }
  }

  ghost predicate Accounted(st: State, earlier: nat) {
    Placed(st) && Counted(st, earlier) && Consistent(st)
  }

  lemma SendStep(st: State, item: Item, earlier: nat)
    requires Accounted(st, earlier)
    ensures Accounted(Next(st, Send(item)), earlier)
  {
    var after := Next(st, Send(item));
    IdsConcat(st.queue, [item]);
    assert Ids([item]) == [item.id];
    forall id ensures Occurrences(after.submitted, id) == Places(after, id) {
      OccurrencesConcat(st.submitted, [item.id], id);
      OccurrencesConcat(Ids(st.queue), [item.id], id);
    }
  }

  lemma SendFailsStep(st: State, item: Item, earlier: nat)
    requires Accounted(st, earlier)
    ensures Accounted(Next(st, SendFails(item)), earlier)
  {
    var after := Next(st, SendFails(item));
    forall id ensures Occurrences(after.submitted, id) == Places(after, id) {
      OccurrencesConcat(st.submitted, [item.id], id);
      OccurrencesConcat(st.failing, [item.id], id);
      OccurrencesConcat(st.sending, [item.id], id);
    }
  }

  lemma CountLostStep(st: State, i: nat, earlier: nat)
    requires Accounted(st, earlier)
    ensures Accounted(Next(st, CountLost(i)), earlier)
  {
    if i < |st.sending| {
      var after := Next(st, CountLost(i));
      forall id ensures Occurrences(after.submitted, id) == Places(after, id) {
        OccurrencesWithout(st.sending, i, id);
        OccurrencesConcat(st.counted, [st.sending[i]], id);
      }
    }
  }

  lemma HandleErrorStep(st: State, i: nat, failOpen: bool, earlier: nat)
    requires Accounted(st, earlier)
    ensures Accounted(Next(st, HandleError(i, failOpen)), earlier)
  {
    if i < |st.failing| {
      var after := Next(st, HandleError(i, failOpen));
      forall id ensures Occurrences(after.submitted, id) == Places(after, id) {
        OccurrencesWithout(st.failing, i, id);
        OccurrencesConcat(st.counted, [st.failing[i]], id);
        OccurrencesConcat(st.refused, [st.failing[i]], id);
      }
    }
  }

  lemma TakeStep(st: State, earlier: nat)
    requires Accounted(st, earlier)
    ensures Accounted(Next(st, TakeOne), earlier)
  {
    if st.writer.Collecting? && st.queue != [] {
      var after := Next(st, TakeOne);
      var first := st.queue[0];
      assert Ids([first]) == [first.id];
      IdsConcat(st.writer.batch, [first]);
      forall id ensures Occurrences(after.submitted, id) == Places(after, id) {
        OccurrencesConcat(Ids(st.writer.batch), [first.id], id);
        OccurrencesConcat([first.id], Ids(st.queue[1..]), id);
      }
    }
  }

  lemma CommitStep(st: State, earlier: nat)
    requires Accounted(st, earlier)
    ensures Accounted(Next(st, Commit), earlier)
  {
    if st.writer.Writing? {
      var after := Next(st, Commit);
      var records := Records(st.writer.batch, st.writer.before);
      RecordsHold(st.writer.batch, st.writer.before);
      TrailConcat(st.trail, records);
      forall id ensures Occurrences(after.submitted, id) == Places(after, id) {
        OccurrencesConcat(CallerIds(st.trail), CallerIds(records), id);
      }
    }
  }

  /** Settling a batch that was not stored, or dropping it in a panic: the
      writer counts its own share, the callers get the rest. */
  lemma BatchLost(st: State, after: State, batch: seq<Item>, earlier: nat)
    requires Placed(st) && Counted(st, earlier)
    requires Unsettled(st) == Ids(batch) && Unsettled(after) == []
    requires after.trail == st.trail && after.queue == st.queue
    requires after.counted == st.counted + Ids(Unacked(batch))
    requires after.failing == st.failing + Ids(Acked(batch))
    requires after.submitted == st.submitted && after.sending == st.sending && after.refused == st.refused
    requires after.count + Held(after) == st.count + Held(st) + |Unacked(batch)|
    ensures Placed(after) && Counted(after, earlier)
  {
    IdsSplit(batch, 0);
    forall id ensures Occurrences(after.submitted, id) == Places(after, id) {
      IdsSplit(batch, id);
      OccurrencesConcat(st.counted, Ids(Unacked(batch)), id);
      OccurrencesConcat(st.failing, Ids(Acked(batch)), id);
    }
  }

  lemma SettleStep(st: State, earlier: nat)
    requires Accounted(st, earlier)
    ensures Accounted(Next(st, Settle), earlier)
  {
    if st.writer.Failed? {
      BatchLost(st, Next(st, Settle), st.writer.batch, earlier);
    } else {
      SamePlaces(st, Next(st, Settle));
    }
  }

  lemma PanicStep(st: State, earlier: nat)
    requires Accounted(st, earlier)
    ensures Accounted(Next(st, Panic), earlier)
  {
    if st.writer.Writing? {
      BatchLost(st, Next(st, Panic), st.writer.batch, earlier);
    } else {
      SamePlaces(st, Next(st, Panic));
    }
  }

  lemma SamePlaces(st: State, after: State)
    requires Placed(st) && Unsettled(st) == Unsettled(after)
    requires after.trail == st.trail && after.queue == st.queue
    requires after.submitted == st.submitted && after.sending == st.sending && after.refused == st.refused
    requires after.counted == st.counted && after.failing == st.failing
    ensures Placed(after)
  {
    forall id ensures Occurrences(after.submitted, id) == Places(after, id) {
      assert Occurrences(st.submitted, id) == Places(st, id);
    }
  }

  /** Steps that move no event. */
  lemma QuietStep(st: State, step: Step, earlier: nat)
    requires Accounted(st, earlier)
    requires step.Swap? || step.SetInFlight? || step.Fail? || step.FinishSave? || step.SaverSaves? || step.Restart?
    ensures Accounted(Next(st, step), earlier)
  {
    SamePlaces(st, Next(st, step));
  }

  lemma StepConserves(st: State, step: Step, earlier: nat)
    requires Accounted(st, earlier)
    ensures Accounted(Next(st, step), earlier)
  {
    match step
    case Send(item) => SendStep(st, item, earlier);
    case SendFails(item) => SendFailsStep(st, item, earlier);
    case CountLost(i) => CountLostStep(st, i, earlier);
    case HandleError(i, failOpen) => HandleErrorStep(st, i, failOpen, earlier);
    case TakeOne => TakeStep(st, earlier);
    case Commit => CommitStep(st, earlier);
    case Settle => SettleStep(st, earlier);
    case Panic => PanicStep(st, earlier);
    case _ => QuietStep(st, step, earlier);
  }

  lemma {:induction false} RunConserves(st: State, steps: seq<Step>, earlier: nat)
    requires Accounted(st, earlier)
    ensures Accounted(Run(st, steps), earlier)
    decreases steps
  {
    if steps != [] {
      StepConserves(st, steps[0], earlier);
      RunConserves(Next(st, steps[0]), steps[1..], earlier);
    }
  }

  /** Conservation. Over every interleaving of callers, batches, store failures,
      panics and restarts, each submitted event is stored, queued, with the
      writer, with its caller, refused, or one of the counted losses, and in one
      of these only; and the counted losses (with those of earlier processes)
      are exactly what the trail reports, plus the counter, plus what is in
      flight. */
  lemma NoEventIsForgotten(steps: seq<Step>, earlier: nat)
    ensures var st := Run(Start(earlier), steps);
      && (forall id :: Occurrences(st.submitted, id) == Places(st, id))
      && |st.counted| + earlier == Reported(st.trail) + st.count + Held(st)
  {
    RunConserves(Start(earlier), steps, earlier);
  }

  /** Once nothing is under way and nobody was refused (fail-open mode), each
      event is stored or counted, and the trail and the counter say how many
      were not stored. */
  lemma NothingIsLostSilently(steps: seq<Step>, id: Id)
    ensures var st := Run(Start(0), steps);
      st.queue == [] && st.writer == Collecting([]) && st.sending == [] && st.failing == [] && st.refused == []
      ==>
        && Occurrences(st.submitted, id) == Occurrences(CallerIds(st.trail), id) + Occurrences(st.counted, id)
        && |st.counted| == Reported(st.trail) + st.count
  {
    NoEventIsForgotten(steps, 0);
  }

  /** Whatever the interleaving, and through panics, an event that was submitted
      once is never both counted as lost and anywhere else: not stored, not under
      way, not with its caller, not refused; and its loss is counted once. */
  lemma WriterAndCallersDoNotOverlap(steps: seq<Step>, earlier: nat, id: Id)
    ensures var st := Run(Start(earlier), steps);
      Occurrences(st.submitted, id) == 1 && Occurrences(st.counted, id) > 0 ==>
        && Occurrences(st.counted, id) == 1
        && Occurrences(CallerIds(st.trail), id) == 0
        && Occurrences(Ids(st.queue), id) == Occurrences(Unsettled(st), id) == 0
        && Occurrences(st.sending, id) == Occurrences(st.failing, id) == Occurrences(st.refused, id) == 0
  {
    NoEventIsForgotten(steps, earlier);
    var st := Run(Start(earlier), steps);
    assert Occurrences(st.submitted, id) == Places(st, id);
  }

  /** Somebody waits for every item of the event. */
  predicate AllAwaited(items: seq<Item>, id: Id) {
    forall i :: 0 <= i < |items| && items[i].id == id ==> items[i].acked
  }

  /** If the step submits the event, its caller waits for the result. */
  predicate Waits(step: Step, id: Id) {
    match step
    case Send(item) => item.id == id ==> item.acked
    case SendFails(item) => item.id == id ==> item.acked
    case _ => true
  }

  /** The caller, told that its event is not stored, lets it go and counts it. */
  predicate LetsGo(st: State, step: Step, id: Id) {
    step.HandleError? && step.failOpen && step.caller < |st.failing| && st.failing[step.caller] == id
  }

  /** How often that happens in a run. */
  function TimesLetGo(st: State, steps: seq<Step>, id: Id): nat
    decreases steps
  {
    if steps == [] then 0
    else (if LetsGo(st, steps[0], id) then 1 else 0) + TimesLetGo(Next(st, steps[0]), steps[1..], id)
  }

  function BatchOf(writer: Writer): seq<Item> {
    match writer
    case Collecting(batch) => batch
    case Swapped(batch, _) => batch
    case Writing(batch, _) => batch
    case Committed(batch) => batch
    case Failed(batch, _) => batch
    case _ => []
  }

  /** Nobody counts the event but a caller that was told. */
  predicate Awaited(st: State, id: Id) {
    AllAwaited(st.queue, id) && AllAwaited(BatchOf(st.writer), id) && Occurrences(st.sending, id) == 0
  }

  lemma {:induction false} AwaitedAreNotUnacked(items: seq<Item>, id: Id)
    requires AllAwaited(items, id)
    ensures Occurrences(Ids(Unacked(items)), id) == 0
  {
    if items != [] {
      AwaitedAreNotUnacked(items[1..], id);
      if !items[0].acked {
        assert ([items[0]] + Unacked(items[1..]))[1..] == Unacked(items[1..]);
        assert ([items[0].id] + Ids(Unacked(items[1..])))[1..] == Ids(Unacked(items[1..]));
      } else {
        assert [] + Unacked(items[1..]) == Unacked(items[1..]);
      }
    }
  }

  lemma BatchCountsOthers(counted: seq<Id>, batch: seq<Item>, id: Id)
    requires AllAwaited(batch, id)
    ensures Occurrences(counted + Ids(Unacked(batch)), id) == Occurrences(counted, id)
  {
    AwaitedAreNotUnacked(batch, id);
    OccurrencesConcat(counted, Ids(Unacked(batch)), id);
  }

  lemma SettleStaysAwaited(st: State, id: Id)
    requires Awaited(st, id)
    ensures var after := Next(st, Settle);
      Awaited(after, id) && Occurrences(after.counted, id) == Occurrences(st.counted, id)
  {
    if st.writer.Failed? {
      BatchCountsOthers(st.counted, st.writer.batch, id);
    }
  }

  lemma PanicStaysAwaited(st: State, id: Id)
    requires Awaited(st, id)
    ensures var after := Next(st, Panic);
      Awaited(after, id) && Occurrences(after.counted, id) == Occurrences(st.counted, id)
  {
    if st.writer.Writing? {
      BatchCountsOthers(st.counted, st.writer.batch, id);
    }
  }

  lemma CallerStaysAwaited(st: State, step: Step, id: Id)
    requires Awaited(st, id) && Waits(step, id) && (step.SendFails? || step.CountLost?)
    ensures Awaited(Next(st, step), id) && Occurrences(Next(st, step).counted, id) == Occurrences(st.counted, id)
  {
    if step.SendFails? {
      OccurrencesConcat(st.sending, [step.item.id], id);
    } else if step.caller < |st.sending| {
      OccurrencesWithout(st.sending, step.caller, id);
      OccurrencesConcat(st.counted, [st.sending[step.caller]], id);
    }
  }

  lemma HandledStaysAwaited(st: State, step: Step, id: Id)
    requires Awaited(st, id) && step.HandleError?
    ensures Awaited(Next(st, step), id)
    ensures Occurrences(Next(st, step).counted, id)
         == Occurrences(st.counted, id) + (if LetsGo(st, step, id) then 1 else 0)
  {
    if step.failOpen && step.caller < |st.failing| {
      OccurrencesConcat(st.counted, [st.failing[step.caller]], id);
    }
  }

  lemma StepStaysAwaited(st: State, step: Step, id: Id)
    requires Awaited(st, id) && Waits(step, id)
    ensures Awaited(Next(st, step), id)
    ensures Occurrences(Next(st, step).counted, id)
         == Occurrences(st.counted, id) + (if LetsGo(st, step, id) then 1 else 0)
  {
    if step.Settle? {
      SettleStaysAwaited(st, id);
    } else if step.Panic? {
      PanicStaysAwaited(st, id);
    } else if step.SendFails? || step.CountLost? {
      CallerStaysAwaited(st, step, id);
    } else if step.HandleError? {
      HandledStaysAwaited(st, step, id);
    }
  }

  lemma {:induction false} RunCountsLetGo(st: State, steps: seq<Step>, id: Id)
    requires Awaited(st, id) && forall step :: step in steps ==> Waits(step, id)
    ensures Occurrences(Run(st, steps).counted, id) == Occurrences(st.counted, id) + TimesLetGo(st, steps, id)
    decreases steps
  {
    if steps != [] {
      StepStaysAwaited(st, steps[0], id);
      RunCountsLetGo(Next(st, steps[0]), steps[1..], id);
    }
  }

  /** The writer leaves an event that somebody waits for to its caller. Through
      failed batches, panics, and whatever other callers do, it is counted as
      lost exactly as often as its own caller lets it go in fail-open mode. */
  lemma WriterNeverCountsAwaited(steps: seq<Step>, earlier: nat, id: Id)
    requires forall step :: step in steps ==> Waits(step, id)
    ensures Occurrences(Run(Start(earlier), steps).counted, id) == TimesLetGo(Start(earlier), steps, id)
  {
    RunCountsLetGo(Start(earlier), steps, id);
  }

  // ----- what the writer may hold, and how it comes back -----

  lemma {:induction false} RunStaysSmall(st: State, steps: seq<Step>)
    requires |st.queue| <= 10_000 && |BatchOf(st.writer)| <= 512
    ensures |Run(st, steps).queue| <= 10_000 && |BatchOf(Run(st, steps).writer)| <= 512
    decreases steps
  {
    if steps != [] {
      RunStaysSmall(Next(st, steps[0]), steps[1..]);
    }
  }

  /** However many events come, no more than ten thousand are queued, and no more
      than 512 are with the writer. */
  lemma MemoryIsBounded(steps: seq<Step>, earlier: nat)
    ensures var st := Run(Start(earlier), steps);
      |st.queue| <= 10_000 && |BatchOf(st.writer)| <= 512
  {
    RunStaysSmall(Start(earlier), steps);
  }

  /** After a panic, in a batch or between two, the writer does nothing until it is
      restarted; then it starts with an empty batch, and every loss that was in
      flight is counted again. */
  lemma RestartPutsBack(st: State, step: Step)
    requires Consistent(st) && (st.writer.Writing? || st.writer == Collecting([]))
    ensures var lost := if st.writer.Writing? then st.writer.before + |Unacked(st.writer.batch)| else 0;
      var panicked := Next(st, Panic);
      var after := Next(panicked, Restart);
      && panicked.writer == Panicked && Held(panicked) == lost
      && (!step.Restart? ==> Next(panicked, step).writer == Panicked && Next(panicked, step).trail == st.trail)
      && after.writer == Collecting([]) && after.inFlight == 0 && after.queue == st.queue
      && after.count == st.count + lost
  {
  }

  /** The steps of the writer for one batch, from taking to saving. */
  function BatchSteps(stored: bool, saved: bool): seq<Step> {
    [Swap, SetInFlight, if stored then Commit else Fail, Settle, FinishSave(saved)]
  }

  lemma {:induction false} RunConcat(st: State, a: seq<Step>, b: seq<Step>)
    ensures Run(st, a + b) == Run(Run(st, a), b)
    decreases a
  {
    if a == [] {
      assert a + b == b;
    } else {
      assert (a + b)[1..] == a[1..] + b;
      RunConcat(Next(st, a[0]), a[1..], b);
    }
  }

  lemma RunSnoc(st: State, steps: seq<Step>, step: Step)
    ensures Run(st, steps + [step]) == Next(Run(st, steps), step)
  {
    RunConcat(st, steps, [step]);
    assert [step][1..] == [];
    assert Run(Run(st, steps), [step]) == Run(Next(Run(st, steps), step), []);
  }

  lemma BatchRun(st: State, stored: bool, saved: bool)
    ensures Run(st, BatchSteps(stored, saved))
         == Next(Next(Next(Next(Next(st, Swap), SetInFlight), if stored then Commit else Fail), Settle), FinishSave(saved))
  {
    var steps := BatchSteps(stored, saved);
    RunThree(st, steps[..3]);
    RunSnoc(st, steps[..3], Settle);
    RunSnoc(st, steps[..3] + [Settle], FinishSave(saved));
    assert steps == steps[..3] + [Settle] + [FinishSave(saved)];
  }

  /** A batch that is stored is then in the trail, in order, and after it a report
      of the losses counted before; the counter is empty, and the writer ready
      for the next. */
  lemma StoredBatchIsSettled(st: State, saved: bool)
    requires Consistent(st) && st.writer.Collecting? && st.writer.batch != []
    ensures var after := Run(st, BatchSteps(true, saved));
      && after.writer == Collecting([]) && after.inFlight == 0 && after.queue == st.queue
      && after.count == 0 && (saved ==> after.file == 0)
      && CallerIds(after.trail) == CallerIds(st.trail) + Ids(st.writer.batch)
      && Reported(after.trail) == Reported(st.trail) + st.count
  {
    BatchRun(st, true, saved);
    RecordsHold(st.writer.batch, st.count);
    TrailConcat(st.trail, Records(st.writer.batch, st.count));
  }

  /** One that is not stored leaves the trail, adds what nobody waits for to the
      counter, and leaves the rest to the callers. */
  lemma FailedBatchIsSettled(st: State, saved: bool)
    requires Consistent(st) && st.writer.Collecting? && st.writer.batch != []
    ensures var after := Run(st, BatchSteps(false, saved));
      && after.writer == Collecting([]) && after.inFlight == 0 && after.queue == st.queue
      && after.trail == st.trail && after.count == st.count + |Unacked(st.writer.batch)|
      && after.failing == st.failing + Ids(Acked(st.writer.batch)) && (saved ==> after.file == after.count)
  {
    BatchRun(st, false, saved);
  }

  // ----- the file -----

  /** If the process dies now, the file and the trail still hold every loss that
      was known when the file was last saved. */
  predicate Durable(st: State) {
    st.file + Reported(st.trail) >= st.knownAtSave
  }

  /** The save thread runs after a panic released the lock, and before the
      restart has put back what was in flight. */
  predicate ForgetfulSave(st: State, step: Step) {
    step.SaverSaves? && (step.ok || st.count == st.saved) && st.writer.Panicked? && st.inFlight > 0
  }

  lemma StepKeepsFile(st: State, step: Step)
    requires Consistent(st) && Durable(st)
    ensures Durable(Next(st, step)) <==> !ForgetfulSave(st, step)
  {
    if step.Commit? && st.writer.Writing? {
      TrailConcat(st.trail, Records(st.writer.batch, st.writer.before));
    }
  }

  predicate AlwaysDurable(st: State, steps: seq<Step>)
    decreases steps
  {
    Durable(st) && (steps != [] ==> AlwaysDurable(Next(st, steps[0]), steps[1..]))
  }

  predicate SomeForgetfulSave(st: State, steps: seq<Step>)
    decreases steps
  {
    steps != [] && (ForgetfulSave(st, steps[0]) || SomeForgetfulSave(Next(st, steps[0]), steps[1..]))
  }

  lemma {:induction false} FileKeepsUntilForgetfulSave(st: State, steps: seq<Step>, earlier: nat)
    requires Accounted(st, earlier) && Durable(st)
    ensures AlwaysDurable(st, steps) <==> !SomeForgetfulSave(st, steps)
    decreases steps
  {
    if steps != [] {
      StepKeepsFile(st, steps[0]);
      StepConserves(st, steps[0], earlier);
      if Durable(Next(st, steps[0])) {
        FileKeepsUntilForgetfulSave(Next(st, steps[0]), steps[1..], earlier);
      }
    }
  }

  /** The file never forgets, whatever the interleaving, exactly as long as the
      save thread does not run in that window. */
  lemma FileNeverForgets(steps: seq<Step>, earlier: nat)
    ensures AlwaysDurable(Start(earlier), steps) <==> !SomeForgetfulSave(Start(earlier), steps)
  {
    FileKeepsUntilForgetfulSave(Start(earlier), steps, earlier);
  }

  /** The window is real: a loss that was already in the file is forgotten when
      the writer panics, the save thread runs, and the process stops. */
  lemma PanicCanEraseTheFile()
    ensures exists steps, more, rest ::
      var before := Run(Start(0), steps);
      var after := Run(Run(before, more), rest);
      before.file == 1 && after.file + Reported(after.trail) == 0
  {
    var steps := [SendFails(Item(1, false)), CountLost(0), SaverSaves(true)];
    RunThree(Start(0), steps);
    ErasedAfterPanic(Run(Start(0), steps));
  }

  lemma ErasedAfterPanic(st: State)
    requires st.writer == Collecting([]) && st.queue == [] && st.trail == []
    requires st.count == st.saved == st.file == 1
    ensures exists more, rest ::
      var after := Run(Run(st, more), rest);
      after.file + Reported(after.trail) == 0
  {
    var more := [Send(Item(2, true)), TakeOne, Swap];
    var rest := [SetInFlight, Panic, SaverSaves(true)];
    LossIsHeld(st, more);
    SavedInTheWindow(Run(st, more), rest);
  }

  lemma LossIsHeld(st: State, steps: seq<Step>)
    requires st.writer == Collecting([]) && st.queue == [] && st.trail == [] && st.saved == 1
    requires steps == [Send(Item(2, true)), TakeOne, Swap]
    ensures var after := Run(st, steps);
      after.writer.Swapped? && after.count == 0 && after.trail == [] && after.saved == 1
  {
    RunThree(st, steps);
  }

  lemma SavedInTheWindow(st: State, steps: seq<Step>)
    requires st.writer.Swapped? && st.count == 0 && st.trail == [] && st.saved == 1
    requires steps == [SetInFlight, Panic, SaverSaves(true)]
    ensures var after := Run(st, steps);
      after.file == 0 && after.trail == []
  {
    RunThree(st, steps);
  }

  lemma RunThree(st: State, steps: seq<Step>)
    requires |steps| == 3
    ensures Run(st, steps) == Next(Next(Next(st, steps[0]), steps[1]), steps[2])
  {
    assert steps[1..][1..] == steps[2..] && steps[2..][1..] == [];
    var one := Next(st, steps[0]);
    assert Run(st, steps) == Run(one, steps[1..]);
    var two := Next(one, steps[1]);
    assert Run(one, steps[1..]) == Run(two, steps[2..]);
    assert Run(two, steps[2..]) == Run(Next(two, steps[2]), []);
  }
}
