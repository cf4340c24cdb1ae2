/**
 The writer thread (`src/audit/mod.rs`): it drains a queue of commands, writes
 appends in batches, and answers those who wait. `WriterSpec` says what the work
 it does amounts to; `BatchWriter` is the code.
 */
module WriterSpec {
  import opened Prelude
  import opened Event
  import opened Chain
  import opened StoreSpec
  import Retention

  const MAX_BATCH: nat := 512

  /** A caller that waits for an answer. */
  type Ticket = nat

  /** An entry to append, and who waits for it. */
  datatype Request = Request(entry: AuditEntry, ack: Option<Ticket>)

  datatype Command =
    | Append(request: Request)
    | Prune(now: Time, cutoff: Time, stamp: Time, ack: Ticket)
    | Flush(ack: Ticket)

  datatype Answer =
    | Stored(ticket: Ticket, result: Result<int, StoreError>)
    | Pruned(ticket: Ticket, pruned: Result<nat, StoreError>)
    | Flushed(ticket: Ticket)

  datatype Outcome = Outcome(store: State, answers: seq<Answer>)

  // ----- one command at a time -----

  function Answered(request: Request, result: Result<int, StoreError>): seq<Answer> {
    if request.ack.Some? then [Stored(request.ack.value, result)] else []
  }

  function One(enc: Encoding, before: Outcome, command: Command): Outcome {
    match command
    case Append(request) =>
      Outcome(AppendTo(enc, before.store, [request.entry]),
              before.answers + Answered(request, Ok(before.store.head.seqNo + 1)))
    case Prune(now, cutoff, stamp, ack) =>
      var (store, result) := StoreSpec.Prune(enc, before.store, now, cutoff, stamp);
      Outcome(store, before.answers + [Pruned(ack, result)])
    case Flush(ack) => Outcome(before.store, before.answers + [Flushed(ack)])
  }

  function OneByOne(enc: Encoding, before: Outcome, commands: seq<Command>): Outcome
    decreases commands
  {
    if commands == [] then before
    else OneByOne(enc, One(enc, before, commands[0]), commands[1..])
  }

  // ----- the work the writer does -----

  datatype Work =
    | Batch(requests: seq<Request>, lost: nat, stamp: Time, committed: bool)
    | Single(command: Command, commits: bool)

  function Entries(requests: seq<Request>): seq<AuditEntry> {
    seq(|requests|, i requires 0 <= i < |requests| => requests[i].entry)
  }

  /** The losses before a batch are reported after it. */
  function WithReport(requests: seq<Request>, lost: nat, stamp: Time): seq<AuditEntry> {
    Entries(requests) + if lost > 0 then [GatewayEntry(stamp, EventsLost(lost))] else []
  }

  function BatchAnswers(requests: seq<Request>, first: int): seq<Answer> {
    if requests == [] then []
    else Answered(requests[0], Ok(first)) + BatchAnswers(requests[1..], first + 1)
  }

  function BatchRefusals(requests: seq<Request>): seq<Answer> {
    if requests == [] then []
    else Answered(requests[0], Err(CommitFailed)) + BatchRefusals(requests[1..])
  }

  function Unacked(requests: seq<Request>): nat {
    if requests == [] then 0
    else (if requests[0].ack.None? then 1 else 0) + Unacked(requests[1..])
  }

  function Done(enc: Encoding, before: Outcome, work: Work): Outcome {
    match work
    case Batch(requests, lost, stamp, committed) =>
      if committed
      then Outcome(AppendTo(enc, before.store, WithReport(requests, lost, stamp)),
                   before.answers + BatchAnswers(requests, before.store.head.seqNo + 1))
      else Outcome(before.store, before.answers + BatchRefusals(requests))
    case Single(Prune(now, cutoff, stamp, ack), commits) =>
      var (store, result) := StoreSpec.Prune(enc, before.store, now, cutoff, stamp);
      if !commits && PruneCut(before.store.rows, now, cutoff).Some? && result.Ok?
      then Outcome(before.store, before.answers + [Pruned(ack, Err(CommitFailed))])
      else Outcome(store, before.answers + [Pruned(ack, result)])
    case Single(command, _) => One(enc, before, command)
  }

  function Replay(enc: Encoding, before: Outcome, work: seq<Work>): Outcome
    decreases work
  {
    if work == [] then before
    else Done(enc, Replay(enc, before, work[..|work| - 1]), work[|work| - 1])
  }

  function Appends(requests: seq<Request>): seq<Command> {
    seq(|requests|, i requires 0 <= i < |requests| => Append(requests[i]))
  }

  function CommandsOf(work: Work): seq<Command> {
    match work
    case Batch(requests, _, _, _) => Appends(requests)
    case Single(command, _) => [command]
  }

  function Commands(work: seq<Work>): seq<Command> {
    if work == [] then []
    else Commands(work[..|work| - 1]) + CommandsOf(work[|work| - 1])
  }

  /** Appends come in batches of 1 to 512; everything else comes singly. */
  predicate WellFormed(work: Work) {
    match work
    case Batch(requests, _, _, _) => 0 < |requests| <= 512
    case Single(command, _) => !command.Append?
  }

  /** Nothing failed and no losses were reported. */
  predicate Smooth(work: Work) {
    match work
    case Batch(_, lost, _, committed) => lost == 0 && committed
    case Single(_, commits) => commits
  }

  // ----- lemmas -----

  lemma {:induction false} OneByOneConcat(enc: Encoding, before: Outcome, a: seq<Command>, b: seq<Command>)
    ensures OneByOne(enc, before, a + b) == OneByOne(enc, OneByOne(enc, before, a), b)
    decreases a
  {
    if a == [] {
      assert a + b == b;
    } else {
      assert (a + b)[1..] == a[1..] + b;
      OneByOneConcat(enc, One(enc, before, a[0]), a[1..], b);
    }
  }

  /** Appending the requests one by one stores what one batch stores, and gives
      the same answers. */
  lemma {:induction false} BatchIsOneByOne(enc: Encoding, before: Outcome, requests: seq<Request>)
    requires requests != []
    ensures OneByOne(enc, before, Appends(requests))
      == Outcome(AppendTo(enc, before.store, Entries(requests)),
                 before.answers + BatchAnswers(requests, before.store.head.seqNo + 1))
    decreases requests
  {
    var first := One(enc, before, Append(requests[0]));
    assert Appends(requests)[1..] == Appends(requests[1..]);
    FirstAppend(enc, before, requests[0]);
    if |requests| == 1 {
      assert Appends(requests[1..]) == [] && Entries(requests) == [requests[0].entry];
      assert BatchAnswers(requests[1..], before.store.head.seqNo + 2) == [];
    } else {
      BatchIsOneByOne(enc, first, requests[1..]);
      AppendToConcat(enc, before.store, [requests[0].entry], Entries(requests[1..]));
      assert Entries(requests) == [requests[0].entry] + Entries(requests[1..]);
      ConcatAssociates(before.answers, Answered(requests[0], Ok(before.store.head.seqNo + 1)),
                       BatchAnswers(requests[1..], before.store.head.seqNo + 2));
    }
  }

  lemma FirstAppend(enc: Encoding, before: Outcome, request: Request)
    ensures One(enc, before, Append(request)).store.head.seqNo == before.store.head.seqNo + 1
  {
    ExtendKeys(enc, before.store.head, [request.entry]);
  }

  lemma SmoothWork(enc: Encoding, before: Outcome, work: Work)
    requires WellFormed(work) && Smooth(work)
    ensures Done(enc, before, work) == OneByOne(enc, before, CommandsOf(work))
  {
    match work
    case Batch(requests, lost, stamp, _) =>
      BatchIsOneByOne(enc, before, requests);
      assert WithReport(requests, 0, stamp) == Entries(requests);
    case Single(command, _) =>
      assert [command][1..] == [];
      assert OneByOne(enc, before, [command]) == One(enc, before, command);
  }

  lemma LastWork(enc: Encoding, start: Outcome, work: seq<Work>)
    requires work != []
    ensures Replay(enc, start, work) == Done(enc, Replay(enc, start, work[..|work| - 1]), work[|work| - 1])
    ensures Commands(work) == Commands(work[..|work| - 1]) + CommandsOf(work[|work| - 1])
  {
  }

  lemma OneWork(enc: Encoding, start: Outcome, work: Work)
    ensures Replay(enc, start, [work]) == Done(enc, start, work)
    ensures Commands([work]) == CommandsOf(work)
  {
    LastWork(enc, start, [work]);
    assert [work][..0] == [];
  }

  lemma {:induction false} ReplayConcat(enc: Encoding, start: Outcome, a: seq<Work>, b: seq<Work>)
    ensures Replay(enc, start, a + b) == Replay(enc, Replay(enc, start, a), b)
    ensures Commands(a + b) == Commands(a) + Commands(b)
    decreases b
  {
    if b == [] {
      assert a + b == a;
    } else {
      var front, last := b[..|b| - 1], b[|b| - 1];
      ReplayConcat(enc, start, a, front);
      var both := a + b;
      assert both[..|both| - 1] == a + front && both[|both| - 1] == last;
      LastWork(enc, start, both);
      LastWork(enc, Replay(enc, start, a), b);
      ConcatAssociates(Commands(a), Commands(front), CommandsOf(last));
    }
  }

  /** Batching cannot be seen: whatever the batches, the trail and the answers
      are those of a writer that takes one command at a time. */
  lemma {:induction false} BatchingIsInvisible(enc: Encoding, before: Outcome, work: seq<Work>)
    requires forall w :: w in work ==> WellFormed(w) && Smooth(w)
    ensures Replay(enc, before, work) == OneByOne(enc, before, Commands(work))
    decreases work
  {
    if work != [] {
      var front, last := work[..|work| - 1], work[|work| - 1];
      assert last in work && forall w :: w in front ==> w in work;
      BatchingIsInvisible(enc, before, front);
      LastWork(enc, before, work);
      OneByOneConcat(enc, before, Commands(front), CommandsOf(last));
      SmoothWork(enc, Replay(enc, before, front), last);
    }
  }

  /** An `Ok` answer to an append names the row that holds that caller's entry. */
  lemma {:induction false} AnswersNameTheirRows(enc: Encoding, head: Head, requests: seq<Request>, lost: nat,
                                                stamp: Time, answer: Answer)
    requires enc.Valid()
    requires answer in BatchAnswers(requests, head.seqNo + 1)
    ensures var rows := Extend(enc, head, WithReport(requests, lost, stamp));
      exists i :: 0 <= i < |requests| && requests[i].ack.Some? &&
        (&& answer == Stored(requests[i].ack.value, Ok(rows[i].seqNo))
         && enc.decode(rows[i].body) == Some(requests[i].entry))
  {
    var i := AnswerIndex(requests, head.seqNo + 1, answer);
    ExtendAt(enc, head, WithReport(requests, lost, stamp), i);
  }

  lemma {:induction false} AnswerIndex(requests: seq<Request>, first: int, answer: Answer) returns (i: nat)
    requires answer in BatchAnswers(requests, first)
    ensures i < |requests| && requests[i].ack.Some?
    ensures answer == Stored(requests[i].ack.value, Ok(first + i))
    decreases requests
  {
    if answer in Answered(requests[0], Ok(first)) {
      i := 0;
    } else {
      var j := AnswerIndex(requests[1..], first + 1, answer);
      i := j + 1;
    }
  }

  // ----- what a batch stores -----

  /** A batch that is stored adds a row for each request, in order, and if events
      were lost before it, one more that tells how many. */
  lemma BatchHoldsAll(enc: Encoding, before: Outcome, requests: seq<Request>, lost: nat, stamp: Time, i: nat)
    requires enc.Valid()
    ensures var rows, n := Done(enc, before, Batch(requests, lost, stamp, true)).store.rows, |before.store.rows|;
      && |rows| == n + |requests| + (if lost == 0 then 0 else 1) && rows[..n] == before.store.rows
      && (i < |requests| ==> enc.decode(rows[n + i].body) == Some(requests[i].entry))
      && (lost > 0 ==> var last := enc.decode(Last(rows).body); last.Some? && last.value.event == EventsLost(lost))
  {
    var entries := WithReport(requests, lost, stamp);
    if i < |requests| {
      ExtendAt(enc, before.store.head, entries, i);
    }
    if lost > 0 {
      ExtendAt(enc, before.store.head, entries, |requests|);
    }
  }

  /** Of a batch that is not stored, each request is answered or counted. */
  lemma {:induction false} AnsweredOrCounted(requests: seq<Request>)
    ensures |BatchRefusals(requests)| + Unacked(requests) == |requests|
  {
    if requests != [] {
      AnsweredOrCounted(requests[1..]);
    }
  }

  // ----- what the answers say -----

  function AnswersTo(answers: seq<Answer>, ticket: Ticket): nat {
    if answers == [] then 0
    else (if answers[0].ticket == ticket then 1 else 0) + AnswersTo(answers[1..], ticket)
  }

  /** The one who waits for the command, if there is one. */
  function Asker(command: Command): Option<Ticket> {
    match command
    case Append(request) => request.ack
    case Prune(_, _, _, ack) => Some(ack)
    case Flush(ack) => Some(ack)
  }

  function Asked(commands: seq<Command>, ticket: Ticket): nat {
    if commands == [] then 0
    else (if Asker(commands[0]) == Some(ticket) then 1 else 0) + Asked(commands[1..], ticket)
  }

  lemma {:induction false} AnswersToConcat(a: seq<Answer>, b: seq<Answer>, ticket: Ticket)
    ensures AnswersTo(a + b, ticket) == AnswersTo(a, ticket) + AnswersTo(b, ticket)
  {
    if a == [] {
      assert a + b == b;
    } else {
      assert (a + b)[1..] == a[1..] + b;
      AnswersToConcat(a[1..], b, ticket);
    }
  }

  lemma {:induction false} AskedConcat(a: seq<Command>, b: seq<Command>, ticket: Ticket)
    ensures Asked(a + b, ticket) == Asked(a, ticket) + Asked(b, ticket)
  {
    if a == [] {
      assert a + b == b;
    } else {
      assert (a + b)[1..] == a[1..] + b;
      AskedConcat(a[1..], b, ticket);
    }
  }

  lemma {:induction false} BatchAnswersEach(requests: seq<Request>, first: int, ticket: Ticket)
    ensures AnswersTo(BatchAnswers(requests, first), ticket) == Asked(Appends(requests), ticket)
    ensures AnswersTo(BatchRefusals(requests), ticket) == Asked(Appends(requests), ticket)
    decreases requests
  {
    if requests != [] {
      BatchAnswersEach(requests[1..], first + 1, ticket);
      assert Appends(requests)[1..] == Appends(requests[1..]);
      AnswersToConcat(Answered(requests[0], Ok(first)), BatchAnswers(requests[1..], first + 1), ticket);
      AnswersToConcat(Answered(requests[0], Err(CommitFailed)), BatchRefusals(requests[1..]), ticket);
    }
  }

  lemma DoneAnswersEach(enc: Encoding, before: Outcome, work: Work, ticket: Ticket)
    ensures AnswersTo(Done(enc, before, work).answers, ticket)
         == AnswersTo(before.answers, ticket) + Asked(CommandsOf(work), ticket)
  {
    var added := Done(enc, before, work).answers[|before.answers|..];
    AnswersToConcat(before.answers, added, ticket);
    assert before.answers + added == Done(enc, before, work).answers;
    match work
    case Batch(requests, _, _, _) => BatchAnswersEach(requests, before.store.head.seqNo + 1, ticket);
    case Single(command, _) => assert [command][1..] == [];
  }

  /** Everyone who waits gets exactly one answer, whatever fails. */
  lemma {:induction false} EveryoneIsAnsweredOnce(enc: Encoding, start: Outcome, work: seq<Work>, ticket: Ticket)
    ensures AnswersTo(Replay(enc, start, work).answers, ticket)
         == AnswersTo(start.answers, ticket) + Asked(Commands(work), ticket)
    decreases work
  {
    if work != [] {
      var front := work[..|work| - 1];
      EveryoneIsAnsweredOnce(enc, start, front, ticket);
      DoneAnswersEach(enc, Replay(enc, start, front), Last(work), ticket);
      AskedConcat(Commands(front), CommandsOf(Last(work)), ticket);
    }
  }

  /** Each ticket has one more answer for each command that carries it. */
  ghost predicate AllAnswered(before: seq<Answer>, commands: seq<Command>, after: seq<Answer>) {
    forall ticket :: AnswersTo(after, ticket) == AnswersTo(before, ticket) + Asked(commands, ticket)
  }

  lemma AllAreAnsweredOnce(enc: Encoding, start: Outcome, work: seq<Work>, end: Outcome, commands: seq<Command>)
    requires end == Replay(enc, start, work) && commands == Commands(work)
    ensures AllAnswered(start.answers, commands, end.answers)
  {
    forall ticket ensures AnswersTo(end.answers, ticket) == AnswersTo(start.answers, ticket) + Asked(commands, ticket) {
      EveryoneIsAnsweredOnce(enc, start, work, ticket);
    }
  }

  /** A row with that number holds the entry. */
  ghost predicate HoldsAt(enc: Encoding, rows: seq<Row>, seqNo: int, entry: AuditEntry) {
    exists r :: r in rows && r.seqNo == seqNo && enc.decode(r.body) == Some(entry)
  }

  ghost predicate IsFor(requests: seq<Request>, ticket: Ticket, i: int) {
    0 <= i < |requests| && requests[i].ack == Some(ticket)
  }

  /** What an answer says is what happened: `Ok` with a number, that the trail now
      has the caller's entry under it; `Ok` of a prune, how many rows are gone;
      an error, that nothing changed. */
  ghost predicate IsTrue(enc: Encoding, before: State, work: Work, after: State, answer: Answer) {
    match answer
    case Stored(ticket, result) =>
      && work.Batch? && (result.Ok? <==> work.committed)
      && (exists i :: IsFor(work.requests, ticket, i)
                      && (result.Ok? ==> HoldsAt(enc, after.rows, result.value, work.requests[i].entry)))
      && (result.Err? ==> after == before)
    case Pruned(ticket, result) =>
      && work.Single? && work.command.Prune? && work.command.ack == ticket
      && (result.Ok? && result.value > 0 ==>
            result.value <= |before.rows| && after.rows != [] &&
            after.rows[..|after.rows| - 1] == before.rows[result.value..])
      && (result.Err? || result.value == 0 || !work.commits ==> after == before)
      && (result.Ok? && result.value > 0 ==> work.commits)
      && (result.Err? ==> !work.commits || result.error.NoSuchRecord?)
    case Flushed(ticket) => work.Single? && work.command == Flush(ticket) && after == before
  }

  lemma {:induction false} RefusalIndex(requests: seq<Request>, answer: Answer) returns (i: nat)
    requires answer in BatchRefusals(requests)
    ensures answer.Stored? && answer.result.Err? && IsFor(requests, answer.ticket, i)
    decreases requests
  {
    if answer in Answered(requests[0], Err(CommitFailed)) {
      i := 0;
    } else {
      var j := RefusalIndex(requests[1..], answer);
      i := j + 1;
    }
  }

  lemma BatchIsTrue(enc: Encoding, before: Outcome, work: Work, answer: Answer)
    requires enc.Valid() && work.Batch?
    requires answer in Done(enc, before, work).answers[|before.answers|..]
    ensures IsTrue(enc, before.store, work, Done(enc, before, work).store, answer)
  {
    var head, after := before.store.head, Done(enc, before, work);
    if work.committed {
      assert after.answers[|before.answers|..] == BatchAnswers(work.requests, head.seqNo + 1);
      var i := AnswerIndex(work.requests, head.seqNo + 1, answer);
      var entries := WithReport(work.requests, work.lost, work.stamp);
      ExtendAt(enc, head, entries, i);
      assert Extend(enc, head, entries)[i] in after.store.rows;
      assert HoldsAt(enc, after.store.rows, head.seqNo + 1 + i, work.requests[i].entry);
      assert IsFor(work.requests, answer.ticket, i);
    } else {
      assert after.answers[|before.answers|..] == BatchRefusals(work.requests);
      var i := RefusalIndex(work.requests, answer);
    }
  }

  lemma SingleIsTrue(enc: Encoding, before: Outcome, work: Work, answer: Answer)
    requires Usable(before.store) && work.Single? && !work.command.Append?
    requires answer in Done(enc, before, work).answers[|before.answers|..]
    ensures IsTrue(enc, before.store, work, Done(enc, before, work).store, answer)
  {
    if work.command.Prune? {
      Retention.PruneDeletesOldPrefix(enc, before.store, work.command.now, work.command.cutoff, work.command.stamp);
    }
  }

  lemma DoneKeepsUsable(enc: Encoding, before: Outcome, work: Work)
    requires Usable(before.store) && WellFormed(work)
    ensures Usable(Done(enc, before, work).store)
    ensures before.answers <= Done(enc, before, work).answers
  {
    match work
    case Batch(requests, lost, stamp, _) => AppendKeepsUsable(enc, before.store, WithReport(requests, lost, stamp));
    case Single(Prune(now, cutoff, stamp, _), _) =>
      var cut := PruneCut(before.store.rows, now, cutoff);
      if cut.Some? && HashAt(before.store.rows, cut.value).Some? {
        PruneKeepsUsable(enc, before.store, cut.value, HashAt(before.store.rows, cut.value).value, stamp);
      }
    case Single(_, _) =>
  }

  /** Some step of the work gave the answer, and it was true. */
  ghost predicate WasTrue(enc: Encoding, start: Outcome, work: seq<Work>, answer: Answer) {
    exists k :: 0 <= k < |work| && IsTrueAt(enc, start, work, k, answer)
  }

  ghost predicate IsTrueAt(enc: Encoding, start: Outcome, work: seq<Work>, k: nat, answer: Answer)
    requires k < |work|
  {
    IsTrue(enc, Replay(enc, start, work[..k]).store, work[k], Replay(enc, start, work[..k + 1]).store, answer)
  }

  ghost predicate AllTrue(enc: Encoding, start: Outcome, work: seq<Work>) {
    var answers := Replay(enc, start, work).answers;
    forall j :: |start.answers| <= j < |answers| ==> WasTrue(enc, start, work, answers[j])
  }

  lemma OneMoreWorkIsTrue(enc: Encoding, start: Outcome, work: seq<Work>)
    requires enc.Valid() && work != [] && WellFormed(Last(work))
    requires var before := Replay(enc, start, work[..|work| - 1]);
      Usable(before.store) && start.answers <= before.answers <= Replay(enc, start, work).answers
    requires AllTrue(enc, start, work[..|work| - 1])
    ensures AllTrue(enc, start, work)
  {
    var before, answers := Replay(enc, start, work[..|work| - 1]), Replay(enc, start, work).answers;
    forall j | |start.answers| <= j < |answers| ensures WasTrue(enc, start, work, answers[j]) {
      if j < |before.answers| {
        assert before.answers[j] == answers[j];
        TrueBefore(enc, start, work, answers[j]);
      } else {
        assert answers[|before.answers|..][j - |before.answers|] == answers[j];
        TrueNow(enc, start, work, answers[j]);
      }
    }
  }

  /** Every answer given in a run is true: an `Ok` always names a row that the
      trail then has, with the entry of the caller who gets it, and a caller
      whose entry is not stored always gets an error. */
  lemma {:induction false} EveryAnswerIsTrue(enc: Encoding, start: Outcome, work: seq<Work>)
    requires enc.Valid() && Usable(start.store) && forall w :: w in work ==> WellFormed(w)
    ensures Usable(Replay(enc, start, work).store) && start.answers <= Replay(enc, start, work).answers
    ensures AllTrue(enc, start, work)
    decreases work
  {
    if work != [] {
      var front, last := work[..|work| - 1], Last(work);
      assert last in work && forall w :: w in front ==> w in work;
      EveryAnswerIsTrue(enc, start, front);
      DoneKeepsUsable(enc, Replay(enc, start, front), last);
      OneMoreWorkIsTrue(enc, start, work);
    }
  }

  lemma TrueBefore(enc: Encoding, start: Outcome, work: seq<Work>, answer: Answer)
    requires work != [] && WasTrue(enc, start, work[..|work| - 1], answer)
    ensures WasTrue(enc, start, work, answer)
  {
    var front := work[..|work| - 1];
    var k :| 0 <= k < |front| && IsTrueAt(enc, start, front, k, answer);
    assert front[..k] == work[..k] && front[..k + 1] == work[..k + 1];
    assert IsTrueAt(enc, start, work, k, answer);
  }

  lemma TrueNow(enc: Encoding, start: Outcome, work: seq<Work>, answer: Answer)
    requires enc.Valid() && work != [] && WellFormed(Last(work))
    requires var before := Replay(enc, start, work[..|work| - 1]);
      && Usable(before.store) && before.answers <= Replay(enc, start, work).answers
      && answer in Replay(enc, start, work).answers[|before.answers|..]
    ensures WasTrue(enc, start, work, answer)
  {
    var k := |work| - 1;
    var before := Replay(enc, start, work[..k]);
    if work[k].Batch? {
      BatchIsTrue(enc, before, work[k], answer);
    } else {
      SingleIsTrue(enc, before, work[k], answer);
    }
    assert work[..k + 1] == work;
    assert IsTrueAt(enc, start, work, k, answer);
  }
}

module BatchWriter {
  import opened Prelude
  import opened Event
  import opened Chain
  import opened StoreSpec
  import opened Store
  import opened WriterSpec

  /** How many losses the trail does not tell of yet, in memory and in a file. */
  class LostEvents {
    var count: nat
    var inFlight: nat
    var saved: nat
    var file: nat

    constructor (earlier: nat)
      ensures count == saved == file == earlier && inFlight == 0
    {
      count, inFlight, saved, file := earlier, 0, earlier, earlier;
    }

    method Add(n: nat)
      modifies this`count
      ensures count == old(count) + n
    {
      count := count + n;
    }

    /** Brings the file up to date, unless it already is. */
    method SaveLocked(written: bool)
      modifies this`saved, this`file
      requires saved == file
      ensures saved == file == if written then count else old(file)
    {
      if count == saved || !written {
        return;
      }
      saved, file := count, count;
    }
  }

  class Writer {
    const store: AuditStore
    const lost: LostEvents
    var queue: seq<Command>
    var answers: seq<Answer>

    ghost predicate Valid()
      reads this, store, store.conn, lost
    {
      store.Valid() && lost.saved == lost.file && lost.inFlight == 0
    }

    ghost function Now(): Outcome
      reads this, store, store.conn
    {
      Outcome(store.View(), answers)
    }

    constructor (store: AuditStore, lost: LostEvents, queue: seq<Command>)
      ensures this.store == store && this.lost == lost && this.queue == queue && answers == []
    {
      this.store, this.lost, this.queue, answers := store, lost, queue, [];
    }

    /** Takes what has arrived: appends up to the limit, and the command after
        them if it is another one. `arrived` says whether the next command is
        there already when the writer looks. */
    method TakeBatch(arrived: nat -> bool) returns (batch: seq<Request>, after: Option<Command>)
      requires queue != []
      modifies this`queue
      ensures |batch| <= MAX_BATCH && (batch != [] || after.Some?)
      ensures after.Some? ==> !after.value.Append?
      ensures old(queue) == Appends(batch) + (if after.Some? then [after.value] else []) + queue
      ensures |queue| < |old(queue)|
    {
      batch, after := [], None;
      var next := Some(queue[0]);
      queue := queue[1..];
      while next.Some?
        invariant |queue| < |old(queue)|
        invariant |batch| <= MAX_BATCH && (next.Some? ==> |batch| < MAX_BATCH && after.None?)
        invariant next.None? ==> batch != [] || after.Some?
        invariant after.Some? ==> !after.value.Append?
        invariant old(queue) == Appends(batch) + (if next.Some? then [next.value] else [])
                                + (if after.Some? then [after.value] else []) + queue
        decreases |queue|, next.Some?
      {
        var command := next.value;
        next := None;
        if command.Append? {
          assert Appends(batch + [command.request]) == Appends(batch) + [command];
          batch := batch + [command.request];
          if |batch| < MAX_BATCH && queue != [] && arrived(|queue|) {
            next := Some(queue[0]);
            queue := queue[1..];
          }
        } else {
          after := Some(command);
        }
      }
    }

    /** Everyone who waits learns the number of their record. */
    method AnswerAll(batch: seq<Request>, seqs: seq<int>, ghost first: int)
      requires |batch| <= |seqs| && forall i :: 0 <= i < |batch| ==> seqs[i] == first + i
      modifies this`answers
      ensures answers == old(answers) + BatchAnswers(batch, first)
    {
      assert batch[0..] == batch;
      for i := 0 to |batch|
        invariant old(answers) + BatchAnswers(batch, first) == answers + BatchAnswers(batch[i..], first + i)
      {
        assert batch[i..][1..] == batch[i + 1..];
        answers := answers + Answered(batch[i], Ok(seqs[i]));
      }
    }

    method RefuseAll(batch: seq<Request>)
      modifies this`answers
      ensures answers == old(answers) + BatchRefusals(batch)
    {
      assert batch[0..] == batch;
      for i := 0 to |batch|
        invariant old(answers) + BatchRefusals(batch) == answers + BatchRefusals(batch[i..])
      {
        assert batch[i..][1..] == batch[i + 1..];
        answers := answers + Answered(batch[i], Err(CommitFailed));
      }
    }

    method AnswerStored(batch: seq<Request>, seqs: seq<int>, ghost head: Head, ghost entries: seq<AuditEntry>)
      requires |batch| <= |entries| && seqs == SeqNumbers(Extend(store.enc, head, entries))
      modifies this`answers
      ensures answers == old(answers) + BatchAnswers(batch, head.seqNo + 1)
    {
      RowNumbers(store.enc, head, entries);
      AnswerAll(batch, seqs, head.seqNo + 1);
    }

    /** Tells those who wait, and counts what is lost if the batch is not stored. */
    method Settle(batch: seq<Request>, result: Result<seq<int>, StoreError>, before: nat, ghost head: Head,
                  ghost entries: seq<AuditEntry>)
      requires |batch| <= |entries|
      requires result.Ok? ==> result.value == SeqNumbers(Extend(store.enc, head, entries))
      modifies this`answers, lost`inFlight, lost`count
      ensures answers == old(answers) + (if result.Ok? then BatchAnswers(batch, head.seqNo + 1) else BatchRefusals(batch))
      ensures lost.inFlight == 0
      ensures lost.count == old(lost.count) + (if result.Ok? then 0 else before + Unacked(batch))
    {
      lost.inFlight := 0;
      if result.Ok? {
        AnswerStored(batch, result.value, head, entries);
      } else {
        lost.Add(before + Unacked(batch));
        RefuseAll(batch);
      }
    }

    /** The entries of a batch, and a report of the losses before it. */
    method ToStore(batch: seq<Request>, before: nat, stamp: Time) returns (entries: seq<AuditEntry>)
      ensures entries == WithReport(batch, before, stamp)
    {
      entries := Entries(batch);
      if before > 0 {
        entries := entries + [GatewayEntry(stamp, EventsLost(before))];
      }
    }

    /** Stores a batch with a report of the losses so far, and answers; or counts it
        as lost where nobody waits for it. */
    method StoreBatch(batch: seq<Request>, stamp: Time, commits: bool)
      requires Valid() && batch != []
      modifies this`answers, store, store.conn, lost`count, lost`inFlight
      ensures Valid()
      ensures Now() == Done(store.enc, old(Now()), Batch(batch, old(lost.count), stamp, commits))
      ensures lost.count == if commits then 0 else old(lost.count) + Unacked(batch)
    {
      ghost var was := Now();
      var before := lost.count;
      lost.count := 0;
      var entries := ToStore(batch, before, stamp);
      lost.inFlight := before + Unacked(batch);
      var result := store.Append(entries, commits);
      Settle(batch, result, before, was.store.head, entries);
      DoneIs(store.enc, was, Now(), batch, before, stamp, commits);
    }

    static lemma DoneIs(enc: Encoding, before: Outcome, after: Outcome, batch: seq<Request>, lost: nat, stamp: Time,
                        commits: bool)
      requires after.store == if commits then AppendTo(enc, before.store, WithReport(batch, lost, stamp)) else before.store
      requires after.answers == before.answers
        + if commits then BatchAnswers(batch, before.store.head.seqNo + 1) else BatchRefusals(batch)
      ensures after == Done(enc, before, Batch(batch, lost, stamp, commits))
    {
    }

    /** Stores a batch or counts it, and saves the count. */
    method WriteBatch(batch: seq<Request>, stamp: Time, commits: bool, written: bool)
      requires Valid() && batch != []
      modifies this`answers, store, store.conn, lost
      ensures Valid()
      ensures Now() == Done(store.enc, old(Now()), Batch(batch, old(lost.count), stamp, commits))
      ensures lost.count == if commits then 0 else old(lost.count) + Unacked(batch)
      ensures lost.file == if written then lost.count else old(lost.file)
    {
      StoreBatch(batch, stamp, commits);
      lost.SaveLocked(written);
    }

    static lemma RowNumbers(enc: Encoding, head: Head, entries: seq<AuditEntry>)
      ensures forall i :: 0 <= i < |entries| ==> SeqNumbers(Extend(enc, head, entries))[i] == head.seqNo + 1 + i
    {
      forall i | 0 <= i < |entries| ensures Extend(enc, head, entries)[i].seqNo == head.seqNo + 1 + i {
        ExtendAt(enc, head, entries, i);
      }
    }

    /** A command that is not an append. */
    method Handle(command: Command, commits: bool)
      requires Valid() && !command.Append?
      modifies this`answers, store, store.conn
      ensures Valid() && Now() == Done(store.enc, old(Now()), Single(command, commits))
    {
      match command
      case Prune(now, cutoff, stamp, ack) =>
        var result := store.PruneBefore(now, cutoff, stamp, commits);
        answers := answers + [Pruned(ack, result)];
      case Flush(ack) =>
        answers := answers + [Flushed(ack)];
    }

    method WriteIfAny(batch: seq<Request>, stamp: Time, commits: bool, written: bool)
      returns (ghost work: seq<Work>)
      requires Valid() && |batch| <= MAX_BATCH
      modifies this`answers, store, store.conn, lost
      ensures Valid() && Commands(work) == Appends(batch) && forall w :: w in work ==> WellFormed(w)
      ensures Now() == Replay(store.enc, old(Now()), work)
      ensures old(lost.count) == 0 && commits ==> lost.count == 0 && forall w :: w in work ==> Smooth(w)
    {
      work := [];
      if batch != [] {
        ghost var step := Batch(batch, lost.count, stamp, commits);
        OneWork(store.enc, Now(), step);
        work := [step];
        WriteBatch(batch, stamp, commits, written);
      }
    }

    method HandleIfAny(command: Option<Command>, commits: bool) returns (ghost work: seq<Work>)
      requires Valid() && (command.Some? ==> !command.value.Append?)
      modifies this`answers, store, store.conn
      ensures Valid() && Commands(work) == (if command.Some? then [command.value] else [])
      ensures Now() == Replay(store.enc, old(Now()), work)
      ensures forall w :: w in work ==> WellFormed(w) && (commits ==> Smooth(w))
    {
      work := [];
      if command.Some? {
        ghost var step := Single(command.value, commits);
        OneWork(store.enc, Now(), step);
        work := [step];
        Handle(command.value, commits);
      }
    }

    /** One turn of the loop: a batch, the command after it, or both. */
    method Turn(arrived: nat -> bool, commits: bool, written: bool, stamp: Time) returns (ghost work: seq<Work>)
      requires Valid() && queue != []
      modifies this, store, store.conn, lost
      ensures Valid() && |queue| < |old(queue)|
      ensures old(queue) == Commands(work) + queue
      ensures forall w :: w in work ==> WellFormed(w)
      ensures Now() == Replay(store.enc, old(Now()), work)
      ensures old(lost.count) == 0 && commits ==> lost.count == 0 && forall w :: w in work ==> Smooth(w)
    {
      ghost var start := Now();
      var batch, after := TakeBatch(arrived);
      ghost var batched := WriteIfAny(batch, stamp, commits, written);
      ghost var handled := HandleIfAny(after, commits);
      ReplayConcat(store.enc, start, batched, handled);
      work := batched + handled;
    }

    /** Drains the queue. `work` is what it did, in order: the commands in the
        order received, appends in batches of at most 512, and each prune or
        flush after everything before it and before everything after it. When
        nothing fails and nothing was lost before, the trail and the answers
        are those of a writer that takes one command at a time. */
    method WriterLoop(arrived: nat -> bool, commits: nat -> bool, written: nat -> bool, clock: nat -> Time)
      returns (ghost work: seq<Work>)
      requires Valid()
      modifies this, store, store.conn, lost
      ensures Valid() && queue == []
      ensures Commands(work) == old(queue)
      ensures forall w :: w in work ==> WellFormed(w)
      ensures Now() == Replay(store.enc, old(Now()), work)
      ensures AllAnswered(old(answers), old(queue), answers)
      ensures old(lost.count) == 0 && (forall i :: commits(i)) ==>
        lost.count == 0 && Now() == OneByOne(store.enc, old(Now()), old(queue))
    {
      work := [];
      ghost var start, enc := Now(), store.enc;
      ghost var smooth := lost.count == 0 && forall i :: commits(i);
      var turn: nat := 0;
      while queue != []
        invariant Valid()
        invariant old(queue) == Commands(work) + queue
        invariant forall w :: w in work ==> WellFormed(w)
        invariant Now() == Replay(enc, start, work)
        invariant smooth ==> lost.count == 0 && forall w :: w in work ==> Smooth(w)
        decreases |queue|
      {
        ghost var more := Turn(arrived, commits(turn), written(turn), clock(turn));
        ReplayConcat(enc, start, work, more);
        ConcatAssociates(Commands(work), Commands(more), queue);
        work := work + more;
        turn := turn + 1;
      }
      AllAreAnsweredOnce(enc, start, work, Now(), old(queue));
      if smooth {
        BatchingIsInvisible(store.enc, start, work);
      }
    }
  }
}
