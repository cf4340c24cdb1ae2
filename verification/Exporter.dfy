/** Shipping the trail to another system (`src/export/mod.rs`): the gap check and
    the saved positions. */
module Exporter {
  import opened Prelude
  import opened Chain
  import opened StoreSpec
  import opened Verifier

  /** The last record a destination received; `seqNo` 0 before the first. Older
      state files know no hash; it is then empty. */
  datatype Position = Position(seqNo: int, hash: string)

  const NOWHERE: Position := Position(0, "")

  datatype GapReason =
    | CutOff(head: int, exported: int)
    | Removed(first: int, last: int)
    | Rewritten(at: int, exported: int)

  datatype Gap = Gap(nextSeq: int, reason: GapReason)

  const BATCH_SIZE: nat := 1000

  /** `SELECT … WHERE seq > ? ORDER BY seq ASC LIMIT ?` */
  function After(rows: seq<Row>, seqNo: int): seq<Row> {
    var beyond := RowsAfter(rows, seqNo);
    if |beyond| > BATCH_SIZE then beyond[..BATCH_SIZE] else beyond
  }

  /** Whether `records` continue exactly after `position`; if not, why. */
  function FindGap(position: Position, records: seq<Row>, head: int): Option<Gap> {
    if position.seqNo > head then Some(Gap(head, CutOff(head, position.seqNo)))
    else if records == [] || position.seqNo == 0 then None
    else if records[0].seqNo != position.seqNo + 1
    then Some(Gap(records[0].seqNo, Removed(position.seqNo + 1, records[0].seqNo - 1)))
    else if position.hash != "" && records[0].prevHash != position.hash
    then Some(Gap(records[0].seqNo, Rewritten(records[0].seqNo, position.seqNo)))
    else None
  }

  /** The record comes right after the position, and links to it if its hash is
      known. */
  predicate Continues(position: Position, r: Row) {
    r.seqNo == position.seqNo + 1 && (position.hash == "" || r.prevHash == position.hash)
  }

  /** Of any trail, genuine or not: no gap is found exactly if the trail reaches
      the position and what follows continues it, or nothing does, or there is no
      position yet; and a gap that is found is what the reason says. */
  lemma NoGapIffContinued(position: Position, records: seq<Row>, head: int)
    ensures var gap := FindGap(position, records, head);
      && (gap.None? <==> position.seqNo <= head
                         && (records == [] || position.seqNo == 0 || Continues(position, records[0])))
      && (gap.Some? ==>
            match gap.value.reason
            case CutOff(end, exported) =>
              end == gap.value.nextSeq == head && exported == position.seqNo && head < position.seqNo
            case Removed(first, last) =>
              && position.seqNo <= head && records != [] && gap.value.nextSeq == records[0].seqNo
              && first == position.seqNo + 1 && last == records[0].seqNo - 1 && records[0].seqNo != first
            case Rewritten(at, exported) =>
              && position.seqNo <= head && records != [] && at == gap.value.nextSeq == records[0].seqNo
              && exported == position.seqNo == at - 1 && position.hash != "" && records[0].prevHash != position.hash)
  {
  }

  /** The positions of all destinations, and the file that keeps them. */
  class ExportState {
    var positions: map<string, Position>
    var file: map<string, Position>

    constructor Open(file: map<string, Position>)
      ensures positions == this.file == file
    {
      positions, this.file := file, file;
    }

    /** The position of a destination. One kept per kind, by older versions, is
        taken over by the first destination that asks; no other gets it. */
    method PositionFor(kind: string, key: string) returns (p: Position)
      modifies this`positions
      ensures p == if key in old(positions) then old(positions)[key]
                   else if kind in old(positions) then old(positions)[kind] else NOWHERE
      ensures if key in old(positions) || kind !in old(positions) then positions == old(positions)
              else positions == (old(positions) - {kind})[key := old(positions)[kind]]
      ensures kind != key && key !in old(positions) ==> kind !in positions
    {
      if key in positions {
        return positions[key];
      }
      if kind in positions {
        p := positions[kind];
        positions := positions - {kind};
        positions := positions[key := p];
      } else {
        p := NOWHERE;
      }
    }

    /** Remembers a position and writes them all; when the write fails, the
        file keeps the old ones. */
    method Set(key: string, position: Position, written: bool) returns (ok: bool)
      modifies this
      ensures ok == written && positions == old(positions)[key := position]
      ensures file == if written then positions else old(file)
    {
      positions := positions[key := position];
      if written {
        file := positions;
      }
      ok := written;
    }
  }

  /** What `verify` must still find in the trail. */
  function AnchorsOf(positions: map<string, Position>): set<Anchor> {
    set key | key in positions && positions[key].seqNo > 0 && positions[key].hash != ""
      :: Anchor(positions[key].seqNo, positions[key].hash, key)
  }
}

/**
 One exporter against a trail that is written and pruned at the same time. A
 round reads the newest number, then the records, checks for a gap, sends, and
 saves the position; any step can fail, the exporter can be replaced, the
 process can crash, and the state file can be lost.
 */
module ExportRuns {
  import opened Prelude
  import opened Event
  import opened Chain
  import opened StoreSpec
  import StoreRuns
  import opened Retention
  import opened TamperEvidence
  import opened Verifier
  import opened Exporter

  /** A position, with the first record of the delivery that left zero. */
  datatype Reached = Reached(position: Position, since: int)

  const START_OVER: Reached := Reached(NOWHERE, 1)

  datatype Round =
    | Idle
    | GotHead(head: int)
    | Sending(records: seq<Row>)
    | Saving(records: seq<Row>)

  datatype Delivery = Delivery(
    store: State,
    history: seq<Row>,       // everything ever written to the trail
    at: Reached,             // of the running exporter
    remembered: Reached,     // of `ExportState`
    file: Reached,           // of the state file
    round: Round,
    received: set<int>,      // records the receiver accepted
    reported: seq<Range>)    // what `FindGap` reported as removed

  /** A step of the writer, or one of the exporter's own. */
  datatype Step = Trail(step: StoreRuns.Step) | Own(own: OwnStep)

  datatype OwnStep =
    | ReadHead
    | ReadRecords
    | Accept(i: nat)         // the receiver takes one record of the batch
    | SendFails
    | SendSucceeds
    | Save(written: bool)
    | Replace                // the exporters are started anew
    | Crash                  // the process stops and starts
    | LoseStateFile

  function NextReached(at: Reached, records: seq<Row>): Reached
    requires records != []
  {
    Reached(Position(Last(records).seqNo, Last(records).hash),
            if at.position.seqNo == 0 then records[0].seqNo else at.since)
  }

  datatype Range = Range(first: int, last: int)

  function RemovedRange(gap: Option<Gap>): seq<Range> {
    if gap.Some? && gap.value.reason.Removed?
    then [Range(gap.value.reason.first, gap.value.reason.last)]
    else []
  }

  ghost predicate Reported(reported: seq<Range>, s: int) {
    exists r :: r in reported && r.first <= s <= r.last
  }

  function SeqNos(records: seq<Row>): set<int> {
    set r | r in records :: r.seqNo
  }

  function TrailNext(enc: Encoding, st: Delivery, step: StoreRuns.Step): Delivery {
    var after := StoreRuns.Next(enc, st.store, step);
    st.(store := after, history := st.history + StoreRuns.Written(enc, st.store, step))
  }

  function Started(st: Delivery, records: seq<Row>): Delivery {
    st.(round := if records == [] then Idle else Sending(records))
  }

  function Read(st: Delivery, head: int): Delivery {
    var records := After(st.store.rows, st.at.position.seqNo);
    var gap := FindGap(st.at.position, records, head);
    var checked := st.(reported := st.reported + RemovedRange(gap));
    if st.at.position.seqNo > head
    then Started(checked.(at := START_OVER), After(st.store.rows, 0))  // a new trail: from its start
    else Started(checked, records)
  }

  function Saved(st: Delivery, next: Reached, written: bool): Delivery {
    if written then st.(at := next, remembered := next, file := next, round := Idle)
    else st.(remembered := next, round := Idle)
  }

  function OwnNext(st: Delivery, step: OwnStep): Delivery {
    match step
    case ReadHead =>
      if st.round.Idle? then st.(round := GotHead(Found(st.store.rows))) else st
    case ReadRecords =>
      if st.round.GotHead? then Read(st, st.round.head) else st
    case Accept(i) =>
      if st.round.Sending? && i < |st.round.records|
      then st.(received := st.received + {st.round.records[i].seqNo})
      else st
    case SendFails => if st.round.Sending? then st.(round := Idle) else st
    case SendSucceeds =>
      if st.round.Sending?
      then st.(received := st.received + SeqNos(st.round.records), round := Saving(st.round.records))
      else st
    case Save(written) =>
      if !st.round.Saving? || st.round.records == [] then st
      else Saved(st, NextReached(st.at, st.round.records), written)
    case Replace => st.(at := st.remembered, round := Idle)
    case Crash => st.(at := st.file, remembered := st.file, round := Idle)
    case LoseStateFile => st.(at := START_OVER, remembered := START_OVER, file := START_OVER, round := Idle)
  }

  function Next(enc: Encoding, st: Delivery, step: Step): Delivery {
    match step
    case Trail(s) => TrailNext(enc, st, s)
    case Own(own) => OwnNext(st, own)
  }

  function Run(enc: Encoding, st: Delivery, steps: seq<Step>): Delivery
    decreases steps
  {
    if steps == [] then st else Run(enc, Next(enc, st, steps[0]), steps[1..])
  }

  predicate Untampered(steps: seq<Step>) {
    forall step :: step in steps && step.Trail? ==> StoreRuns.Clean(step.step)
  }

  const FRESH: Delivery :=
    Delivery(EMPTY, [], START_OVER, START_OVER, START_OVER, Idle, {}, [])

  // ----- what every run keeps -----

  /** The position is zero or names a record that was really written. */
  predicate Genuine(p: Position, history: seq<Row>) {
    0 <= p.seqNo <= |history|
    && (p.seqNo > 0 && p.hash != "" ==> p.hash == history[p.seqNo - 1].hash)
  }

  /** Everything up to the position was accepted or reported as removed. */
  ghost predicate Covered(st: Delivery, r: Reached) {
    forall s :: r.since <= s <= r.position.seqNo ==> s in st.received || Reported(st.reported, s)
  }

  ghost predicate Sound(st: Delivery, r: Reached) {
    Genuine(r.position, st.history) && Covered(st, r)
  }

  /** The records on their way continue the position, up to reported gaps. */
  ghost predicate InHand(st: Delivery, records: seq<Row>) {
    && records != [] && IsSlice(records, st.history)
    && st.at.position.seqNo < records[0].seqNo
    && (st.at.position.seqNo > 0 ==>
          forall s :: st.at.position.seqNo < s < records[0].seqNo ==> Reported(st.reported, s))
  }

  ghost predicate IsSlice(records: seq<Row>, history: seq<Row>) {
    forall i :: 0 <= i < |records| ==>
      && 1 <= records[i].seqNo <= |history| && records[i] == history[records[i].seqNo - 1]
      && records[i].seqNo == records[0].seqNo + i
  }

  ghost predicate Invariant(enc: Encoding, st: Delivery) {
    && StoreRuns.CleanState(enc, st.store, st.history)
    && Sound(st, st.at) && Sound(st, st.remembered) && Sound(st, st.file)
    && (st.round.GotHead? ==> st.at.position.seqNo <= st.round.head <= |st.history|)
    && (st.round.Sending? ==> InHand(st, st.round.records))
    && (st.round.Saving? ==> InHand(st, st.round.records)
                             && forall r :: r in st.round.records ==> r.seqNo in st.received)
  }

  /** The records after a number, in a tail of the history. */
  lemma RecordsAfter(enc: Encoding, rows: seq<Row>, history: seq<Row>, seqNo: int)
    requires StoreRuns.Genuine(enc, history) && IsSuffix(rows, history) && seqNo >= 0
    ensures var n := if seqNo <= |history| - |rows| then 0
                     else if seqNo <= |history| then seqNo - (|history| - |rows|) else |rows|;
      && 0 <= n <= |rows| && RowsAfter(rows, seqNo) == rows[n..]
      && (n < |rows| ==> rows[n].seqNo == Max(seqNo + 1, |history| - |rows| + 1))
  {
    StoreRuns.TailOfGenuine(enc, rows, history);
    var n := if seqNo <= |history| - |rows| then 0
             else if seqNo <= |history| then seqNo - (|history| - |rows|) else |rows|;
    RowsAfterSplit(rows, n, seqNo);
  }

  /** A batch are the records beyond a number, or the first thousand of them. */
  lemma BatchIsFirstBeyond(rows: seq<Row>, seqNo: int) returns (n: nat)
    requires Ascending(rows)
    ensures n <= |rows| && (forall i :: 0 <= i < |rows| ==> (rows[i].seqNo > seqNo <==> i >= n))
    ensures After(rows, seqNo) == rows[n..Min(|rows|, n + 1_000)]
  {
    n := SplitIndex(rows, seqNo);
    RowsAfterSplit(rows, n, seqNo);
  }

  lemma SliceOfHistory(enc: Encoding, rows: seq<Row>, history: seq<Row>, n: nat, m: nat)
    requires StoreRuns.Genuine(enc, history) && IsSuffix(rows, history) && n <= m <= |rows|
    ensures IsSlice(rows[n..m], history)
  {
    StoreRuns.TailOfGenuine(enc, rows, history);
    var d := |history| - |rows|;
    forall i | 0 <= i < m - n
      ensures rows[n..m][i] == history[d + n + i] && rows[n..m][i].seqNo == d + n + i + 1
    {
    }
  }

  lemma AfterIsSlice(enc: Encoding, rows: seq<Row>, history: seq<Row>, seqNo: int)
    requires StoreRuns.Genuine(enc, history) && IsSuffix(rows, history) && seqNo >= 0
    ensures var records := After(rows, seqNo);
      && IsSlice(records, history)
      && (records != [] ==> records[0].seqNo == Max(seqNo + 1, |history| - |rows| + 1))
      && (records == [] <==> seqNo >= |history| || rows == [])
  {
    RecordsAfter(enc, rows, history, seqNo);
    var n := |rows| - |RowsAfter(rows, seqNo)|;
    AfterIsCut(rows, seqNo, n);
    SliceOfHistory(enc, rows, history, n, n + |After(rows, seqNo)|);
  }

  lemma AfterIsCut(rows: seq<Row>, seqNo: int, n: nat)
    requires n <= |rows| && RowsAfter(rows, seqNo) == rows[n..]
    ensures var m := n + |After(rows, seqNo)|;
      && m <= |rows| && After(rows, seqNo) == rows[n..m] && (m == n ==> n == |rows|)
  {
  }

  lemma FirstAndLast(enc: Encoding, rows: seq<Row>, history: seq<Row>)
    requires StoreRuns.Genuine(enc, history) && IsSuffix(rows, history) && (history != [] ==> rows != [])
    ensures Found(rows) == |history|
    ensures rows != [] ==> rows[0].seqNo == |history| - |rows| + 1
  {
    StoreRuns.TailOfGenuine(enc, rows, history);
  }

  lemma TailOfTrail(enc: Encoding, st: Delivery, seqNo: int)
    requires StoreRuns.Tracks(enc, st.store, st.history) && seqNo >= 0
    ensures var records := After(st.store.rows, seqNo);
      && IsSlice(records, st.history)
      && (records == [] <==> seqNo >= |st.history|)
      && (records != [] ==> st.store.rows != [] && records[0].seqNo == Max(seqNo + 1, st.store.rows[0].seqNo))
    ensures Found(st.store.rows) == |st.history|
  {
    AfterIsSlice(enc, st.store.rows, st.history, seqNo);
    FirstAndLast(enc, st.store.rows, st.history);
  }

  /** In an untampered trail, and with a position, the check reports exactly
      when retention has removed the record that comes next; the range it
      reports is what retention removed since. It never finds the trail cut
      off or rewritten. */
  lemma GapReportsExactlyTheRemoved(enc: Encoding, st: Delivery, head: int)
    requires StoreRuns.Tracks(enc, st.store, st.history) && Genuine(st.at.position, st.history)
    requires 0 < st.at.position.seqNo <= head <= |st.history|
    ensures var next := st.at.position.seqNo + 1;
      var gap := FindGap(st.at.position, After(st.store.rows, next - 1), head);
      && st.store.rows != []
      && (gap.Some? <==> next < st.store.rows[0].seqNo)
      && (gap.Some? ==> gap.value.reason == Removed(next, st.store.rows[0].seqNo - 1))
  {
    var p := st.at.position;
    NextLinks(enc, st);
    GapByNumbers(p, After(st.store.rows, p.seqNo), head);
  }

  /** What follows a position: nothing, the oldest record of the trail, or the
      record that names the hash of the position. */
  lemma NextLinks(enc: Encoding, st: Delivery)
    requires StoreRuns.Tracks(enc, st.store, st.history) && Genuine(st.at.position, st.history)
    requires 0 < st.at.position.seqNo <= |st.history|
    ensures var p := st.at.position;
      var records := After(st.store.rows, p.seqNo);
      && st.store.rows != []
      && (records == [] ==> st.store.rows[0].seqNo <= p.seqNo)
      && (records != [] ==> records[0].seqNo == Max(p.seqNo + 1, st.store.rows[0].seqNo))
      && (records != [] && records[0].seqNo == p.seqNo + 1 && p.hash != "" ==> records[0].prevHash == p.hash)
  {
    TailOfTrail(enc, st, st.at.position.seqNo);
    FirstAndLast(enc, st.store.rows, st.history);
    if st.at.position.hash != "" {
      LinksToPosition(enc, st.history, st.at.position);
    }
  }

  lemma GapByNumbers(p: Position, records: seq<Row>, head: int)
    requires 0 < p.seqNo <= head
    requires records != [] && records[0].seqNo == p.seqNo + 1 && p.hash != "" ==> records[0].prevHash == p.hash
    ensures var gap := FindGap(p, records, head);
      && (gap.Some? <==> records != [] && records[0].seqNo != p.seqNo + 1)
      && (gap.Some? ==> gap.value.reason == Removed(p.seqNo + 1, records[0].seqNo - 1))
  {
  }

  lemma LinksToPosition(enc: Encoding, history: seq<Row>, p: Position)
    requires StoreRuns.Genuine(enc, history) && Genuine(p, history) && p.seqNo > 0 && p.hash != ""
    ensures p.seqNo < |history| ==> history[p.seqNo].prevHash == p.hash
  {
    if p.seqNo < |history| {
      assert StoreRuns.GenuineAt(enc, history, p.seqNo);
    }
  }

  lemma ReadKeepsInvariant(enc: Encoding, st: Delivery)
    requires Invariant(enc, st)
    ensures Invariant(enc, OwnNext(st, ReadHead)) && Invariant(enc, OwnNext(st, ReadRecords))
  {
    TailOfTrail(enc, st, st.at.position.seqNo);
    if st.round.GotHead? && st.at.position.seqNo > 0 {
      GapReportsExactlyTheRemoved(enc, st, st.round.head);
    }
  }

  /** A batch covers every number from its first record to its last. */
  lemma BatchCovers(records: seq<Row>, history: seq<Row>, received: set<int>, s: int)
    requires records != [] && IsSlice(records, history)
    requires forall r :: r in records ==> r.seqNo in received
    requires records[0].seqNo <= s <= Last(records).seqNo
    ensures s in received
  {
    var i := s - records[0].seqNo;
    assert Last(records).seqNo == records[0].seqNo + (|records| - 1);
    assert records[i].seqNo == s && records[i] in records;
  }

  lemma SavedIsSound(st: Delivery, records: seq<Row>)
    requires Sound(st, st.at) && InHand(st, records) && forall r :: r in records ==> r.seqNo in st.received
    ensures Sound(st, NextReached(st.at, records))
  {
    var next := NextReached(st.at, records);
    var last := |records| - 1;
    assert records[last] == st.history[records[last].seqNo - 1];
    forall s | next.since <= s <= next.position.seqNo ensures s in st.received || Reported(st.reported, s) {
      if s >= records[0].seqNo {
        BatchCovers(records, st.history, st.received, s);
      }
    }
  }

  /** Only positions change, and each of the new ones is sound. */
  lemma MovedIsInvariant(enc: Encoding, st: Delivery, after: Delivery)
    requires Invariant(enc, st)
    requires after == st.(at := after.at, remembered := after.remembered, file := after.file, round := Idle)
    requires Sound(st, after.at) && Sound(st, after.remembered) && Sound(st, after.file)
    ensures Invariant(enc, after)
  {
    SameTrail(st, after, after.at);
    SameTrail(st, after, after.remembered);
    SameTrail(st, after, after.file);
  }

  lemma SameTrail(st: Delivery, after: Delivery, r: Reached)
    requires Sound(st, r) && after.history == st.history
    requires after.received == st.received && after.reported == st.reported
    ensures Sound(after, r)
  {
  }

  lemma SaveKeepsInvariant(enc: Encoding, st: Delivery, written: bool)
    requires Invariant(enc, st) && st.round.Saving?
    ensures Invariant(enc, OwnNext(st, Save(written)))
  {
    SavedIsInvariant(enc, st, written);
  }

  lemma SavedIsInvariant(enc: Encoding, st: Delivery, written: bool)
    requires Invariant(enc, st) && st.round.Saving?
    ensures Invariant(enc, Saved(st, NextReached(st.at, st.round.records), written))
  {
    var next := NextReached(st.at, st.round.records);
    SavedIsSound(st, st.round.records);
    MovedIsInvariant(enc, st, Saved(st, next, written));
  }

  lemma WriteKeepsInvariant(enc: Encoding, st: Delivery, step: StoreRuns.Step)
    requires enc.Valid() && Invariant(enc, st) && StoreRuns.Clean(step)
    ensures Invariant(enc, TrailNext(enc, st, step))
  {
    StoreRuns.StepStaysClean(enc, st.store, st.history, step);
    var after := TrailNext(enc, st, step);
    assert after.history[..|st.history|] == st.history;
  }

  /** More records are received. */
  lemma ReceivedIsInvariant(enc: Encoding, st: Delivery, after: Delivery)
    requires Invariant(enc, st) && st.round.Sending?
    requires st.received <= after.received
    requires after == st.(received := after.received, round := after.round)
    requires after.round == Idle || after.round == st.round
          || (after.round == Saving(st.round.records) && SeqNos(st.round.records) <= after.received)
    ensures Invariant(enc, after)
  {
    MoreReceived(st, after, st.at);
    MoreReceived(st, after, st.remembered);
    MoreReceived(st, after, st.file);
    assert forall r :: r in st.round.records ==> r.seqNo in SeqNos(st.round.records);
  }

  lemma MoreReceived(st: Delivery, after: Delivery, r: Reached)
    requires Sound(st, r) && after.history == st.history
    requires st.received <= after.received && after.reported == st.reported
    ensures Sound(after, r)
  {
  }

  lemma SendKeepsInvariant(enc: Encoding, st: Delivery, step: OwnStep)
    requires Invariant(enc, st) && st.round.Sending?
    requires step.Accept? || step.SendFails? || step.SendSucceeds?
    ensures Invariant(enc, OwnNext(st, step))
  {
    ReceivedIsInvariant(enc, st, OwnNext(st, step));
  }

  /** A step of another part of the round does nothing. */
  predicate Enabled(round: Round, step: OwnStep) {
    match step
    case ReadHead => round.Idle?
    case ReadRecords => round.GotHead?
    case Accept(i) => round.Sending? && i < |round.records|
    case SendFails => round.Sending?
    case SendSucceeds => round.Sending?
    case Save(written) => round.Saving? && round.records != []
    case _ => true
  }

  lemma OtherStepsDoNothing(st: Delivery, step: OwnStep)
    requires !Enabled(st.round, step)
    ensures OwnNext(st, step) == st
  {
  }

  lemma OwnStepKeepsInvariant(enc: Encoding, st: Delivery, step: OwnStep)
    requires Invariant(enc, st) && Enabled(st.round, step)
    ensures Invariant(enc, OwnNext(st, step))
  {
    match step
    case ReadHead => ReadKeepsInvariant(enc, st);
    case ReadRecords => ReadKeepsInvariant(enc, st);
    case Save(written) => SaveKeepsInvariant(enc, st, written);
    case Accept(i) => SendKeepsInvariant(enc, st, step);
    case SendFails => SendKeepsInvariant(enc, st, step);
    case SendSucceeds => SendKeepsInvariant(enc, st, step);
    case _ => MovedIsInvariant(enc, st, OwnNext(st, step));
  }

  lemma StepKeepsInvariant(enc: Encoding, st: Delivery, step: Step)
    requires enc.Valid() && Invariant(enc, st) && (step.Trail? ==> StoreRuns.Clean(step.step))
    ensures Invariant(enc, Next(enc, st, step))
  {
    match step
    case Trail(s) => WriteKeepsInvariant(enc, st, s);
    case Own(own) =>
      if Enabled(st.round, own) {
        OwnStepKeepsInvariant(enc, st, own);
      } else {
        OtherStepsDoNothing(st, own);
      }
  }

  lemma {:induction false} RunKeepsInvariant(enc: Encoding, st: Delivery, steps: seq<Step>)
    requires enc.Valid() && Invariant(enc, st) && Untampered(steps)
    ensures Invariant(enc, Run(enc, st, steps))
    decreases steps
  {
    if steps != [] {
      StepKeepsInvariant(enc, st, steps[0]);
      RunKeepsInvariant(enc, Next(enc, st, steps[0]), steps[1..]);
    }
  }

  /** Delivery at least once. Over every interleaving of writing, pruning,
      failed or partial sends, failed saves, replacement, crashes and lost state
      files, each record from the first one exported up to the saved position
      was accepted by the receiver or lies in a range reported as removed; and
      no position is ever ahead of the trail. */
  lemma DeliveredAtLeastOnce(enc: Encoding, steps: seq<Step>)
    requires enc.Valid() && Untampered(steps)
    ensures var st := Run(enc, FRESH, steps);
      && (forall s :: st.file.since <= s <= st.file.position.seqNo ==> s in st.received || Reported(st.reported, s))
      && (forall s :: st.at.since <= s <= st.at.position.seqNo ==> s in st.received || Reported(st.reported, s))
      && st.file.position.seqNo <= Found(st.store.rows) && st.at.position.seqNo <= Found(st.store.rows)
  {
    RunKeepsInvariant(enc, FRESH, steps);
    InvariantCovers(enc, Run(enc, FRESH, steps));
  }

  lemma InvariantCovers(enc: Encoding, st: Delivery)
    requires Invariant(enc, st)
    ensures forall s :: st.file.since <= s <= st.file.position.seqNo ==> s in st.received || Reported(st.reported, s)
    ensures forall s :: st.at.since <= s <= st.at.position.seqNo ==> s in st.received || Reported(st.reported, s)
    ensures st.file.position.seqNo <= Found(st.store.rows) && st.at.position.seqNo <= Found(st.store.rows)
  {
    TailOfTrail(enc, st, 0);
  }

  /** The saved position is an anchor that an untampered trail keeps passing. */
  lemma SavedPositionsAreAnchors(enc: Encoding, steps: seq<Step>, source: string)
    requires enc.Valid() && Untampered(steps)
    ensures var st := Run(enc, FRESH, steps);
      forall a :: a in AnchorsOf(map[source := st.file.position]) ==> AnchorHolds(st.store.rows, a)
  {
    RunKeepsInvariant(enc, FRESH, steps);
    var st := Run(enc, FRESH, steps);
    PositionHolds(enc, st.store, st.history, st.file.position, source);
  }

  /** The anchors are exactly the saved positions, but for those of nothing and
      those without a hash. */
  lemma AnchorsAreThePositions(positions: map<string, Position>, a: Anchor)
    ensures a in AnchorsOf(positions) <==>
      a.source in positions && positions[a.source] == Position(a.seqNo, a.hash) && a.seqNo >= 1 && a.hash != ""
  {
  }

  /** Where the next round goes on after a batch was delivered. If its position was
      saved, right after the batch, whatever stops; if it could not be written, a
      process that stops goes back to the file and sends the batch again, one
      that only starts new exporters does not. */
  lemma WhereItGoesOn(st: Delivery)
    requires st.round.Saving? && st.round.records != []
    ensures var (good, bad) := (OwnNext(st, Save(true)), OwnNext(st, Save(false)));
      var last := Position(Last(st.round.records).seqNo, Last(st.round.records).hash);
      && good.at.position == OwnNext(good, Crash).at.position == OwnNext(good, Replace).at.position == last
      && OwnNext(bad, Crash).at == OwnNext(bad, Crash).remembered == st.file
      && OwnNext(bad, Replace).at.position == last && bad.at == st.at
      && good.round == bad.round == Idle
      && good.received == bad.received == OwnNext(bad, Crash).received == st.received
  {
  }

  lemma PositionHolds(enc: Encoding, store: State, history: seq<Row>, p: Position, source: string)
    requires StoreRuns.Tracks(enc, store, history) && Genuine(p, history)
    ensures p.seqNo > 0 && p.hash != "" ==> AnchorHolds(store.rows, Anchor(p.seqNo, p.hash, source))
  {
    if p.seqNo > 0 && p.hash != "" {
      WrittenRowsHold(enc, store, history, p.seqNo - 1, source);
      assert StoreRuns.GenuineAt(enc, history, p.seqNo - 1);
    }
  }

  // ----- before the first delivery -----

  /** The three steps of a round after its number is read, all going well. */
  function Delivered(st: Delivery): Delivery {
    OwnNext(OwnNext(OwnNext(st, ReadRecords), SendSucceeds), Save(true))
  }

  /** Without a position the check is silent: a first round that finds the
      start of the trail pruned saves a position beyond the missing records,
      which stay as they were, neither accepted nor reported. */
  lemma PrunedStartIsSkipped(enc: Encoding, st: Delivery)
    requires Invariant(enc, st) && st.round.GotHead? && st.at.position.seqNo == 0
    requires st.store.rows != [] && 1 < st.store.rows[0].seqNo
    ensures var after := Delivered(st);
      && after.file.position.seqNo >= st.store.rows[0].seqNo
      && after.reported == st.reported
      && forall s :: 1 <= s < st.store.rows[0].seqNo ==> (s in after.received <==> s in st.received)
  {
    var records := After(st.store.rows, 0);
    TailOfTrail(enc, st, 0);
    FirstReadFindsNoGap(st, records);
    var i := |records| - 1;
    assert records[i].seqNo == records[0].seqNo + i;
    SentAndSaved(OwnNext(st, ReadRecords), records);
  }

  lemma FirstReadFindsNoGap(st: Delivery, records: seq<Row>)
    requires st.round.GotHead? && st.at.position.seqNo == 0 <= st.round.head
    requires records == After(st.store.rows, 0) != []
    ensures OwnNext(st, ReadRecords) == st.(round := Sending(records))
  {
    assert st.reported + [] == st.reported;
  }

  lemma SentAndSaved(st: Delivery, records: seq<Row>)
    requires records != [] && st.round == Sending(records)
    ensures var after := OwnNext(OwnNext(st, SendSucceeds), Save(true));
      && after.received == st.received + SeqNos(records) && after.reported == st.reported
      && after.file.position.seqNo == Last(records).seqNo
  {
  }

  /** Every record up to the position was accepted or reported, from record 1. */
  ghost predicate CoveredTo(st: Delivery, seqNo: int) {
    forall s :: 1 <= s <= seqNo ==> s in st.received || Reported(st.reported, s)
  }

  /** A first round that goes well leaves nothing out exactly if the records
      before the start of the trail were accepted or reported before. */
  lemma FirstRoundCoversIff(enc: Encoding, st: Delivery)
    requires Invariant(enc, st) && st.round.GotHead? && st.at.position.seqNo == 0 && st.store.rows != []
    ensures CoveredTo(Delivered(st), Delivered(st).file.position.seqNo)
       <==> CoveredTo(st, st.store.rows[0].seqNo - 1)
  {
    var records, first := After(st.store.rows, 0), st.store.rows[0].seqNo;
    TailOfTrail(enc, st, 0);
    FirstReadFindsNoGap(st, records);
    FirstAndLast(enc, st.store.rows, st.history);
    SentAndSaved(OwnNext(st, ReadRecords), records);
    BatchSpans(records, st.history);
    var after := Delivered(st);
    forall s | first <= s <= Last(records).seqNo ensures s in after.received {
      BatchCovers(records, st.history, after.received, s);
    }
    forall s | s < first ensures s in after.received <==> s in st.received {
      assert forall r :: r in records ==> r.seqNo >= first;
    }
  }

  lemma BatchSpans(records: seq<Row>, history: seq<Row>)
    requires records != [] && IsSlice(records, history)
    ensures Last(records).seqNo == records[0].seqNo + |records| - 1
    ensures forall r :: r in records ==> r.seqNo >= records[0].seqNo && r.seqNo in SeqNos(records)
  {
    assert Last(records) == records[|records| - 1];
  }

  // ----- nothing is left out, over runs -----

  /** No position that the exporter holds or has saved leaves a record out. */
  ghost predicate Complete(st: Delivery) {
    && CoveredTo(st, st.at.position.seqNo)
    && CoveredTo(st, st.remembered.position.seqNo)
    && CoveredTo(st, st.file.position.seqNo)
  }

  /** A round that began without a position gets its first one, and a record
      before its batch was neither accepted nor reported. */
  ghost predicate SkipsStart(st: Delivery, step: Step) {
    && step.Own? && step.own.Save?
    && st.round.Saving? && st.round.records != [] && st.at.position.seqNo == 0
    && !CoveredTo(st, st.round.records[0].seqNo - 1)
  }

  lemma MoreCovered(st: Delivery, after: Delivery, seqNo: int)
    requires CoveredTo(st, seqNo) && st.received <= after.received
    requires forall r :: r in st.reported ==> r in after.reported
    ensures CoveredTo(after, seqNo)
  {
    forall s | 1 <= s <= seqNo && s !in st.received ensures Reported(after.reported, s) {
      var r :| r in st.reported && r.first <= s <= r.last;
      assert r in after.reported;
    }
  }

  lemma SaveCompletesIff(st: Delivery, written: bool)
    requires Complete(st) && st.round.Saving? && InHand(st, st.round.records) && st.at.position.seqNo >= 0
    requires forall r :: r in st.round.records ==> r.seqNo in st.received
    ensures Complete(OwnNext(st, Save(written))) <==> !SkipsStart(st, Own(Save(written)))
  {
    var records := st.round.records;
    var next := NextReached(st.at, records);
    BatchSpans(records, st.history);
    forall s | records[0].seqNo <= s <= next.position.seqNo ensures s in st.received {
      BatchCovers(records, st.history, st.received, s);
    }
    SaveCovers(st, next.position.seqNo, records[0].seqNo);
    SavedCoversSame(st, next, written);
    assert OwnNext(st, Save(written)) == Saved(st, next, written);
  }

  /** Up to the batch nothing is left out, except before a first one. */
  lemma SaveCovers(st: Delivery, last: int, first: int)
    requires CoveredTo(st, st.at.position.seqNo) && st.at.position.seqNo < first <= last
    requires st.at.position.seqNo > 0 ==> forall s :: st.at.position.seqNo < s < first ==> Reported(st.reported, s)
    requires forall s :: first <= s <= last ==> s in st.received
    ensures CoveredTo(st, last) <==> CoveredTo(st, first - 1)
    ensures st.at.position.seqNo > 0 ==> CoveredTo(st, first - 1)
  {
  }

  lemma SavedCoversSame(st: Delivery, next: Reached, written: bool)
    requires Complete(st)
    ensures Complete(Saved(st, next, written)) <==> CoveredTo(st, next.position.seqNo)
  {
  }

  lemma ReadStaysComplete(enc: Encoding, st: Delivery)
    requires Invariant(enc, st) && Complete(st) && st.round.GotHead?
    ensures Complete(OwnNext(st, ReadRecords))
  {
    var after := OwnNext(st, ReadRecords);
    MoreCovered(st, after, st.at.position.seqNo);
    MoreCovered(st, after, st.remembered.position.seqNo);
    MoreCovered(st, after, st.file.position.seqNo);
  }

  lemma OtherStepStaysComplete(st: Delivery, step: OwnStep)
    requires Complete(st) && Enabled(st.round, step) && !step.Save? && !step.ReadRecords?
    ensures Complete(OwnNext(st, step))
  {
    var after := OwnNext(st, step);
    MoreCovered(st, after, st.at.position.seqNo);
    MoreCovered(st, after, st.remembered.position.seqNo);
    MoreCovered(st, after, st.file.position.seqNo);
  }

  lemma OnlySavesSkip(st: Delivery, step: OwnStep)
    requires !step.Save? || !Enabled(st.round, step)
    ensures !SkipsStart(st, Own(step))
  {
  }

  lemma OwnStepCompletesIff(enc: Encoding, st: Delivery, step: OwnStep)
    requires Invariant(enc, st) && Complete(st) && Enabled(st.round, step)
    ensures Complete(OwnNext(st, step)) <==> !SkipsStart(st, Own(step))
  {
    if step.Save? {
      SaveCompletesIff(st, step.written);
    } else {
      OnlySavesSkip(st, step);
      OtherStepsComplete(enc, st, step);
    }
  }

  lemma OtherStepsComplete(enc: Encoding, st: Delivery, step: OwnStep)
    requires Invariant(enc, st) && Complete(st) && Enabled(st.round, step) && !step.Save?
    ensures Complete(OwnNext(st, step))
  {
    if step.ReadRecords? {
      ReadStaysComplete(enc, st);
    } else {
      OtherStepStaysComplete(st, step);
    }
  }

  lemma IdleStepCompletes(st: Delivery, step: OwnStep)
    requires Complete(st) && !Enabled(st.round, step)
    ensures Complete(OwnNext(st, step)) && !SkipsStart(st, Own(step))
  {
    OtherStepsDoNothing(st, step);
    OnlySavesSkip(st, step);
  }

  lemma StepCompletesIff(enc: Encoding, st: Delivery, step: Step)
    requires Invariant(enc, st) && Complete(st)
    ensures Complete(Next(enc, st, step)) <==> !SkipsStart(st, step)
  {
    match step
    case Trail(s) => WriteStaysComplete(enc, st, s);
    case Own(own) =>
      if Enabled(st.round, own) {
        OwnStepCompletesIff(enc, st, own);
      } else {
        IdleStepCompletes(st, own);
      }
  }

  lemma WriteStaysComplete(enc: Encoding, st: Delivery, step: StoreRuns.Step)
    requires Complete(st)
    ensures Complete(TrailNext(enc, st, step))
  {
  }

  ghost predicate AlwaysComplete(enc: Encoding, st: Delivery, steps: seq<Step>)
    decreases steps
  {
    Complete(st) && (steps != [] ==> AlwaysComplete(enc, Next(enc, st, steps[0]), steps[1..]))
  }

  ghost predicate SomeSkip(enc: Encoding, st: Delivery, steps: seq<Step>)
    decreases steps
  {
    steps != [] && (SkipsStart(st, steps[0]) || SomeSkip(enc, Next(enc, st, steps[0]), steps[1..]))
  }

  lemma {:induction false} RunCompletesIff(enc: Encoding, st: Delivery, steps: seq<Step>)
    requires enc.Valid() && Invariant(enc, st) && Untampered(steps) && Complete(st)
    ensures AlwaysComplete(enc, st, steps) <==> !SomeSkip(enc, st, steps)
    decreases steps
  {
    if steps != [] {
      var after := Next(enc, st, steps[0]);
      StepKeepsInvariant(enc, st, steps[0]);
      StepCompletesIff(enc, st, steps[0]);
      if Complete(after) {
        RunCompletesIff(enc, after, steps[1..]);
      }
    }
  }

  /** Over every run, no position ever leaves a record out, from record 1 on,
      exactly if no first position is taken beyond a record that was neither
      accepted nor reported. */
  lemma NothingIsSkippedIff(enc: Encoding, steps: seq<Step>)
    requires enc.Valid() && Untampered(steps)
    ensures AlwaysComplete(enc, FRESH, steps) <==> !SomeSkip(enc, FRESH, steps)
  {
    RunCompletesIff(enc, FRESH, steps);
  }

  /** A run in which that happens: retention deletes record 1 before the first
      round. */
  function SkippingRun(): seq<Step> {
    [Trail(StoreRuns.Append([OldEntry(), OldEntry()], true)),
     Trail(StoreRuns.Prune(SECOND, SECOND, SECOND, true)),
     Own(ReadHead)]
  }

  lemma SkippingRunLosesRecord(enc: Encoding)
    requires enc.Valid()
    ensures var after := Delivered(Run(enc, FRESH, SkippingRun()));
      && after.file.position.seqNo > 1
      && 1 !in after.received && !Reported(after.reported, 1)
  {
    RunKeepsInvariant(enc, FRESH, SkippingRun());
    var st := Run(enc, FRESH, SkippingRun());
    PrunedBeforeFirstRound(enc);
    PrunedStartIsSkipped(enc, st);
  }

  lemma PrunedBeforeFirstRound(enc: Encoding)
    ensures var st := Run(enc, FRESH, SkippingRun());
      && st.round.GotHead? && st.at == START_OVER && st.received == {} && st.reported == []
      && st.store.rows != [] && st.store.rows[0].seqNo == 2
  {
    var steps := SkippingRun();
    assert steps[1..][1..] == steps[2..] && steps[2..][1..] == [];
    var one := Next(enc, FRESH, steps[0]);
    var two := Next(enc, one, steps[1]);
    assert Run(enc, FRESH, steps) == Run(enc, one, steps[1..]) == Run(enc, two, steps[2..]);
    assert Run(enc, two, steps[2..]) == Next(enc, two, steps[2]);
    TwoRecordsPruned(enc);
  }

  lemma TwoRecordsPruned(enc: Encoding)
    ensures var rows := AppendTo(enc, EMPTY, [OldEntry(), OldEntry()]);
      var (after, result) := StoreSpec.Prune(enc, rows, SECOND, SECOND, SECOND);
      after.rows != [] && after.rows[0].seqNo == 2
  {
    var entries := [OldEntry(), OldEntry()];
    var st := AppendTo(enc, EMPTY, entries);
    AppendKeepsUsable(enc, EMPTY, entries);
    RowWritten(enc, START, entries, 0);
    RowWritten(enc, START, entries, 1);
    var k := LimitIsRow(st.rows, SECOND);
    PruneOutcome(enc, st, SECOND, SECOND, SECOND, 1);
  }
}

/**
 The exporter against a trail that anyone may replace at any time, by any other.
 */
module TamperedExport {
  import opened Prelude
  import opened Chain
  import opened StoreSpec
  import opened Exporter
  import opened ExportRuns

  /** A step as before, or the trail is replaced. */
  datatype AnyStep = Regular(step: ExportRuns.Step) | Replaced(store: State)

  /** Besides the state: the records that the receiver accepted in whole batches. */
  datatype World = World(st: Delivery, accepted: seq<Row>)

  const START: World := World(FRESH, [])

  function AnyNext(enc: Encoding, w: World, step: AnyStep): World {
    match step
    case Replaced(store) => w.(st := w.st.(store := store))
    case Regular(s) =>
      World(Next(enc, w.st, s),
            if s.Own? && s.own.SendSucceeds? && w.st.round.Sending?
            then w.accepted + w.st.round.records else w.accepted)
  }

  function AnyRun(enc: Encoding, w: World, steps: seq<AnyStep>): World
    decreases steps
  {
    if steps == [] then w else AnyRun(enc, AnyNext(enc, w, steps[0]), steps[1..])
  }

  /** There is no position, or it is that of an accepted record. */
  ghost predicate IsKnown(p: Position, accepted: seq<Row>) {
    p == NOWHERE || exists r :: r in accepted && p == Position(r.seqNo, r.hash)
  }

  ghost predicate PositionsAreKnown(w: World) {
    && IsKnown(w.st.at.position, w.accepted)
    && IsKnown(w.st.remembered.position, w.accepted)
    && IsKnown(w.st.file.position, w.accepted)
    && (w.st.round.Saving? ==> forall r :: r in w.st.round.records ==> r in w.accepted)
  }

  lemma MoreAccepted(p: Position, accepted: seq<Row>, more: seq<Row>)
    requires IsKnown(p, accepted)
    ensures IsKnown(p, accepted + more)
  {
    if p != NOWHERE {
      var r :| r in accepted && p == Position(r.seqNo, r.hash);
      assert r in accepted + more;
    }
  }

  lemma StepKeepsKnown(enc: Encoding, w: World, step: AnyStep)
    requires PositionsAreKnown(w)
    ensures PositionsAreKnown(AnyNext(enc, w, step))
  {
    if step.Regular? && step.step.Own? {
      var own := step.step.own;
      if own.SendSucceeds? && w.st.round.Sending? {
        MoreAccepted(w.st.at.position, w.accepted, w.st.round.records);
        MoreAccepted(w.st.remembered.position, w.accepted, w.st.round.records);
        MoreAccepted(w.st.file.position, w.accepted, w.st.round.records);
      } else if own.Save? && w.st.round.Saving? && w.st.round.records != [] {
        assert Last(w.st.round.records) in w.accepted;
      }
    }
  }

  lemma {:induction false} RunKeepsKnown(enc: Encoding, w: World, steps: seq<AnyStep>)
    requires PositionsAreKnown(w)
    ensures PositionsAreKnown(AnyRun(enc, w, steps))
    decreases steps
  {
    if steps != [] {
      StepKeepsKnown(enc, w, steps[0]);
      RunKeepsKnown(enc, AnyNext(enc, w, steps[0]), steps[1..]);
    }
  }

  /** The batch begins right after a record that was accepted before, and links to
      it. */
  ghost predicate GoesOn(accepted: seq<Row>, position: Position, batch: seq<Row>) {
    exists r :: r in accepted && position == Position(r.seqNo, r.hash)
      && batch != [] && batch[0].seqNo == r.seqNo + 1 && (r.hash != "" ==> batch[0].prevHash == r.hash)
  }

  /** The round begins with the first record of the trail, without a position. */
  predicate StartsOver(st: Delivery, rows: seq<Row>) {
    && st.at.position == NOWHERE
    && (rows != [] && rows[0].seqNo >= 1 ==>
          st.round.Sending? && st.round.records != [] && st.round.records[0] == rows[0])
  }

  /** Whatever was done to the trail, a round that has a position reports no gap
      exactly if the trail reaches it and goes on right where the last delivery
      it knows of ended, or not at all; and then it sends just that. If the trail
      does not reach the position, the round starts over with its first record. */
  lemma SilentRoundGoesOn(enc: Encoding, steps: seq<AnyStep>)
    ensures var w := AnyRun(enc, START, steps);
      var p, after := w.st.at.position, OwnNext(w.st, ReadRecords);
      var batch := After(w.st.store.rows, p.seqNo);
      w.st.round.GotHead? && p.seqNo != 0 ==>
        var gap := FindGap(p, batch, w.st.round.head);
        && (gap.None? <==> p.seqNo <= w.st.round.head && (batch == [] || GoesOn(w.accepted, p, batch)))
        && (gap.None? ==> after.round == if batch == [] then Idle else Sending(batch))
        && (p.seqNo > w.st.round.head ==> StartsOver(after, w.st.store.rows))
  {
    RunKeepsKnown(enc, START, steps);
    var w := AnyRun(enc, START, steps);
    var p := w.st.at.position;
    if w.st.round.GotHead? && p.seqNo != 0 {
      var r :| r in w.accepted && p == Position(r.seqNo, r.hash);
      NoGapIffContinued(p, After(w.st.store.rows, p.seqNo), w.st.round.head);
    }
  }
}
