/**
 A trail that lost its newest records. The `chain_head` row survives, so the
 reopened store goes on numbering after the newest record ever written, and the
 hole stays visible to the verifier until retention deletes the record after it.
 */
module LostTail {
  import opened Prelude
  import opened Event
  import opened Chain
  import opened StoreSpec
  import opened StoreRuns

  // ----- numbers are never reused -----

  /** The writer and `chain_head` agree on the newest number ever written. */
  ghost predicate Numbered(st: State) {
    && Usable(st)
    && (st.chainHead.Some? ==> st.chainHead.value.seqNo == st.head.seqNo)
    && (st.chainHead.None? ==> st.rows == [] && st.head == START)
    && st.head.seqNo >= 0
  }

  lemma AppendNumbers(enc: Encoding, st: State, entries: seq<AuditEntry>)
    requires Numbered(st)
    ensures Numbered(AppendTo(enc, st, entries)) && Consecutive(Extend(enc, st.head, entries), st.head.seqNo)
    ensures AppendTo(enc, st, entries).head.seqNo == st.head.seqNo + |entries|
  {
    AppendKeepsUsable(enc, st, entries);
    forall i | 0 <= i < |entries|
      ensures Extend(enc, st.head, entries)[i].seqNo == st.head.seqNo + 1 + i
    {
      ExtendAt(enc, st.head, entries, i);
    }
  }

  ghost predicate Consecutive(rows: seq<Row>, after: int) {
    forall i :: 0 <= i < |rows| ==> rows[i].seqNo == after + 1 + i
  }

  lemma OpenNumbers(enc: Encoding, st: State, rows: seq<Row>, stamp: Time)
    requires Numbered(st) && rows <= st.rows
    ensures var (after, written) := (Opened(enc, rows, st.chainHead, stamp), OpenWrites(enc, rows, st.chainHead, stamp));
      Numbered(after) && Consecutive(written, st.head.seqNo) && after.head.seqNo == st.head.seqNo + |written|
  {
    var resumed := State(rows, st.chainHead, Resume(rows, st.chainHead));
    assert rows != [] ==> Last(rows) in st.rows;
    assert resumed.head.seqNo == st.head.seqNo;
    if Truncated(rows, st.chainHead) {
      AppendNumbers(enc, resumed, [GatewayEntry(stamp, TrailTruncated(resumed.head.seqNo, Found(rows)))]);
    }
  }

  lemma PruneNumbers(enc: Encoding, st: State, cut: int, hash: string, stamp: Time)
    requires Numbered(st) && st.chainHead.Some?
    ensures var (after, written) := (PruneAt(enc, st, cut, hash, stamp), PruneRecord(enc, st, cut, hash, stamp));
      Numbered(after) && Consecutive(written, st.head.seqNo) && after.head.seqNo == st.head.seqNo + |written|
  {
    var kept := st.(rows := RowsAfter(st.rows, cut));
    RowsAfterIsTail(st.rows, cut);
    KeptUsable(st, kept.rows);
    AppendNumbers(enc, kept, [GatewayEntry(stamp, RetentionPruned(Deleted(st.rows, cut), cut, hash))]);
  }

  lemma KeptUsable(st: State, kept: seq<Row>)
    requires Usable(st) && IsSuffix(kept, st.rows)
    ensures Usable(st.(rows := kept))
  {
  }

  lemma StepNumbers(enc: Encoding, st: State, step: Step)
    requires Numbered(st)
    ensures var (after, written) := (Next(enc, st, step), Written(enc, st, step));
      Numbered(after) && Consecutive(written, st.head.seqNo) && after.head.seqNo == st.head.seqNo + |written|
  {
    match step
    case Append(entries, commits) => AppendNumbers(enc, st, entries);
    case Prune(now, cutoff, stamp, commits) =>
      var cut := PruneCut(st.rows, now, cutoff);
      if cut.Some? && HashAt(st.rows, cut.value).Some? {
        PruneNumbers(enc, st, cut.value, HashAt(st.rows, cut.value).value, stamp);
      }
    case Reopen(stamp) => OpenNumbers(enc, st, st.rows, stamp);
    case LoseTail(keep, stamp) => OpenNumbers(enc, st, Left(st.rows, keep), stamp);
  }

  lemma {:induction false} RunNumbers(enc: Encoding, st: State, steps: seq<Step>)
    requires Numbered(st)
    ensures Consecutive(History(enc, st, steps), st.head.seqNo)
    decreases steps
  {
    if steps != [] {
      StepNumbers(enc, st, steps[0]);
      RunNumbers(enc, Next(enc, st, steps[0]), steps[1..]);
    }
  }

  /** However often the newest records are lost, the records that a run inserts
      are numbered 1, 2, 3 and so on: no number is ever given twice, nor skipped. */
  lemma NumbersAreNeverReused(enc: Encoding, steps: seq<Step>)
    ensures forall i :: 0 <= i < |History(enc, EMPTY, steps)| ==> History(enc, EMPTY, steps)[i].seqNo == i + 1
  {
    RunNumbers(enc, EMPTY, steps);
  }

  // ----- the hole stays visible -----

  predicate VouchesFor(enc: Encoding, r: Row, seqNo: int) {
    var entry := enc.decode(r.body);
    entry.Some? && entry.value.event.RetentionPruned? && entry.value.event.lastSeq == seqNo
  }

  /** Record `g` is there, its predecessor is not, and nothing vouches for that:
      `front` is what is left from before the hole. */
  ghost predicate HoledAt(enc: Encoding, st: State, history: seq<Row>, front: seq<Row>, g: int) {
    && Genuine(enc, history) && 2 <= g <= |history|
    && st.head == HeadAfter(START, history) && st.chainHead == Some(st.head)
    && st.rows == front + history[g - 1..]
    && Ascending(front) && KeysUpTo(front, g - 2)
    && Unvouched(enc, st.rows, g)
  }

  ghost predicate Unvouched(enc: Encoding, rows: seq<Row>, g: int) {
    VouchersBounded(enc, rows) && forall r :: r in rows ==> !VouchesFor(enc, r, g - 1)
  }

  ghost predicate Holed(enc: Encoding, st: State, history: seq<Row>, g: int) {
    exists front :: HoledAt(enc, st, history, front, g)
  }

  /** Retention has deleted record `g`; what is left is whole again. */
  ghost predicate Healed(enc: Encoding, st: State, history: seq<Row>, g: int) {
    CleanState(enc, st, history) && st.rows != [] && st.rows[0].seqNo > g
  }

  lemma TailFrom(enc: Encoding, history: seq<Row>, g: int)
    requires Genuine(enc, history) && 1 <= g <= |history|
    ensures var tail := history[g - 1..];
      && IsSuffix(tail, history) && tail != [] && Last(tail) == Last(history)
      && (forall i :: 0 <= i < |tail| ==> tail[i].seqNo == g + i)
      && KeysUpTo(tail, HeadAfter(START, history).seqNo)
  {
    DropIsSuffix(history, g - 1, history);
    TailOfGenuine(enc, history[g - 1..], history);
    assert GenuineAt(enc, history, |history| - 1);
  }

  lemma HoledFacts(enc: Encoding, st: State, history: seq<Row>, front: seq<Row>, g: int)
    requires HoledAt(enc, st, history, front, g)
    ensures st.rows != [] && st.rows[0].seqNo <= g && Last(st.rows) == Last(history)
    ensures KeysUpTo(st.rows, st.head.seqNo)
    ensures !Truncated(st.rows, st.chainHead) && Opened(enc, st.rows, st.chainHead, 0) == st
  {
    TailFrom(enc, history, g);
    assert front != [] ==> front[0] in front;
  }

  lemma HoledFails(enc: Encoding, st: State, history: seq<Row>, front: seq<Row>, g: int)
    requires HoledAt(enc, st, history, front, g)
    ensures !ChainOk(enc, st.rows)
  {
    TailFrom(enc, history, g);
    assert st.rows[|front|].seqNo == g;
    if front != [] {
      assert st.rows[|front| - 1] == Last(front) && Last(front) in front;
      assert !Follows(st.rows[|front| - 1], st.rows[|front|]);
    } else {
      forall k | 0 <= k < |st.rows|
        ensures !Vouches(enc, st.rows[k], st.rows[0].seqNo - 1, st.rows[0].prevHash)
      {
        assert st.rows[k] in st.rows;
        assert !VouchesFor(enc, st.rows[k], g - 1);
      }
    }
  }

  lemma HoledAppend(enc: Encoding, st: State, history: seq<Row>, front: seq<Row>, g: int, entries: seq<AuditEntry>)
    requires enc.Valid() && HoledAt(enc, st, history, front, g)
    requires forall e :: e in entries && e.event.RetentionPruned? ==>
      e.event.lastSeq < st.rows[0].seqNo && e.event.lastSeq != g - 1
    ensures HoledAt(enc, AppendTo(enc, st, entries), history + Extend(enc, st.head, entries), front, g)
  {
    var added := Extend(enc, st.head, entries);
    ExtendIsGenuine(enc, history, entries);
    HeadAfterConcat(START, history, added);
    assert (history + added)[g - 1..] == history[g - 1..] + added;
    ConcatAssociates(front, history[g - 1..], added);
    UnvouchedAppend(enc, st.rows, g, added, entries);
  }

  lemma UnvouchedAppend(enc: Encoding, rows: seq<Row>, g: int, added: seq<Row>, entries: seq<AuditEntry>)
    requires rows != [] && Unvouched(enc, rows, g) && |added| == |entries|
    requires forall i :: 0 <= i < |added| ==> enc.decode(added[i].body) == Some(entries[i])
    requires forall e :: e in entries && e.event.RetentionPruned? ==>
      e.event.lastSeq < rows[0].seqNo && e.event.lastSeq != g - 1
    ensures Unvouched(enc, rows + added, g)
  {
    forall r | r in rows + added
      ensures VouchesBelow(enc, r, rows[0].seqNo) && !VouchesFor(enc, r, g - 1)
    {
      if r in added {
        var i :| 0 <= i < |added| && added[i] == r;
        assert entries[i] in entries;
      }
    }
  }

  /** Deleting from before the hole leaves the hole. */
  lemma HoleKept(enc: Encoding, st: State, history: seq<Row>, front: seq<Row>, g: int, cut: int)
    requires HoledAt(enc, st, history, front, g) && cut < g - 1
    ensures HoledAt(enc, st.(rows := RowsAfter(st.rows, cut)), history, RowsAfter(front, cut), g)
    ensures forall r :: r in RowsAfter(st.rows, cut) ==> r.seqNo > cut
  {
    TailFrom(enc, history, g);
    var tail := history[g - 1..];
    RowsAfterConcat(front, tail, cut);
    RowsAfterAll(tail, cut);
    RowsAfterIsTail(front, cut);
    var kept := RowsAfter(front, cut);
    assert forall r :: r in kept ==> r in front;
    UnvouchedTail(enc, st.rows, kept + tail, g);
  }

  lemma UnvouchedTail(enc: Encoding, rows: seq<Row>, kept: seq<Row>, g: int)
    requires Unvouched(enc, rows, g) && rows != [] && kept != []
    requires (forall r :: r in kept ==> r in rows) && rows[0].seqNo <= kept[0].seqNo
    ensures Unvouched(enc, kept, g)
  {
    forall r | r in kept ensures VouchesBelow(enc, r, kept[0].seqNo) {
      assert VouchesBelow(enc, r, rows[0].seqNo);
    }
  }

  lemma CutBeforeHole(enc: Encoding, st: State, history: seq<Row>, front: seq<Row>, g: int,
                      cut: int, hash: string, stamp: Time)
    requires enc.Valid() && HoledAt(enc, st, history, front, g) && cut < g - 1
    ensures var after := PruneAt(enc, st, cut, hash, stamp);
      HoledAt(enc, after, history + PruneRecord(enc, st, cut, hash, stamp), RowsAfter(front, cut), g)
  {
    HoleKept(enc, st, history, front, g, cut);
    var kept := st.(rows := RowsAfter(st.rows, cut));
    var entry := GatewayEntry(stamp, RetentionPruned(Deleted(st.rows, cut), cut, hash));
    HoledFacts(enc, kept, history, RowsAfter(front, cut), g);
    HoledAppend(enc, kept, history, RowsAfter(front, cut), g, [entry]);
  }

  /** Deleting past the hole leaves a whole trail. */
  lemma CutPastHole(enc: Encoding, st: State, history: seq<Row>, front: seq<Row>, g: int,
                    cut: int, hash: string, stamp: Time)
    requires enc.Valid() && HoledAt(enc, st, history, front, g) && g <= cut < Last(st.rows).seqNo
    requires HashAt(st.rows, cut) == Some(hash)
    ensures var after := PruneAt(enc, st, cut, hash, stamp);
      Healed(enc, after, history + PruneRecord(enc, st, cut, hash, stamp), g)
  {
    PastHole(enc, st, history, front, g, cut);
    var kept := RowsAfter(st.rows, cut);
    CutLeavesClean(enc, st, history, cut, hash, stamp);
    assert PruneAt(enc, st, cut, hash, stamp).rows[0] == kept[0];
  }

  lemma PastHole(enc: Encoding, st: State, history: seq<Row>, front: seq<Row>, g: int, cut: int)
    requires HoledAt(enc, st, history, front, g) && g <= cut < Last(st.rows).seqNo
    ensures var kept := RowsAfter(st.rows, cut);
      && Tracks(enc, st.(rows := kept), history)
      && IsSuffix(kept, st.rows) && kept != [] && kept[0].seqNo == cut + 1 && st.rows[0].seqNo <= cut
      && HashAt(st.rows, cut) == Some(kept[0].prevHash)
  {
    HoledFacts(enc, st, history, front, g);
    TailFrom(enc, history, g);
    var tail := history[g - 1..];
    KeptTracks(enc, st.(rows := tail), history, cut);
    CutBehind(front, tail, cut);
  }

  lemma CutBehind(front: seq<Row>, tail: seq<Row>, cut: int)
    requires (forall r :: r in front ==> r.seqNo < cut) && IsSuffix(RowsAfter(tail, cut), tail)
    ensures RowsAfter(front + tail, cut) == RowsAfter(tail, cut) && HashAt(front + tail, cut) == HashAt(tail, cut)
    ensures IsSuffix(RowsAfter(tail, cut), front + tail)
  {
    HashBehind(front, tail, cut);
    RowsAfterConcat(front, tail, cut);
    RowsAfterNone(front, cut);
    SuffixBehind(RowsAfter(tail, cut), front, tail);
  }

  lemma SuffixBehind<T>(s: seq<T>, front: seq<T>, t: seq<T>)
    requires IsSuffix(s, t)
    ensures IsSuffix(s, front + t)
  {
  }

  lemma {:induction false} HashBehind(front: seq<Row>, tail: seq<Row>, seqNo: int)
    requires forall r :: r in front ==> r.seqNo != seqNo
    ensures HashAt(front + tail, seqNo) == HashAt(tail, seqNo)
  {
    if front == [] {
      assert front + tail == tail;
    } else {
      assert (front + tail)[1..] == front[1..] + tail;
      HashBehind(front[1..], tail, seqNo);
    }
  }

  /** There is no record to cut at right before the hole. */
  lemma NoCutInHole(enc: Encoding, st: State, history: seq<Row>, front: seq<Row>, g: int)
    requires HoledAt(enc, st, history, front, g)
    ensures HashAt(st.rows, g - 1).None?
  {
    TailFrom(enc, history, g);
    HashBehind(front, history[g - 1..], g - 1);
  }

  lemma HoledPrune(enc: Encoding, st: State, history: seq<Row>, front: seq<Row>, g: int,
                   now: Time, cutoff: Time, stamp: Time)
    requires enc.Valid() && HoledAt(enc, st, history, front, g)
    ensures var after := StoreSpec.Prune(enc, st, now, cutoff, stamp).0;
      var past := history + PruneWrites(enc, st, now, cutoff, stamp);
      Holed(enc, after, past, g) || Healed(enc, after, past, g)
  {
    HoledFacts(enc, st, history, front, g);
    assert history + [] == history;
    var cut := PruneCut(st.rows, now, cutoff);
    if cut.Some? && HashAt(st.rows, cut.value).Some? {
      var hash := HashAt(st.rows, cut.value).value;
      NoCutInHole(enc, st, history, front, g);
      if cut.value < g - 1 {
        CutBeforeHole(enc, st, history, front, g, cut.value, hash, stamp);
      } else {
        CutPastHole(enc, st, history, front, g, cut.value, hash, stamp);
      }
    }
  }

  lemma HoledStep(enc: Encoding, st: State, history: seq<Row>, front: seq<Row>, g: int, step: Step)
    requires enc.Valid() && HoledAt(enc, st, history, front, g) && Clean(step)
    ensures var after := Next(enc, st, step);
      var past := history + Written(enc, st, step);
      Holed(enc, after, past, g) || Healed(enc, after, past, g)
  {
    HoledFacts(enc, st, history, front, g);
    assert history + [] == history;
    match step
    case Append(entries, commits) =>
      if commits {
        HoledAppend(enc, st, history, front, g, entries);
      }
    case Prune(now, cutoff, stamp, _) => HoledPrune(enc, st, history, front, g, now, cutoff, stamp);
    case Reopen(stamp) =>
  }

  lemma HealedStep(enc: Encoding, st: State, history: seq<Row>, g: int, step: Step)
    requires enc.Valid() && Healed(enc, st, history, g) && Clean(step)
    ensures var after := Next(enc, st, step);
      Healed(enc, after, history + Written(enc, st, step), g)
  {
    StepStaysClean(enc, st, history, step);
    TracksUsable(enc, st, history);
    if step.Prune? {
      var cut := PruneCut(st.rows, step.now, step.cutoff);
      if cut.Some? {
        RowsAfterIsTail(st.rows, cut.value);
      }
    } else if step.Reopen? {
      ReopenIsIdentity(enc, st, history, step.stamp);
    }
  }

  lemma {:induction false} HoleRun(enc: Encoding, st: State, history: seq<Row>, g: int, steps: seq<Step>)
    requires enc.Valid() && CleanRun(steps)
    requires Holed(enc, st, history, g) || Healed(enc, st, history, g)
    ensures var after, past := Run(enc, st, steps), history + History(enc, st, steps);
      Holed(enc, after, past, g) || Healed(enc, after, past, g)
    decreases steps
  {
    if steps == [] {
      assert history + [] == history;
    } else {
      if Holed(enc, st, history, g) {
        var front :| HoledAt(enc, st, history, front, g);
        HoledStep(enc, st, history, front, g, steps[0]);
      } else {
        HealedStep(enc, st, history, g, steps[0]);
      }
      var after := Next(enc, st, steps[0]);
      HoleRun(enc, after, history + Written(enc, st, steps[0]), g, steps[1..]);
      ConcatAssociates(history, Written(enc, st, steps[0]), History(enc, after, steps[1..]));
    }
  }

  /** Losing rows leaves a hole before the `trail_truncated` record. */
  lemma LosingLeavesFront(enc: Encoding, st: State, history: seq<Row>, keep: nat, stamp: Time)
    requires enc.Valid() && CleanState(enc, st, history) && keep < |st.rows|
    ensures var after := Next(enc, st, LoseTail(keep, stamp));
      HoledAt(enc, after, history + Written(enc, st, LoseTail(keep, stamp)), st.rows[..keep], st.head.seqNo + 1)
  {
    TracksUsable(enc, st, history);
    TailOfGenuine(enc, st.rows, history);
    var front := st.rows[..keep];
    var g := st.head.seqNo + 1;
    assert front != [] ==> Last(front) == st.rows[keep - 1];
    var lost := st.(rows := front);
    var entry := GatewayEntry(stamp, TrailTruncated(g - 1, Found(front)));
    NextIsGenuine(enc, history, entry);
    var row := NextRow(enc, st.head, entry);
    OneAppended(enc, lost, entry);
    HeadAfterConcat(START, history, [row]);
    assert (history + [row])[g - 1..] == [row];
    FrontUnvouched(enc, st.rows, keep, row, g);
    assert HoledAt(enc, AppendTo(enc, lost, [entry]), history + [row], front, g);
  }

  lemma OneAppended(enc: Encoding, st: State, entry: AuditEntry)
    ensures var row := NextRow(enc, st.head, entry);
      && Extend(enc, st.head, [entry]) == [row]
      && AppendTo(enc, st, [entry]) == State(st.rows + [row], Some(Head(row.seqNo, row.hash)), Head(row.seqNo, row.hash))
  {
    ExtendAt(enc, st.head, [entry], 0);
  }

  /** Nothing in the rows that are left vouches for the hole. */
  lemma FrontUnvouched(enc: Encoding, rows: seq<Row>, keep: nat, row: Row, g: int)
    requires keep < |rows| && VouchersBounded(enc, rows) && rows[0].seqNo <= g - 1
    requires enc.decode(row.body).Some? && !enc.decode(row.body).value.event.RetentionPruned?
    ensures Unvouched(enc, rows[..keep] + [row], g)
  {
    var left := rows[..keep] + [row];
    forall r | r in left ensures VouchesBelow(enc, r, left[0].seqNo) && !VouchesFor(enc, r, g - 1) {
      if r in rows[..keep] {
        assert VouchesBelow(enc, r, rows[0].seqNo);
      }
    }
  }

  /** A lost tail stays visible. After any clean run, the newest records (one or
      more) vanish and the store is reopened; whatever clean steps follow, the
      trail verifies if and only if retention has since deleted the record right
      after the hole, the `trail_truncated` record numbered `g`. */
  lemma LostTailStaysVisible(enc: Encoding, earlier: seq<Step>, keep: nat, stamp: Time, later: seq<Step>)
    requires enc.Valid() && CleanRun(earlier) && CleanRun(later)
    requires keep < |Run(enc, EMPTY, earlier).rows|
    ensures var st := Run(enc, EMPTY, earlier);
      var after := Run(enc, Next(enc, st, LoseTail(keep, stamp)), later);
      && after.rows != []
      && (ChainOk(enc, after.rows) <==> after.rows[0].seqNo > st.head.seqNo + 1)
  {
    EmptyIsClean(enc);
    RunStaysClean(enc, EMPTY, [], earlier);
    var st, history := Run(enc, EMPTY, earlier), [] + History(enc, EMPTY, earlier);
    LosingLeavesFront(enc, st, history, keep, stamp);
    var lost := Next(enc, st, LoseTail(keep, stamp));
    var g := st.head.seqNo + 1;
    var known := history + Written(enc, st, LoseTail(keep, stamp));
    HoleRun(enc, lost, known, g, later);
    var after, past := Run(enc, lost, later), known + History(enc, lost, later);
    if Holed(enc, after, past, g) {
      var front :| HoledAt(enc, after, past, front, g);
      HoledFails(enc, after, past, front, g);
      HoledFacts(enc, after, past, front, g);
    } else {
      CleanStateVerifies(enc, after, past);
    }
  }

  // ----- a hole that retention cannot pass -----

  /** From no record before the hole does a call reach the record after it, or
      end at the last one before it. */
  predicate Wide(front: seq<Row>, g: int) {
    && front != []
    && g - Last(front).seqNo >= MAX_PRUNE
    && Last(front).seqNo - front[0].seqNo < MAX_PRUNE - 1
  }

  /** Every cut is before the last record before the hole. */
  lemma NoCutPastFront(enc: Encoding, st: State, history: seq<Row>, front: seq<Row>, g: int, now: Time, cutoff: Time)
    requires HoledAt(enc, st, history, front, g) && Wide(front, g)
    ensures var cut := PruneCut(st.rows, now, cutoff);
      cut.Some? && HashAt(st.rows, cut.value).Some? ==> cut.value < Last(front).seqNo
  {
    TailFrom(enc, history, g);
    var cut := PruneCut(st.rows, now, cutoff);
    if cut.Some? && HashAt(st.rows, cut.value).Some? {
      assert st.rows[0] == front[0];
      var r :| r in st.rows && r.seqNo == cut.value;
      NotInHole(enc, st, history, front, g, r);
      FirstKeptMeaning(st.rows, cutoff);
      forall k | k in st.rows ensures k.seqNo != Last(front).seqNo + 1 {
        NotInHole(enc, st, history, front, g, k);
      }
    }
  }

  lemma NotInHole(enc: Encoding, st: State, history: seq<Row>, front: seq<Row>, g: int, r: Row)
    requires HoledAt(enc, st, history, front, g) && front != [] && r in st.rows
    ensures r.seqNo <= Last(front).seqNo || r.seqNo >= g
  {
    TailFrom(enc, history, g);
    if r in front {
      var i :| 0 <= i < |front| && front[i] == r;
      assert i < |front| - 1 ==> front[i].seqNo < front[|front| - 1].seqNo;
    } else {
      assert r in history[g - 1..];
    }
  }

  lemma FrontKept(front: seq<Row>, cut: int, g: int)
    requires Ascending(front) && Wide(front, g) && cut < Last(front).seqNo
    ensures Wide(RowsAfter(front, cut), g) && Last(RowsAfter(front, cut)) == Last(front)
  {
    RowsAfterIsTail(front, cut);
    var kept := RowsAfter(front, cut);
    assert |front| - 1 >= |front| - |kept|;
    assert kept[0] == front[|front| - |kept|];
  }

  lemma WidePrune(enc: Encoding, st: State, history: seq<Row>, front: seq<Row>, g: int,
                  now: Time, cutoff: Time, stamp: Time) returns (left: seq<Row>)
    requires enc.Valid() && HoledAt(enc, st, history, front, g) && Wide(front, g)
    ensures var after := StoreSpec.Prune(enc, st, now, cutoff, stamp).0;
      HoledAt(enc, after, history + PruneWrites(enc, st, now, cutoff, stamp), left, g)
    ensures Wide(left, g) && Last(left) == Last(front)
  {
    left := front;
    assert history + [] == history;
    NoCutPastFront(enc, st, history, front, g, now, cutoff);
    var cut := PruneCut(st.rows, now, cutoff);
    if cut.Some? && HashAt(st.rows, cut.value).Some? {
      left := RowsAfter(front, cut.value);
      FrontKept(front, cut.value, g);
      CutBeforeHole(enc, st, history, front, g, cut.value, HashAt(st.rows, cut.value).value, stamp);
    }
  }

  lemma WideStep(enc: Encoding, st: State, history: seq<Row>, front: seq<Row>, g: int, step: Step)
    returns (left: seq<Row>)
    requires enc.Valid() && HoledAt(enc, st, history, front, g) && Wide(front, g) && Clean(step)
    ensures HoledAt(enc, Next(enc, st, step), history + Written(enc, st, step), left, g)
    ensures Wide(left, g) && Last(left) == Last(front)
  {
    HoledFacts(enc, st, history, front, g);
    assert history + [] == history;
    left := front;
    match step
    case Append(entries, commits) =>
      if commits {
        HoledAppend(enc, st, history, front, g, entries);
      }
    case Prune(now, cutoff, stamp, commits) =>
      if commits {
        left := WidePrune(enc, st, history, front, g, now, cutoff, stamp);
      }
    case Reopen(_) =>
  }

  lemma {:induction false} WideRun(enc: Encoding, st: State, history: seq<Row>, front: seq<Row>, g: int,
                                   steps: seq<Step>)
    returns (left: seq<Row>)
    requires enc.Valid() && HoledAt(enc, st, history, front, g) && Wide(front, g) && CleanRun(steps)
    ensures HoledAt(enc, Run(enc, st, steps), history + History(enc, st, steps), left, g)
    ensures Wide(left, g) && Last(left) == Last(front)
    decreases steps
  {
    if steps == [] {
      left := front;
      assert history + [] == history;
    } else {
      left := WideStep(enc, st, history, front, g, steps[0]);
      var after := Next(enc, st, steps[0]);
      left := WideRun(enc, after, history + Written(enc, st, steps[0]), left, g, steps[1..]);
      ConcatAssociates(history, Written(enc, st, steps[0]), History(enc, after, steps[1..]));
    }
  }

  /** If at least `MAX_PRUNE - 1` records are lost, and at least one but fewer than
      `MAX_PRUNE` are left, retention never gets past the hole: the last record
      before it stays for good, and the trail never verifies again. */
  lemma LargeLossIsForever(enc: Encoding, earlier: seq<Step>, keep: nat, stamp: Time, later: seq<Step>)
    requires enc.Valid() && CleanRun(earlier) && CleanRun(later)
    requires 0 < keep < MAX_PRUNE && |Run(enc, EMPTY, earlier).rows| - keep >= MAX_PRUNE - 1
    ensures var st := Run(enc, EMPTY, earlier);
      var after := Run(enc, Next(enc, st, LoseTail(keep, stamp)), later);
      st.rows[keep - 1] in after.rows && !ChainOk(enc, after.rows)
  {
    EmptyIsClean(enc);
    RunStaysClean(enc, EMPTY, [], earlier);
    var st, history := Run(enc, EMPTY, earlier), [] + History(enc, EMPTY, earlier);
    LosingLeavesFront(enc, st, history, keep, stamp);
    TracksUsable(enc, st, history);
    TailOfGenuine(enc, st.rows, history);
    var lost, g := Next(enc, st, LoseTail(keep, stamp)), st.head.seqNo + 1;
    var known := history + Written(enc, st, LoseTail(keep, stamp));
    var left := WideRun(enc, lost, known, st.rows[..keep], g, later);
    var after, past := Run(enc, lost, later), known + History(enc, lost, later);
    HoledFails(enc, after, past, left, g);
    assert Last(left) in after.rows;
  }
}
