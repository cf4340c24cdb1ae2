/**
 Runs of the store: appends, retention and reopening in any order, each either
 committed or not. Every state a clean run reaches verifies, and its table is
 the tail of everything the run ever wrote.
 */
module StoreRuns {
  import opened Prelude
  import opened Event
  import opened Chain
  import opened StoreSpec

  datatype Step =
    | Append(entries: seq<AuditEntry>, commits: bool)
    | Prune(now: Time, cutoff: Time, stamp: Time, commits: bool)
    | Reopen(stamp: Time)
    | LoseTail(keep: nat, stamp: Time)   // the newest rows are gone; then it is reopened

  /** What is left when the newest rows are gone. */
  function Left(rows: seq<Row>, keep: nat): seq<Row> {
    if keep < |rows| then rows[..keep] else rows
  }

  function Next(enc: Encoding, st: State, step: Step): State {
    match step
    case Append(entries, commits) => if commits then AppendTo(enc, st, entries) else st
    case Prune(now, cutoff, stamp, commits) =>
      if commits then StoreSpec.Prune(enc, st, now, cutoff, stamp).0 else st
    case Reopen(stamp) => Opened(enc, st.rows, st.chainHead, stamp)
    case LoseTail(keep, stamp) => Opened(enc, Left(st.rows, keep), st.chainHead, stamp)
  }

  function Run(enc: Encoding, st: State, steps: seq<Step>): State
    decreases steps
  {
    if steps == [] then st else Run(enc, Next(enc, st, steps[0]), steps[1..])
  }

  /** The record that vouches for a cut. */
  function PruneRecord(enc: Encoding, st: State, cut: int, hash: string, stamp: Time): seq<Row> {
    Extend(enc, st.head, [GatewayEntry(stamp, RetentionPruned(Deleted(st.rows, cut), cut, hash))])
  }

  function PruneWrites(enc: Encoding, st: State, now: Time, cutoff: Time, stamp: Time): seq<Row> {
    var cut := PruneCut(st.rows, now, cutoff);
    if cut.None? then []
    else
      var hash := HashAt(st.rows, cut.value);
      if hash.None? then [] else PruneRecord(enc, st, cut.value, hash.value, stamp)
  }

  function OpenWrites(enc: Encoding, rows: seq<Row>, chainHead: Option<Head>, stamp: Time): seq<Row> {
    var head := Resume(rows, chainHead);
    if Truncated(rows, chainHead)
    then Extend(enc, head, [GatewayEntry(stamp, TrailTruncated(head.seqNo, Found(rows)))])
    else []
  }

  /** The rows a step inserts, whatever their numbers. */
  function Written(enc: Encoding, st: State, step: Step): seq<Row> {
    match step
    case Append(entries, commits) => if commits then Extend(enc, st.head, entries) else []
    case Prune(now, cutoff, stamp, commits) => if commits then PruneWrites(enc, st, now, cutoff, stamp) else []
    case Reopen(stamp) => OpenWrites(enc, st.rows, st.chainHead, stamp)
    case LoseTail(keep, stamp) => OpenWrites(enc, Left(st.rows, keep), st.chainHead, stamp)
  }

  /** Everything a run writes, in order, including what it later deletes. */
  function History(enc: Encoding, st: State, steps: seq<Step>): seq<Row>
    decreases steps
  {
    if steps == [] then []
    else Written(enc, st, steps[0]) + History(enc, Next(enc, st, steps[0]), steps[1..])
  }

  lemma OpenKeepsThenWrites(enc: Encoding, rows: seq<Row>, chainHead: Option<Head>, stamp: Time)
    ensures Opened(enc, rows, chainHead, stamp).rows == rows + OpenWrites(enc, rows, chainHead, stamp)
  {
  }

  /** A step keeps a stretch of the table and inserts what it writes after it; so
      `Written` leaves nothing out. */
  lemma StepKeepsThenWrites(enc: Encoding, st: State, step: Step) returns (i: nat, j: nat)
    requires Usable(st)
    ensures i <= j <= |st.rows|
    ensures Next(enc, st, step).rows == st.rows[i..j] + Written(enc, st, step)
  {
    i, j := 0, |st.rows|;
    assert st.rows[0..j] == st.rows;
    if step.Prune? && step.commits {
      i := PruneKeepsThenWrites(enc, st, step.now, step.cutoff, step.stamp);
    } else if step.Reopen? {
      OpenKeepsThenWrites(enc, st.rows, st.chainHead, step.stamp);
    } else if step.LoseTail? {
      j := |Left(st.rows, step.keep)|;
      assert st.rows[0..j] == Left(st.rows, step.keep);
      OpenKeepsThenWrites(enc, Left(st.rows, step.keep), st.chainHead, step.stamp);
    }
  }

  lemma PruneKeepsThenWrites(enc: Encoding, st: State, now: Time, cutoff: Time, stamp: Time) returns (i: nat)
    requires Usable(st)
    ensures i <= |st.rows|
    ensures StoreSpec.Prune(enc, st, now, cutoff, stamp).0.rows
         == st.rows[i..] + PruneWrites(enc, st, now, cutoff, stamp)
  {
    i := 0;
    var cut := PruneCut(st.rows, now, cutoff);
    if cut.Some? && HashAt(st.rows, cut.value).Some? {
      RowsAfterIsTail(st.rows, cut.value);
      i := |st.rows| - |RowsAfter(st.rows, cut.value)|;
    }
  }

  /** Only retention itself writes `retention_pruned` records. */
  predicate FromCallers(entries: seq<AuditEntry>) {
    forall e :: e in entries ==> !e.event.RetentionPruned?
  }

  predicate Clean(step: Step) {
    !step.LoseTail? && (step.Append? ==> FromCallers(step.entries))
  }

  predicate CleanRun(steps: seq<Step>) {
    forall step :: step in steps ==> Clean(step)
  }

  // ----- invariants -----

  /** An unbroken chain from genesis, written by the gateway. */
  ghost predicate Genuine(enc: Encoding, history: seq<Row>) {
    forall i :: 0 <= i < |history| ==> GenuineAt(enc, history, i)
  }

  ghost predicate GenuineAt(enc: Encoding, history: seq<Row>, i: nat)
    requires i < |history|
  {
    && history[i].seqNo == i + 1
    && history[i].prevHash == (if i == 0 then GenesisHash() else history[i - 1].hash)
    && RowOk(enc, history[i])
    && '\n' !in history[i].body && '\n' !in history[i].prevHash
  }

  /** The table is the tail of the history, and both heads are its end. */
  ghost predicate Tracks(enc: Encoding, st: State, history: seq<Row>) {
    && Genuine(enc, history)
    && IsSuffix(st.rows, history)
    && (history != [] ==> st.rows != [] && st.chainHead.Some?)
    && st.head == HeadAfter(START, history)
    && (st.chainHead.Some? ==> st.chainHead.value == st.head)
  }

  predicate VouchesBelow(enc: Encoding, r: Row, first: int) {
    var entry := enc.decode(r.body);
    entry.Some? && entry.value.event.RetentionPruned? ==> entry.value.event.lastSeq < first
  }

  /** Every retention record vouches for keys before the first row only. */
  ghost predicate VouchersBounded(enc: Encoding, rows: seq<Row>) {
    forall r :: r in rows ==> VouchesBelow(enc, r, rows[0].seqNo)
  }

  ghost predicate CleanState(enc: Encoding, st: State, history: seq<Row>) {
    && Tracks(enc, st, history)
    && VouchersBounded(enc, st.rows)
    && (st.rows != [] ==> StartExplained(enc, st.rows))
  }

  // ----- lemmas on histories -----

  lemma TailOfGenuine(enc: Encoding, rows: seq<Row>, history: seq<Row>)
    requires Genuine(enc, history) && IsSuffix(rows, history)
    ensures forall i :: 0 <= i < |rows| ==> rows[i].seqNo == |history| - |rows| + i + 1
    ensures Linked(enc, rows) && Ascending(rows) && KeysUpTo(rows, |history|)
  {
    var d := |history| - |rows|;
    forall i | 0 <= i < |rows|
      ensures rows[i].seqNo == d + i + 1 && RowOk(enc, rows[i])
      ensures i > 0 ==> Follows(rows[i - 1], rows[i])
    {
      assert GenuineAt(enc, history, d + i);
      assert rows[i] == history[d + i];
      assert i > 0 ==> rows[i - 1] == history[d + i - 1] && GenuineAt(enc, history, d + i - 1);
    }
  }

  lemma TracksUsable(enc: Encoding, st: State, history: seq<Row>)
    requires Tracks(enc, st, history)
    ensures Usable(st) && st.head.seqNo == |history|
  {
    TailOfGenuine(enc, st.rows, history);
    assert history != [] ==> GenuineAt(enc, history, |history| - 1);
  }

  /** One more entry continues a genuine history. */
  lemma NextIsGenuine(enc: Encoding, history: seq<Row>, entry: AuditEntry)
    requires enc.Valid() && Genuine(enc, history)
    ensures var row := NextRow(enc, HeadAfter(START, history), entry);
      Genuine(enc, history + [row]) && enc.decode(row.body) == Some(entry)
  {
    var row := NextRow(enc, HeadAfter(START, history), entry);
    var all := history + [row];
    assert history != [] ==> GenuineAt(enc, history, |history| - 1);
    forall i | 0 <= i < |all| ensures GenuineAt(enc, all, i) {
      if i < |history| {
        assert GenuineAt(enc, history, i);
      } else {
        assert enc.decode(enc.encode(entry)) == Some(entry);
      }
    }
  }

  lemma {:induction false} ExtendIsGenuine(enc: Encoding, history: seq<Row>, entries: seq<AuditEntry>)
    requires enc.Valid() && Genuine(enc, history)
    ensures var added := Extend(enc, HeadAfter(START, history), entries);
      && Genuine(enc, history + added)
      && (forall i :: 0 <= i < |added| ==> enc.decode(added[i].body) == Some(entries[i]))
    decreases entries
  {
    if entries == [] {
      assert history + [] == history;
    } else {
      NextIsGenuine(enc, history, entries[0]);
      var row := NextRow(enc, HeadAfter(START, history), entries[0]);
      ExtendIsGenuine(enc, history + [row], entries[1..]);
      var rest := Extend(enc, Head(row.seqNo, row.hash), entries[1..]);
      assert HeadAfter(START, history + [row]) == Head(row.seqNo, row.hash);
      assert history + [row] + rest == history + ([row] + rest);
    }
  }

  lemma HeadAfterConcat(head: Head, a: seq<Row>, b: seq<Row>)
    ensures HeadAfter(head, a + b) == HeadAfter(HeadAfter(head, a), b)
  {
    if b == [] {
      assert a + b == a;
    } else {
      assert Last(a + b) == Last(b);
    }
  }

  lemma SuffixGrows<T>(s: seq<T>, t: seq<T>, more: seq<T>)
    requires IsSuffix(s, t)
    ensures IsSuffix(s + more, t + more)
  {
  }

  // ----- steps keep the invariant -----

  lemma TrackedAppend(enc: Encoding, st: State, history: seq<Row>, entries: seq<AuditEntry>)
    requires enc.Valid() && Tracks(enc, st, history)
    ensures Tracks(enc, AppendTo(enc, st, entries), history + Extend(enc, st.head, entries))
  {
    var added := Extend(enc, st.head, entries);
    ExtendIsGenuine(enc, history, entries);
    SuffixGrows(st.rows, history, added);
    HeadAfterConcat(START, history, added);
  }

  lemma AppendStaysClean(enc: Encoding, st: State, history: seq<Row>, entries: seq<AuditEntry>)
    requires enc.Valid() && CleanState(enc, st, history) && FromCallers(entries)
    ensures CleanState(enc, AppendTo(enc, st, entries), history + Extend(enc, st.head, entries))
  {
    var added := Extend(enc, st.head, entries);
    var rows := st.rows + added;
    TrackedAppend(enc, st, history, entries);
    ExtendIsGenuine(enc, history, entries);
    forall r | r in rows ensures VouchesBelow(enc, r, rows[0].seqNo) {
      if r in added {
        var i :| 0 <= i < |added| && added[i] == r;
        assert entries[i] in entries;
      }
    }
    if st.rows == [] {
      assert rows != [] ==> GenuineAt(enc, history + added, 0) && rows == history + added;
    } else if rows[0].seqNo != 1 {
      var k :| 0 <= k < |st.rows| && Vouches(enc, st.rows[k], rows[0].seqNo - 1, rows[0].prevHash);
      assert rows[k] == st.rows[k];
    }
  }

  /** A cut in a genuine table: what is kept starts right after it and links
      to the record at it. */
  lemma CutOfGenuine(enc: Encoding, rows: seq<Row>, history: seq<Row>, cut: int)
    requires Genuine(enc, history) && IsSuffix(rows, history) && rows != []
    requires rows[0].seqNo <= cut < Last(rows).seqNo
    ensures var n := cut + 1 - rows[0].seqNo;
      && 0 < n < |rows| && RowsAfter(rows, cut) == rows[n..]
      && rows[n].seqNo == cut + 1
      && HashAt(rows, cut) == Some(rows[n].prevHash)
  {
    TailOfGenuine(enc, rows, history);
    CutOfUnbroken(enc, rows, cut);
  }

  lemma CutOfUnbroken(enc: Encoding, rows: seq<Row>, cut: int)
    requires rows != [] && Ascending(rows) && Linked(enc, rows)
    requires forall i :: 0 <= i < |rows| ==> rows[i].seqNo == rows[0].seqNo + i
    requires rows[0].seqNo <= cut < Last(rows).seqNo
    ensures var n := cut + 1 - rows[0].seqNo;
      && 0 < n < |rows| && RowsAfter(rows, cut) == rows[n..]
      && rows[n].seqNo == cut + 1
      && HashAt(rows, cut) == Some(rows[n].prevHash)
  {
    var n := cut + 1 - rows[0].seqNo;
    RowsAfterSplit(rows, n, cut);
    HashBeforeCut(enc, rows, n);
    assert rows[n - 1].seqNo == cut;
  }

  lemma HashBeforeCut(enc: Encoding, rows: seq<Row>, n: nat)
    requires Ascending(rows) && Linked(enc, rows) && 0 < n < |rows|
    ensures HashAt(rows, rows[n - 1].seqNo) == Some(rows[n].prevHash)
  {
    HashAtKey(rows, n - 1);
    assert Follows(rows[n - 1], rows[n]);
  }

  lemma KeptTracks(enc: Encoding, st: State, history: seq<Row>, cut: int)
    requires Tracks(enc, st, history) && st.rows != []
    requires st.rows[0].seqNo <= cut < Last(st.rows).seqNo
    ensures var kept := RowsAfter(st.rows, cut);
      && Tracks(enc, st.(rows := kept), history)
      && IsSuffix(kept, st.rows) && kept != [] && kept[0].seqNo == cut + 1 && cut > 0
      && HashAt(st.rows, cut) == Some(kept[0].prevHash)
      && KeysUpTo(kept, st.head.seqNo)
  {
    CutOfGenuine(enc, st.rows, history, cut);
    DropIsSuffix(st.rows, cut + 1 - st.rows[0].seqNo, history);
    TracksUsable(enc, st, history);
    assert cut > 0 by { TailOfGenuine(enc, st.rows, history); }
  }

  /** A cut that names what it removed leaves a clean table. */
  lemma CutLeavesClean(enc: Encoding, st: State, history: seq<Row>, cut: int, hash: string, stamp: Time)
    requires enc.Valid() && Tracks(enc, st.(rows := RowsAfter(st.rows, cut)), history)
    requires VouchersBounded(enc, st.rows) && st.rows != [] && st.rows[0].seqNo <= cut && cut > 0
    requires var kept := RowsAfter(st.rows, cut);
      && IsSuffix(kept, st.rows) && kept != [] && kept[0].seqNo == cut + 1 && kept[0].prevHash == hash
    ensures var after := PruneAt(enc, st, cut, hash, stamp);
      CleanState(enc, after, history + PruneRecord(enc, st, cut, hash, stamp))
  {
    var kept := st.(rows := RowsAfter(st.rows, cut));
    TracksUsable(enc, kept, history);
    var entry := GatewayEntry(stamp, RetentionPruned(Deleted(st.rows, cut), cut, hash));
    TrackedAppend(enc, kept, history, [entry]);
    NextIsGenuine(enc, history, entry);
    var row := NextRow(enc, st.head, entry);
    assert Extend(enc, st.head, [entry]) == [row];
    NewestVouches(enc, st.rows, kept.rows, row, cut, hash);
  }

  lemma NewestVouches(enc: Encoding, before: seq<Row>, kept: seq<Row>, added: Row, cut: int, hash: string)
    requires VouchersBounded(enc, before) && IsSuffix(kept, before) && kept != []
    requires before[0].seqNo <= cut && kept[0].seqNo == cut + 1 && kept[0].prevHash == hash
    requires cut > 0 && Vouches(enc, added, cut, hash)
    ensures VouchersBounded(enc, kept + [added]) && StartExplained(enc, kept + [added])
  {
    var rows := kept + [added];
    assert rows[|kept|] == added;
    forall r | r in rows ensures VouchesBelow(enc, r, rows[0].seqNo) {
      if r in kept {
        assert VouchesBelow(enc, r, before[0].seqNo);
      }
    }
  }

  lemma PruneStaysClean(enc: Encoding, st: State, history: seq<Row>, now: Time, cutoff: Time, stamp: Time)
    requires enc.Valid() && CleanState(enc, st, history)
    ensures var after := StoreSpec.Prune(enc, st, now, cutoff, stamp).0;
      CleanState(enc, after, history + PruneWrites(enc, st, now, cutoff, stamp))
  {
    assert history + [] == history;
    var cut := PruneCut(st.rows, now, cutoff);
    if cut.Some? && HashAt(st.rows, cut.value).Some? {
      KeptTracks(enc, st, history, cut.value);
      CutLeavesClean(enc, st, history, cut.value, HashAt(st.rows, cut.value).value, stamp);
    }
  }

  lemma ReopenIsIdentity(enc: Encoding, st: State, history: seq<Row>, stamp: Time)
    requires Tracks(enc, st, history)
    ensures Opened(enc, st.rows, st.chainHead, stamp) == st && OpenWrites(enc, st.rows, st.chainHead, stamp) == []
  {
    if st.rows != [] {
      assert Last(st.rows) == Last(history);
    }
  }

  lemma StepStaysClean(enc: Encoding, st: State, history: seq<Row>, step: Step)
    requires enc.Valid() && CleanState(enc, st, history) && Clean(step)
    ensures CleanState(enc, Next(enc, st, step), history + Written(enc, st, step))
  {
    assert history + [] == history;
    match step
    case Append(entries, _) => AppendStaysClean(enc, st, history, entries);
    case Prune(now, cutoff, stamp, _) => PruneStaysClean(enc, st, history, now, cutoff, stamp);
    case Reopen(stamp) => ReopenIsIdentity(enc, st, history, stamp);
  }

  lemma {:induction false} RunStaysClean(enc: Encoding, st: State, history: seq<Row>, steps: seq<Step>)
    requires enc.Valid() && CleanState(enc, st, history) && CleanRun(steps)
    ensures CleanState(enc, Run(enc, st, steps), history + History(enc, st, steps))
    decreases steps
  {
    if steps == [] {
      assert history + [] == history;
    } else {
      StepStaysClean(enc, st, history, steps[0]);
      var after := Next(enc, st, steps[0]);
      RunStaysClean(enc, after, history + Written(enc, st, steps[0]), steps[1..]);
      ConcatAssociates(history, Written(enc, st, steps[0]), History(enc, after, steps[1..]));
    }
  }

  lemma CleanStateVerifies(enc: Encoding, st: State, history: seq<Row>)
    requires CleanState(enc, st, history)
    ensures ChainOk(enc, st.rows)
  {
    TailOfGenuine(enc, st.rows, history);
  }

  lemma EmptyIsClean(enc: Encoding)
    ensures CleanState(enc, EMPTY, [])
  {
  }

  /** Every state that appends, prunes and clean reopens reach from an empty
      database verifies, however they interleave; what is left of the trail is
      the tail of what was written, and its newest record is always there. */
  lemma EveryCleanRunVerifies(enc: Encoding, steps: seq<Step>)
    requires enc.Valid() && CleanRun(steps)
    ensures var st, history := Run(enc, EMPTY, steps), History(enc, EMPTY, steps);
      && ChainOk(enc, st.rows)
      && Genuine(enc, history) && IsSuffix(st.rows, history)
      && (history != [] ==> st.rows != [] && Last(st.rows) == Last(history))
  {
    EmptyIsClean(enc);
    RunStaysClean(enc, EMPTY, [], steps);
    var st, history := Run(enc, EMPTY, steps), History(enc, EMPTY, steps);
    assert [] + history == history;
    CleanStateVerifies(enc, st, history);
  }
}
