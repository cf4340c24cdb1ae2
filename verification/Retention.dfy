/**
 Retention: what one call deletes, and the loop of `run_retention`
 (`src/audit/mod.rs`) that repeats it while other records come in.
 */
module Retention {
  import opened Prelude
  import opened Event
  import opened Chain
  import opened StoreSpec
  import opened Store
  import StoreRuns

  predicate IsOld(r: Row, cutoff: Time) {
    r.columns.ts < TsColumn(cutoff)
  }

  predicate NewestInFuture(rows: seq<Row>, now: Time) {
    rows != [] && Last(rows).columns.ts > TsColumn(now + CLOCK_TOLERANCE)
  }

  /** The table has no holes. */
  ghost predicate Unbroken(rows: seq<Row>) {
    forall i :: 0 <= i < |rows| ==> rows[i].seqNo == rows[0].seqNo + i
  }

  /** What a call left is done: the oldest row is within the period, or it was
      the newest row before the call. */
  predicate Settled(before: seq<Row>, after: seq<Row>, cutoff: Time) {
    before == [] || after == [] || !IsOld(after[0], cutoff) || after[0] == Last(before)
  }

  lemma {:induction false} AscendingSpread(rows: seq<Row>, i: nat)
    requires Ascending(rows) && i < |rows|
    ensures rows[i].seqNo >= rows[0].seqNo + i
  {
    if i > 0 {
      AscendingSpread(rows, i - 1);
    }
  }

  /** A call deletes a prefix of the oldest records: at most `MAX_PRUNE`, all of
      them older than the cutoff, never the newest; in their place it adds one
      record that names how many and the last of them. When it deletes nothing,
      or fails, nothing changes. */
  lemma PruneDeletesOldPrefix(enc: Encoding, st: State, now: Time, cutoff: Time, stamp: Time)
    requires Usable(st)
    ensures var (after, result) := Prune(enc, st, now, cutoff, stamp);
      if result.Err? || result.value == 0 then after == st
      else
        var n := result.value;
        && n <= MAX_PRUNE && n < |st.rows|
        && (forall i :: 0 <= i < n ==> IsOld(st.rows[i], cutoff))
        && after.rows == st.rows[n..] + [NextRow(enc, st.head, GatewayEntry(stamp,
             RetentionPruned(n, st.rows[n - 1].seqNo, st.rows[n - 1].hash)))]
  {
    var cut := PruneCut(st.rows, now, cutoff);
    if cut.Some? && HashAt(st.rows, cut.value).Some? {
      var n := CutIndex(st.rows, cut.value);
      CutIsOld(st.rows, now, cutoff, n);
      var entry := GatewayEntry(stamp, RetentionPruned(n, cut.value, st.rows[n - 1].hash));
      assert Extend(enc, st.head, [entry]) == [NextRow(enc, st.head, entry)];
    }
  }

  /** How many rows a cut at a record of the table removes. */
  lemma CutIndex(rows: seq<Row>, cut: int) returns (n: nat)
    requires Ascending(rows) && HashAt(rows, cut).Some?
    ensures 0 < n <= |rows| && rows[n - 1].seqNo == cut && HashAt(rows, cut) == Some(rows[n - 1].hash)
    ensures RowsAfter(rows, cut) == rows[n..]
  {
    var r :| r in rows && r.seqNo == cut && r.hash == HashAt(rows, cut).value;
    var k :| 0 <= k < |rows| && rows[k] == r;
    n := k + 1;
    RowsAfterSplit(rows, n, cut);
  }

  /** The rows up to the cut are old, few, and not all there are. */
  lemma CutIsOld(rows: seq<Row>, now: Time, cutoff: Time, n: nat)
    requires Ascending(rows) && PruneCut(rows, now, cutoff).Some?
    requires 0 < n <= |rows| && rows[n - 1].seqNo == PruneCut(rows, now, cutoff).value
    ensures n < |rows| && n <= MAX_PRUNE
    ensures forall i :: 0 <= i < n ==> IsOld(rows[i], cutoff)
  {
    AscendingSpread(rows, n - 1);
    FirstKeptMeaning(rows, cutoff);
    forall i | 0 <= i < n ensures IsOld(rows[i], cutoff) {
      assert rows[i] in rows && rows[i].seqNo <= rows[n - 1].seqNo;
    }
  }

  /** The first number that stays whatever the limit: that of the oldest row of
      the period, but not beyond the newest row. */
  function Limit(rows: seq<Row>, cutoff: Time): int
    requires rows != []
  {
    var kept := FirstKept(rows, cutoff);
    Min(if kept.Some? then kept.value else Last(rows).seqNo, Last(rows).seqNo)
  }

  /** The number a call cuts at. */
  function CutNumber(rows: seq<Row>, cutoff: Time): int
    requires rows != []
  {
    Min(Limit(rows, cutoff) - 1, rows[0].seqNo + MAX_PRUNE - 1)
  }

  /** The limit is the number of a row that stays; the rows before it are old. */
  lemma LimitIsRow(rows: seq<Row>, cutoff: Time) returns (k: nat)
    requires rows != [] && Ascending(rows)
    ensures k < |rows| && rows[k].seqNo == Limit(rows, cutoff)
    ensures !IsOld(rows[k], cutoff) || k == |rows| - 1
    ensures forall i :: 0 <= i < k ==> IsOld(rows[i], cutoff)
  {
    FirstKeptMeaning(rows, cutoff);
    var kept := FirstKept(rows, cutoff);
    k := |rows| - 1;
    if kept.Some? {
      var r :| r in rows && r.seqNo == kept.value && r.columns.ts >= TsColumn(cutoff);
      k :| 0 <= k < |rows| && rows[k] == r;
      assert k < |rows| - 1 ==> rows[k].seqNo < rows[|rows| - 1].seqNo;
    }
    forall i | 0 <= i < k ensures IsOld(rows[i], cutoff) {
      assert rows[i] in rows && rows[i].seqNo < rows[k].seqNo;
    }
  }

  /** What a call does, told from the rows up to the cut number: `n` of them. */
  lemma PruneOutcome(enc: Encoding, st: State, now: Time, cutoff: Time, stamp: Time, n: nat)
    requires Usable(st) && st.rows != [] && !NewestInFuture(st.rows, now) && n < |st.rows|
    requires forall i :: 0 <= i < n ==> st.rows[i].seqNo <= CutNumber(st.rows, cutoff)
    requires forall i :: n <= i < |st.rows| ==> st.rows[i].seqNo > CutNumber(st.rows, cutoff)
    ensures var ((after, result), cut) := (Prune(enc, st, now, cutoff, stamp), CutNumber(st.rows, cutoff));
      && (n == 0 ==> after == st && result == Ok(0))
      && (n > 0 && st.rows[n - 1].seqNo == cut ==> result == Ok(n) && after.rows != [] && after.rows[0] == st.rows[n])
      && (n > 0 && st.rows[n - 1].seqNo < cut ==> result == Err(NoSuchRecord(cut)))
  {
    var rows, cut := st.rows, CutNumber(st.rows, cutoff);
    CutIsNumber(rows, now, cutoff);
    if n > 0 {
      if rows[n - 1].seqNo == cut {
        CutAtRow(enc, st, now, cutoff, stamp, n);
      } else {
        NoHashBetween(rows, n, cut);
      }
    }
  }

  lemma CutIsNumber(rows: seq<Row>, now: Time, cutoff: Time)
    requires rows != [] && !NewestInFuture(rows, now)
    ensures PruneCut(rows, now, cutoff)
         == if CutNumber(rows, cutoff) < rows[0].seqNo then None else Some(CutNumber(rows, cutoff))
  {
  }

  lemma PruneIsAt(enc: Encoding, st: State, now: Time, cutoff: Time, stamp: Time, cut: int, hash: string)
    requires PruneCut(st.rows, now, cutoff) == Some(cut) && HashAt(st.rows, cut) == Some(hash)
    ensures Prune(enc, st, now, cutoff, stamp) == (PruneAt(enc, st, cut, hash, stamp), Ok(Deleted(st.rows, cut)))
  {
  }

  lemma CutAtRow(enc: Encoding, st: State, now: Time, cutoff: Time, stamp: Time, n: nat)
    requires Usable(st) && 0 < n < |st.rows| && PruneCut(st.rows, now, cutoff) == Some(st.rows[n - 1].seqNo)
    ensures var (after, result) := Prune(enc, st, now, cutoff, stamp);
      result == Ok(n) && after.rows != [] && after.rows[0] == st.rows[n]
  {
    var rows, cut := st.rows, st.rows[n - 1].seqNo;
    HashAtKey(rows, n - 1);
    RowsAfterSplit(rows, n, cut);
    PruneIsAt(enc, st, now, cutoff, stamp, cut, rows[n - 1].hash);
    FirstRowAfterCut(enc, st, cut, rows[n - 1].hash, stamp, rows[n]);
  }

  lemma {:induction false} NoHashBetween(rows: seq<Row>, n: nat, cut: int)
    requires n <= |rows|
    requires forall i :: 0 <= i < |rows| ==> rows[i].seqNo != cut
    ensures HashAt(rows, cut).None?
  {
    if rows != [] {
      NoHashBetween(rows[1..], if n > 0 then n - 1 else 0, cut);
    }
  }

  lemma FirstRowAfterCut(enc: Encoding, st: State, cut: int, hash: string, stamp: Time, r: Row)
    requires RowsAfter(st.rows, cut) != [] && RowsAfter(st.rows, cut)[0] == r
    ensures PruneAt(enc, st, cut, hash, stamp).rows != [] && PruneAt(enc, st, cut, hash, stamp).rows[0] == r
  {
  }

  /** The cut number falls into a hole right before row `n`. */
  predicate CutsInHole(rows: seq<Row>, cutoff: Time, n: int) {
    0 < n < |rows| && rows[n - 1].seqNo < CutNumber(rows, cutoff) < rows[n].seqNo
  }

  /** A call fails, and deletes nothing, exactly if its cut number falls into a
      hole of the table. */
  lemma PruneFailsExactlyInAHole(enc: Encoding, st: State, now: Time, cutoff: Time, stamp: Time)
    requires Usable(st)
    ensures var (after, result) := Prune(enc, st, now, cutoff, stamp);
      && (result.Err? <==> st.rows != [] && !NewestInFuture(st.rows, now)
                           && exists n :: CutsInHole(st.rows, cutoff, n))
      && (result.Err? ==> after == st)
  {
    if st.rows != [] && !NewestInFuture(st.rows, now) {
      var rows, cut := st.rows, CutNumber(st.rows, cutoff);
      var k := LimitIsRow(rows, cutoff);
      var n := SplitIndex(rows, cut);
      assert n <= k;
      PruneOutcome(enc, st, now, cutoff, stamp, n);
      assert n > 0 && rows[n - 1].seqNo < cut ==> CutsInHole(rows, cutoff, n);
      forall m | CutsInHole(rows, cutoff, m) ensures m == n {
      }
    }
  }

  /** The most that a call may delete ends at row `n - 1`, with fewer than that
      many rows, and the next row would have to go, too. */
  predicate StopsBefore(rows: seq<Row>, cutoff: Time, n: int) {
    && 0 < n < |rows| && n < MAX_PRUNE
    && rows[n - 1].seqNo == rows[0].seqNo + MAX_PRUNE - 1
    && rows[n].seqNo < Limit(rows, cutoff)
  }

  /** A call that deletes less than the limit leaves work to do exactly if holes
      make the numbers reach the limit before the rows do. */
  lemma ShortPruneStopsEarlyIff(enc: Encoding, st: State, now: Time, cutoff: Time, stamp: Time)
    requires Usable(st) && st.rows != [] && !NewestInFuture(st.rows, now)
    ensures var (after, result) := Prune(enc, st, now, cutoff, stamp);
      result.Ok? && result.value < MAX_PRUNE && !Settled(st.rows, after.rows, cutoff)
      <==> exists n :: StopsBefore(st.rows, cutoff, n)
  {
    var rows, cut := st.rows, CutNumber(st.rows, cutoff);
    var k := LimitIsRow(rows, cutoff);
    var n := SplitIndex(rows, cut);
    assert n <= k;
    PruneOutcome(enc, st, now, cutoff, stamp, n);
    if m :| StopsBefore(rows, cutoff, m) {
      assert m == n;
    }
    if n > 0 && rows[n - 1].seqNo == cut && n < k {
      assert rows[n].seqNo < rows[k].seqNo && rows[k].seqNo <= Last(rows).seqNo;
      assert n < MAX_PRUNE ==> StopsBefore(rows, cutoff, n);
    }
  }

  /** So on a table without holes such a call is done. */
  lemma ShortPruneSettles(enc: Encoding, st: State, now: Time, cutoff: Time, stamp: Time)
    requires Usable(st) && Unbroken(st.rows) && !NewestInFuture(st.rows, now)
    ensures var (after, result) := Prune(enc, st, now, cutoff, stamp);
      && result.Ok?
      && (result.value < MAX_PRUNE ==> Settled(st.rows, after.rows, cutoff))
  {
    if st.rows != [] {
      ShortPruneStopsEarlyIff(enc, st, now, cutoff, stamp);
      PruneFailsExactlyInAHole(enc, st, now, cutoff, stamp);
    }
  }

  /** While the newest record is dated more than five minutes ahead, nothing is
      deleted. */
  lemma WaitsForTheClock(enc: Encoding, st: State, now: Time, cutoff: Time, stamp: Time)
    requires st.rows != [] && Last(st.rows).columns.ts > (now + 300_000_000_000) / 1_000
    ensures Prune(enc, st, now, cutoff, stamp) == (st, Ok(0))
  {
  }

  // ----- holes that a run of the store leaves -----

  function OldEntry(): AuditEntry {
    GatewayEntry(0, Other("session_activated", None, ""))
  }

  function OldEntries(count: nat): seq<AuditEntry> {
    seq(count, _ => OldEntry())
  }

  /** All but the first of the records are lost. */
  function LosingAllButOne(count: nat): seq<StoreRuns.Step> {
    [StoreRuns.Append(OldEntries(count), true), StoreRuns.LoseTail(1, 0)]
  }

  lemma TwoSteps(enc: Encoding, st: State, a: StoreRuns.Step, b: StoreRuns.Step)
    ensures StoreRuns.Run(enc, st, [a, b]) == StoreRuns.Next(enc, StoreRuns.Next(enc, st, a), b)
  {
    assert [a, b][1..] == [b] && [b][1..] == [];
    var one := StoreRuns.Next(enc, st, a);
    assert StoreRuns.Run(enc, st, [a, b]) == StoreRuns.Run(enc, one, [b]);
  }

  lemma RowWritten(enc: Encoding, head: Head, entries: seq<AuditEntry>, i: nat)
    requires i < |entries|
    ensures Extend(enc, head, entries)[i].seqNo == head.seqNo + 1 + i
    ensures Extend(enc, head, entries)[i].columns == ColumnsOf(entries[i])
  {
    ExtendAt(enc, head, entries, i);
  }

  /** What is left are two old records with a hole between them. */
  lemma HoleLeft(enc: Encoding, count: nat)
    requires count > 1
    ensures var st := StoreRuns.Run(enc, EMPTY, LosingAllButOne(count));
      && |st.rows| == 2 && st.rows[0].seqNo == 1 && st.rows[1].seqNo == count + 1 == st.head.seqNo
      && st.rows[0].columns.ts == st.rows[1].columns.ts == TsColumn(0)
  {
    var entries := OldEntries(count);
    var full := AppendTo(enc, EMPTY, entries);
    TwoSteps(enc, EMPTY, StoreRuns.Append(entries, true), StoreRuns.LoseTail(1, 0));
    RowWritten(enc, START, entries, 0);
    ExtendKeys(enc, START, entries);
    var left := State(full.rows[..1], full.chainHead, full.head);
    assert Last(left.rows) == full.rows[0];
    RowWritten(enc, full.head, [GatewayEntry(0, TrailTruncated(count, 1))], 0);
  }

  /** A run after which retention fails: two records, of which the second is
      lost. */
  lemma LostTailMakesPruneFail(enc: Encoding)
    ensures var st := StoreRuns.Run(enc, EMPTY, LosingAllButOne(2));
      Prune(enc, st, SECOND, SECOND, SECOND) == (st, Err(NoSuchRecord(2)))
  {
    HoleLeft(enc, 2);
    var st := StoreRuns.Run(enc, EMPTY, LosingAllButOne(2));
    var k := LimitIsRow(st.rows, SECOND);
    PruneOutcome(enc, st, SECOND, SECOND, SECOND, 1);
  }

  /** And a run after which a call deletes two records, and leaves an old one that
      is not the newest. */
  lemma HoleEndsRoundEarly(enc: Encoding)
    ensures var lost := StoreRuns.Run(enc, EMPTY, LosingAllButOne(19_999));
      var st := StoreRuns.Next(enc, lost, StoreRuns.Append(OldEntries(2), true));
      var (after, result) := Prune(enc, st, SECOND, SECOND, SECOND);
      && !NewestInFuture(st.rows, SECOND)
      && result == Ok(2) && !Settled(st.rows, after.rows, SECOND)
  {
    HoleLeft(enc, 19_999);
    var lost := StoreRuns.Run(enc, EMPTY, LosingAllButOne(19_999));
    FourRows(enc, lost);
    StopsShort(enc, AppendTo(enc, lost, OldEntries(2)));
  }

  predicate OldWithHole(rows: seq<Row>) {
    && |rows| == 4 && (forall i :: 0 <= i < 4 ==> rows[i].columns.ts == TsColumn(0))
    && rows[0].seqNo == 1 && rows[1].seqNo == 20_000 && rows[2].seqNo == 20_001 && rows[3].seqNo == 20_002
  }

  lemma FourRows(enc: Encoding, lost: State)
    requires |lost.rows| == 2 && lost.rows[0].seqNo == 1 && lost.rows[1].seqNo == 20_000 == lost.head.seqNo
    requires lost.rows[0].columns.ts == lost.rows[1].columns.ts == TsColumn(0)
    ensures var st := AppendTo(enc, lost, OldEntries(2));
      OldWithHole(st.rows) && st.head.seqNo == 20_002
  {
    RowWritten(enc, lost.head, OldEntries(2), 0);
    RowWritten(enc, lost.head, OldEntries(2), 1);
  }

  lemma StopsShort(enc: Encoding, st: State)
    requires OldWithHole(st.rows) && st.head.seqNo == 20_002
    ensures var (after, result) := Prune(enc, st, SECOND, SECOND, SECOND);
      && !NewestInFuture(st.rows, SECOND)
      && result == Ok(2) && !Settled(st.rows, after.rows, SECOND)
  {
    var k := LimitIsRow(st.rows, SECOND);
    PruneOutcome(enc, st, SECOND, SECOND, SECOND, 2);
  }

  function OldRows(rows: seq<Row>, cutoff: Time): nat {
    if rows == [] then 0 else (if IsOld(rows[0], cutoff) then 1 else 0) + OldRows(rows[1..], cutoff)
  }

  lemma {:induction false} OldRowsConcat(a: seq<Row>, b: seq<Row>, cutoff: Time)
    ensures OldRows(a + b, cutoff) == OldRows(a, cutoff) + OldRows(b, cutoff)
  {
    if a == [] {
      assert a + b == b;
    } else {
      assert (a + b)[1..] == a[1..] + b;
      OldRowsConcat(a[1..], b, cutoff);
    }
  }

  lemma {:induction false} AllOld(rows: seq<Row>, cutoff: Time)
    requires forall i :: 0 <= i < |rows| ==> IsOld(rows[i], cutoff)
    ensures OldRows(rows, cutoff) == |rows|
  {
    if rows != [] {
      AllOld(rows[1..], cutoff);
    }
  }

  lemma {:induction false} NoneOld(rows: seq<Row>, cutoff: Time)
    requires forall i :: 0 <= i < |rows| ==> !IsOld(rows[i], cutoff)
    ensures OldRows(rows, cutoff) == 0
  {
    if rows != [] {
      NoneOld(rows[1..], cutoff);
    }
  }

  ghost predicate NotBefore(entries: seq<AuditEntry>, cutoff: Time) {
    forall e :: e in entries ==> e.ts >= cutoff
  }

  lemma AppendAddsNoOld(enc: Encoding, st: State, entries: seq<AuditEntry>, cutoff: Time)
    requires NotBefore(entries, cutoff)
    ensures OldRows(AppendTo(enc, st, entries).rows, cutoff) == OldRows(st.rows, cutoff)
  {
    var added := Extend(enc, st.head, entries);
    forall i | 0 <= i < |added| ensures !IsOld(added[i], cutoff) {
      ExtendAt(enc, st.head, entries, i);
      assert entries[i] in entries;
    }
    NoneOld(added, cutoff);
    OldRowsConcat(st.rows, added, cutoff);
  }

  lemma PruneRemovesOld(enc: Encoding, st: State, now: Time, cutoff: Time, stamp: Time)
    requires Usable(st) && stamp >= cutoff
    ensures var (after, result) := Prune(enc, st, now, cutoff, stamp);
      && (result.Ok? && result.value > 0 ==>
            OldRows(after.rows, cutoff) == OldRows(st.rows, cutoff) - result.value)
      && forall r :: r in st.rows && !IsOld(r, cutoff) ==> r in after.rows
  {
    PruneDeletesOldPrefix(enc, st, now, cutoff, stamp);
    var (after, result) := Prune(enc, st, now, cutoff, stamp);
    if result.Ok? && result.value > 0 {
      var n := result.value;
      var entry := GatewayEntry(stamp, RetentionPruned(n, st.rows[n - 1].seqNo, st.rows[n - 1].hash));
      OldPrefixReplaced(st.rows, n, NextRow(enc, st.head, entry), cutoff);
    }
  }

  lemma OldPrefixReplaced(rows: seq<Row>, n: nat, added: Row, cutoff: Time)
    requires n <= |rows| && (forall i :: 0 <= i < n ==> IsOld(rows[i], cutoff)) && !IsOld(added, cutoff)
    ensures OldRows(rows[n..] + [added], cutoff) == OldRows(rows, cutoff) - n
    ensures forall r :: r in rows && !IsOld(r, cutoff) ==> r in rows[n..] + [added]
  {
    assert rows == rows[..n] + rows[n..];
    AllOld(rows[..n], cutoff);
    OldRowsConcat(rows[..n], rows[n..], cutoff);
    NoneOld([added], cutoff);
    OldRowsConcat(rows[n..], [added], cutoff);
    forall r | r in rows && !IsOld(r, cutoff) ensures r in rows[n..] {
      assert r in rows[..n] || r in rows[n..];
    }
  }

  /** The table has no holes, and the writer goes on right after it. */
  ghost predicate Whole(st: State) {
    Unbroken(st.rows) && (st.rows != [] ==> Last(st.rows).seqNo == st.head.seqNo)
  }

  lemma AppendStaysWhole(enc: Encoding, st: State, entries: seq<AuditEntry>)
    requires Whole(st)
    ensures Whole(AppendTo(enc, st, entries))
  {
    var added := Extend(enc, st.head, entries);
    forall i | 0 <= i < |added| ensures added[i].seqNo == st.head.seqNo + 1 + i {
      ExtendAt(enc, st.head, entries, i);
    }
  }

  lemma PruneStaysWhole(enc: Encoding, st: State, now: Time, cutoff: Time, stamp: Time)
    requires Usable(st) && Whole(st)
    ensures Whole(Prune(enc, st, now, cutoff, stamp).0)
  {
    var cut := PruneCut(st.rows, now, cutoff);
    if cut.Some? && HashAt(st.rows, cut.value).Some? {
      var entry := GatewayEntry(stamp, RetentionPruned(Deleted(st.rows, cut.value), cut.value,
                                                       HashAt(st.rows, cut.value).value));
      KeptIsWhole(st, cut.value);
      AppendStaysWhole(enc, st.(rows := RowsAfter(st.rows, cut.value)), [entry]);
    }
  }

  lemma KeptIsWhole(st: State, cut: int)
    requires Usable(st) && Whole(st)
    ensures Whole(st.(rows := RowsAfter(st.rows, cut)))
  {
    RowsAfterIsTail(st.rows, cut);
    var kept := RowsAfter(st.rows, cut);
    if kept != [] {
      assert kept[0] == st.rows[|st.rows| - |kept|] && Last(kept) == Last(st.rows);
    }
  }

  /** The clock does not go back, and no record is dated ahead of it. */
  ghost predicate Timely(clock: nat -> Time, traffic: nat -> seq<AuditEntry>) {
    forall i: nat :: clock(i) <= clock(i + 1) && DatedBy(traffic(i), clock(i + 1))
  }

  predicate DatedBy(entries: seq<AuditEntry>, now: Time) {
    forall e :: e in entries ==> e.ts <= now + CLOCK_TOLERANCE
  }

  lemma NewestIsDated(enc: Encoding, st: State, entries: seq<AuditEntry>, now: Time)
    requires !NewestInFuture(st.rows, now) && DatedBy(entries, now)
    ensures !NewestInFuture(AppendTo(enc, st, entries).rows, now)
  {
    if entries != [] {
      RowWritten(enc, st.head, entries, |entries| - 1);
      assert Last(entries) in entries;
    }
  }

  lemma PruneRecordIsDated(enc: Encoding, st: State, now: Time, cutoff: Time, later: Time)
    requires Usable(st) && now <= later
    ensures var (after, result) := Prune(enc, st, now, cutoff, now);
      result.Ok? && result.value > 0 ==> !NewestInFuture(after.rows, later)
  {
    PruneDeletesOldPrefix(enc, st, now, cutoff, now);
  }

  /** The record of a call that deleted `n` rows up to number `last`. */
  ghost predicate IsPruneRecord(enc: Encoding, r: Row, n: nat, last: int) {
    exists stamp: Time, hash :: r.body == enc.encode(GatewayEntry(stamp, RetentionPruned(n, last, hash)))
  }

  /** What is left of the trail by a last call that deleted `n` rows. The oldest
      row is in the period, whatever comes after it; or there is only the row
      that was the newest before the call, and the record of the call if it
      deleted any. */
  ghost predicate Done(enc: Encoding, rows: seq<Row>, cutoff: Time, n: nat) {
    || rows == [] || !IsOld(rows[0], cutoff)
    || (n == 0 && |rows| == 1)
    || (n > 0 && |rows| == 2 && rows[1].seqNo == rows[0].seqNo + 1
        && IsPruneRecord(enc, rows[1], n, rows[0].seqNo - 1))
  }

  lemma ShortPruneIsDone(enc: Encoding, st: State, now: Time, cutoff: Time, stamp: Time)
    requires Usable(st) && Whole(st) && !NewestInFuture(st.rows, now)
    ensures var (after, result) := Prune(enc, st, now, cutoff, stamp);
      result.Ok? && result.value < MAX_PRUNE ==> Done(enc, after.rows, cutoff, result.value)
  {
    ShortPruneSettles(enc, st, now, cutoff, stamp);
    PruneDeletesOldPrefix(enc, st, now, cutoff, stamp);
    var (after, result) := Prune(enc, st, now, cutoff, stamp);
    if result.Ok? && result.value < MAX_PRUNE && after.rows != [] && IsOld(after.rows[0], cutoff) {
      NewestIsLeft(enc, st, after.rows, result.value, stamp);
    }
  }

  lemma NewestIsLeft(enc: Encoding, st: State, left: seq<Row>, n: nat, stamp: Time)
    requires Usable(st) && Whole(st) && st.rows != [] && n < |st.rows| && left != [] && left[0] == Last(st.rows)
    requires if n == 0 then left == st.rows
             else left == st.rows[n..] + [NextRow(enc, st.head, GatewayEntry(stamp,
                            RetentionPruned(n, st.rows[n - 1].seqNo, st.rows[n - 1].hash)))]
    ensures n == 0 ==> |left| == 1
    ensures n > 0 ==> |left| == 2 && left[1].seqNo == left[0].seqNo + 1
                      && IsPruneRecord(enc, left[1], n, left[0].seqNo - 1)
  {
    assert st.rows[n].seqNo == st.rows[|st.rows| - 1].seqNo;
    if n > 0 {
      assert st.rows[n - 1].seqNo == left[0].seqNo - 1;
    }
  }

  /** One round of the retention task. Between its calls other records are
      written (`traffic`), none of them older than the cutoff. The round ends,
      however much is written, and keeps every record of the period; unless a
      call fails, its last call deleted less than the limit, and on a table
      without holes and future dates the oldest row is then in the period, or
      only the newest row was left, and the record of the last call. Old rows
      behind one of the period stay. */
  method RetentionRound(store: AuditStore, cutoff: Time, clock: nat -> Time, commits: nat -> bool,
                        traffic: nat -> seq<AuditEntry>)
    returns (last: Result<nat, StoreError>)
    requires store.Valid()
    requires forall i: nat :: clock(i) >= cutoff && NotBefore(traffic(i), cutoff)
    modifies store, store.conn
    ensures store.Valid()
    ensures forall r :: r in old(store.conn.audit) && !IsOld(r, cutoff) ==> r in store.conn.audit
    ensures last.Ok? ==> last.value < MAX_PRUNE
    ensures OldRows(store.conn.audit, cutoff) <= old(OldRows(store.conn.audit, cutoff))
    ensures old(Whole(store.View())) && !NewestInFuture(old(store.conn.audit), clock(0)) && Timely(clock, traffic) ==>
              last.Ok? ==> Done(store.enc, store.conn.audit, cutoff, last.value)
  {
    ghost var orderly := Whole(store.View()) && !NewestInFuture(store.conn.audit, clock(0)) && Timely(clock, traffic);
    var i: nat := 0;
    while true
      invariant store.Valid()
      invariant forall r :: r in old(store.conn.audit) && !IsOld(r, cutoff) ==> r in store.conn.audit
      invariant OldRows(store.conn.audit, cutoff) <= old(OldRows(store.conn.audit, cutoff))
      invariant orderly ==> Whole(store.View()) && !NewestInFuture(store.conn.audit, clock(i))
      decreases OldRows(store.conn.audit, cutoff)
    {
      PruneRemovesOld(store.enc, store.View(), clock(i), cutoff, clock(i));
      PruneDeletesOldPrefix(store.enc, store.View(), clock(i), cutoff, clock(i));
      if orderly {
        ShortPruneIsDone(store.enc, store.View(), clock(i), cutoff, clock(i));
        PruneStaysWhole(store.enc, store.View(), clock(i), cutoff, clock(i));
        PruneRecordIsDated(store.enc, store.View(), clock(i), cutoff, clock(i + 1));
      }
      last := store.PruneBefore(clock(i), cutoff, clock(i), commits(i));
      if last.Err? || last.value < MAX_PRUNE {
        return;
      }
      // More to go: other records get through in between.
      AppendAddsNoOld(store.enc, store.View(), traffic(i), cutoff);
      if orderly {
        AppendStaysWhole(store.enc, store.View(), traffic(i));
        NewestIsDated(store.enc, store.View(), traffic(i), clock(i + 1));
      }
      var _ := store.Append(traffic(i), commits(i));
      i := i + 1;
    }
  }
}
