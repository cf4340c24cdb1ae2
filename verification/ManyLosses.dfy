/**
 Runs in which any number of tails is lost. Whatever is missing, the rows that
 are left are those that were written, so that the numbers alone tell whether
 the trail verifies.
 */
module ManyLosses {
  import opened Prelude
  import opened Event
  import opened Chain
  import opened StoreSpec
  import opened StoreRuns
  import LostTail
  import Retention

  /** Any steps of the store, and losses, but no `retention_pruned` from callers. */
  predicate Honest(step: Step) {
    step.Append? ==> FromCallers(step.entries)
  }

  predicate HonestRun(steps: seq<Step>) {
    forall step :: step in steps ==> Honest(step)
  }

  predicate IsOf(r: Row, history: seq<Row>) {
    1 <= r.seqNo <= |history| && r == history[r.seqNo - 1]
  }

  /** If the record names a cut, then with the hash that was written there. */
  predicate NamesHash(enc: Encoding, r: Row, history: seq<Row>) {
    var entry := enc.decode(r.body);
    entry.Some? && entry.value.event.RetentionPruned? ==> IsHash(entry.value.event, history)
  }

  predicate IsHash(event: AuditEvent, history: seq<Row>)
    requires event.RetentionPruned?
  {
    1 <= event.lastSeq <= |history| && event.lastHash == history[event.lastSeq - 1].hash
  }

  ghost predicate NamesHashes(enc: Encoding, history: seq<Row>) {
    forall r :: r in history ==> NamesHash(enc, r, history)
  }

  ghost predicate AllOf(rows: seq<Row>, history: seq<Row>) {
    Ascending(rows) && forall r :: r in rows ==> IsOf(r, history)
  }

  /** The table holds some of the history, and both heads are its end. */
  ghost predicate Partial(enc: Encoding, st: State, history: seq<Row>) {
    && Genuine(enc, history) && NamesHashes(enc, history)
    && AllOf(st.rows, history)
    && st.head == HeadAfter(START, history)
    && (st.chainHead == Some(st.head) || (st.chainHead.None? && history == []))
  }

  lemma HistoryEnds(enc: Encoding, history: seq<Row>)
    requires Genuine(enc, history)
    ensures HeadAfter(START, history).seqNo == |history|
  {
    assert history != [] ==> GenuineAt(enc, history, |history| - 1);
  }

  lemma AddedAreOf(enc: Encoding, rows: seq<Row>, history: seq<Row>, added: seq<Row>)
    requires AllOf(rows, history) && Genuine(enc, history + added)
    ensures AllOf(rows + added, history + added)
  {
    var all := history + added;
    forall i | 0 <= i < |added| ensures added[i].seqNo == |history| + i + 1 && IsOf(added[i], all) {
      assert GenuineAt(enc, all, |history| + i) && all[|history| + i] == added[i];
    }
    forall r | r in rows ensures IsOf(r, all) && r.seqNo <= |history| {
      assert IsOf(r, history);
    }
  }

  lemma AddedNameHashes(enc: Encoding, history: seq<Row>, added: seq<Row>, entries: seq<AuditEntry>)
    requires NamesHashes(enc, history) && |added| == |entries|
    requires forall i :: 0 <= i < |added| ==> enc.decode(added[i].body) == Some(entries[i])
    requires forall e :: e in entries && e.event.RetentionPruned? ==> IsHash(e.event, history)
    ensures NamesHashes(enc, history + added)
  {
    forall r | r in history + added ensures NamesHash(enc, r, history + added) {
      if r in history {
        assert NamesHash(enc, r, history);
      } else {
        var i :| 0 <= i < |added| && added[i] == r;
        assert entries[i] in entries;
      }
    }
  }

  lemma PartialAppend(enc: Encoding, st: State, history: seq<Row>, entries: seq<AuditEntry>)
    requires enc.Valid() && Partial(enc, st, history)
    requires forall e :: e in entries && e.event.RetentionPruned? ==> IsHash(e.event, history)
    ensures Partial(enc, AppendTo(enc, st, entries), history + Extend(enc, st.head, entries))
  {
    var added := Extend(enc, st.head, entries);
    ExtendIsGenuine(enc, history, entries);
    HeadAfterConcat(START, history, added);
    AddedAreOf(enc, st.rows, history, added);
    AddedNameHashes(enc, history, added, entries);
  }

  lemma CutIsHash(enc: Encoding, st: State, history: seq<Row>, cut: int)
    requires Partial(enc, st, history) && HashAt(st.rows, cut).Some?
    ensures 1 <= cut <= |history| && history[cut - 1].hash == HashAt(st.rows, cut).value
  {
    var r :| r in st.rows && r.seqNo == cut && r.hash == HashAt(st.rows, cut).value;
    assert IsOf(r, history);
  }

  lemma KeptAreOf(rows: seq<Row>, history: seq<Row>, cut: int)
    requires AllOf(rows, history)
    ensures AllOf(RowsAfter(rows, cut), history)
  {
    RowsAfterIsTail(rows, cut);
    var kept := RowsAfter(rows, cut);
    forall r | r in kept ensures IsOf(r, history) {
      assert r in rows;
    }
  }

  lemma PartialPrune(enc: Encoding, st: State, history: seq<Row>, now: Time, cutoff: Time, stamp: Time)
    requires enc.Valid() && Partial(enc, st, history)
    ensures Partial(enc, StoreSpec.Prune(enc, st, now, cutoff, stamp).0,
                    history + PruneWrites(enc, st, now, cutoff, stamp))
  {
    assert history + [] == history;
    var cut := PruneCut(st.rows, now, cutoff);
    if cut.Some? && HashAt(st.rows, cut.value).Some? {
      var hash := HashAt(st.rows, cut.value).value;
      CutIsHash(enc, st, history, cut.value);
      KeptAreOf(st.rows, history, cut.value);
      PartialAppend(enc, st.(rows := RowsAfter(st.rows, cut.value)), history,
                    [GatewayEntry(stamp, RetentionPruned(Deleted(st.rows, cut.value), cut.value, hash))]);
    }
  }

  lemma PartialOpen(enc: Encoding, st: State, history: seq<Row>, rows: seq<Row>, stamp: Time)
    requires enc.Valid() && Partial(enc, st, history) && rows <= st.rows
    ensures Partial(enc, Opened(enc, rows, st.chainHead, stamp), history + OpenWrites(enc, rows, st.chainHead, stamp))
  {
    assert history + [] == history;
    HistoryEnds(enc, history);
    var left := st.(rows := rows);
    assert AllOf(rows, history);
    if Truncated(rows, st.chainHead) {
      PartialAppend(enc, left, history, [GatewayEntry(stamp, TrailTruncated(st.head.seqNo, Found(rows)))]);
    } else if rows != [] {
      assert IsOf(Last(rows), history);
    }
  }

  lemma StepStaysPartial(enc: Encoding, st: State, history: seq<Row>, step: Step)
    requires enc.Valid() && Partial(enc, st, history) && Honest(step)
    ensures Partial(enc, Next(enc, st, step), history + Written(enc, st, step))
  {
    assert history + [] == history;
    match step
    case Append(entries, commits) =>
      if commits {
        PartialAppend(enc, st, history, entries);
      }
    case Prune(now, cutoff, stamp, _) => PartialPrune(enc, st, history, now, cutoff, stamp);
    case Reopen(stamp) => PartialOpen(enc, st, history, st.rows, stamp);
    case LoseTail(keep, stamp) => PartialOpen(enc, st, history, Left(st.rows, keep), stamp);
  }

  lemma {:induction false} RunStaysPartial(enc: Encoding, st: State, history: seq<Row>, steps: seq<Step>)
    requires enc.Valid() && Partial(enc, st, history) && HonestRun(steps)
    ensures Partial(enc, Run(enc, st, steps), history + History(enc, st, steps))
    decreases steps
  {
    if steps == [] {
      assert history + [] == history;
    } else {
      StepStaysPartial(enc, st, history, steps[0]);
      var after := Next(enc, st, steps[0]);
      RunStaysPartial(enc, after, history + Written(enc, st, steps[0]), steps[1..]);
      ConcatAssociates(history, Written(enc, st, steps[0]), History(enc, after, steps[1..]));
    }
  }

  /** The trail starts at record 1, or a record that is left names the number
      before its start as a cut. */
  ghost predicate StartNamed(enc: Encoding, rows: seq<Row>) {
    || rows == [] || rows[0].seqNo == 1
    || exists r :: r in rows && LostTail.VouchesFor(enc, r, rows[0].seqNo - 1)
  }

  lemma ConsecutiveAreLinked(enc: Encoding, rows: seq<Row>, history: seq<Row>)
    requires Genuine(enc, history) && AllOf(rows, history) && Retention.Unbroken(rows)
    ensures Linked(enc, rows)
  {
    forall i | 0 <= i < |rows|
      ensures RowOk(enc, rows[i]) && (i > 0 ==> Follows(rows[i - 1], rows[i]))
    {
      assert IsOf(rows[i], history) && GenuineAt(enc, history, rows[i].seqNo - 1);
      assert i > 0 ==> IsOf(rows[i - 1], history);
    }
  }

  /** A record that names the number before the start also names the right hash. */
  lemma NamedIsExplained(enc: Encoding, rows: seq<Row>, history: seq<Row>)
    requires Genuine(enc, history) && NamesHashes(enc, history) && AllOf(rows, history)
    requires rows != [] && StartNamed(enc, rows)
    ensures StartExplained(enc, rows)
  {
    assert IsOf(rows[0], history) && GenuineAt(enc, history, rows[0].seqNo - 1);
    if rows[0].seqNo != 1 {
      var r :| r in rows && LostTail.VouchesFor(enc, r, rows[0].seqNo - 1);
      var k :| 0 <= k < |rows| && rows[k] == r;
      assert IsOf(r, history) && NamesHash(enc, r, history);
      assert Vouches(enc, rows[k], rows[0].seqNo - 1, rows[0].prevHash);
    }
  }

  lemma ExplainedIsNamed(enc: Encoding, rows: seq<Row>)
    requires ChainOk(enc, rows)
    ensures StartNamed(enc, rows)
  {
    if rows != [] && rows[0].seqNo != 1 {
      var k :| 0 <= k < |rows| && Vouches(enc, rows[k], rows[0].seqNo - 1, rows[0].prevHash);
      var r := rows[k];
      assert r in rows && LostTail.VouchesFor(enc, r, rows[0].seqNo - 1);
    }
  }

  lemma PartialVerifiesIff(enc: Encoding, st: State, history: seq<Row>)
    requires Partial(enc, st, history)
    ensures ChainOk(enc, st.rows) <==> Retention.Unbroken(st.rows) && StartNamed(enc, st.rows)
  {
    if ChainOk(enc, st.rows) {
      forall i | 0 <= i < |st.rows| ensures st.rows[i].seqNo == st.rows[0].seqNo + i {
        LinkedSeq(enc, st.rows, 0, i);
      }
      ExplainedIsNamed(enc, st.rows);
    }
    if Retention.Unbroken(st.rows) && StartNamed(enc, st.rows) {
      ConsecutiveAreLinked(enc, st.rows, history);
      if st.rows != [] {
        NamedIsExplained(enc, st.rows, history);
      }
    }
  }

  /** After any run, however often the newest records were lost, every row is the
      one that was written under its number, and the trail verifies exactly if
      its numbers are consecutive and start at 1 or after a cut that a record
      still there names. */
  lemma VerifiesExactlyIfUnbroken(enc: Encoding, steps: seq<Step>)
    requires enc.Valid() && HonestRun(steps)
    ensures var rows, history := Run(enc, EMPTY, steps).rows, History(enc, EMPTY, steps);
      && (forall r :: r in rows ==> 1 <= r.seqNo <= |history| && r == history[r.seqNo - 1])
      && (ChainOk(enc, rows) <==> Retention.Unbroken(rows) && StartNamed(enc, rows))
  {
    RunStaysPartial(enc, EMPTY, [], steps);
    assert [] + History(enc, EMPTY, steps) == History(enc, EMPTY, steps);
    PartialVerifiesIff(enc, Run(enc, EMPTY, steps), History(enc, EMPTY, steps));
    forall r | r in Run(enc, EMPTY, steps).rows ensures IsOf(r, History(enc, EMPTY, steps)) {
    }
  }
}
