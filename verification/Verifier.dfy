/** `verify_chain` and `verify_against` (`src/audit/store.rs`): one pass over the
    trail in order of sequence number, with a single unexplained gap. */
module Verifier {
  import opened Prelude
  import opened Event
  import opened Chain

  datatype VerifyError =
    | FirstNotGenesis(at: int)
    | SequenceGap(at: int, after: int)
    | NotLinked(at: int)
    | HashMismatch(at: int)
    | UnreadableBody(at: int)
    | ColumnsMismatch(at: int)
    | PrefixMissing(upTo: int)
    | RecordsMissing(anchor: Anchor)
    | RecordDiffers(anchor: Anchor)

  /** Number and hash of a record, noted elsewhere. */
  datatype Anchor = Anchor(seqNo: int, hash: string, source: string)

  datatype VerifyReport = VerifyReport(
    records: nat,
    firstSeq: Option<int>,
    lastSeq: Option<int>,
    headHash: string,
    error: Option<VerifyError>)

  /** What is wrong with row `k`, given that the rows before it are fine. */
  function RowError(enc: Encoding, rows: seq<Row>, k: nat): Option<VerifyError>
    requires k < |rows|
  {
    var r := rows[k];
    if k == 0 && r.seqNo == 1 && r.prevHash != GenesisHash() then Some(FirstNotGenesis(r.seqNo))
    else if k > 0 && r.seqNo != rows[k - 1].seqNo + 1 then Some(SequenceGap(r.seqNo, rows[k - 1].seqNo))
    else if k > 0 && r.prevHash != rows[k - 1].hash then Some(NotLinked(r.seqNo))
    else if enc.recordHash(r.prevHash, r.seqNo, r.body) != r.hash then Some(HashMismatch(r.seqNo))
    else if enc.decode(r.body).None? then Some(UnreadableBody(r.seqNo))
    else if ColumnsOf(enc.decode(r.body).value) != r.columns then Some(ColumnsMismatch(r.seqNo))
    else None
  }

  ghost predicate GoodPrefix(enc: Encoding, rows: seq<Row>, n: nat)
    requires n <= |rows|
  {
    forall k :: 0 <= k < n ==> RowError(enc, rows, k).None?
  }

  ghost predicate VouchedWithin(enc: Encoding, rows: seq<Row>, n: nat, seqNo: int, hash: string)
    requires n <= |rows|
  {
    exists k :: 0 <= k < n && Vouches(enc, rows[k], seqNo, hash)
  }

  /** The gap before the first row, while none of the first `n` rows accounts for it. */
  ghost function OpenGap(enc: Encoding, rows: seq<Row>, n: nat): Option<(int, string)>
    requires 0 < n <= |rows|
  {
    if rows[0].seqNo == 1 || VouchedWithin(enc, rows, n, rows[0].seqNo - 1, rows[0].prevHash)
    then None else Some((rows[0].seqNo - 1, rows[0].prevHash))
  }

  /** The first rows are linked, except that nothing is said yet about a gap
      before the first one. */
  lemma GoodPrefixIsLinked(enc: Encoding, rows: seq<Row>)
    ensures GoodPrefix(enc, rows, |rows|) <==>
      && Linked(enc, rows)
      && (rows != [] && rows[0].seqNo == 1 ==> rows[0].prevHash == GenesisHash())
  {
    if Linked(enc, rows) && (rows != [] && rows[0].seqNo == 1 ==> rows[0].prevHash == GenesisHash()) {
      forall k | 0 <= k < |rows| ensures RowError(enc, rows, k).None? {
        assert RowOk(enc, rows[k]);
        assert k > 0 ==> Follows(rows[k - 1], rows[k]);
      }
    }
    if GoodPrefix(enc, rows, |rows|) {
      assert rows != [] ==> RowError(enc, rows, 0).None?;
      forall k | 0 <= k < |rows|
        ensures RowOk(enc, rows[k]) && (k > 0 ==> Follows(rows[k - 1], rows[k]))
      {
        assert RowError(enc, rows, k).None?;
      }
    }
  }

  /** The error names something that is wrong with row `k`. */
  predicate IsWrong(enc: Encoding, rows: seq<Row>, k: nat, error: VerifyError)
    requires k < |rows|
  {
    var r := rows[k];
    match error
    case FirstNotGenesis(at) => k == 0 && at == r.seqNo == 1 && r.prevHash != seq(64, _ => '0')
    case SequenceGap(at, after) => k > 0 && at == r.seqNo && after == rows[k - 1].seqNo && at != after + 1
    case NotLinked(at) => k > 0 && at == r.seqNo && r.prevHash != rows[k - 1].hash
    case HashMismatch(at) => at == r.seqNo && r.hash != enc.recordHash(r.prevHash, r.seqNo, r.body)
    case UnreadableBody(at) => at == r.seqNo && enc.decode(r.body).None?
    case ColumnsMismatch(at) =>
      at == r.seqNo && enc.decode(r.body).Some? && !Describes(r.columns, enc.decode(r.body).value)
    case _ => false
  }

  /** The body of row `k` can be read, and its columns describe what it says. */
  predicate IsDescribed(enc: Encoding, r: Row) {
    enc.decode(r.body).Some? && Describes(r.columns, enc.decode(r.body).value)
  }

  /** What the check of a row finds is really wrong, and nothing wrong with the
      columns escapes it. */
  lemma ErrorsAreReal(enc: Encoding, rows: seq<Row>, k: nat)
    requires k < |rows|
    ensures var error := RowError(enc, rows, k);
      && (error.Some? ==> IsWrong(enc, rows, k, error.value))
      && (error.None? ==> IsDescribed(enc, rows[k]))
  {
    if enc.decode(rows[k].body).Some? {
      ColumnsDescribe(rows[k].columns, enc.decode(rows[k].body).value);
    }
  }

  lemma ReportIsReal(enc: Encoding, rows: seq<Row>, n: nat)
    requires n <= |rows| && GoodPrefix(enc, rows, n)
    ensures forall k :: 0 <= k < n ==> IsDescribed(enc, rows[k])
    ensures n < |rows| && RowError(enc, rows, n).Some? ==> IsWrong(enc, rows, n, RowError(enc, rows, n).value)
  {
    forall k | 0 <= k < n ensures IsDescribed(enc, rows[k]) {
      ErrorsAreReal(enc, rows, k);
    }
    if n < |rows| {
      ErrorsAreReal(enc, rows, n);
    }
  }

  /** Accepts exactly the trails that `ChainOk` describes; otherwise names the
      first record that is wrong, or the prefix that nothing accounts for. */
  method VerifyChain(enc: Encoding, rows: seq<Row>) returns (report: VerifyReport)
    ensures report.error.None? <==> ChainOk(enc, rows)
    ensures report.records <= |rows| && GoodPrefix(enc, rows, report.records)
    ensures report.records < |rows| ==> report.error == RowError(enc, rows, report.records)
    ensures report.records < |rows| ==> report.error.Some? && IsWrong(enc, rows, report.records, report.error.value)
    ensures report.records == |rows| && report.error.Some? ==>
      rows != [] && report.error == Some(PrefixMissing(rows[0].seqNo - 1))
    ensures forall k :: 0 <= k < report.records ==> IsDescribed(enc, rows[k])
    ensures report.firstSeq == if report.records == 0 then None else Some(rows[0].seqNo)
    ensures report.lastSeq == if report.records == 0 then None else Some(rows[report.records - 1].seqNo)
    ensures report.headHash == if report.records == 0 then GenesisHash() else rows[report.records - 1].hash
  {
    report := VerifyReport(0, None, None, GenesisHash(), None);
    var unexplainedGap: Option<(int, string)> := None;
    GoodPrefixIsLinked(enc, rows);
    for n := 0 to |rows|
      invariant report.records == n && report.error.None?
      invariant GoodPrefix(enc, rows, n)
      invariant report.firstSeq == if n == 0 then None else Some(rows[0].seqNo)
      invariant report.lastSeq == if n == 0 then None else Some(rows[n - 1].seqNo)
      invariant report.headHash == if n == 0 then GenesisHash() else rows[n - 1].hash
      invariant n == 0 ==> unexplainedGap.None?
      invariant n > 0 ==> unexplainedGap == OpenGap(enc, rows, n)
    {
      var row := rows[n];
      var failed := RowCheck(enc, report, row);
      if failed.Some? {
        assert failed == RowError(enc, rows, n);
        ReportIsReal(enc, rows, n);
        report := report.(error := failed);
        return;
      }
      if report.lastSeq.None? && row.seqNo != 1 {
        unexplainedGap := Some((row.seqNo - 1, row.prevHash));
      }
      var event := enc.decode(row.body).value.event;
      if event.RetentionPruned? && unexplainedGap == Some((event.lastSeq, event.lastHash)) {
        unexplainedGap := None;
      }
      VouchStep(enc, rows, n);
      report := VerifyReport(report.records + 1,
                             if report.firstSeq.None? then Some(row.seqNo) else report.firstSeq,
                             Some(row.seqNo), row.hash, None);
    }
    ReportIsReal(enc, rows, |rows|);
    if unexplainedGap.Some? {
      report := report.(error := Some(PrefixMissing(unexplainedGap.value.0)));
    }
  }

  /** The checks on one row against what the report holds of the rows before. */
  function RowCheck(enc: Encoding, report: VerifyReport, row: Row): Option<VerifyError> {
    if report.lastSeq.None? && row.seqNo == 1 && row.prevHash != GenesisHash()
    then Some(FirstNotGenesis(row.seqNo))
    else if report.lastSeq.Some? && row.seqNo != report.lastSeq.value + 1
    then Some(SequenceGap(row.seqNo, report.lastSeq.value))
    else if report.lastSeq.Some? && row.prevHash != report.headHash
    then Some(NotLinked(row.seqNo))
    else if enc.recordHash(row.prevHash, row.seqNo, row.body) != row.hash
    then Some(HashMismatch(row.seqNo))
    else if enc.decode(row.body).None?
    then Some(UnreadableBody(row.seqNo))
    else if ColumnsOf(enc.decode(row.body).value) != row.columns
    then Some(ColumnsMismatch(row.seqNo))
    else None
  }

  lemma VouchStep(enc: Encoding, rows: seq<Row>, n: nat)
    requires n < |rows|
    ensures VouchedWithin(enc, rows, n + 1, rows[0].seqNo - 1, rows[0].prevHash) <==>
      || VouchedWithin(enc, rows, n, rows[0].seqNo - 1, rows[0].prevHash)
      || Vouches(enc, rows[n], rows[0].seqNo - 1, rows[0].prevHash)
  {
  }

  // ----- anchors -----

  /** The trail still contains the anchored record, unless retention removed
      it since. */
  ghost predicate AnchorHolds(rows: seq<Row>, a: Anchor) {
    && rows != []
    && a.seqNo <= Last(rows).seqNo
    && (a.seqNo < rows[0].seqNo || exists r :: r in rows && r.seqNo == a.seqNo && r.hash == a.hash)
  }

  lemma LinkedKeysAreUnique(enc: Encoding, rows: seq<Row>, a: Row, b: Row)
    requires Linked(enc, rows) && a in rows && b in rows && a.seqNo == b.seqNo
    ensures a == b
  {
    var i :| 0 <= i < |rows| && rows[i] == a;
    var j :| 0 <= j < |rows| && rows[j] == b;
    if i <= j {
      LinkedSeq(enc, rows, i, j);
    } else {
      LinkedSeq(enc, rows, j, i);
    }
  }

  /** Accepts exactly the good chains that still contain every anchor; a failing
      anchor is the first one that fails, and is named. */
  method VerifyAgainst(enc: Encoding, rows: seq<Row>, anchors: seq<Anchor>) returns (report: VerifyReport)
    ensures report.error.None? <==>
      ChainOk(enc, rows) && forall a :: a in anchors ==> AnchorHolds(rows, a)
    ensures ChainOk(enc, rows) && report.error.Some? ==>
      exists n :: 0 <= n < |anchors| && !AnchorHolds(rows, anchors[n])
        && (forall m :: 0 <= m < n ==> AnchorHolds(rows, anchors[m]))
        && report.error == Some(if rows == [] || anchors[n].seqNo > Last(rows).seqNo
                                then RecordsMissing(anchors[n]) else RecordDiffers(anchors[n]))
  {
    report := VerifyChain(enc, rows);
    if report.error.Some? {
      return;
    }
    for n := 0 to |anchors|
      invariant report.error.None?
      invariant report.firstSeq == if rows == [] then None else Some(rows[0].seqNo)
      invariant report.lastSeq == if rows == [] then None else Some(Last(rows).seqNo)
      invariant forall m :: 0 <= m < n ==> AnchorHolds(rows, anchors[m])
    {
      var anchor := anchors[n];
      var problem: Option<VerifyError>;
      if report.lastSeq.None? || anchor.seqNo > report.lastSeq.value {
        problem := Some(RecordsMissing(anchor));
      } else if report.firstSeq.Some? && anchor.seqNo < report.firstSeq.value {
        problem := None;
      } else {
        var hash := HashAt(rows, anchor.seqNo);
        problem := if hash == Some(anchor.hash) then None else Some(RecordDiffers(anchor));
        if hash.Some? {
          ghost var found :| found in rows && found.seqNo == anchor.seqNo && found.hash == hash.value;
          forall r | r in rows && r.seqNo == anchor.seqNo ensures r == found {
            LinkedKeysAreUnique(enc, rows, r, found);
          }
        }
      }
      if problem.Some? {
        assert !AnchorHolds(rows, anchors[n]);
        report := report.(error := problem);
        return;
      }
    }
  }
}
