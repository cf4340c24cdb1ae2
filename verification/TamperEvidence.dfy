/**
 What a passing verification proves. One table is what the gateway really wrote
 and pruned; the other is arbitrary, as an intruder may have left it. Hash
 collisions are excluded only among the records of the two.
 */
module TamperEvidence {
  import opened Prelude
  import opened Event
  import opened Chain
  import opened StoreSpec
  import opened StoreRuns
  import opened Verifier

  /** No two different messages of the two tables share a hash. */
  ghost predicate CollisionFree(enc: Encoding, a: seq<Row>, b: seq<Row>) {
    forall x, y :: x in a && y in b && enc.sha(RowMessage(x)) == enc.sha(RowMessage(y))
      ==> RowMessage(x) == RowMessage(y)
  }

  /** No record of the table hashes to the constant that the first one links to. */
  ghost predicate NoGenesisPreimage(enc: Encoding, rows: seq<Row>) {
    forall r :: r in rows ==> enc.sha(RowMessage(r)) != GenesisHash()
  }

  function HeadHash(rows: seq<Row>): string {
    if rows == [] then GenesisHash() else Last(rows).hash
  }

  /** Two records with the same hash, one of them genuine, are the same record. */
  lemma SameHashSameRow(enc: Encoding, history: seq<Row>, k: nat, rows: seq<Row>, j: nat)
    requires enc.HashesMessages() && Genuine(enc, history) && k < |history|
    requires j < |rows| && RowOk(enc, rows[j]) && rows[j].hash == history[k].hash
    requires CollisionFree(enc, history, rows)
    ensures rows[j] == history[k]
  {
    var x, y := history[k], rows[j];
    assert GenuineAt(enc, history, k);
    assert x in history && y in rows;
    HonestMessageDeterminesParts(x.prevHash, x.seqNo, x.body, y.prevHash, y.seqNo, y.body);
  }

  /** A hash identifies a genuine record, and is never the genesis hash. */
  ghost predicate HashesIdentify(history: seq<Row>, rows: seq<Row>) {
    && (forall k, j :: 0 <= k < |history| && 0 <= j < |rows| && rows[j].hash == history[k].hash
          ==> rows[j] == history[k])
    && (forall j :: 0 <= j < |rows| ==> rows[j].hash != GenesisHash())
  }

  lemma NoCollisionsIdentify(enc: Encoding, history: seq<Row>, rows: seq<Row>)
    requires enc.HashesMessages() && Genuine(enc, history) && Linked(enc, rows)
    requires CollisionFree(enc, history, rows) && NoGenesisPreimage(enc, rows)
    ensures HashesIdentify(history, rows)
  {
    forall k, j | 0 <= k < |history| && 0 <= j < |rows| && rows[j].hash == history[k].hash
      ensures rows[j] == history[k]
    {
      SameHashSameRow(enc, history, k, rows, j);
    }
    forall j | 0 <= j < |rows| ensures rows[j].hash != GenesisHash() {
      assert RowOk(enc, rows[j]) && rows[j] in rows;
    }
  }

  /** Each row links to the hash of the row before it, the first one of the
      history to genesis. */
  ghost predicate Links(rows: seq<Row>) {
    forall j :: 0 < j < |rows| ==> rows[j].prevHash == rows[j - 1].hash
  }

  /** From a record with a genuine hash back to the first one of the table,
      every record is the genuine one. */
  lemma {:induction false} AgreesBackwards(history: seq<Row>, k: nat, rows: seq<Row>, j: nat)
    requires Links(history) && Links(rows) && (history != [] ==> history[0].prevHash == GenesisHash())
    requires k < |history| && j < |rows| && rows[j].hash == history[k].hash
    requires HashesIdentify(history, rows)
    ensures j <= k
    ensures forall i :: 0 <= i <= j ==> rows[i] == history[k - j + i]
    decreases j
  {
    assert rows[j] == history[k];
    if j > 0 {
      assert rows[j - 1].hash == history[k].prevHash;
      AgreesBackwards(history, k - 1, rows, j - 1);
    }
  }

  lemma TablesLink(enc: Encoding, history: seq<Row>, rows: seq<Row>)
    requires Genuine(enc, history) && Linked(enc, rows)
    ensures Links(history) && Links(rows) && (history != [] ==> history[0].prevHash == GenesisHash())
  {
    forall k | 0 <= k < |history|
      ensures history[k].prevHash == if k == 0 then GenesisHash() else history[k - 1].hash
    {
      assert GenuineAt(enc, history, k);
    }
    assert history != [] ==> GenuineAt(enc, history, 0);
    forall j | 0 < j < |rows| ensures rows[j].prevHash == rows[j - 1].hash {
      assert Follows(rows[j - 1], rows[j]);
    }
  }

  /** The rows an intruder could have dropped from the front are vouched for by
      no record of the tail: a table that ends like the real one also starts no
      later than the real one. */
  lemma NotCutFromTheFront(enc: Encoding, st: State, history: seq<Row>, rows: seq<Row>)
    requires CleanState(enc, st, history) && ChainOk(enc, rows) && rows != []
    requires IsSuffix(rows, history)
    ensures |st.rows| <= |rows|
  {
    TailOfGenuine(enc, st.rows, history);
    TailOfGenuine(enc, rows, history);
    if |rows| < |st.rows| {
      assert rows == st.rows[|st.rows| - |rows|..];
      TailStartsAtTheCut(enc, st.rows, rows);
    }
  }

  lemma TailStartsAtTheCut(enc: Encoding, whole: seq<Row>, rows: seq<Row>)
    requires VouchersBounded(enc, whole) && rows != [] && IsSuffix(rows, whole)
    requires StartExplained(enc, rows)
    ensures rows[0].seqNo == 1 || rows[0].seqNo <= whole[0].seqNo
  {
    if rows[0].seqNo != 1 {
      var k :| 0 <= k < |rows| && Vouches(enc, rows[k], rows[0].seqNo - 1, rows[0].prevHash);
      assert rows[k] == whole[|whole| - |rows| + k];
      assert VouchesBelow(enc, rows[k], whole[0].seqNo);
    }
  }

  lemma HeadIsNotGenesis(enc: Encoding, history: seq<Row>)
    requires enc.HashesMessages() && Genuine(enc, history) && NoGenesisPreimage(enc, history)
    ensures history != [] ==> Last(history).hash != GenesisHash()
  {
    if history != [] {
      assert GenuineAt(enc, history, |history| - 1);
      assert Last(history) in history;
    }
  }

  lemma EndsLikeTheTrail(enc: Encoding, st: State, history: seq<Row>, rows: seq<Row>)
    requires enc.HashesMessages() && CleanState(enc, st, history) && ChainOk(enc, rows)
    requires HeadHash(rows) == HeadHash(st.rows)
    requires CollisionFree(enc, history, rows)
    requires NoGenesisPreimage(enc, rows) && NoGenesisPreimage(enc, history)
    ensures IsSuffix(st.rows, rows) && IsSuffix(rows, history)
  {
    HeadIsNotGenesis(enc, history);
    if rows != [] {
      NoCollisionsIdentify(enc, history, rows);
      MatchesToTheEnd(enc, history, rows);
      NotCutFromTheFront(enc, st, history, rows);
    }
  }

  lemma MatchesToTheEnd(enc: Encoding, history: seq<Row>, rows: seq<Row>)
    requires Genuine(enc, history) && Linked(enc, rows) && HashesIdentify(history, rows)
    requires rows != [] && history != [] && Last(rows).hash == Last(history).hash
    ensures IsSuffix(rows, history)
  {
    TablesLink(enc, history, rows);
    AgreesBackwards(history, |history| - 1, rows, |rows| - 1);
    assert rows == history[|history| - |rows|..];
  }

  /** Tamper evidence. If a table passes verification and ends with the hash of
      the real trail, it is a tail of what was really written, and contains the
      whole real trail: nothing in it was changed, removed, reordered or cut
      from the front. */
  lemma TamperingShows(enc: Encoding, steps: seq<Step>, trail: seq<Row>, history: seq<Row>, rows: seq<Row>)
    requires enc.Valid() && enc.HashesMessages() && CleanRun(steps)
    requires trail == Run(enc, EMPTY, steps).rows && history == History(enc, EMPTY, steps)
    requires ChainOk(enc, rows) && HeadHash(rows) == HeadHash(trail)
    requires CollisionFree(enc, history, rows)
    requires NoGenesisPreimage(enc, rows) && NoGenesisPreimage(enc, history)
    ensures IsSuffix(trail, rows) && IsSuffix(rows, history)
  {
    CleanRunState(enc, steps);
    EndsLikeTheTrail(enc, Run(enc, EMPTY, steps), history, rows);
  }

  lemma CleanRunState(enc: Encoding, steps: seq<Step>)
    requires enc.Valid() && CleanRun(steps)
    ensures CleanState(enc, Run(enc, EMPTY, steps), History(enc, EMPTY, steps))
  {
    EmptyIsClean(enc);
    RunStaysClean(enc, EMPTY, [], steps);
    assert [] + History(enc, EMPTY, steps) == History(enc, EMPTY, steps);
  }

  /** The anchor of a record: what an exporter or an operator noted down. */
  function AnchorOf(r: Row, source: string): Anchor {
    Anchor(r.seqNo, r.hash, source)
  }

  /** Anchors are sound. If a table still holds the anchor of a record that was
      really written, then from its first row up to there it is exactly what was
      written. */
  lemma AnchorsAreSound(enc: Encoding, steps: seq<Step>, k: nat, rows: seq<Row>, source: string)
    requires enc.Valid() && enc.HashesMessages() && CleanRun(steps)
    requires k < |History(enc, EMPTY, steps)|
    requires ChainOk(enc, rows) && AnchorHolds(rows, AnchorOf(History(enc, EMPTY, steps)[k], source))
    requires rows[0].seqNo <= k + 1  // retention has not removed it since
    requires CollisionFree(enc, History(enc, EMPTY, steps), rows) && NoGenesisPreimage(enc, rows)
    ensures exists n :: 0 < n <= |rows| && IsSuffix(rows[..n], History(enc, EMPTY, steps)[..k + 1])
  {
    CleanRunState(enc, steps);
    var history := History(enc, EMPTY, steps);
    assert GenuineAt(enc, history, k);
    NoCollisionsIdentify(enc, history, rows);
    MatchesToTheAnchor(enc, history, k, rows);
  }

  lemma MatchesToTheAnchor(enc: Encoding, history: seq<Row>, k: nat, rows: seq<Row>)
    requires Genuine(enc, history) && Linked(enc, rows) && HashesIdentify(history, rows)
    requires k < |history| && exists r :: r in rows && r.hash == history[k].hash
    ensures exists n :: 0 < n <= |rows| && IsSuffix(rows[..n], history[..k + 1])
  {
    TablesLink(enc, history, rows);
    var r :| r in rows && r.hash == history[k].hash;
    var j :| 0 <= j < |rows| && rows[j] == r;
    AgreesBackwards(history, k, rows, j);
    assert rows[..j + 1] == history[..k + 1][k - j..];
  }

  /** Anchors are complete. An untampered trail keeps passing with the anchor of
      every record it ever wrote, whatever is appended or pruned later. */
  lemma AnchorsKeepPassing(enc: Encoding, earlier: seq<Step>, later: seq<Step>, k: nat, source: string)
    requires enc.Valid() && CleanRun(earlier) && CleanRun(later)
    requires k < |History(enc, EMPTY, earlier)|
    ensures var st := Run(enc, EMPTY, earlier);
      var after := Run(enc, st, later);
      ChainOk(enc, after.rows)
      && AnchorHolds(after.rows, AnchorOf(History(enc, EMPTY, earlier)[k], source))
  {
    CleanRunState(enc, earlier);
    var st, past := Run(enc, EMPTY, earlier), History(enc, EMPTY, earlier);
    RunStaysClean(enc, st, past, later);
    CleanStateVerifies(enc, Run(enc, st, later), past + History(enc, st, later));
    WrittenRowsHold(enc, Run(enc, st, later), past + History(enc, st, later), k, source);
  }

  lemma WrittenRowsHold(enc: Encoding, st: State, history: seq<Row>, k: nat, source: string)
    requires Tracks(enc, st, history) && k < |history|
    ensures AnchorHolds(st.rows, AnchorOf(history[k], source))
  {
    TailOfGenuine(enc, st.rows, history);
    assert GenuineAt(enc, history, k);
    var d := |history| - |st.rows|;
    if k >= d {
      assert st.rows[k - d] == history[k];
      assert st.rows[k - d] in st.rows;
    }
  }
}
