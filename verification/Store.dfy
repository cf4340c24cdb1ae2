/**
 The audit store as a state machine on values: the `audit` table in key order,
 the `chain_head` row, and the writer's `last_seq`/`last_hash`.
 */
module StoreSpec {
  import opened Prelude
  import opened Event
  import opened Chain

  /** The limit of one call. */
  const MAX_PRUNE: int := 20_000

  /** How far the newest record may be dated ahead before retention waits. */
  const CLOCK_TOLERANCE: Time := 300 * SECOND

  datatype Head = Head(seqNo: int, hash: string)

  datatype State = State(rows: seq<Row>, chainHead: Option<Head>, head: Head)

  datatype StoreError = CommitFailed | NoSuchRecord(seqNo: int)

  const START: Head := Head(0, GenesisHash())

  const EMPTY: State := State([], None, START)

  // ----- append -----

  function NextRow(enc: Encoding, head: Head, entry: AuditEntry): Row {
    var body := enc.encode(entry);
    Row(head.seqNo + 1, ColumnsOf(entry), body, head.hash,
        enc.recordHash(head.hash, head.seqNo + 1, body))
  }

  function Extend(enc: Encoding, head: Head, entries: seq<AuditEntry>): (rows: seq<Row>)
    ensures |rows| == |entries|
    decreases entries
  {
    if entries == [] then []
    else
      var row := NextRow(enc, head, entries[0]);
      [row] + Extend(enc, Head(row.seqNo, row.hash), entries[1..])
  }

  function HeadAfter(head: Head, rows: seq<Row>): Head {
    if rows == [] then head else Head(Last(rows).seqNo, Last(rows).hash)
  }

  function AppendTo(enc: Encoding, st: State, entries: seq<AuditEntry>): State {
    var added := Extend(enc, st.head, entries);
    var head := HeadAfter(st.head, added);
    State(st.rows + added, Some(head), head)
  }

  function SeqNumbers(rows: seq<Row>): seq<int> {
    seq(|rows|, i requires 0 <= i < |rows| => rows[i].seqNo)
  }

  // ----- retention -----

  /** The oldest key among the rows at or after the cutoff. */
  function FirstKept(rows: seq<Row>, cutoff: Time): Option<int> {
    if rows == [] then None
    else
      var rest := FirstKept(rows[1..], cutoff);
      if rows[0].columns.ts >= TsColumn(cutoff)
      then Some(if rest.Some? then Min(rest.value, rows[0].seqNo) else rows[0].seqNo)
      else rest
  }

  function RowsAfter(rows: seq<Row>, cut: int): seq<Row> {
    if rows == [] then []
    else (if rows[0].seqNo > cut then [rows[0]] else []) + RowsAfter(rows[1..], cut)
  }

  /** The newest record to delete, if there is one to delete. */
  function PruneCut(rows: seq<Row>, now: Time, cutoff: Time): Option<int> {
    if rows == [] || Last(rows).columns.ts > TsColumn(now + CLOCK_TOLERANCE) then None
    else
      var headSeq := Last(rows).seqNo;
      var kept := FirstKept(rows, cutoff);
      var firstKept := if kept.Some? then kept.value else headSeq;
      var cut := Min(Min(firstKept, headSeq) - 1, rows[0].seqNo + MAX_PRUNE - 1);
      if cut < rows[0].seqNo then None else Some(cut)
  }

  /** Deleting up to `cut` and recording it, in one transaction. */
  function PruneAt(enc: Encoding, st: State, cut: int, hash: string, stamp: Time): State {
    var kept := RowsAfter(st.rows, cut);
    AppendTo(enc, st.(rows := kept),
             [GatewayEntry(stamp, RetentionPruned(Deleted(st.rows, cut), cut, hash))])
  }

  function Deleted(rows: seq<Row>, cut: int): nat {
    RowsAfterNoLonger(rows, cut);
    |rows| - |RowsAfter(rows, cut)|
  }

  lemma RowsAfterNoLonger(rows: seq<Row>, cut: int)
    ensures |RowsAfter(rows, cut)| <= |rows|
  {
  }

  function Prune(enc: Encoding, st: State, now: Time, cutoff: Time, stamp: Time)
    : (State, Result<nat, StoreError>)
  {
    var cut := PruneCut(st.rows, now, cutoff);
    if cut.None? then (st, Ok(0))
    else
      var hash := HashAt(st.rows, cut.value);
      if hash.None? then (st, Err(NoSuchRecord(cut.value)))
      else (PruneAt(enc, st, cut.value, hash.value, stamp), Ok(Deleted(st.rows, cut.value)))
  }

  // ----- open -----

  function Found(rows: seq<Row>): int {
    if rows == [] then 0 else Last(rows).seqNo
  }

  predicate Truncated(rows: seq<Row>, chainHead: Option<Head>) {
    chainHead.Some? && Found(rows) < chainHead.value.seqNo
  }

  /** Where the writer continues. */
  function Resume(rows: seq<Row>, chainHead: Option<Head>): Head {
    if Truncated(rows, chainHead) then chainHead.value
    else if rows == [] then START
    else Head(Last(rows).seqNo, Last(rows).hash)
  }

  function Opened(enc: Encoding, rows: seq<Row>, chainHead: Option<Head>, stamp: Time): State {
    var head := Resume(rows, chainHead);
    var st := State(rows, chainHead, head);
    if Truncated(rows, chainHead)
    then AppendTo(enc, st, [GatewayEntry(stamp, TrailTruncated(head.seqNo, Found(rows)))])
    else st
  }

  // ----- what every table the store works on satisfies -----

  /** The key order of the table. */
  ghost predicate Ascending(rows: seq<Row>) {
    forall i, j :: 0 <= i < j < |rows| ==> rows[i].seqNo < rows[j].seqNo
  }

  ghost predicate KeysUpTo(rows: seq<Row>, seqNo: int) {
    forall r :: r in rows ==> r.seqNo <= seqNo
  }

  /** New keys are beyond all keys in the table. */
  ghost predicate Usable(st: State) {
    Ascending(st.rows) && KeysUpTo(st.rows, st.head.seqNo)
  }

  // ----- lemmas -----

  lemma {:induction false} ExtendAt(enc: Encoding, head: Head, entries: seq<AuditEntry>, i: nat)
    requires i < |entries|
    ensures Extend(enc, head, entries)[i]
      == NextRow(enc, HeadAfter(head, Extend(enc, head, entries)[..i]), entries[i])
    ensures Extend(enc, head, entries)[i].seqNo == head.seqNo + 1 + i
    decreases i
  {
    var all := Extend(enc, head, entries);
    if i > 0 {
      var next := Head(all[0].seqNo, all[0].hash);
      ExtendAt(enc, next, entries[1..], i - 1);
      var rest := Extend(enc, next, entries[1..]);
      assert all == [all[0]] + rest;
      assert all[..i] == [all[0]] + rest[..i - 1];
      assert all[i] == rest[i - 1];
    }
  }

  /** Row `i` of an append holds entry `i`: in its columns field by field, and
      whole in its body; it is numbered and linked after the row before it. */
  lemma RowHoldsEntry(enc: Encoding, head: Head, entries: seq<AuditEntry>, i: nat)
    requires i < |entries|
    ensures var rows := Extend(enc, head, entries);
      && Describes(rows[i].columns, entries[i]) && rows[i].body == enc.encode(entries[i])
      && rows[i].seqNo == head.seqNo + 1 + i
      && rows[i].prevHash == (if i == 0 then head.hash else rows[i - 1].hash)
      && rows[i].hash == enc.recordHash(rows[i].prevHash, rows[i].seqNo, rows[i].body)
  {
    ExtendAt(enc, head, entries, i);
    ColumnsDescribe(Extend(enc, head, entries)[i].columns, entries[i]);
  }

  /** The last rows are described by their columns, one for each entry. */
  ghost predicate LastDescribe(rows: seq<Row>, entries: seq<AuditEntry>) {
    |entries| <= |rows| &&
    forall i :: 0 <= i < |entries| ==> Describes(rows[|rows| - |entries| + i].columns, entries[i])
  }

  lemma AppendedAreDescribed(enc: Encoding, st: State, entries: seq<AuditEntry>)
    ensures LastDescribe(AppendTo(enc, st, entries).rows, entries)
  {
    var rows := AppendTo(enc, st, entries).rows;
    forall i | 0 <= i < |entries| ensures Describes(rows[|rows| - |entries| + i].columns, entries[i]) {
      RowHoldsEntry(enc, st.head, entries, i);
    }
  }

  /** Two appends write what one append of both would. */
  lemma {:induction false} ExtendConcat(enc: Encoding, head: Head, a: seq<AuditEntry>, b: seq<AuditEntry>)
    ensures Extend(enc, head, a + b)
      == Extend(enc, head, a) + Extend(enc, HeadAfter(head, Extend(enc, head, a)), b)
    decreases |a|
  {
    if a == [] {
      assert a + b == b;
    } else {
      var row := NextRow(enc, head, a[0]);
      var next := Head(row.seqNo, row.hash);
      var first := Extend(enc, next, a[1..]);
      var second := Extend(enc, HeadAfter(next, first), b);
      assert Extend(enc, head, a + b) == [row] + (first + second) by {
        assert (a + b)[1..] == a[1..] + b && (a + b)[0] == a[0];
        ExtendConcat(enc, next, a[1..], b);
      }
      assert Extend(enc, head, a) == [row] + first;
      HeadAfterCons(head, row, first);
      assert ([row] + first) + second == [row] + (first + second);
    }
  }

  lemma HeadAfterCons(head: Head, row: Row, rows: seq<Row>)
    ensures HeadAfter(head, [row] + rows) == HeadAfter(Head(row.seqNo, row.hash), rows)
  {
  }

  /** One more entry adds one more row after the last one. */
  lemma ExtendSnoc(enc: Encoding, head: Head, entries: seq<AuditEntry>, entry: AuditEntry)
    ensures var before := Extend(enc, head, entries);
      Extend(enc, head, entries + [entry]) == before + [NextRow(enc, HeadAfter(head, before), entry)]
  {
    ExtendConcat(enc, head, entries, [entry]);
    var now := HeadAfter(head, Extend(enc, head, entries));
    var row := NextRow(enc, now, entry);
    assert [entry][1..] == [];
    assert Extend(enc, now, [entry]) == [row] + Extend(enc, Head(row.seqNo, row.hash), []);
  }

  lemma AppendToConcat(enc: Encoding, st: State, a: seq<AuditEntry>, b: seq<AuditEntry>)
    ensures AppendTo(enc, AppendTo(enc, st, a), b) == AppendTo(enc, st, a + b)
  {
    ExtendConcat(enc, st.head, a, b);
    var first := Extend(enc, st.head, a);
    var second := Extend(enc, HeadAfter(st.head, first), b);
    assert st.rows + first + second == st.rows + (first + second);
    if second == [] {
      assert first + second == first;
    } else {
      assert Last(first + second) == Last(second);
    }
  }

  lemma ExtendKeys(enc: Encoding, head: Head, entries: seq<AuditEntry>)
    ensures Ascending(Extend(enc, head, entries))
    ensures forall r :: r in Extend(enc, head, entries) ==>
      head.seqNo < r.seqNo <= HeadAfter(head, Extend(enc, head, entries)).seqNo
    ensures HeadAfter(head, Extend(enc, head, entries)).seqNo == head.seqNo + |entries|
  {
    forall i | 0 <= i < |entries|
      ensures Extend(enc, head, entries)[i].seqNo == head.seqNo + 1 + i
    {
      ExtendAt(enc, head, entries, i);
    }
  }

  lemma AppendKeepsUsable(enc: Encoding, st: State, entries: seq<AuditEntry>)
    requires Usable(st)
    ensures Usable(AppendTo(enc, st, entries))
    ensures AppendTo(enc, st, entries).head.seqNo == st.head.seqNo + |entries|
  {
    ExtendKeys(enc, st.head, entries);
  }

  lemma {:induction false} RowsAfterAll(rows: seq<Row>, cut: int)
    requires forall r :: r in rows ==> r.seqNo > cut
    ensures RowsAfter(rows, cut) == rows
  {
    if rows != [] {
      RowsAfterAll(rows[1..], cut);
    }
  }

  lemma {:induction false} HashAtKey(rows: seq<Row>, i: nat)
    requires Ascending(rows) && i < |rows|
    ensures HashAt(rows, rows[i].seqNo) == Some(rows[i].hash)
  {
    if i > 0 {
      HashAtKey(rows[1..], i - 1);
    }
  }

  /** A table cut between two keys. */
  lemma RowsAfterSplit(rows: seq<Row>, n: nat, cut: int)
    requires n <= |rows|
    requires forall i :: 0 <= i < n ==> rows[i].seqNo <= cut
    requires forall i :: n <= i < |rows| ==> rows[i].seqNo > cut
    ensures RowsAfter(rows, cut) == rows[n..]
  {
    assert rows == rows[..n] + rows[n..];
    RowsAfterConcat(rows[..n], rows[n..], cut);
    RowsAfterNone(rows[..n], cut);
    RowsAfterAll(rows[n..], cut);
  }

  lemma {:induction false} RowsAfterConcat(a: seq<Row>, b: seq<Row>, cut: int)
    ensures RowsAfter(a + b, cut) == RowsAfter(a, cut) + RowsAfter(b, cut)
  {
    if a == [] {
      assert a + b == b;
    } else {
      assert (a + b)[1..] == a[1..] + b;
      RowsAfterConcat(a[1..], b, cut);
    }
  }

  lemma {:induction false} RowsAfterNone(rows: seq<Row>, cut: int)
    requires KeysUpTo(rows, cut)
    ensures RowsAfter(rows, cut) == []
  {
    if rows != [] {
      RowsAfterNone(rows[1..], cut);
    }
  }

  /** Where a key falls in the table. */
  lemma {:induction false} SplitIndex(rows: seq<Row>, cut: int) returns (n: nat)
    requires Ascending(rows)
    ensures n <= |rows|
    ensures forall i :: 0 <= i < n ==> rows[i].seqNo <= cut
    ensures forall i :: n <= i < |rows| ==> rows[i].seqNo > cut
  {
    n := 0;
    while n < |rows| && rows[n].seqNo <= cut
      invariant n <= |rows|
      invariant forall i :: 0 <= i < n ==> rows[i].seqNo <= cut
    {
      n := n + 1;
    }
  }

  /** Deleting up to a key leaves exactly the tail of the table beyond it. */
  lemma RowsAfterIsTail(rows: seq<Row>, cut: int)
    requires Ascending(rows)
    ensures var kept := RowsAfter(rows, cut);
      && IsSuffix(kept, rows)
      && (forall r :: r in kept ==> r.seqNo > cut)
      && (forall i :: 0 <= i < |rows| - |kept| ==> rows[i].seqNo <= cut)
  {
    var n := SplitIndex(rows, cut);
    RowsAfterSplit(rows, n, cut);
  }

  lemma PruneKeepsUsable(enc: Encoding, st: State, cut: int, hash: string, stamp: Time)
    requires Usable(st)
    ensures Usable(PruneAt(enc, st, cut, hash, stamp))
    ensures PruneAt(enc, st, cut, hash, stamp).head.seqNo == st.head.seqNo + 1
  {
    RowsAfterIsTail(st.rows, cut);
    var kept := st.(rows := RowsAfter(st.rows, cut));
    forall r | r in kept.rows ensures r in st.rows {
    }
    AppendKeepsUsable(enc, kept,
      [GatewayEntry(stamp, RetentionPruned(Deleted(st.rows, cut), cut, hash))]);
  }

  lemma {:induction false} FirstKeptMeaning(rows: seq<Row>, cutoff: Time)
    ensures FirstKept(rows, cutoff).None? ==> forall r :: r in rows ==> r.columns.ts < TsColumn(cutoff)
    ensures FirstKept(rows, cutoff).Some? ==>
      exists r :: r in rows && r.seqNo == FirstKept(rows, cutoff).value && r.columns.ts >= TsColumn(cutoff)
    ensures FirstKept(rows, cutoff).Some? ==>
      forall r :: r in rows && r.columns.ts >= TsColumn(cutoff) ==> FirstKept(rows, cutoff).value <= r.seqNo
  {
    if rows != [] {
      FirstKeptMeaning(rows[1..], cutoff);
      assert forall r :: r in rows <==> r == rows[0] || r in rows[1..];
    }
  }
}

/** The store itself (`src/audit/store.rs`): a database, a transaction on it, and
    the single writer with its copy of the newest record. */
module Store {
  import opened Prelude
  import opened Event
  import opened Chain
  import opened StoreSpec

  class Database {
    var audit: seq<Row>
    var chainHead: Option<Head>

    constructor ()
      ensures audit == [] && chainHead.None?
    {
      audit, chainHead := [], None;
    }
  }

  /** Works on a copy; the database changes at `Commit`, wholly or not at all. */
  class Transaction {
    const conn: Database
    var audit: seq<Row>
    var chainHead: Option<Head>

    constructor (conn: Database)
      ensures this.conn == conn && audit == conn.audit && chainHead == conn.chainHead
    {
      this.conn, audit, chainHead := conn, conn.audit, conn.chainHead;
    }

    method Commit(commits: bool) returns (ok: bool)
      modifies conn
      ensures ok == commits
      ensures if ok then conn.audit == audit && conn.chainHead == chainHead
              else conn.audit == old(conn.audit) && conn.chainHead == old(conn.chainHead)
    {
      ok := commits;
      if commits {
        conn.audit, conn.chainHead := audit, chainHead;
      }
    }

    method DeleteUpTo(cut: int) returns (deleted: nat)
      modifies this
      ensures audit == RowsAfter(old(audit), cut) && chainHead == old(chainHead)
      ensures deleted == Deleted(old(audit), cut)
    {
      deleted := Deleted(audit, cut);
      audit := RowsAfter(audit, cut);
    }

    /** Inserts entries after `head` and moves the chain head along. */
    method Insert(enc: Encoding, entries: seq<AuditEntry>, head: Head)
      returns (seqs: seq<int>, last: Head)
      modifies this
      ensures audit == old(audit) + Extend(enc, head, entries)
      ensures last == HeadAfter(head, Extend(enc, head, entries))
      ensures chainHead == Some(last)
      ensures seqs == SeqNumbers(Extend(enc, head, entries))
    {
      last, seqs := head, [];
      ghost var added: seq<Row> := [];
      for i := 0 to |entries|
        invariant added == Extend(enc, head, entries[..i])
        invariant audit == old(audit) + added && chainHead == old(chainHead)
        invariant last == HeadAfter(head, added) && seqs == SeqNumbers(added)
      {
        var row := NextRow(enc, last, entries[i]);
        ExtendSnoc(enc, head, entries[..i], entries[i]);
        assert entries[..i + 1] == entries[..i] + [entries[i]];
        audit := audit + [row];
        last := Head(row.seqNo, row.hash);
        seqs := seqs + [row.seqNo];
        added := added + [row];
      }
      assert entries[..|entries|] == entries;
      chainHead := Some(last);
    }
  }

  class AuditStore {
    const enc: Encoding
    const conn: Database
    var last: Head

    ghost function View(): State
      reads this, conn
    {
      State(conn.audit, conn.chainHead, last)
    }

    /** Key order, and no key beyond the writer's. */
    ghost predicate Valid()
      reads this, conn
    {
      Usable(View())
    }

    constructor At(enc: Encoding, conn: Database, last: Head)
      ensures this.enc == enc && this.conn == conn && this.last == last
      ensures View() == State(conn.audit, conn.chainHead, last)
    {
      this.enc, this.conn, this.last := enc, conn, last;
    }

    /** Resumes numbering where it ended, also when the last records are missing;
        a record then tells of the loss. */
    static method Open(enc: Encoding, conn: Database, stamp: Time, commits: bool)
      returns (r: Result<AuditStore, StoreError>)
      requires Ascending(conn.audit)
      modifies conn
      ensures r.Ok? ==> fresh(r.value) && r.value.enc == enc && r.value.conn == conn && r.value.Valid()
      ensures r.Ok? ==> r.value.View() == Opened(enc, old(conn.audit), old(conn.chainHead), stamp)
      ensures r.Err? <==> Truncated(old(conn.audit), old(conn.chainHead)) && !commits
      ensures r.Err? ==> conn.audit == old(conn.audit) && conn.chainHead == old(conn.chainHead)
    {
      var tableHead := if conn.audit == [] then None
                       else Some(Head(Last(conn.audit).seqNo, Last(conn.audit).hash));
      var found := if tableHead.Some? then tableHead.value.seqNo else 0;
      var last, truncated;
      if conn.chainHead.Some? && found < conn.chainHead.value.seqNo {
        last, truncated := conn.chainHead.value, true;
      } else if tableHead.Some? {
        last, truncated := tableHead.value, false;
      } else {
        last, truncated := START, false;
      }
      var store := new AuditStore.At(enc, conn, last);
      if truncated {
        var appended := store.Append([GatewayEntry(stamp, TrailTruncated(last.seqNo, found))], commits);
        if appended.Err? {
          return Err(CommitFailed);
        }
      }
      r := Ok(store);
    }

    /** All entries become rows, or none does and both heads stay. */
    method Append(entries: seq<AuditEntry>, commits: bool) returns (r: Result<seq<int>, StoreError>)
      requires Valid()
      modifies this, conn
      ensures Valid()
      ensures if commits then View() == AppendTo(enc, old(View()), entries) else View() == old(View())
      ensures r == if commits then Ok(SeqNumbers(Extend(enc, old(last), entries))) else Err(CommitFailed)
      ensures commits ==> LastDescribe(conn.audit, entries)
    {
      AppendedAreDescribed(enc, View(), entries);
      var tx := new Transaction(conn);
      var seqs, head := tx.Insert(enc, entries, last);
      var ok := tx.Commit(commits);
      AppendKeepsUsable(enc, old(View()), entries);
      if !ok {
        return Err(CommitFailed);
      }
      last := head;
      r := Ok(seqs);
    }

    /** Deletes the rows before the cut and inserts the record that vouches for
        it, both or neither. */
    method PruneBefore(now: Time, cutoff: Time, stamp: Time, commits: bool) returns (r: Result<nat, StoreError>)
      requires Valid()
      modifies this, conn
      ensures Valid()
      ensures var (after, result) := Prune(enc, old(View()), now, cutoff, stamp);
        if !commits && PruneCut(old(conn.audit), now, cutoff).Some? && result.Ok?
        then View() == old(View()) && r == Err(CommitFailed)
        else View() == after && r == result
    {
      if conn.audit == [] {
        return Ok(0);
      }
      var head := Last(conn.audit);
      if head.columns.ts > TsColumn(now + CLOCK_TOLERANCE) {
        return Ok(0);
      }
      var firstSeq := conn.audit[0].seqNo;
      var firstKept := FirstKept(conn.audit, cutoff);
      var lastSeq := Min(
        Min(if firstKept.Some? then firstKept.value else head.seqNo, head.seqNo) - 1,
        firstSeq + MAX_PRUNE - 1);
      if lastSeq < firstSeq {
        return Ok(0);
      }
      var lastHash := HashAt(conn.audit, lastSeq);
      if lastHash.None? {
        return Err(NoSuchRecord(lastSeq));
      }
      PruneKeepsUsable(enc, View(), lastSeq, lastHash.value, stamp);
      var tx := new Transaction(conn);
      var deleted := tx.DeleteUpTo(lastSeq);
      var _, newHead := tx.Insert(enc,
        [GatewayEntry(stamp, RetentionPruned(deleted, lastSeq, lastHash.value))], last);
      var ok := tx.Commit(commits);
      if !ok {
        return Err(CommitFailed);
      }
      last := newHead;
      r := Ok(deleted);
    }
  }
}
