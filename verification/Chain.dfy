/** Decimal numbers as `i64::to_string` prints them. */
module Decimals {

  function DigitChar(d: nat): char
    requires d < 10
  {
    (d + '0' as int) as char
  }

  function Digits(n: nat): string {
    if n < 10 then [DigitChar(n)] else Digits(n / 10) + [DigitChar(n % 10)]
  }

  function Decimal(n: int): string {
    if n < 0 then "-" + Digits(-n) else Digits(n)
  }

  predicate IsDigit(c: char) {
    '0' <= c <= '9'
  }

  function DigitsValue(s: string): nat
    requires forall i :: 0 <= i < |s| ==> IsDigit(s[i])
  {
    if s == [] then 0
    else
      assert IsDigit(s[|s| - 1]);
      10 * DigitsValue(s[..|s| - 1]) + (s[|s| - 1] as int - '0' as int)
  }

  lemma {:induction false} DigitsReadBack(n: nat)
    ensures Digits(n) != []
    ensures forall i :: 0 <= i < |Digits(n)| ==> IsDigit(Digits(n)[i])
    ensures DigitsValue(Digits(n)) == n
  {
    if n < 10 {
      assert Digits(n)[..0] == [];
    } else {
      DigitsReadBack(n / 10);
      var s := Digits(n);
      assert s[..|s| - 1] == Digits(n / 10);
      assert s[|s| - 1] == DigitChar(n % 10);
    }
  }

  /** A printed number tells its value, and contains only digits and a sign. */
  lemma DecimalIsInjective(m: int, n: int)
    requires Decimal(m) == Decimal(n)
    ensures m == n
  {
    DecimalCharacters(m);
    DecimalCharacters(n);
    DigitsReadBack(if m < 0 then -m else m);
    DigitsReadBack(if n < 0 then -n else n);
    if m < 0 {
      assert Decimal(m)[1..] == Digits(-m);
    }
    if n < 0 {
      assert Decimal(n)[1..] == Digits(-n);
    }
  }

  lemma DecimalCharacters(n: int)
    ensures Decimal(n) != []
    ensures forall i :: 0 <= i < |Decimal(n)| ==> IsDigit(Decimal(n)[i]) || Decimal(n)[i] == '-'
    ensures Decimal(n)[0] == '-' <==> n < 0
  {
    DigitsReadBack(if n < 0 then -n else n);
  }
}

/**
 The hash chain (`src/audit/store.rs`). The hash of a row covers its body, its
 number and the hash of the row before it, one per line. SHA-256 and JSON are
 fields of `Encoding`, so every result holds for any hash function; where a
 result needs that no two hashed messages collide, it says so.
 */
module Chain {
  import opened Prelude
  import opened Event
  import opened Decimals

  /** Sixty-four zeros: what the first record links to. */
  function GenesisHash(): string {
    seq(64, _ => '0')
  }

  /** The functions the chain is built with: SHA-256 in hex, the hash of a
      record, and JSON both ways. */
  datatype Encoding = Encoding(
    sha: string -> string,
    recordHash: (string, int, string) -> string,
    encode: AuditEntry -> string,
    decode: string -> Option<AuditEntry>)
  {
    /** Hashes are hex, JSON text has no raw line breaks, and reading it gives
        the entry back. */
    ghost predicate Valid() {
      && (forall p, n, b {:trigger recordHash(p, n, b)} :: '\n' !in recordHash(p, n, b))
      && (forall e {:trigger encode(e)} :: '\n' !in encode(e) && decode(encode(e)) == Some(e))
    }

    /** The hash of a record is the SHA-256 of its message. */
    ghost predicate HashesMessages() {
      forall p, n, b {:trigger recordHash(p, n, b)} :: recordHash(p, n, b) == sha(Message(p, n, b))
    }
  }

  /** The indexed columns of a record. Timestamps are printed with a fixed
      width, so that text order is time order; here they are the microsecond
      the text shows. */
  datatype Columns = Columns(
    ts: int,
    target: Option<string>,
    kind: string,
    remoteAddr: Option<string>,
    applicationUri: Option<string>,
    user: Option<string>,
    nodeId: Option<string>)

  function TsColumn(ts: Time): int {
    ts / MICROSECOND
  }

  function ColumnsOf(entry: AuditEntry): Columns {
    Columns(
      TsColumn(entry.ts),
      entry.target,
      entry.event.Kind(),
      if entry.client.Some? then Some(entry.client.value.remoteAddr) else None,
      if entry.client.Some? then entry.client.value.applicationUri else None,
      if entry.client.Some? && entry.client.value.user.Some?
      then Some(entry.client.value.user.value.Label()) else None,
      entry.event.NodeOf())
  }

  /** What the columns say, read against the entry: the microsecond it happened
      in, its target, the name of its event, and of the client the address, the
      application URI and who is logged in; and the node. */
  predicate Describes(c: Columns, entry: AuditEntry) {
    && c.ts * 1_000 <= entry.ts < (c.ts + 1) * 1_000
    && c.target == entry.target
    && DescribesEvent(c, entry.event)
    && (entry.client.None? ==> c.remoteAddr.None? && c.applicationUri.None? && c.user.None?)
    && (entry.client.Some? ==> DescribesClient(c, entry.client.value))
  }

  predicate DescribesEvent(c: Columns, event: AuditEvent) {
    && (event.RetentionPruned? ==> c.kind == "retention_pruned")
    && (event.EventsLost? ==> c.kind == "events_lost")
    && (event.TrailTruncated? ==> c.kind == "trail_truncated")
    && (event.ExportGap? ==> c.kind == "export_gap")
    && (event.ChangeIntent? ==> c.kind == "change_intent")
    && (event.Write? ==> c.kind == "write" && c.nodeId == Some(event.nodeId))
    && (event.Other? ==> c.kind == event.otherKind && c.nodeId == event.node)
    && (!event.Write? && !event.Other? ==> c.nodeId.None?)
  }

  predicate DescribesClient(c: Columns, client: ClientContext) {
    && c.remoteAddr == Some(client.remoteAddr) && c.applicationUri == client.applicationUri
    && (c.user.Some? <==> client.user.Some?)
    && (client.user.Some? ==>
          match client.user.value
          case Anonymous => c.user == Some("anonymous")
          case UserName(name) => c.user == Some(name)
          case Certificate(subject, _) => c.user == Some(subject)
          case IssuedToken => c.user == Some("issued-token"))
  }

  /** The columns of an entry are exactly those that describe it. */
  lemma ColumnsDescribe(c: Columns, entry: AuditEntry)
    ensures c == ColumnsOf(entry) <==> Describes(c, entry)
  {
    if Describes(c, entry) {
      assert c.ts == ColumnsOf(entry).ts && c.nodeId == ColumnsOf(entry).nodeId;
      assert c.user == ColumnsOf(entry).user;
    }
  }

  datatype Row = Row(seqNo: int, columns: Columns, body: string, prevHash: string, hash: string)

  /** What is hashed for a record. */
  function Message(prevHash: string, seqNo: int, body: string): string {
    prevHash + "\n" + Decimal(seqNo) + "\n" + body
  }

  function RowMessage(r: Row): string {
    Message(r.prevHash, r.seqNo, r.body)
  }

  /** `record_hash`, for a given SHA-256 and JSON. */
  function EncodingWith(sha: string -> string, encode: AuditEntry -> string,
                        decode: string -> Option<AuditEntry>): (enc: Encoding)
    ensures enc.HashesMessages()
  {
    Encoding(sha, (p: string, n: int, b: string) => sha(Message(p, n, b)), encode, decode)
  }

  // ----- the hashed message determines its parts -----

  function Newlines(s: string): nat {
    if s == [] then 0 else (if s[0] == '\n' then 1 else 0) + Newlines(s[1..])
  }

  lemma {:induction false} NewlinesConcat(s: string, t: string)
    ensures Newlines(s + t) == Newlines(s) + Newlines(t)
  {
    if s == [] {
      assert s + t == t;
    } else {
      assert (s + t)[1..] == s[1..] + t;
      NewlinesConcat(s[1..], t);
    }
  }

  lemma {:induction false} NoNewlines(s: string)
    ensures Newlines(s) == 0 <==> '\n' !in s
  {
    if s != [] {
      NoNewlines(s[1..]);
      assert s == [s[0]] + s[1..];
    }
  }

  lemma SplitAtFirstNewline(p: string, s: string, q: string, t: string)
    requires '\n' !in p && '\n' !in q
    requires p + "\n" + s == q + "\n" + t
    ensures p == q && s == t
  {
    var m := p + "\n" + s;
    var n := q + "\n" + t;
    assert m[|p|] == '\n' && n[|q|] == '\n';
    assert forall i :: 0 <= i < |p| ==> m[i] == p[i] && m[i] != '\n';
    assert forall i :: 0 <= i < |q| ==> n[i] == q[i] && n[i] != '\n';
    assert |p| == |q|;
    assert m[..|p|] == p && n[..|q|] == q;
    assert m[|p| + 1..] == s && n[|q| + 1..] == t;
  }

  lemma DecimalHasNoNewline(n: int)
    ensures '\n' !in Decimal(n)
  {
    DecimalCharacters(n);
  }

  /** Without line breaks in the previous hashes, equal messages are equal in
      all three parts, whatever the bodies are. */
  lemma MessageDeterminesParts(p: string, m: int, s: string, q: string, n: int, t: string)
    requires '\n' !in p && '\n' !in q
    requires Message(p, m, s) == Message(q, n, t)
    ensures p == q && m == n && s == t
  {
    DecimalHasNoNewline(m);
    DecimalHasNoNewline(n);
    assert Message(p, m, s) == p + "\n" + (Decimal(m) + "\n" + s);
    assert Message(q, n, t) == q + "\n" + (Decimal(n) + "\n" + t);
    SplitAtFirstNewline(p, Decimal(m) + "\n" + s, q, Decimal(n) + "\n" + t);
    SplitAtFirstNewline(Decimal(m), s, Decimal(n), t);
    DecimalIsInjective(m, n);
  }

  lemma MessageNewlines(p: string, m: int, s: string)
    ensures Newlines(Message(p, m, s)) == Newlines(p) + Newlines(s) + 2
  {
    DecimalHasNoNewline(m);
    NoNewlines(Decimal(m));
    NewlinesConcat(p + "\n" + Decimal(m) + "\n", s);
    NewlinesConcat(p + "\n" + Decimal(m), "\n");
    NewlinesConcat(p + "\n", Decimal(m));
    NewlinesConcat(p, "\n");
    assert Newlines("\n") == 1;
  }

  /** One honest side is enough: a message written by the gateway (hex hash,
      JSON body) cannot be read as any other record, even one whose fields an
      intruder filled with line breaks. */
  lemma HonestMessageDeterminesParts(p: string, m: int, s: string, q: string, n: int, t: string)
    requires '\n' !in p && '\n' !in s
    requires Message(p, m, s) == Message(q, n, t)
    ensures p == q && m == n && s == t
  {
    MessageNewlines(p, m, s);
    MessageNewlines(q, n, t);
    NoNewlines(p);
    NoNewlines(s);
    NoNewlines(q);
    NoNewlines(t);
    MessageDeterminesParts(p, m, s, q, n, t);
  }

  /** Both conditions are needed: with a line break in one previous hash and in
      the other body, two different records share a message. */
  lemma MessagesCanCoincide()
    ensures exists p, m, s, q, n, t ::
      && '\n' !in p && '\n' !in t && (p, m, s) != (q, n, t)
      && Message(p, m, s) == Message(q, n, t)
  {
    assert Digits(1) == "1" && Digits(2) == "2";
    var p, s, q, t := "a", "2\nx", "a\n1", "x";
    assert Message(p, 1, s) == "a\n1\n2\nx" == Message(q, 2, t);
    assert p != q;
  }

  // ----- tables -----

  /** A record checks out by itself: hash, readable body, indexed columns. */
  predicate RowOk(enc: Encoding, r: Row) {
    && r.hash == enc.recordHash(r.prevHash, r.seqNo, r.body)
    && enc.decode(r.body).Some?
    && ColumnsOf(enc.decode(r.body).value) == r.columns
  }

  predicate Follows(prev: Row, r: Row) {
    r.seqNo == prev.seqNo + 1 && r.prevHash == prev.hash
  }

  /** Every record checks out and continues the one before it. */
  ghost predicate Linked(enc: Encoding, rows: seq<Row>) {
    && (forall i :: 0 <= i < |rows| ==> RowOk(enc, rows[i]))
    && (forall i :: 0 < i < |rows| ==> Follows(rows[i - 1], rows[i]))
  }

  /** The record says that retention removed everything up to `seqNo`, the hash
      of which was `hash`. */
  predicate Vouches(enc: Encoding, r: Row, seqNo: int, hash: string) {
    var entry := enc.decode(r.body);
    && entry.Some? && entry.value.event.RetentionPruned?
    && entry.value.event.lastSeq == seqNo && entry.value.event.lastHash == hash
  }

  /** The trail starts at genesis, or at a cut that a retention record names. */
  ghost predicate StartExplained(enc: Encoding, rows: seq<Row>)
    requires rows != []
  {
    if rows[0].seqNo == 1 then rows[0].prevHash == GenesisHash()
    else exists k :: 0 <= k < |rows| && Vouches(enc, rows[k], rows[0].seqNo - 1, rows[0].prevHash)
  }

  /** What the verifier is meant to accept. */
  ghost predicate ChainOk(enc: Encoding, rows: seq<Row>) {
    Linked(enc, rows) && (rows != [] ==> StartExplained(enc, rows))
  }

  /** `SELECT hash FROM audit WHERE seq = ?`; the sequence number is the key. */
  function HashAt(rows: seq<Row>, seqNo: int): (hash: Option<string>)
    ensures hash.Some? ==> exists r :: r in rows && r.seqNo == seqNo && r.hash == hash.value
    ensures hash.None? ==> forall r :: r in rows ==> r.seqNo != seqNo
  {
    if rows == [] then None
    else if rows[0].seqNo == seqNo then Some(rows[0].hash)
    else HashAt(rows[1..], seqNo)
  }

  lemma {:induction false} LinkedSeq(enc: Encoding, rows: seq<Row>, i: nat, j: nat)
    requires Linked(enc, rows) && i <= j < |rows|
    ensures rows[j].seqNo == rows[i].seqNo + (j - i)
    decreases j
  {
    if i < j {
      LinkedSeq(enc, rows, i, j - 1);
      assert Follows(rows[j - 1], rows[j]);
    }
  }
}
