/** Printing records as comma-separated values (`src/web/mod.rs`), and reading
    them as section 2 of RFC 4180 says, with line feeds between records. */
module Csv {
  import opened Prelude
  import opened Decimals
  import opened ExportFields

  function Doubled(s: string): string {
    if s == "" then "" else (if s[0] == '"' then "\"\"" else [s[0]]) + Doubled(s[1..])
  }

  /** A spreadsheet would take the value for a formula. */
  predicate LooksLikeFormula(isNumber: string -> bool, s: string) {
    s != "" && s[0] in {'=', '+', '-', '@', '\t', '\r'} && !isNumber(s)
  }

  function Guarded(isNumber: string -> bool, s: string): string {
    if LooksLikeFormula(isNumber, s) then "'" + s else s
  }

  function CsvField(isNumber: string -> bool, s: string): string {
    "\"" + Doubled(Guarded(isNumber, s)) + "\""
  }

  /** The quoted columns; `time` prints a time. */
  function Columns(time: int -> string, r: Exported): seq<string> {
    [time(r.ts), r.target, r.kind, r.clientAddress, r.clientApplication, r.user, r.nodeId, r.displayName,
     r.oldValue, r.newValue, r.status, r.eventJson, r.hash]
  }

  function Joined(isNumber: string -> bool, columns: seq<string>): string {
    if columns == [] then "" else "," + CsvField(isNumber, columns[0]) + Joined(isNumber, columns[1..])
  }

  /** One record: its number as it is, then the other cells in quotes. */
  function CsvRow(isNumber: string -> bool, time: int -> string, r: Exported): string {
    Decimal(r.seqNo) + Joined(isNumber, Columns(time, r)) + "\n"
  }

  function CsvRows(isNumber: string -> bool, time: int -> string, records: seq<Exported>): string {
    if records == [] then "" else CsvRow(isNumber, time, records[0]) + CsvRows(isNumber, time, records[1..])
  }

  const HEADER: seq<string> :=
    ["seq", "time", "target", "event", "client_address", "client_application", "user", "node_id", "display_name",
     "old_value", "new_value", "status", "details", "hash"]

  function Names(names: seq<string>): string {
    if names == [] then "" else "," + names[0] + Names(names[1..])
  }

  /** The header line, then one line per record. */
  function CsvFile(isNumber: string -> bool, time: int -> string, records: seq<Exported>): string {
    HEADER[0] + Names(HEADER[1..]) + "\n" + CsvRows(isNumber, time, records)
  }

  // ----- reading -----

  /** What is left of a quoted field, up to a quote that is not doubled. */
  function ReadQuoted(s: string): (r: Option<(string, string)>)
    ensures r.Some? ==> |r.value.1| < |s|
  {
    if s == "" then None
    else if s[0] == '"' && (|s| == 1 || s[1] != '"') then Some(("", s[1..]))
    else
      var k := if s[0] == '"' then 2 else 1;
      var r := ReadQuoted(s[k..]);
      if r.Some? then Some(([s[0]] + r.value.0, r.value.1)) else None
  }

  predicate IsTextData(c: char) {
    c != ',' && c != '"' && c != '\r' && c != '\n'
  }

  function ReadPlain(s: string): (r: (string, string))
    ensures |r.1| <= |s|
  {
    if s == "" || !IsTextData(s[0]) then ("", s)
    else
      var r := ReadPlain(s[1..]);
      ([s[0]] + r.0, r.1)
  }

  function ReadField(s: string): (r: Option<(string, string)>)
    ensures r.Some? ==> |r.value.1| <= |s|
  {
    if s != "" && s[0] == '"' then ReadQuoted(s[1..]) else Some(ReadPlain(s))
  }

  /** The fields of one record, and what follows it. */
  function ReadRecord(s: string): (r: Option<(seq<string>, string)>)
    ensures r.Some? ==> |r.value.1| <= |s|
    decreases |s|
  {
    var field := ReadField(s);
    if field.None? then None
    else
      var (value, rest) := field.value;
      if rest == "" || rest[0] != ',' then Some(([value], rest))
      else
        var more := ReadRecord(rest[1..]);
        if more.Some? then Some(([value] + more.value.0, more.value.1)) else None
  }

  function ReadRecords(s: string): Option<seq<seq<string>>>
    decreases |s|
  {
    if s == "" then Some([])
    else
      var r := ReadRecord(s);
      if r.None? || r.value.1 == "" || r.value.1[0] != '\n' then None
      else
        var more := ReadRecords(r.value.1[1..]);
        if more.Some? then Some([r.value.0] + more.value) else None
  }

  // ----- reading back what was printed -----

  function GuardedAll(isNumber: string -> bool, columns: seq<string>): seq<string> {
    if columns == [] then [] else [Guarded(isNumber, columns[0])] + GuardedAll(isNumber, columns[1..])
  }

  /** The fields of a record as they are read. */
  function Cells(isNumber: string -> bool, time: int -> string, r: Exported): seq<string> {
    [Decimal(r.seqNo)] + GuardedAll(isNumber, Columns(time, r))
  }

  predicate NoQuote(rest: string) {
    rest == "" || rest[0] != '"'
  }

  lemma {:induction false} QuotedReadsBack(s: string, rest: string)
    requires NoQuote(rest)
    ensures ReadQuoted(Doubled(s) + ("\"" + rest)) == Some((s, rest))
  {
    if s == "" {
      assert "" + ("\"" + rest) == "\"" + rest;
      assert ("\"" + rest)[1..] == rest;
    } else {
      QuotedReadsBack(s[1..], rest);
      var c := if s[0] == '"' then "\"\"" else [s[0]];
      ConcatAssociates(c, Doubled(s[1..]), "\"" + rest);
      ReadsChar(s[0], c, Doubled(s[1..]) + ("\"" + rest));
      assert s == [s[0]] + s[1..];
    }
  }

  lemma ReadsChar(c: char, text: string, rest: string)
    requires text == (if c == '"' then "\"\"" else [c]) && ReadQuoted(rest).Some?
    ensures ReadQuoted(text + rest) == Some(([c] + ReadQuoted(rest).value.0, ReadQuoted(rest).value.1))
  {
    assert (text + rest)[|text|..] == rest;
  }

  lemma FieldReadsBack(isNumber: string -> bool, s: string, rest: string)
    requires NoQuote(rest)
    ensures ReadField(CsvField(isNumber, s) + rest) == Some((Guarded(isNumber, s), rest))
  {
    var doubled := Doubled(Guarded(isNumber, s));
    QuotedReadsBack(Guarded(isNumber, s), rest);
    assert (CsvField(isNumber, s) + rest)[1..] == doubled + ("\"" + rest);
  }

  lemma {:induction false} PlainReadsBack(s: string, rest: string)
    requires forall i :: 0 <= i < |s| ==> IsTextData(s[i])
    requires rest == "" || !IsTextData(rest[0])
    ensures ReadPlain(s + rest) == (s, rest)
  {
    if s == "" {
      assert s + rest == rest;
    } else {
      PlainReadsBack(s[1..], rest);
      assert (s + rest)[1..] == s[1..] + rest;
      assert s == [s[0]] + s[1..];
    }
  }

  lemma NumberReadsBack(n: int, rest: string)
    requires rest != "" && (rest[0] == ',' || rest[0] == '\n')
    ensures ReadField(Decimal(n) + rest) == Some((Decimal(n), rest))
  {
    DecimalCharacters(n);
    assert forall i :: 0 <= i < |Decimal(n)| ==> IsTextData(Decimal(n)[i]);
    PlainReadsBack(Decimal(n), rest);
  }

  /** A field, and the rest of its record. */
  function Then(value: string, rest: string): Option<(seq<string>, string)> {
    if rest == "" || rest[0] != ',' then Some(([value], rest))
    else
      var more := ReadRecord(rest[1..]);
      if more.Some? then Some(([value] + more.value.0, more.value.1)) else None
  }

  lemma RecordGoesOn(s: string, value: string, rest: string)
    requires ReadField(s) == Some((value, rest))
    ensures ReadRecord(s) == Then(value, rest)
  {
  }

  /** A field before the printed columns. */
  lemma {:induction false} ColumnsReadBack(isNumber: string -> bool, columns: seq<string>, value: string, rest: string)
    ensures Then(value, Joined(isNumber, columns) + ("\n" + rest))
         == Some(([value] + GuardedAll(isNumber, columns), "\n" + rest))
    decreases columns
  {
    var end := "\n" + rest;
    if columns == [] {
      assert "" + end == end;
      assert [value] + [] == [value];
    } else {
      var more := Joined(isNumber, columns[1..]) + end;
      JoinedPieces(CsvField(isNumber, columns[0]), Joined(isNumber, columns[1..]), end);
      StartsWithComma(isNumber, columns[1..], end);
      FieldReadsBack(isNumber, columns[0], more);
      RecordGoesOn(CsvField(isNumber, columns[0]) + more, Guarded(isNumber, columns[0]), more);
      ColumnsReadBack(isNumber, columns[1..], Guarded(isNumber, columns[0]), rest);
    }
  }

  lemma JoinedPieces(field: string, more: string, end: string)
    ensures var text := "," + field + more + end; text[0] == ',' && text[1..] == field + (more + end)
  {
  }

  lemma StartsWithComma(isNumber: string -> bool, columns: seq<string>, end: string)
    requires end != "" && end[0] == '\n'
    ensures var text := Joined(isNumber, columns) + end; text != "" && (text[0] == ',' || text[0] == '\n')
  {
  }

  lemma RowReadsBack(isNumber: string -> bool, time: int -> string, r: Exported, rest: string)
    ensures ReadRecord(CsvRow(isNumber, time, r) + rest) == Some((Cells(isNumber, time, r), "\n" + rest))
  {
    var columns := Columns(time, r);
    var more := Joined(isNumber, columns) + ("\n" + rest);
    RowPieces(Decimal(r.seqNo), Joined(isNumber, columns), rest);
    StartsWithComma(isNumber, columns, "\n" + rest);
    NumberReadsBack(r.seqNo, more);
    RecordGoesOn(Decimal(r.seqNo) + more, Decimal(r.seqNo), more);
    ColumnsReadBack(isNumber, columns, Decimal(r.seqNo), rest);
  }

  lemma RowPieces(number: string, columns: string, rest: string)
    ensures number + columns + "\n" + rest == number + (columns + ("\n" + rest))
  {
  }

  function CellsOf(isNumber: string -> bool, time: int -> string, records: seq<Exported>): seq<seq<string>> {
    if records == [] then [] else [Cells(isNumber, time, records[0])] + CellsOf(isNumber, time, records[1..])
  }

  lemma {:induction false} RowsReadBack(isNumber: string -> bool, time: int -> string, records: seq<Exported>)
    ensures ReadRecords(CsvRows(isNumber, time, records)) == Some(CellsOf(isNumber, time, records))
  {
    if records != [] {
      var rest := CsvRows(isNumber, time, records[1..]);
      RowReadsBack(isNumber, time, records[0], rest);
      RowsReadBack(isNumber, time, records[1..]);
      assert ("\n" + rest)[1..] == rest;
    }
  }

  lemma {:induction false} GuardedAt(isNumber: string -> bool, columns: seq<string>)
    ensures |GuardedAll(isNumber, columns)| == |columns|
    ensures forall k :: 0 <= k < |columns| ==> GuardedAll(isNumber, columns)[k] == Guarded(isNumber, columns[k])
  {
    if columns != [] {
      GuardedAt(isNumber, columns[1..]);
    }
  }

  lemma {:induction false} CellsAt(isNumber: string -> bool, time: int -> string, records: seq<Exported>)
    ensures |CellsOf(isNumber, time, records)| == |records|
    ensures forall i :: 0 <= i < |records| ==> CellsOf(isNumber, time, records)[i] == Cells(isNumber, time, records[i])
  {
    if records != [] {
      CellsAt(isNumber, time, records[1..]);
    }
  }

  predicate AllTextData(s: string) {
    s != "" && forall i :: 0 <= i < |s| ==> IsTextData(s[i])
  }

  lemma {:induction false} NamesReadBack(names: seq<string>, value: string, rest: string)
    requires forall k :: 0 <= k < |names| ==> AllTextData(names[k])
    ensures Then(value, Names(names) + ("\n" + rest)) == Some(([value] + names, "\n" + rest))
    ensures var text := Names(names) + ("\n" + rest); text != "" && !IsTextData(text[0])
    decreases names
  {
    var end := "\n" + rest;
    if names == [] {
      assert "" + end == end;
      assert [value] + [] == [value];
    } else {
      var more := Names(names[1..]) + end;
      JoinedPieces(names[0], Names(names[1..]), end);
      NamesReadBack(names[1..], names[0], rest);
      NameReadsBack(names[0], more);
      RecordGoesOn(names[0] + more, names[0], more);
      assert [names[0]] + names[1..] == names;
    }
  }

  lemma NameReadsBack(name: string, rest: string)
    requires AllTextData(name) && rest != "" && !IsTextData(rest[0])
    ensures ReadField(name + rest) == Some((name, rest))
  {
    PlainReadsBack(name, rest);
    assert (name + rest)[0] == name[0];
  }

  lemma HeaderIsTextData()
    ensures forall k :: 0 <= k < |HEADER| ==> AllTextData(HEADER[k])
  {
    ShortNames();
    LongNames();
  }

  lemma ShortNames()
    ensures AllTextData(HEADER[0]) && AllTextData(HEADER[1]) && AllTextData(HEADER[2]) && AllTextData(HEADER[3])
    ensures AllTextData(HEADER[6]) && AllTextData(HEADER[7]) && AllTextData(HEADER[11]) && AllTextData(HEADER[12])
    ensures AllTextData(HEADER[13])
  {
  }

  lemma LongNames()
    ensures AllTextData(HEADER[4]) && AllTextData(HEADER[5]) && AllTextData(HEADER[8])
    ensures AllTextData(HEADER[9]) && AllTextData(HEADER[10])
  {
  }

  lemma HeaderReadsBack(rest: string)
    ensures ReadRecord(HEADER[0] + Names(HEADER[1..]) + "\n" + rest) == Some((HEADER, "\n" + rest))
  {
    HeaderIsTextData();
    var more := Names(HEADER[1..]) + ("\n" + rest);
    RowPieces(HEADER[0], Names(HEADER[1..]), rest);
    NamesReadBack(HEADER[1..], HEADER[0], rest);
    NameReadsBack(HEADER[0], more);
    RecordGoesOn(HEADER[0] + more, HEADER[0], more);
    assert [HEADER[0]] + HEADER[1..] == HEADER;
  }

  lemma FileReadsBack(isNumber: string -> bool, time: int -> string, records: seq<Exported>)
    ensures ReadRecords(CsvFile(isNumber, time, records)) == Some([HEADER] + CellsOf(isNumber, time, records))
  {
    var rows := CsvRows(isNumber, time, records);
    HeaderReadsBack(rows);
    RowsReadBack(isNumber, time, records);
    assert ("\n" + rows)[1..] == rows;
  }

  /** Each field of a record under its name in the header. */
  predicate HoldsRecord(isNumber: string -> bool, time: int -> string, r: Exported, cells: seq<string>) {
    && |cells| == 14
    && cells[0] == Decimal(r.seqNo)
    && cells[1] == Guarded(isNumber, time(r.ts))
    && cells[2] == Guarded(isNumber, r.target)
    && cells[3] == Guarded(isNumber, r.kind)
    && cells[4] == Guarded(isNumber, r.clientAddress)
    && cells[5] == Guarded(isNumber, r.clientApplication)
    && cells[6] == Guarded(isNumber, r.user)
    && cells[7] == Guarded(isNumber, r.nodeId)
    && cells[8] == Guarded(isNumber, r.displayName)
    && cells[9] == Guarded(isNumber, r.oldValue)
    && cells[10] == Guarded(isNumber, r.newValue)
    && cells[11] == Guarded(isNumber, r.status)
    && cells[12] == Guarded(isNumber, r.eventJson)
    && cells[13] == Guarded(isNumber, r.hash)
  }

  lemma CellsHoldTheRecord(isNumber: string -> bool, time: int -> string, r: Exported)
    ensures HoldsRecord(isNumber, time, r, Cells(isNumber, time, r))
  {
    GuardedAt(isNumber, Columns(time, r));
    CellAt(isNumber, time, r);
  }

  lemma CellAt(isNumber: string -> bool, time: int -> string, r: Exported)
    requires |GuardedAll(isNumber, Columns(time, r))| == 13
    ensures |Cells(isNumber, time, r)| == 14 && Cells(isNumber, time, r)[0] == Decimal(r.seqNo)
    ensures forall k :: 1 <= k < 14 ==> Cells(isNumber, time, r)[k] == GuardedAll(isNumber, Columns(time, r))[k - 1]
  {
  }

  /** Whatever quotes, commas and line breaks the values contain, the file reads
      as the header and exactly one record per row, each with its fourteen fields
      in the order of the header, and as they were but for the guard of formulas. */
  lemma CsvReadsBack(isNumber: string -> bool, time: int -> string, records: seq<Exported>)
    ensures var read := ReadRecords(CsvFile(isNumber, time, records));
      && read.Some? && read.value != []
      && read.value[0] == ["seq", "time", "target", "event", "client_address", "client_application", "user", "node_id",
                           "display_name", "old_value", "new_value", "status", "details", "hash"]
      && var rows := read.value[1..];
         && |rows| == |records|
         && forall i :: 0 <= i < |records| ==> HoldsRecord(isNumber, time, records[i], rows[i])
  {
    FileReadsBack(isNumber, time, records);
    CellsHoldRecords(isNumber, time, records);
    assert ([HEADER] + CellsOf(isNumber, time, records))[1..] == CellsOf(isNumber, time, records);
  }

  lemma CellsHoldRecords(isNumber: string -> bool, time: int -> string, records: seq<Exported>)
    ensures var rows := CellsOf(isNumber, time, records);
      |rows| == |records| && forall i :: 0 <= i < |records| ==> HoldsRecord(isNumber, time, records[i], rows[i])
  {
    CellsAt(isNumber, time, records);
    forall i | 0 <= i < |records|
      ensures HoldsRecord(isNumber, time, records[i], CellsOf(isNumber, time, records)[i])
    {
      CellsHoldTheRecord(isNumber, time, records[i]);
    }
  }

  /** No field but a number is taken for a formula. Two values read alike exactly
      if one is a formula and the other is the same after an apostrophe, so the
      guard cannot be undone without knowing which it was. */
  lemma GuardIsSafeButNotInjective(isNumber: string -> bool, a: string, b: string)
    ensures !LooksLikeFormula(isNumber, Guarded(isNumber, a))
    ensures Guarded(isNumber, a) == Guarded(isNumber, b) <==>
              || a == b
              || (LooksLikeFormula(isNumber, a) && b == "'" + a)
              || (LooksLikeFormula(isNumber, b) && a == "'" + b)
  {
    assert ("'" + a)[1..] == a && ("'" + b)[1..] == b;
  }
}
