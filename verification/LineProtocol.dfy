/** A record flattened into the columns that are exported (`src/export/mod.rs`). */
module ExportFields {
  datatype Exported = Exported(
    ts: int,
    seqNo: int,
    target: string,
    kind: string,
    user: string,
    clientAddress: string,
    clientApplication: string,
    nodeId: string,
    displayName: string,
    dataType: string,
    oldValue: string,
    newValue: string,
    status: string,
    eventJson: string,
    hash: string,
    prevHash: string)
}

/** Printing records in the InfluxDB line protocol (`src/export/questdb.rs`). */
module LineProtocol {
  import opened Prelude
  import opened Decimals
  import opened ExportFields

  type Pair = (string, string)

  /** Control characters (Unicode category Cc). */
  predicate IsControl(c: char) {
    (c as int) < 0x20 || 0x7f <= (c as int) <= 0x9f
  }

  function NameChar(c: char): string {
    if c == ',' || c == ' ' || c == '=' || c == '\\' then ['\\', c]
    else if IsControl(c) then "\\ "
    else [c]
  }

  function StringChar(c: char): string {
    if c == '"' || c == '\\' then ['\\', c]
    else if IsControl(c) then " "
    else [c]
  }

  function EscapedName(s: string): string {
    if s == "" then "" else NameChar(s[0]) + EscapedName(s[1..])
  }

  function EscapedString(s: string): string {
    if s == "" then "" else StringChar(s[0]) + EscapedString(s[1..])
  }

  function TagText(key: string, value: string): string {
    if value == "" then "" else "," + key + "=" + EscapedName(value)
  }

  function TagsText(tags: seq<Pair>): string {
    if tags == [] then "" else TagText(tags[0].0, tags[0].1) + TagsText(tags[1..])
  }

  function FieldText(key: string, value: string): string {
    if value == "" then "" else "," + key + "=\"" + EscapedString(value) + "\""
  }

  function FieldsText(fields: seq<Pair>): string {
    if fields == [] then "" else FieldText(fields[0].0, fields[0].1) + FieldsText(fields[1..])
  }

  function Tags(r: Exported): seq<Pair> {
    [("target", r.target), ("kind", r.kind), ("user", r.user)]
  }

  function Strings(r: Exported): seq<Pair> {
    [("hash", r.hash), ("prev_hash", r.prevHash), ("node_id", r.nodeId), ("display_name", r.displayName),
     ("data_type", r.dataType), ("old_value", r.oldValue), ("new_value", r.newValue), ("status", r.status),
     ("client_address", r.clientAddress), ("client_application", r.clientApplication), ("event", r.eventJson)]
  }

  /** Nanoseconds, or 0 if they do not fit 64 bits. */
  function Timestamp(ts: int): int {
    if -0x8000_0000_0000_0000 <= ts < 0x8000_0000_0000_0000 then ts else 0
  }

  /** A line without its end. */
  function LineText(table: string, tags: seq<Pair>, seqNo: int, fields: seq<Pair>, ts: int): string {
    EscapedName(table) + TagsText(tags) + " seq=" + Decimal(seqNo) + "i" + FieldsText(fields) + " " + Decimal(ts)
  }

  function LineOf(table: string, r: Exported): string {
    LineText(table, Tags(r), r.seqNo, Strings(r), Timestamp(r.ts))
  }

  lemma {:induction false} EscapedNameSnoc(s: string, c: char)
    ensures EscapedName(s + [c]) == EscapedName(s) + NameChar(c)
  {
    if s == "" {
      assert EscapedName([c][1..]) == "";
    } else {
      assert (s + [c])[1..] == s[1..] + [c];
      EscapedNameSnoc(s[1..], c);
    }
  }

  lemma {:induction false} EscapedStringSnoc(s: string, c: char)
    ensures EscapedString(s + [c]) == EscapedString(s) + StringChar(c)
  {
    if s == "" {
      assert EscapedString([c][1..]) == "";
    } else {
      assert (s + [c])[1..] == s[1..] + [c];
      EscapedStringSnoc(s[1..], c);
    }
  }

  method EscapeName(s: string) returns (out: string)
    ensures out == EscapedName(s)
  {
    out := "";
    for i := 0 to |s|
      invariant out == EscapedName(s[..i])
    {
      var c := s[i];
      EscapedNameSnoc(s[..i], c);
      assert s[..i + 1] == s[..i] + [c];
      if c == ',' || c == ' ' || c == '=' || c == '\\' {
        out := out + ['\\'] + [c];
      } else if IsControl(c) {
        out := out + "\\ ";
      } else {
        out := out + [c];
      }
    }
    assert s[..|s|] == s;
  }

  method EscapeString(s: string) returns (out: string)
    ensures out == EscapedString(s)
  {
    out := "";
    for i := 0 to |s|
      invariant out == EscapedString(s[..i])
    {
      var c := s[i];
      EscapedStringSnoc(s[..i], c);
      assert s[..i + 1] == s[..i] + [c];
      if c == '"' || c == '\\' {
        out := out + ['\\'] + [c];
      } else if IsControl(c) {
        out := out + " ";
      } else {
        out := out + [c];
      }
    }
    assert s[..|s|] == s;
  }

  method Tag(key: string, value: string) returns (text: string)
    ensures text == TagText(key, value)
  {
    if value == "" {
      return "";
    }
    var escaped := EscapeName(value);
    text := "," + key + "=" + escaped;
  }

  method Field(key: string, value: string) returns (text: string)
    ensures text == FieldText(key, value)
  {
    if value == "" {
      return "";
    }
    var escaped := EscapeString(value);
    text := "," + key + "=\"" + escaped + "\"";
  }

  lemma TagsTextAt(tags: seq<Pair>, i: nat)
    requires i < |tags|
    ensures TagsText(tags[i..]) == TagText(tags[i].0, tags[i].1) + TagsText(tags[i + 1..])
  {
    assert tags[i..][1..] == tags[i + 1..];
  }

  lemma FieldsTextAt(fields: seq<Pair>, i: nat)
    requires i < |fields|
    ensures FieldsText(fields[i..]) == FieldText(fields[i].0, fields[i].1) + FieldsText(fields[i + 1..])
  {
    assert fields[i..][1..] == fields[i + 1..];
  }

  /** Appends the tags that are not empty. */
  method AppendTags(buffer: string, tags: seq<Pair>) returns (out: string)
    ensures out == buffer + TagsText(tags)
  {
    out := buffer;
    for i := 0 to |tags|
      invariant out + TagsText(tags[i..]) == buffer + TagsText(tags)
    {
      var text := Tag(tags[i].0, tags[i].1);
      TagsTextAt(tags, i);
      ConcatAssociates(out, text, TagsText(tags[i + 1..]));
      out := out + text;
    }
    assert out + "" == out;
  }

  /** Appends the string fields that are not empty. */
  method AppendFields(buffer: string, fields: seq<Pair>) returns (out: string)
    ensures out == buffer + FieldsText(fields)
  {
    out := buffer;
    for i := 0 to |fields|
      invariant out + FieldsText(fields[i..]) == buffer + FieldsText(fields)
    {
      var text := Field(fields[i].0, fields[i].1);
      FieldsTextAt(fields, i);
      ConcatAssociates(out, text, FieldsText(fields[i + 1..]));
      out := out + text;
    }
    assert out + "" == out;
  }

  /** A record as one line, with its line break. */
  method Line(table: string, r: Exported) returns (out: string)
    ensures out == LineOf(table, r) + "\n"
  {
    out := EscapeName(table);
    out := AppendTags(out, Tags(r));
    out := out + " seq=" + Decimal(r.seqNo) + "i";
    out := AppendFields(out, Strings(r));
    out := out + " " + Decimal(Timestamp(r.ts));
    out := out + "\n";
  }

  // ----- reading lines -----

  datatype Value = Number(n: int) | Text(s: string)

  datatype Parsed = Parsed(table: string, tags: seq<Pair>, fields: seq<(string, Value)>, ts: int)

  predicate EndsName(c: char) {
    c == ',' || c == ' ' || c == '='
  }

  /** A name up to the first special character that is not escaped. */
  function ReadName(s: string): (r: (string, string))
    ensures |r.1| <= |s|
  {
    if s == "" || EndsName(s[0]) then ("", s)
    else
      var k := if s[0] == '\\' && |s| > 1 then 1 else 0;
      var (name, rest) := ReadName(s[k + 1..]);
      ([s[k]] + name, rest)
  }

  /** A string up to the first quote that is not escaped. */
  function ReadString(s: string): (r: Option<(string, string)>)
    ensures r.Some? ==> |r.value.1| < |s|
  {
    if s == "" then None
    else if s[0] == '"' then Some(("", s[1..]))
    else
      var k := if s[0] == '\\' && |s| > 1 then 1 else 0;
      var r := ReadString(s[k + 1..]);
      if r.Some? then Some(([s[k]] + r.value.0, r.value.1)) else None
  }

  function LeadingDigits(s: string): (n: nat)
    ensures n <= |s| && forall i :: 0 <= i < n ==> IsDigit(s[i])
    ensures n < |s| ==> !IsDigit(s[n])
  {
    if s == "" || !IsDigit(s[0]) then 0 else 1 + LeadingDigits(s[1..])
  }

  function ReadDigits(s: string): (r: Option<(nat, string)>)
    ensures r.Some? ==> |r.value.1| < |s|
  {
    var n := LeadingDigits(s);
    if n == 0 then None else Some((DigitsValue(s[..n]), s[n..]))
  }

  function Negated(r: (nat, string)): (int, string) {
    (-(r.0 as int), r.1)
  }

  function ReadInt(s: string): (r: Option<(int, string)>)
    ensures r.Some? ==> |r.value.1| < |s|
  {
    if s != "" && s[0] == '-' then
      var r := ReadDigits(s[1..]);
      if r.Some? then Some(Negated(r.value)) else None
    else
      var r := ReadDigits(s);
      if r.Some? then Some((r.value.0, r.value.1)) else None
  }

  /** `,key=value` as often as it comes. */
  function ReadTags(s: string): Option<(seq<Pair>, string)>
    decreases |s|
  {
    if s == "" || s[0] != ',' then Some(([], s))
    else
      var (key, afterKey) := ReadName(s[1..]);
      if afterKey == "" || afterKey[0] != '=' then None
      else
        var (value, rest) := ReadName(afterKey[1..]);
        var more := ReadTags(rest);
        if more.Some? then Some(([(key, value)] + more.value.0, more.value.1)) else None
  }

  function ReadValue(s: string): (r: Option<(Value, string)>)
    ensures r.Some? ==> |r.value.1| < |s|
  {
    if s != "" && s[0] == '"' then
      var r := ReadString(s[1..]);
      if r.Some? then Some((Text(r.value.0), r.value.1)) else None
    else
      var r := ReadInt(s);
      if r.Some? && r.value.1 != "" && r.value.1[0] == 'i' then Some((Number(r.value.0), r.value.1[1..])) else None
  }

  /** `key=value`, and more after each comma. */
  function ReadFields(s: string): Option<(seq<(string, Value)>, string)>
    decreases |s|
  {
    var (key, afterKey) := ReadName(s);
    if afterKey == "" || afterKey[0] != '=' then None
    else
      var r := ReadValue(afterKey[1..]);
      if r.None? then None
      else
        var (value, rest) := r.value;
        if rest == "" || rest[0] != ',' then Some(([(key, value)], rest))
        else
          var more := ReadFields(rest[1..]);
          if more.Some? then Some(([(key, value)] + more.value.0, more.value.1)) else None
  }

  function ReadLine(s: string): Option<Parsed> {
    var (table, afterTable) := ReadName(s);
    var tags := ReadTags(afterTable);
    if tags.None? || tags.value.1 == "" || tags.value.1[0] != ' ' then None
    else
      var fields := ReadFields(tags.value.1[1..]);
      if fields.None? || fields.value.1 == "" || fields.value.1[0] != ' ' then None
      else
        var ts := ReadInt(fields.value.1[1..]);
        if ts.Some? && ts.value.1 == "" then Some(Parsed(table, tags.value.0, fields.value.0, ts.value.0)) else None
  }

  // ----- reading back what was printed -----

  /** A value as it is read: control characters are spaces. */
  function Clean(s: string): string {
    if s == "" then ""
    else [if (s[0] as int) < 32 || 127 <= (s[0] as int) <= 159 then ' ' else s[0]] + Clean(s[1..])
  }

  predicate StopsName(rest: string) {
    rest == "" || EndsName(rest[0])
  }

  lemma {:induction false} NameReadsBack(s: string, rest: string)
    requires StopsName(rest)
    ensures ReadName(EscapedName(s) + rest) == (Clean(s), rest)
  {
    if s == "" {
      assert "" + rest == rest;
    } else {
      NameReadsBack(s[1..], rest);
      ConcatAssociates(NameChar(s[0]), EscapedName(s[1..]), rest);
      ReadsNameChar(s[0], EscapedName(s[1..]) + rest);
    }
  }

  lemma ReadsNameChar(c: char, rest: string)
    ensures var (name, after) := ReadName(rest);
      ReadName(NameChar(c) + rest) == ([if IsControl(c) then ' ' else c] + name, after)
  {
    var text := NameChar(c) + rest;
    assert text[|NameChar(c)|..] == rest;
  }

  lemma {:induction false} StringReadsBack(s: string, rest: string)
    ensures ReadString(EscapedString(s) + ("\"" + rest)) == Some((Clean(s), rest))
  {
    if s == "" {
      assert ("\"" + rest)[1..] == rest;
      assert "" + ("\"" + rest) == "\"" + rest;
    } else {
      StringReadsBack(s[1..], rest);
      ConcatAssociates(StringChar(s[0]), EscapedString(s[1..]), "\"" + rest);
      ReadsStringChar(s[0], EscapedString(s[1..]) + ("\"" + rest));
    }
  }

  lemma ReadsStringChar(c: char, rest: string)
    requires ReadString(rest).Some?
    ensures var (text, after) := ReadString(rest).value;
      ReadString(StringChar(c) + rest) == Some(([if IsControl(c) then ' ' else c] + text, after))
  {
    var text := StringChar(c) + rest;
    assert text[|StringChar(c)|..] == rest;
  }

  lemma {:induction false} LeadingDigitsEnd(digits: string, rest: string)
    requires forall i :: 0 <= i < |digits| ==> IsDigit(digits[i])
    requires rest == "" || !IsDigit(rest[0])
    ensures LeadingDigits(digits + rest) == |digits|
  {
    if digits == "" {
      assert digits + rest == rest;
    } else {
      assert (digits + rest)[1..] == digits[1..] + rest;
      LeadingDigitsEnd(digits[1..], rest);
    }
  }

  lemma DigitsRead(n: nat, rest: string)
    requires rest == "" || !IsDigit(rest[0])
    ensures ReadDigits(Digits(n) + rest) == Some((n, rest))
  {
    DigitsReadBack(n);
    LeadingDigitsEnd(Digits(n), rest);
    assert (Digits(n) + rest)[..|Digits(n)|] == Digits(n);
    assert (Digits(n) + rest)[|Digits(n)|..] == rest;
  }

  lemma DecimalRead(n: int, rest: string)
    requires rest == "" || !IsDigit(rest[0])
    ensures ReadInt(Decimal(n) + rest) == Some((n, rest))
  {
    DecimalCharacters(n);
    if n < 0 {
      DigitsRead(-n, rest);
      assert (Decimal(n) + rest)[1..] == Digits(-n) + rest;
    } else {
      DigitsRead(n, rest);
      DigitsReadBack(n);
    }
  }

  /** A key that needs no escaping. */
  predicate Plain(s: string) {
    forall i :: 0 <= i < |s| ==> !EndsName(s[i]) && s[i] != '\\' && !IsControl(s[i])
  }

  lemma {:induction false} PlainStays(s: string)
    requires Plain(s)
    ensures EscapedName(s) == s && Clean(s) == s
  {
    if s != "" {
      PlainStays(s[1..]);
    }
  }

  /** What is read of the pairs: the ones that are not empty. */
  function Present(pairs: seq<Pair>): seq<Pair> {
    if pairs == [] then []
    else (if pairs[0].1 == "" then [] else [(pairs[0].0, Clean(pairs[0].1))]) + Present(pairs[1..])
  }

  function AsText(pairs: seq<Pair>): seq<(string, Value)> {
    if pairs == [] then [] else [(pairs[0].0, Text(pairs[0].1))] + AsText(pairs[1..])
  }

  predicate PlainKeys(pairs: seq<Pair>) {
    forall i :: 0 <= i < |pairs| ==> Plain(pairs[i].0)
  }

  lemma {:induction false} TagsReadBack(tags: seq<Pair>, rest: string)
    requires PlainKeys(tags) && rest != "" && rest[0] == ' '
    ensures ReadTags(TagsText(tags) + rest) == Some((Present(tags), rest))
    ensures StopsName(TagsText(tags) + rest)
  {
    if tags == [] {
      assert "" + rest == rest;
    } else {
      var (key, value) := tags[0];
      TagsReadBack(tags[1..], rest);
      ConcatAssociates(TagText(key, value), TagsText(tags[1..]), rest);
      if value == "" {
        assert "" + (TagsText(tags[1..]) + rest) == TagsText(tags[1..]) + rest;
        assert [] + Present(tags[1..]) == Present(tags[1..]);
      } else {
        TagReadsBack(key, value, TagsText(tags[1..]) + rest);
      }
    }
  }

  lemma TagReadsBack(key: string, value: string, more: string)
    requires Plain(key) && value != "" && StopsName(more) && ReadTags(more).Some?
    ensures var (tags, rest) := ReadTags(more).value;
      ReadTags(TagText(key, value) + more) == Some(([(key, Clean(value))] + tags, rest))
  {
    var afterKey := "=" + (EscapedName(value) + more);
    PlainStays(key);
    NameReadsBack(key, afterKey);
    NameReadsBack(value, more);
    TagPieces(key, EscapedName(value), more);
    ReadTag(TagText(key, value) + more, key, afterKey, Clean(value), more);
  }

  lemma TagPieces(key: string, value: string, more: string)
    ensures var text, afterKey := "," + key + "=" + value + more, "=" + (value + more);
      && text != "" && text[0] == ',' && text[1..] == key + afterKey
      && afterKey[0] == '=' && afterKey[1..] == value + more
  {
  }

  /** How one tag is read. */
  lemma ReadTag(text: string, key: string, afterKey: string, value: string, more: string)
    requires text != "" && text[0] == ',' && ReadName(text[1..]) == (key, afterKey)
    requires afterKey != "" && afterKey[0] == '=' && ReadName(afterKey[1..]) == (value, more) && ReadTags(more).Some?
    ensures ReadTags(text) == Some(([(key, value)] + ReadTags(more).value.0, ReadTags(more).value.1))
  {
  }

  /** One field, and whatever follows it. */
  lemma FieldReadsBack(key: string, text: string, value: Value, more: string)
    requires Plain(key) && ReadValue(text + more) == Some((value, more))
    ensures ReadFields(key + "=" + text + more) == AfterField(key, value, more)
  {
    var afterKey := "=" + (text + more);
    PlainStays(key);
    NameReadsBack(key, afterKey);
    FieldPieces(key, text, more);
    ReadField(key + "=" + text + more, key, afterKey, value, more);
  }

  function AfterField(key: string, value: Value, more: string): Option<(seq<(string, Value)>, string)> {
    if more == "" || more[0] != ',' then Some(([(key, value)], more))
    else
      var fields := ReadFields(more[1..]);
      if fields.Some? then Some(([(key, value)] + fields.value.0, fields.value.1)) else None
  }

  lemma FieldPieces(key: string, text: string, more: string)
    ensures key + "=" + text + more == key + ("=" + (text + more))
    ensures ("=" + (text + more))[1..] == text + more
  {
  }

  /** How one field is read. */
  lemma ReadField(text: string, key: string, afterKey: string, value: Value, more: string)
    requires ReadName(text) == (key, afterKey) && afterKey != "" && afterKey[0] == '='
    requires ReadValue(afterKey[1..]) == Some((value, more))
    ensures ReadFields(text) == AfterField(key, value, more)
  {
  }

  lemma TextValueReadsBack(s: string, more: string)
    ensures ReadValue("\"" + EscapedString(s) + "\"" + more) == Some((Text(Clean(s)), more))
  {
    StringReadsBack(s, more);
    var text := "\"" + EscapedString(s) + "\"" + more;
    assert text[1..] == EscapedString(s) + ("\"" + more);
  }

  lemma NumberReadsBack(n: int, more: string)
    ensures ReadValue(Decimal(n) + "i" + more) == Some((Number(n), more))
  {
    DecimalRead(n, "i" + more);
    DecimalCharacters(n);
    ConcatAssociates(Decimal(n), "i", more);
    assert ("i" + more)[1..] == more;
  }

  /** The fields after the first: nothing, or a comma and readable fields. */
  ghost predicate Continues(more: string, fields: seq<(string, Value)>, rest: string) {
    if fields == [] then more == rest
    else more != "" && more[0] == ',' && ReadFields(more[1..]) == Some((fields, rest))
  }

  lemma {:induction false} FieldsReadBack(fields: seq<Pair>, rest: string)
    requires PlainKeys(fields) && rest != "" && rest[0] == ' '
    ensures Continues(FieldsText(fields) + rest, AsText(Present(fields)), rest)
  {
    if fields == [] {
      assert "" + rest == rest;
    } else {
      var (key, value) := fields[0];
      FieldsReadBack(fields[1..], rest);
      ConcatAssociates(FieldText(key, value), FieldsText(fields[1..]), rest);
      if value == "" {
        assert "" + (FieldsText(fields[1..]) + rest) == FieldsText(fields[1..]) + rest;
        assert [] + Present(fields[1..]) == Present(fields[1..]);
      } else {
        OneMoreField(key, value, FieldsText(fields[1..]) + rest, AsText(Present(fields[1..])), rest);
        assert ([(key, Clean(value))] + Present(fields[1..]))[1..] == Present(fields[1..]);
      }
    }
  }

  lemma OneMoreField(key: string, value: string, more: string, fields: seq<(string, Value)>, rest: string)
    requires Plain(key) && value != "" && Continues(more, fields, rest) && rest != "" && rest[0] == ' '
    ensures Continues(FieldText(key, value) + more, [(key, Text(Clean(value)))] + fields, rest)
  {
    var text := "\"" + EscapedString(value) + "\"";
    TextValueReadsBack(value, more);
    FieldReadsBack(key, text, Text(Clean(value)), more);
    FieldTextPieces(key, EscapedString(value), more);
    FieldContinues(key, Text(Clean(value)), more, fields, rest);
  }

  lemma FieldTextPieces(key: string, value: string, more: string)
    ensures var text := "," + key + "=\"" + value + "\"" + more;
      text != "" && text[0] == ',' && text[1..] == key + "=" + ("\"" + value + "\"") + more
  {
    assert "=\"" == "=" + "\"";
  }

  lemma FieldContinues(key: string, value: Value, more: string, fields: seq<(string, Value)>, rest: string)
    requires Continues(more, fields, rest) && rest != "" && rest[0] == ' '
    ensures AfterField(key, value, more) == Some(([(key, value)] + fields, rest))
  {
    if fields == [] {
      assert [(key, value)] + [] == [(key, value)];
    }
  }

  lemma SeqIsPlain()
    ensures Plain("seq")
  {
  }

  lemma AllFieldsReadBack(seqNo: int, fields: seq<Pair>, rest: string)
    requires PlainKeys(fields) && rest != "" && rest[0] == ' '
    ensures ReadFields("seq" + "=" + (Decimal(seqNo) + "i") + (FieldsText(fields) + rest))
         == Some(([("seq", Number(seqNo))] + AsText(Present(fields)), rest))
  {
    var more := FieldsText(fields) + rest;
    FieldsReadBack(fields, rest);
    NumberReadsBack(seqNo, more);
    SeqIsPlain();
    FieldReadsBack("seq", Decimal(seqNo) + "i", Number(seqNo), more);
    FieldContinues("seq", Number(seqNo), more, AsText(Present(fields)), rest);
  }

  /** What a line says: the table, the tags and fields that are not empty, with
      control characters as spaces, the number and the time. */
  function Meaning(table: string, tags: seq<Pair>, seqNo: int, fields: seq<Pair>, ts: int): Parsed {
    Parsed(Clean(table), Present(tags), [("seq", Number(seqNo))] + AsText(Present(fields)), ts)
  }

  lemma TextReadsBack(table: string, tags: seq<Pair>, seqNo: int, fields: seq<Pair>, ts: int)
    requires PlainKeys(tags) && PlainKeys(fields)
    ensures ReadLine(LineText(table, tags, seqNo, fields, ts)) == Some(Meaning(table, tags, seqNo, fields, ts))
  {
    var end := " " + Decimal(ts);
    var some := "seq" + "=" + (Decimal(seqNo) + "i") + (FieldsText(fields) + end);
    var afterTags := " " + some;
    Regrouped(EscapedName(table), TagsText(tags), Decimal(seqNo), FieldsText(fields), Decimal(ts));
    TagsReadBack(tags, afterTags);
    NameReadsBack(table, TagsText(tags) + afterTags);
    assert afterTags[1..] == some;
    AllFieldsReadBack(seqNo, fields, end);
    DecimalRead(ts, "");
    assert Decimal(ts) + "" == Decimal(ts) == end[1..];
  }

  lemma Regrouped(a: string, b: string, c: string, d: string, e: string)
    ensures a + b + " seq=" + c + "i" + d + " " + e == a + (b + (" " + ("seq" + "=" + (c + "i") + (d + (" " + e)))))
  {
    assert " seq=" == " " + ("seq" + "=");
  }

  lemma TagKeysArePlain(r: Exported)
    ensures PlainKeys(Tags(r))
  {
  }

  lemma FieldKeysArePlain(r: Exported)
    ensures PlainKeys(Strings(r))
  {
    IdentityKeysArePlain(r);
    ValueKeysArePlain(r);
    ClientKeysArePlain(r);
    assert Strings(r) == Strings(r)[..5] + Strings(r)[5..8] + Strings(r)[8..];
  }

  lemma IdentityKeysArePlain(r: Exported)
    ensures PlainKeys(Strings(r)[..5])
  {
  }

  lemma ValueKeysArePlain(r: Exported)
    ensures PlainKeys(Strings(r)[5..8])
  {
  }

  lemma ClientKeysArePlain(r: Exported)
    ensures PlainKeys(Strings(r)[8..])
  {
  }

  /** Every line reads back: the table, every tag and field with text, the
      sequence number and the time, whatever characters they contain. */
  lemma LineReadsBack(table: string, r: Exported)
    ensures ReadLine(LineOf(table, r)) == Some(Meaning(table, Tags(r), r.seqNo, Strings(r), Timestamp(r.ts)))
  {
    TagKeysArePlain(r);
    FieldKeysArePlain(r);
    TextReadsBack(table, Tags(r), r.seqNo, Strings(r), Timestamp(r.ts));
  }

  // ----- the record in a line -----

  /** The text under a key; empty if there is none. */
  function TagUnder(tags: seq<Pair>, key: string): string {
    if tags == [] then "" else if tags[0].0 == key then tags[0].1 else TagUnder(tags[1..], key)
  }

  function TextUnder(fields: seq<(string, Value)>, key: string): string {
    if fields == [] then ""
    else if fields[0].0 == key && fields[0].1.Text? then fields[0].1.s
    else TextUnder(fields[1..], key)
  }

  function NumberUnder(fields: seq<(string, Value)>, key: string): int {
    if fields == [] then 0
    else if fields[0].0 == key && fields[0].1.Number? then fields[0].1.n
    else NumberUnder(fields[1..], key)
  }

  /** The record that a receiver finds in a line. */
  function Recovered(p: Parsed): Exported {
    Exported(
      ts := p.ts,
      seqNo := NumberUnder(p.fields, "seq"),
      target := TagUnder(p.tags, "target"),
      kind := TagUnder(p.tags, "kind"),
      user := TagUnder(p.tags, "user"),
      clientAddress := TextUnder(p.fields, "client_address"),
      clientApplication := TextUnder(p.fields, "client_application"),
      nodeId := TextUnder(p.fields, "node_id"),
      displayName := TextUnder(p.fields, "display_name"),
      dataType := TextUnder(p.fields, "data_type"),
      oldValue := TextUnder(p.fields, "old_value"),
      newValue := TextUnder(p.fields, "new_value"),
      status := TextUnder(p.fields, "status"),
      eventJson := TextUnder(p.fields, "event"),
      hash := TextUnder(p.fields, "hash"),
      prevHash := TextUnder(p.fields, "prev_hash"))
  }

  /** A record whose texts have spaces for control characters. */
  function CleanRecord(r: Exported): Exported {
    Exported(
      ts := Timestamp(r.ts),
      seqNo := r.seqNo,
      target := Clean(r.target),
      kind := Clean(r.kind),
      user := Clean(r.user),
      clientAddress := Clean(r.clientAddress),
      clientApplication := Clean(r.clientApplication),
      nodeId := Clean(r.nodeId),
      displayName := Clean(r.displayName),
      dataType := Clean(r.dataType),
      oldValue := Clean(r.oldValue),
      newValue := Clean(r.newValue),
      status := Clean(r.status),
      eventJson := Clean(r.eventJson),
      hash := Clean(r.hash),
      prevHash := Clean(r.prevHash))
  }

  ghost predicate Distinct(pairs: seq<Pair>) {
    forall i, j :: 0 <= i < j < |pairs| ==> pairs[i].0 != pairs[j].0
  }

  lemma {:induction false} PresentUnderKey(pairs: seq<Pair>, i: nat)
    requires Distinct(pairs) && i < |pairs|
    ensures TagUnder(Present(pairs), pairs[i].0) == Clean(pairs[i].1)
    ensures TextUnder(AsText(Present(pairs)), pairs[i].0) == Clean(pairs[i].1)
  {
    var rest := pairs[1..];
    if pairs[0].1 != "" {
      assert Present(pairs)[1..] == Present(rest);
    } else {
      assert Present(pairs) == Present(rest);
    }
    if i > 0 {
      PresentUnderKey(rest, i - 1);
    } else {
      AbsentKey(rest, pairs[0].0);
    }
  }

  lemma {:induction false} AbsentKey(pairs: seq<Pair>, key: string)
    requires forall i :: 0 <= i < |pairs| ==> pairs[i].0 != key
    ensures TagUnder(Present(pairs), key) == "" && TextUnder(AsText(Present(pairs)), key) == ""
  {
    if pairs != [] {
      AbsentKey(pairs[1..], key);
      if pairs[0].1 != "" {
        assert Present(pairs)[1..] == Present(pairs[1..]);
      } else {
        assert Present(pairs) == Present(pairs[1..]);
      }
    }
  }

  lemma TagKeysDiffer(r: Exported)
    ensures Distinct(Tags(r))
  {
  }

  lemma FieldKeysDiffer(r: Exported)
    ensures Distinct(Strings(r))
  {
    var s := Strings(r);
    assert |s[0].0| == 4 && |s[10].0| == 5 && |s[7].0| == 6 && |s[2].0| == 7 && |s[3].0| == 12;
    assert |s[8].0| == 14 && |s[9].0| == 18;
    assert |s[1].0| == |s[4].0| == |s[5].0| == |s[6].0| == 9;
    assert s[1].0[0] == 'p' && s[4].0[0] == 'd' && s[5].0[0] == 'o' && s[6].0[0] == 'n';
  }

  lemma FieldUnderKey(r: Exported, i: nat)
    requires i < |Strings(r)|
    ensures TextUnder([("seq", Number(r.seqNo))] + AsText(Present(Strings(r))), Strings(r)[i].0) == Clean(Strings(r)[i].1)
  {
    FieldKeysDiffer(r);
    PresentUnderKey(Strings(r), i);
    var fields := AsText(Present(Strings(r)));
    assert ([("seq", Number(r.seqNo))] + fields)[1..] == fields;
  }

  lemma TagUnderKey(r: Exported, i: nat)
    requires i < |Tags(r)|
    ensures TagUnder(Present(Tags(r)), Tags(r)[i].0) == Clean(Tags(r)[i].1)
  {
    TagKeysDiffer(r);
    PresentUnderKey(Tags(r), i);
  }

  lemma TagsRecovered(r: Exported)
    ensures var tags := Present(Tags(r));
      && TagUnder(tags, "target") == Clean(r.target)
      && TagUnder(tags, "kind") == Clean(r.kind)
      && TagUnder(tags, "user") == Clean(r.user)
  {
    TagUnderKey(r, 0);
    TagUnderKey(r, 1);
    TagUnderKey(r, 2);
  }

  lemma IdentityRecovered(r: Exported)
    ensures var fields := [("seq", Number(r.seqNo))] + AsText(Present(Strings(r)));
      && TextUnder(fields, "hash") == Clean(r.hash)
      && TextUnder(fields, "prev_hash") == Clean(r.prevHash)
      && TextUnder(fields, "node_id") == Clean(r.nodeId)
      && TextUnder(fields, "display_name") == Clean(r.displayName)
      && TextUnder(fields, "data_type") == Clean(r.dataType)
  {
    FieldUnderKey(r, 0);
    FieldUnderKey(r, 1);
    FieldUnderKey(r, 2);
    FieldUnderKey(r, 3);
    FieldUnderKey(r, 4);
  }

  lemma ValuesRecovered(r: Exported)
    ensures var fields := [("seq", Number(r.seqNo))] + AsText(Present(Strings(r)));
      && TextUnder(fields, "old_value") == Clean(r.oldValue)
      && TextUnder(fields, "new_value") == Clean(r.newValue)
      && TextUnder(fields, "status") == Clean(r.status)
      && TextUnder(fields, "client_address") == Clean(r.clientAddress)
      && TextUnder(fields, "client_application") == Clean(r.clientApplication)
      && TextUnder(fields, "event") == Clean(r.eventJson)
  {
    FieldUnderKey(r, 5);
    FieldUnderKey(r, 6);
    FieldUnderKey(r, 7);
    FieldUnderKey(r, 8);
    FieldUnderKey(r, 9);
    FieldUnderKey(r, 10);
  }

  /** The round trip: a receiver that reads a line finds the record in it, each
      text under its own key. */
  lemma RecordIsRecovered(table: string, r: Exported)
    ensures ReadLine(LineOf(table, r)).Some?
    ensures Recovered(ReadLine(LineOf(table, r)).value) == CleanRecord(r)
  {
    LineReadsBack(table, r);
    MeaningIsRecovered(table, r);
  }

  lemma MeaningIsRecovered(table: string, r: Exported)
    ensures Recovered(Meaning(table, Tags(r), r.seqNo, Strings(r), Timestamp(r.ts))) == CleanRecord(r)
  {
    TagsRecovered(r);
    IdentityRecovered(r);
    ValuesRecovered(r);
  }

  // ----- lines and bodies -----

  lemma {:induction false} NamesDoNotBreak(s: string)
    ensures '\n' !in EscapedName(s)
  {
    if s != "" {
      NamesDoNotBreak(s[1..]);
    }
  }

  lemma {:induction false} StringsDoNotBreak(s: string)
    ensures '\n' !in EscapedString(s)
  {
    if s != "" {
      StringsDoNotBreak(s[1..]);
    }
  }

  lemma {:induction false} TagsDoNotBreak(tags: seq<Pair>)
    requires PlainKeys(tags)
    ensures '\n' !in TagsText(tags)
  {
    if tags != [] {
      NamesDoNotBreak(tags[0].1);
      TagsDoNotBreak(tags[1..]);
    }
  }

  lemma {:induction false} FieldsDoNotBreak(fields: seq<Pair>)
    requires PlainKeys(fields)
    ensures '\n' !in FieldsText(fields)
  {
    if fields != [] {
      StringsDoNotBreak(fields[0].1);
      FieldsDoNotBreak(fields[1..]);
    }
  }

  lemma NumbersDoNotBreak(n: int)
    ensures '\n' !in Decimal(n)
  {
    DecimalCharacters(n);
  }

  lemma TextDoesNotBreak(table: string, tags: seq<Pair>, seqNo: int, fields: seq<Pair>, ts: int)
    requires PlainKeys(tags) && PlainKeys(fields)
    ensures '\n' !in LineText(table, tags, seqNo, fields, ts)
  {
    NamesDoNotBreak(table);
    TagsDoNotBreak(tags);
    FieldsDoNotBreak(fields);
    NumbersDoNotBreak(seqNo);
    NumbersDoNotBreak(ts);
  }

  lemma LineDoesNotBreak(table: string, r: Exported)
    ensures '\n' !in LineOf(table, r)
  {
    TagKeysArePlain(r);
    FieldKeysArePlain(r);
    TextDoesNotBreak(table, Tags(r), r.seqNo, Strings(r), Timestamp(r.ts));
  }

  /** The lines of a text, each ended by a line break. */
  function Lines(text: string): seq<string> {
    if text == "" then []
    else
      var n := FirstBreak(text);
      if n == |text| then [text] else [text[..n]] + Lines(text[n + 1..])
  }

  function FirstBreak(text: string): (n: nat)
    ensures n <= |text| && (n < |text| ==> text[n] == '\n') && '\n' !in text[..n]
  {
    if text == "" || text[0] == '\n' then 0 else 1 + FirstBreak(text[1..])
  }

  lemma {:induction false} LineIsFirst(line: string, rest: string)
    requires '\n' !in line
    ensures Lines(line + "\n" + rest) == [line] + Lines(rest)
  {
    var text := line + "\n" + rest;
    BreakIsAfter(line, rest);
    assert text[..|line|] == line && text[|line| + 1..] == rest;
  }

  lemma {:induction false} BreakIsAfter(line: string, rest: string)
    requires '\n' !in line
    ensures FirstBreak(line + "\n" + rest) == |line|
  {
    if line != "" {
      BreakIsAfter(line[1..], rest);
      assert (line + "\n" + rest)[1..] == line[1..] + "\n" + rest;
    }
  }

  function Body(table: string, records: seq<Exported>): string {
    if records == [] then "" else LineOf(table, records[0]) + "\n" + Body(table, records[1..])
  }

  function LinesOf(table: string, records: seq<Exported>): seq<string> {
    if records == [] then [] else [LineOf(table, records[0])] + LinesOf(table, records[1..])
  }

  /** The concatenated lines of any records are exactly one line per record. */
  lemma {:induction false} OneLinePerRecord(table: string, records: seq<Exported>)
    ensures Lines(Body(table, records)) == LinesOf(table, records)
  {
    if records != [] {
      LineDoesNotBreak(table, records[0]);
      LineIsFirst(LineOf(table, records[0]), Body(table, records[1..]));
      OneLinePerRecord(table, records[1..]);
    }
  }

  lemma {:induction false} LinesOfAt(table: string, records: seq<Exported>)
    ensures |LinesOf(table, records)| == |records|
    ensures forall i :: 0 <= i < |records| ==> LinesOf(table, records)[i] == LineOf(table, records[i])
  {
    if records != [] {
      LinesOfAt(table, records[1..]);
    }
  }

  /** A receiver that splits a body into lines and reads each finds every record,
      in order, and nothing else. */
  lemma BodyReadsBack(table: string, records: seq<Exported>)
    ensures var lines := Lines(Body(table, records));
      && |lines| == |records|
      && forall i :: 0 <= i < |records| ==>
           && ReadLine(lines[i]).Some?
           && ReadLine(lines[i]).value.table == Clean(table)
           && Recovered(ReadLine(lines[i]).value) == CleanRecord(records[i])
  {
    OneLinePerRecord(table, records);
    LinesOfAt(table, records);
    forall i | 0 <= i < |records|
      ensures ReadLine(LineOf(table, records[i])).Some?
      ensures ReadLine(LineOf(table, records[i])).value.table == Clean(table)
      ensures Recovered(ReadLine(LineOf(table, records[i])).value) == CleanRecord(records[i])
    {
      LineReadsBack(table, records[i]);
      RecordIsRecovered(table, records[i]);
    }
  }

  // ----- records that are rejected -----

  function Reason(text: string): string {
    "not exportable: " + text
  }

  function RawField(key: string, text: string): string {
    "," + key + "=\"" + text + "\""
  }

  /** A line that cannot be refused: identity and hashes only. The kind and the
      hashes are printed as they are. */
  function MinimalLine(table: string, r: Exported, reason: string): string {
    EscapedName(table) + ("," + "kind" + "=" + r.kind) + " seq=" + Decimal(r.seqNo) + "i"
    + (RawField("hash", r.hash) + (RawField("prev_hash", r.prevHash) + RawField("event", EscapedString(Reason(reason)))))
    + " " + Decimal(Timestamp(r.ts))
  }

  /** Kinds are fixed names, and hashes hexadecimal digits. */
  predicate WellFormed(r: Exported) {
    r.kind != "" && Plain(r.kind) && IsHex(r.hash) && IsHex(r.prevHash)
  }

  predicate IsHex(s: string) {
    s != "" && forall i :: 0 <= i < |s| ==> '0' <= s[i] <= '9' || 'a' <= s[i] <= 'f'
  }

  lemma {:induction false} HexStays(s: string)
    requires forall i :: 0 <= i < |s| ==> '0' <= s[i] <= '9' || 'a' <= s[i] <= 'f'
    ensures EscapedString(s) == s && Clean(s) == s
  {
    if s != "" {
      HexStays(s[1..]);
    }
  }

  function MinimalFields(r: Exported, reason: string): seq<Pair> {
    [("hash", r.hash), ("prev_hash", r.prevHash), ("event", Reason(reason))]
  }

  lemma MinimalIsALine(table: string, r: Exported, reason: string)
    requires WellFormed(r)
    ensures MinimalLine(table, r, reason)
         == LineText(table, [("kind", r.kind)], r.seqNo, MinimalFields(r, reason), Timestamp(r.ts))
  {
    OneTag("kind", r.kind);
    PlainStays(r.kind);
    RawFields(r, reason);
  }

  lemma OneTag(key: string, value: string)
    ensures TagsText([(key, value)]) == TagText(key, value)
  {
    assert [(key, value)][1..] == [];
    assert TagText(key, value) + "" == TagText(key, value);
  }

  lemma RawFields(r: Exported, reason: string)
    requires WellFormed(r)
    ensures FieldsText(MinimalFields(r, reason))
         == RawField("hash", r.hash) + (RawField("prev_hash", r.prevHash) + RawField("event", EscapedString(Reason(reason))))
  {
    var fields := MinimalFields(r, reason);
    HexStays(r.hash);
    HexStays(r.prevHash);
    FieldsTextAt(fields, 0);
    FieldsTextAt(fields, 1);
    FieldsTextAt(fields, 2);
    assert fields[0..] == fields && fields[3..] == [];
    assert RawField("event", EscapedString(Reason(reason))) + "" == RawField("event", EscapedString(Reason(reason)));
  }

  /** A minimal line reads back, too: the kind, the number and the hashes. */
  lemma MinimalReadsBack(table: string, r: Exported, reason: string)
    requires WellFormed(r)
    ensures ReadLine(MinimalLine(table, r, reason))
         == Some(Meaning(table, [("kind", r.kind)], r.seqNo,
                         [("hash", r.hash), ("prev_hash", r.prevHash), ("event", "not exportable: " + reason)],
                         Timestamp(r.ts)))
  {
    MinimalIsALine(table, r, reason);
    MinimalKeysArePlain(r, reason);
    TextReadsBack(table, [("kind", r.kind)], r.seqNo, MinimalFields(r, reason), Timestamp(r.ts));
  }

  lemma MinimalKeysArePlain(r: Exported, reason: string)
    ensures PlainKeys([("kind", r.kind)]) && PlainKeys(MinimalFields(r, reason))
  {
  }

  lemma MinimalDoesNotBreak(table: string, r: Exported, reason: string)
    requires WellFormed(r)
    ensures '\n' !in MinimalLine(table, r, reason)
  {
    MinimalIsALine(table, r, reason);
    MinimalKeysArePlain(r, reason);
    TextDoesNotBreak(table, [("kind", r.kind)], r.seqNo, MinimalFields(r, reason), Timestamp(r.ts));
  }

  datatype Answer = Accepted | Refused(badRequest: bool, text: string) | Unreachable

  /** A body that stands for one record. */
  ghost predicate StandsFor(table: string, r: Exported, body: string) {
    body == LineOf(table, r) + "\n" || exists reason :: body == MinimalLine(table, r, reason) + "\n"
  }

  /** All records at once, or one body for each. */
  ghost predicate AllTaken(table: string, records: seq<Exported>, taken: seq<string>) {
    || taken == [Body(table, records)]
    || (|taken| == |records| && EachOf(Standing(table), records, taken))
  }

  ghost function Standing(table: string): (Exported, string) -> bool {
    (r, body) => StandsFor(table, r, body)
  }

  ghost predicate EachOf<A, B>(p: (A, B) -> bool, xs: seq<A>, ys: seq<B>) {
    |ys| <= |xs| && forall i :: 0 <= i < |ys| ==> p(xs[i], ys[i])
  }

  lemma OneMoreOfEach<A, B>(p: (A, B) -> bool, xs: seq<A>, ys: seq<B>, y: B)
    requires EachOf(p, xs, ys) && |ys| < |xs| && p(xs[|ys|], y)
    ensures EachOf(p, xs, ys + [y])
  {
  }

  /** Of the bodies posted, in order, those that were accepted. The answer to a
      post may depend on how many came before. */
  function AcceptedOf(post: (nat, string) -> Answer, posts: seq<string>): seq<string> {
    if posts == [] then []
    else
      var before := AcceptedOf(post, posts[..|posts| - 1]);
      if post(|posts| - 1, Last(posts)).Accepted? then before + [Last(posts)] else before
  }

  lemma OneMorePost(post: (nat, string) -> Answer, posts: seq<string>, body: string)
    ensures AcceptedOf(post, posts + [body])
         == AcceptedOf(post, posts) + (if post(|posts|, body).Accepted? then [body] else [])
  {
    assert (posts + [body])[..|posts|] == posts;
  }

  predicate WasRefused(post: (nat, string) -> Answer, posts: seq<string>, k: nat)
    requires k < |posts|
  {
    post(k, posts[k]).Refused?
  }

  /** A minimal line is posted right after its record was refused, with the
      reason given; all other posts are of whole records. */
  ghost predicate Posted(table: string, records: seq<Exported>, post: (nat, string) -> Answer, posts: seq<string>,
                         k: nat)
    requires k < |posts|
  {
    || posts[k] == Body(table, records)
    || (exists r :: r in records && posts[k] == LineOf(table, r) + "\n")
    || (exists r :: r in records && k > 0 && posts[k - 1] == LineOf(table, r) + "\n"
          && WasRefused(post, posts, k - 1)
          && posts[k] == MinimalLine(table, r, post(k - 1, posts[k - 1]).text) + "\n")
  }

  ghost predicate AllPosted(table: string, records: seq<Exported>, post: (nat, string) -> Answer, posts: seq<string>) {
    forall k :: 0 <= k < |posts| ==> Posted(table, records, post, posts, k)
  }

  lemma OneMorePosted(table: string, records: seq<Exported>, post: (nat, string) -> Answer, posts: seq<string>,
                      body: string)
    requires AllPosted(table, records, post, posts) && Posted(table, records, post, posts + [body], |posts|)
    ensures AllPosted(table, records, post, posts + [body])
  {
    var more := posts + [body];
    forall k | 0 <= k < |posts| ensures Posted(table, records, post, more, k) {
      assert Posted(table, records, post, posts, k) && more[k] == posts[k] && (k > 0 ==> more[k - 1] == posts[k - 1]);
    }
  }

  /** One more post, which stands for record `i`. */
  ghost predicate PostedFor(table: string, records: seq<Exported>, i: nat, post: (nat, string) -> Answer,
                            before: seq<string>, posts: seq<string>)
    requires i < |records|
  {
    && AllPosted(table, records, post, posts) && posts != [] && StandsFor(table, records[i], Last(posts))
    && AcceptedOf(post, posts)
       == AcceptedOf(post, before) + (if post(|posts| - 1, Last(posts)).Accepted? then [Last(posts)] else [])
  }

  lemma FullLinePosted(table: string, records: seq<Exported>, i: nat, post: (nat, string) -> Answer,
                       before: seq<string>, body: string)
    requires i < |records| && AllPosted(table, records, post, before) && body == LineOf(table, records[i]) + "\n"
    ensures PostedFor(table, records, i, post, before, before + [body])
  {
    OneMorePost(post, before, body);
    assert records[i] in records;
    OneMorePosted(table, records, post, before, body);
  }

  lemma MinimalLinePosted(table: string, records: seq<Exported>, i: nat, post: (nat, string) -> Answer,
                          before: seq<string>, full: string, body: string)
    requires i < |records| && PostedFor(table, records, i, post, before, before + [full])
    requires full == LineOf(table, records[i]) + "\n" && post(|before|, full).Refused?
    requires body == MinimalLine(table, records[i], post(|before|, full).text) + "\n"
    ensures PostedFor(table, records, i, post, before, before + [full] + [body])
  {
    var posts := before + [full];
    OneMorePost(post, posts, body);
    assert records[i] in records && WasRefused(post, posts + [body], |before|);
    OneMorePosted(table, records, post, posts, body);
  }

  /** Sends one record, or a minimal line if it is refused. */
  method SendOne(table: string, records: seq<Exported>, i: nat, post: (nat, string) -> Answer, before: seq<string>)
    returns (ok: bool, posts: seq<string>)
    requires i < |records| && AllPosted(table, records, post, before)
    ensures PostedFor(table, records, i, post, before, posts)
    ensures ok <==> post(|posts| - 1, Last(posts)).Accepted?
  {
    var body := Line(table, records[i]);
    var answer := post(|before|, body);
    posts := before + [body];
    FullLinePosted(table, records, i, post, before, body);
    if answer.Refused? {
      var minimal := MinimalLine(table, records[i], answer.text) + "\n";
      MinimalLinePosted(table, records, i, post, before, body, minimal);
      answer := post(|posts|, minimal);
      posts := posts + [minimal];
    }
    ok := answer.Accepted?;
  }

  /** Sends the records one by one, until one is not accepted in either form. */
  method SendEach(table: string, records: seq<Exported>, post: (nat, string) -> Answer, before: seq<string>)
    returns (ok: bool, posts: seq<string>)
    requires AllPosted(table, records, post, before) && AcceptedOf(post, before) == [] && before != []
    ensures AllPosted(table, records, post, posts) && posts != []
    ensures EachOf(Standing(table), records, AcceptedOf(post, posts))
    ensures ok ==> |AcceptedOf(post, posts)| == |records|
    ensures !ok ==> !post(|posts| - 1, Last(posts)).Accepted?
  {
    posts, ok := before, true;
    var i := 0;
    while ok && i < |records|
      invariant i <= |records| && (ok ==> |AcceptedOf(post, posts)| == i)
      invariant EachOf(Standing(table), records, AcceptedOf(post, posts))
      invariant AllPosted(table, records, post, posts) && posts != []
      invariant !ok ==> !post(|posts| - 1, Last(posts)).Accepted?
    {
      ghost var taken := AcceptedOf(post, posts);
      ok, posts := SendOne(table, records, i, post, posts);
      if ok {
        OneMoreOfEach(Standing(table), records, taken, Last(posts));
      }
      i := i + 1;
    }
  }

  /** Sends the records at once, or each for itself if the server finds the whole
      malformed, and then a minimal line for each that it still refuses. If
      sending succeeds, what was accepted is all there is; otherwise it is a form
      of the first records, and the last post was not accepted. */
  method Send(table: string, records: seq<Exported>, post: (nat, string) -> Answer) returns (ok: bool,
              posts: seq<string>)
    ensures ok ==> AllTaken(table, records, AcceptedOf(post, posts))
    ensures !ok ==> EachOf(Standing(table), records, AcceptedOf(post, posts))
    ensures !ok ==> posts != [] && !post(|posts| - 1, Last(posts)).Accepted?
    ensures AllPosted(table, records, post, posts)
  {
    var body := BodyOf(table, records);
    posts := [body];
    OneMorePost(post, [], body);
    assert [] + [body] == [body] && [] + posts == posts;
    match post(0, body) {
      case Accepted => ok := true;
      case Unreachable => ok := false;
      case Refused(badRequest, _) =>
        ok := false;
        if badRequest {
          ok, posts := SendEach(table, records, post, posts);
        }
    }
  }

  method BodyOf(table: string, records: seq<Exported>) returns (body: string)
    ensures body == Body(table, records)
  {
    body := "";
    for i := 0 to |records|
      invariant body + Body(table, records[i..]) == Body(table, records)
    {
      var line := Line(table, records[i]);
      assert records[i..][1..] == records[i + 1..];
      ConcatAssociates(body, line, Body(table, records[i + 1..]));
      body := body + line;
    }
    assert body + "" == body;
  }

  /** The body is one line, and it tells the number of the record. */
  lemma StandsForItsRecord(table: string, r: Exported, body: string)
    requires WellFormed(r) && StandsFor(table, r, body)
    ensures |Lines(body)| == 1 && ReadLine(Lines(body)[0]).Some?
    ensures var p := ReadLine(Lines(body)[0]).value;
      && p.table == Clean(table) && p.fields != [] && p.fields[0] == ("seq", Number(r.seqNo))
      && p.ts == if -9_223_372_036_854_775_808 <= r.ts <= 9_223_372_036_854_775_807 then r.ts else 0
  {
    if body == LineOf(table, r) + "\n" {
      LineDoesNotBreak(table, r);
      LineIsFirst(LineOf(table, r), "");
      LineReadsBack(table, r);
      assert LineOf(table, r) + "\n" + "" == body;
    } else {
      var reason :| body == MinimalLine(table, r, reason) + "\n";
      MinimalReadsBack(table, r, reason);
      MinimalDoesNotBreak(table, r, reason);
      LineIsFirst(MinimalLine(table, r, reason), "");
      assert MinimalLine(table, r, reason) + "\n" + "" == body;
    }
  }
}
