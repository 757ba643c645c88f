/**
 * The CSV serialiser: `escapeCSV` quotes a field that holds a delimiter, a
 * quote or a line feed and doubles its inner quotes (the quoting rule of
 * section 2, items 6 and 7, of RFC 4180); `arrayToCSV` joins the fields of a
 * row with the delimiter and the rows with a line feed.
 *
 * As a partner, a reader for that format is defined here too, and reading
 * back what `ArrayToCsv` wrote is proved to give every field's text back.
 */
module Csv {
  import opened Wrappers

  /** The characters of the pattern `/[;"\n,]/`. */
  predicate IsSpecial(c: char) {
    c == ';' || c == '"' || c == '\n' || c == ','
  }

  predicate NeedsQuoting(s: string) {
    exists i :: 0 <= i < |s| && IsSpecial(s[i])
  }

  /** `str.replace(/"/g, '""')`. */
  function DoubleQuotes(s: string): string {
    if s == [] then [] else (if s[0] == '"' then "\"\"" else [s[0]]) + DoubleQuotes(s[1..])
  }

  /** `escapeCSV(value)`, where `None` is `null` or `undefined`. */
  function EscapeCsv(value: Option<string>): (r: string)
    ensures value == None ==> r == ""
    ensures value.Some? && !NeedsQuoting(value.value) ==> r == value.value
    ensures value.Some? && NeedsQuoting(value.value) ==> |r| >= 2 && r[0] == '"' && r[|r| - 1] == '"'
  {
    match value
    case None => ""
    case Some(s) => if NeedsQuoting(s) then "\"" + DoubleQuotes(s) + "\"" else s
  }

  /** `parts.join(sep)`. */
  function Join(parts: seq<string>, sep: string): string {
    if |parts| == 0 then ""
    else if |parts| == 1 then parts[0]
    else parts[0] + sep + Join(parts[1..], sep)
  }

  function EscapeRow(row: seq<Option<string>>): (r: seq<string>)
    ensures |r| == |row|
    ensures forall i :: 0 <= i < |row| ==> r[i] == EscapeCsv(row[i])
  {
    if row == [] then [] else [EscapeCsv(row[0])] + EscapeRow(row[1..])
  }

  function Lines(data: seq<seq<Option<string>>>, delimiter: string): (r: seq<string>)
    ensures |r| == |data|
    ensures forall i :: 0 <= i < |data| ==> r[i] == Join(EscapeRow(data[i]), delimiter)
  {
    if data == [] then [] else [Join(EscapeRow(data[0]), delimiter)] + Lines(data[1..], delimiter)
  }

  /** `arrayToCSV(data, delimiter)`. */
  function ArrayToCsv(data: seq<seq<Option<string>>>, delimiter: string): string {
    Join(Lines(data, delimiter), "\n")
  }

  // ---- Reading the format back ----

  /** The text a field stands for: `null`/`undefined` are written as the empty field. */
  function FieldText(value: Option<string>): string {
    match value
    case None => ""
    case Some(s) => s
  }

  function RowText(row: seq<Option<string>>): (r: seq<string>)
    ensures |r| == |row|
  {
    if row == [] then [] else [FieldText(row[0])] + RowText(row[1..])
  }

  function TableText(data: seq<seq<Option<string>>>): seq<seq<string>> {
    if data == [] then [] else [RowText(data[0])] + TableText(data[1..])
  }

  /** Reads the inside of a quoted field: `""` stands for one quote, a lone quote closes the field. */
  function ReadQuoted(s: string): (res: (string, string))
    ensures |res.1| <= |s|
  {
    if s == [] then ("", "")
    else if s[0] == '"' then
      if |s| >= 2 && s[1] == '"' then
        var (f, rest) := ReadQuoted(s[2..]);
        ("\"" + f, rest)
      else ("", s[1..])
    else
      var (f, rest) := ReadQuoted(s[1..]);
      ([s[0]] + f, rest)
  }

  /** Reads an unquoted field: everything up to the delimiter or a line feed. */
  function ReadPlain(s: string, delimiter: char): (res: (string, string))
    ensures |res.1| <= |s|
  {
    if s == [] || s[0] == delimiter || s[0] == '\n' then ("", s)
    else
      var (f, rest) := ReadPlain(s[1..], delimiter);
      ([s[0]] + f, rest)
  }

  function ReadField(s: string, delimiter: char): (res: (string, string))
    ensures |res.1| <= |s|
  {
    if |s| > 0 && s[0] == '"' then ReadQuoted(s[1..]) else ReadPlain(s, delimiter)
  }

  /**
   * Reads a whole text into records of fields. After a field, the delimiter
   * starts the next field of the same record; a line feed (or, in text that
   * this writer never produces, any other character) starts a new record.
   */
  function ParseCsv(s: string, delimiter: char): (rows: seq<seq<string>>)
    ensures |rows| >= 1 && |rows[0]| >= 1
    decreases |s|
  {
    var (f, rest) := ReadField(s, delimiter);
    if rest == [] then [[f]]
    else if rest[0] == delimiter then
      var more := ParseCsv(rest[1..], delimiter);
      [[f] + more[0]] + more[1..]
    else [[f]] + ParseCsv(rest[1..], delimiter)
  }

  lemma {:induction false} ReadQuotedDoubled(v: string, x: string)
    requires x == [] || x[0] != '"'
    ensures ReadQuoted(DoubleQuotes(v) + "\"" + x) == (v, x)
  {
    if v == [] {
      assert DoubleQuotes(v) + "\"" + x == "\"" + x;
    } else {
      ReadQuotedDoubled(v[1..], x);
      var tail := DoubleQuotes(v[1..]) + "\"" + x;
      if v[0] == '"' {
        assert DoubleQuotes(v) + "\"" + x == "\"\"" + tail;
        assert ("\"\"" + tail)[2..] == tail;
      } else {
        assert DoubleQuotes(v) + "\"" + x == [v[0]] + tail;
        assert ([v[0]] + tail)[1..] == tail;
      }
      assert [v[0]] + v[1..] == v;
    }
  }

  lemma {:induction false} ReadPlainUnquoted(v: string, x: string, delimiter: char)
    requires forall i :: 0 <= i < |v| ==> v[i] != delimiter && v[i] != '\n'
    requires x == [] || x[0] == delimiter || x[0] == '\n'
    ensures ReadPlain(v + x, delimiter) == (v, x)
  {
    if v == [] {
      assert v + x == x;
    } else {
      ReadPlainUnquoted(v[1..], x, delimiter);
      assert (v + x)[1..] == v[1..] + x;
      assert [v[0]] + v[1..] == v;
    }
  }

  lemma ReadQuotedField(v: string, x: string, delimiter: char)
    requires x == [] || x[0] == delimiter || x[0] == '\n'
    requires delimiter != '"'
    ensures ReadField("\"" + DoubleQuotes(v) + "\"" + x, delimiter) == (v, x)
  {
    var s := "\"" + DoubleQuotes(v) + "\"" + x;
    assert s[1..] == DoubleQuotes(v) + "\"" + x;
    ReadQuotedDoubled(v, x);
  }

  lemma ReadPlainField(v: string, x: string, delimiter: char)
    requires delimiter == ';' || delimiter == ','
    requires !NeedsQuoting(v)
    requires x == [] || x[0] == delimiter || x[0] == '\n'
    ensures ReadField(v + x, delimiter) == (v, x)
  {
    assert forall i :: 0 <= i < |v| ==> !IsSpecial(v[i]);
    ReadPlainUnquoted(v, x, delimiter);
    if |v| > 0 {
      assert (v + x)[0] == v[0];
    }
  }

  /** A field written by `EscapeCsv` and followed by a delimiter, a line feed or nothing reads back as its text. */
  lemma ReadEscaped(value: Option<string>, x: string, delimiter: char)
    requires delimiter == ';' || delimiter == ','
    requires x == [] || x[0] == delimiter || x[0] == '\n'
    ensures ReadField(EscapeCsv(value) + x, delimiter) == (FieldText(value), x)
  {
    var v := FieldText(value);
    if value.Some? && NeedsQuoting(v) {
      ReadQuotedField(v, x, delimiter);
    } else {
      ReadPlainField(v, x, delimiter);
    }
  }

  /** What follows a written field decides whether the reader continues the record or starts a new one. */
  lemma ParseAfterField(value: Option<string>, x: string, delimiter: char)
    requires delimiter == ';' || delimiter == ','
    requires x == [] || x[0] == delimiter || x[0] == '\n'
    ensures ParseCsv(EscapeCsv(value) + x, delimiter)
            == if x == [] then [[FieldText(value)]]
               else if x[0] == delimiter then
                 var more := ParseCsv(x[1..], delimiter); [[FieldText(value)] + more[0]] + more[1..]
               else [[FieldText(value)]] + ParseCsv(x[1..], delimiter)
  {
    ReadEscaped(value, x, delimiter);
  }

  /** A written record is its first field, the delimiter, and the rest of the record. */
  lemma JoinCells(row: seq<Option<string>>, sep: string)
    requires |row| >= 2
    ensures Join(EscapeRow(row), sep) == EscapeCsv(row[0]) + sep + Join(EscapeRow(row[1..]), sep)
  {
    assert EscapeRow(row)[1..] == EscapeRow(row[1..]);
  }

  /** The records after a line: none at the end of the text, else those after the line feed. */
  function NextRecords(tail: string, delimiter: char): seq<seq<string>> {
    if tail == [] then [] else ParseCsv(tail[1..], delimiter)
  }

  lemma ReadLastField(row: seq<Option<string>>, tail: string, delimiter: char)
    requires delimiter == ';' || delimiter == ','
    requires |row| == 1
    requires tail == [] || tail[0] == '\n'
    ensures ParseCsv(Join(EscapeRow(row), [delimiter]) + tail, delimiter) == [RowText(row)] + NextRecords(tail, delimiter)
  {
    assert Join(EscapeRow(row), [delimiter]) == EscapeCsv(row[0]);
    ParseAfterField(row[0], tail, delimiter);
    assert RowText(row) == [FieldText(row[0])];
  }

  /** A written field followed by the delimiter opens the record that the rest of the text continues. */
  lemma ParseContinues(value: Option<string>, y: string, delimiter: char)
    requires delimiter == ';' || delimiter == ','
    ensures ParseCsv(EscapeCsv(value) + ([delimiter] + y), delimiter)
            == [[FieldText(value)] + ParseCsv(y, delimiter)[0]] + ParseCsv(y, delimiter)[1..]
  {
    var x := [delimiter] + y;
    ParseAfterField(value, x, delimiter);
    assert x[1..] == y;
  }

  lemma ReadFieldThenRecord(row: seq<Option<string>>, tail: string, delimiter: char)
    requires delimiter == ';' || delimiter == ','
    requires |row| >= 2
    requires ParseCsv(Join(EscapeRow(row[1..]), [delimiter]) + tail, delimiter)
             == [RowText(row[1..])] + NextRecords(tail, delimiter)
    ensures ParseCsv(Join(EscapeRow(row), [delimiter]) + tail, delimiter) == [RowText(row)] + NextRecords(tail, delimiter)
  {
    var y := Join(EscapeRow(row[1..]), [delimiter]) + tail;
    RecordSplit(row, tail, [delimiter]);
    ParseContinues(row[0], y, delimiter);
  }

  /** A written record and what follows it, as its first field, the delimiter and the rest. */
  lemma RecordSplit(row: seq<Option<string>>, tail: string, sep: string)
    requires |row| >= 2
    ensures Join(EscapeRow(row), sep) + tail == EscapeCsv(row[0]) + (sep + (Join(EscapeRow(row[1..]), sep) + tail))
  {
    JoinCells(row, sep);
  }

  /** One written record, followed by nothing or by a line feed and more text, reads back as its fields. */
  lemma {:induction false} ReadRecord(row: seq<Option<string>>, tail: string, delimiter: char)
    requires delimiter == ';' || delimiter == ','
    requires |row| >= 1
    requires tail == [] || tail[0] == '\n'
    ensures ParseCsv(Join(EscapeRow(row), [delimiter]) + tail, delimiter) == [RowText(row)] + NextRecords(tail, delimiter)
  {
    if |row| == 1 {
      ReadLastField(row, tail, delimiter);
    } else {
      ReadRecord(row[1..], tail, delimiter);
      ReadFieldThenRecord(row, tail, delimiter);
    }
  }

  /** Reading back what `ArrayToCsv` writes gives the text of every field, in place. */
  lemma {:induction false} CsvRoundTrip(data: seq<seq<Option<string>>>, delimiter: char)
    requires delimiter == ';' || delimiter == ','
    requires |data| >= 1
    requires forall i :: 0 <= i < |data| ==> |data[i]| >= 1
    ensures ParseCsv(ArrayToCsv(data, [delimiter]), delimiter) == TableText(data)
  {
    var lines := Lines(data, [delimiter]);
    if |data| == 1 {
      assert ArrayToCsv(data, [delimiter]) == lines[0] + [];
      ReadRecord(data[0], [], delimiter);
    } else {
      var rest := Join(lines[1..], "\n");
      assert Lines(data[1..], [delimiter]) == lines[1..];
      assert ArrayToCsv(data, [delimiter]) == lines[0] + ("\n" + rest);
      ReadRecord(data[0], "\n" + rest, delimiter);
      assert ("\n" + rest)[1..] == rest;
      CsvRoundTrip(data[1..], delimiter);
    }
  }
}
