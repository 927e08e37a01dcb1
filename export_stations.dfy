/** The CSV export of scripts/exportStations.js: field escaping in the style
    of RFC 4180 section 2, row and header assembly, and a reader for that
    format that gives every exported value back. The API request and the
    file write are not modelled. */
module ExportStations {
  import opened JsBuiltins

  /** The fields of an API station the export reads; a missing string is
      the empty string. */
  datatype ExportStation = ExportStation(
    name: string,
    urlResolved: string,
    url: string,
    homepage: string,
    country: string,
    tags: seq<string>,
    votes: int,
    clickCount: int)

  /** Every '"' written twice. */
  function DoubleQuotes(s: string): string {
    ReplaceChar(s, '"', "\"\"")
  }

  predicate NeedsQuotes(s: string) {
    ',' in s || '"' in s || '\n' in s
  }

  /** The `escape` helper: an empty value becomes `""`; quotes are doubled,
      and the value is wrapped in quotes when it holds a comma, a quote or a
      line feed (`includes` of a one-character string is membership, see
      `ContainsChar`). */
  function Escape(str: string): (r: string)
    ensures str == "" ==> r == "\"\""
    ensures str != "" && !NeedsQuotes(str) ==> r == str
    ensures str != "" && NeedsQuotes(str) ==> r == "\"" + DoubleQuotes(str) + "\""
  {
    if str == "" then "\"\""
    else
      var val := DoubleQuotes(str);
      DoublingKeepsSpecials(str);
      if ',' in val || '"' in val || '\n' in val then "\"" + val + "\"" else val
  }

  /** Doubling quotes adds no other character and keeps the quotes. */
  lemma {:induction false} DoublingKeeps(s: string, c: char)
    ensures c in DoubleQuotes(s) <==> c in s
  {
    if s != [] {
      DoublingKeeps(s[1..], c);
      assert s == [s[0]] + s[1..];
    }
  }

  lemma DoublingKeepsSpecials(s: string)
    ensures NeedsQuotes(DoubleQuotes(s)) == NeedsQuotes(s)
  {
    DoublingKeeps(s, ',');
    DoublingKeeps(s, '"');
    DoublingKeeps(s, '\n');
  }

  /** Every quote of the input appears doubled in the output. */
  lemma {:induction false} QuotesDoubled(s: string)
    ensures CountChar(DoubleQuotes(s), '"') == 2 * CountChar(s, '"')
  {
    if s != [] {
      QuotesDoubled(s[1..]);
      CountCharAppend(if s[0] == '"' then "\"\"" else [s[0]], DoubleQuotes(s[1..]), '"');
    }
  }

  /** Reading a doubled quote as one. */
  function UndoubleQuotes(t: string): string
    decreases |t|
  {
    if |t| >= 2 && t[0] == '"' && t[1] == '"' then "\"" + UndoubleQuotes(t[2..])
    else if t == [] then ""
    else [t[0]] + UndoubleQuotes(t[1..])
  }

  lemma {:induction false} UndoubleDouble(s: string)
    ensures UndoubleQuotes(DoubleQuotes(s)) == s
  {
    if s != [] {
      UndoubleDouble(s[1..]);
      var d := DoubleQuotes(s);
      if s[0] == '"' {
        assert d[2..] == DoubleQuotes(s[1..]);
      } else {
        assert d[1..] == DoubleQuotes(s[1..]);
      }
    }
  }

  /** Removing the outer quotes of a wrapped field and reading its doubled
      quotes as single ones. */
  function Unescape(field: string): string {
    if |field| >= 2 && field[0] == '"' && field[|field| - 1] == '"' then UndoubleQuotes(field[1..|field| - 1])
    else field
  }

  lemma EscapeRoundTrip(s: string)
    ensures Unescape(Escape(s)) == s
  {
    if s != "" {
      if NeedsQuotes(s) {
        var e := Escape(s);
        assert e[1..|e| - 1] == DoubleQuotes(s);
        UndoubleDouble(s);
      } else {
        assert s[0] != '"';
      }
    }
  }

  // ---------------------------------------------------------------------
  // Rows and file

  const HEADER_FIELDS: seq<string> := ["Name", "Stream URL", "Homepage", "Country", "Tags", "Votes", "Click Count"]

  /** The header line, with its line feed. */
  function Header(): string {
    Join(HEADER_FIELDS, ",") + "\n"
  }

  /** `s.urlResolved || s.url`. */
  function StreamUrl(s: ExportStation): string {
    if s.urlResolved != "" then s.urlResolved else s.url
  }

  /** One row: five escaped text fields (tags joined with ';'), then the
      two counts as written by `join`. */
  function RowCells(s: ExportStation): seq<string> {
    [Escape(s.name), Escape(StreamUrl(s)), Escape(s.homepage), Escape(s.country),
     Escape(Join(s.tags, ";")), IntToString(s.votes), IntToString(s.clickCount)]
  }

  function Row(s: ExportStation): string {
    Join(RowCells(s), ",")
  }

  function Rows(stations: seq<ExportStation>): (rows: seq<string>)
    ensures |rows| == |stations|
  {
    seq(|stations|, k requires 0 <= k < |stations| => Row(stations[k]))
  }

  /** The exported file: the header line, then the rows separated by line
      feeds (no line feed after the last row). */
  function Csv(stations: seq<ExportStation>): string {
    Header() + Join(Rows(stations), "\n")
  }

  // ---------------------------------------------------------------------
  // Reading the format back

  /** An unquoted field: everything up to a comma, a line feed or the end. */
  function ReadPlain(t: string): (r: (string, string))
    ensures |r.1| <= |t|
    decreases |t|
  {
    if t == [] || t[0] == ',' || t[0] == '\n' then ("", t)
    else
      var (f, rest) := ReadPlain(t[1..]);
      ([t[0]] + f, rest)
  }

  /** The inside of a quoted field, after its opening quote, and what
      follows its closing quote; a doubled quote stands for one. */
  function ReadQuoted(t: string): (r: (string, string))
    ensures |r.1| <= |t|
    decreases |t|
  {
    if t == [] then ("", "")
    else if t[0] == '"' then
      if |t| >= 2 && t[1] == '"' then
        var (f, rest) := ReadQuoted(t[2..]);
        ("\"" + f, rest)
      else ("", t[1..])
    else
      var (f, rest) := ReadQuoted(t[1..]);
      ([t[0]] + f, rest)
  }

  function ReadField(t: string): (r: (string, string))
    ensures |r.1| <= |t|
  {
    if t != [] && t[0] == '"' then ReadQuoted(t[1..]) else ReadPlain(t)
  }

  /** Comma-separated fields up to a line feed or the end. */
  function ReadRecord(t: string): (r: (seq<string>, string))
    ensures |r.0| >= 1 && |r.1| <= |t|
    decreases |t|
  {
    var (f, rest) := ReadField(t);
    if rest != [] && rest[0] == ',' then
      var (fs, rest2) := ReadRecord(rest[1..]);
      ([f] + fs, rest2)
    else ([f], rest)
  }

  /** Records separated by line feeds; a line feed at the very end closes
      the last record. */
  function ReadCsv(t: string): seq<seq<string>>
    decreases |t|
  {
    var (fields, rest) := ReadRecord(t);
    if |rest| > 1 && rest[0] == '\n' then [fields] + ReadCsv(rest[1..])
    else [fields]
  }

  /** What may follow a field: nothing, a comma or a line feed. */
  predicate FieldEnd(rest: string) {
    rest == [] || rest[0] == ',' || rest[0] == '\n'
  }

  lemma {:induction false} ReadPlainOf(f: string, rest: string)
    requires ',' !in f && '\n' !in f && FieldEnd(rest)
    ensures ReadPlain(f + rest) == (f, rest)
  {
    if f == [] {
      assert f + rest == rest;
    } else {
      var t := f + rest;
      assert t[0] == f[0] && t[1..] == f[1..] + rest;
      ReadPlainOf(f[1..], rest);
      assert [f[0]] + f[1..] == f;
    }
  }

  lemma DoubleQuotesCons(f: string)
    requires f != []
    ensures DoubleQuotes(f) == (if f[0] == '"' then "\"\"" else [f[0]]) + DoubleQuotes(f[1..])
  {
  }

  lemma ReadQuotedPair(tail: string)
    ensures ReadQuoted("\"\"" + tail) == ("\"" + ReadQuoted(tail).0, ReadQuoted(tail).1)
  {
    assert ("\"\"" + tail)[2..] == tail;
  }

  lemma ReadQuotedChar(c: char, tail: string)
    requires c != '"'
    ensures ReadQuoted([c] + tail) == ([c] + ReadQuoted(tail).0, ReadQuoted(tail).1)
  {
    assert ([c] + tail)[1..] == tail;
  }

  lemma {:induction false} ReadQuotedOf(f: string, rest: string)
    requires rest == [] || rest[0] != '"'
    ensures ReadQuoted(DoubleQuotes(f) + "\"" + rest) == (f, rest)
  {
    if f == [] {
      assert ("\"" + rest)[1..] == rest;
    } else {
      ReadQuotedOf(f[1..], rest);
      var tail := DoubleQuotes(f[1..]) + "\"" + rest;
      DoubleQuotesCons(f);
      if f[0] == '"' {
        assert DoubleQuotes(f) + "\"" + rest == "\"\"" + tail;
        ReadQuotedPair(tail);
      } else {
        assert DoubleQuotes(f) + "\"" + rest == [f[0]] + tail;
        ReadQuotedChar(f[0], tail);
      }
      assert [f[0]] + f[1..] == f;
    }
  }

  /** A field opening with a quote is read as a quoted field. */
  lemma ReadOpeningQuote(body: string)
    ensures ReadField("\"" + body) == ReadQuoted(body)
  {
    assert ("\"" + body)[1..] == body;
  }

  /** Reading an escaped value gives the value back. */
  lemma ReadEscaped(v: string, rest: string)
    requires FieldEnd(rest)
    ensures ReadField(Escape(v) + rest) == (v, rest)
  {
    if v == "" || NeedsQuotes(v) {
      var body := DoubleQuotes(v) + "\"" + rest;
      assert Escape(v) + rest == "\"" + body;
      ReadOpeningQuote(body);
      ReadQuotedOf(v, rest);
    } else {
      ReadPlainOf(v, rest);
    }
  }

  /** `cell` reads back as `v` whatever legal text follows it. */
  ghost predicate Decodes(cell: string, v: string) {
    forall rest | FieldEnd(rest) :: ReadField(cell + rest) == (v, rest)
  }

  lemma EscapeDecodes(v: string)
    ensures Decodes(Escape(v), v)
  {
    forall rest | FieldEnd(rest)
      ensures ReadField(Escape(v) + rest) == (v, rest)
    {
      ReadEscaped(v, rest);
    }
  }

  /** Text without commas, line feeds or a leading quote reads as itself. */
  lemma PlainDecodes(v: string)
    requires ',' !in v && '\n' !in v && (v == [] || v[0] != '"')
    ensures Decodes(v, v)
  {
    forall rest | FieldEnd(rest)
      ensures ReadField(v + rest) == (v, rest)
    {
      ReadPlainOf(v, rest);
      if v == [] {
        assert v + rest == rest;
      }
    }
  }

  lemma ReadRecordMore(t: string, v: string, tail: string)
    requires ReadField(t) == (v, "," + tail)
    ensures ReadRecord(t) == ([v] + ReadRecord(tail).0, ReadRecord(tail).1)
  {
    assert ("," + tail)[1..] == tail;
  }

  lemma ReadRecordLast(t: string, v: string, rest: string)
    requires ReadField(t) == (v, rest) && (rest == [] || rest[0] == '\n')
    ensures ReadRecord(t) == ([v], rest)
  {
  }

  /** Cells that each read back as their value, joined with commas, read
      back as the list of values. */
  lemma {:induction false} ReadCells(cells: seq<string>, vs: seq<string>, rest: string)
    requires |cells| == |vs| >= 1 && (rest == [] || rest[0] == '\n')
    requires forall k | 0 <= k < |cells| :: Decodes(cells[k], vs[k])
    ensures ReadRecord(Join(cells, ",") + rest) == (vs, rest)
    decreases |cells|
  {
    assert Decodes(cells[0], vs[0]);
    if |cells| == 1 {
      assert Join(cells, ",") == cells[0];
      assert ReadField(cells[0] + rest) == (vs[0], rest);
      ReadRecordLast(Join(cells, ",") + rest, vs[0], rest);
      assert vs == [vs[0]];
    } else {
      var tail := Join(cells[1..], ",") + rest;
      assert cells == [cells[0]] + cells[1..];
      JoinCons(cells[0], cells[1..], ",");
      var t := Join(cells, ",") + rest;
      assert t == cells[0] + ("," + tail);
      assert FieldEnd("," + tail);
      assert ReadField(cells[0] + ("," + tail)) == (vs[0], "," + tail);
      ReadRecordMore(t, vs[0], tail);
      ReadCells(cells[1..], vs[1..], rest);
      assert vs == [vs[0]] + vs[1..];
    }
  }

  /** The values a row carries. */
  function RowValues(s: ExportStation): seq<string> {
    [s.name, StreamUrl(s), s.homepage, s.country, Join(s.tags, ";"), IntToString(s.votes), IntToString(s.clickCount)]
  }

  /** A number written by `join` reads back as itself. */
  lemma NumberDecodes(n: int)
    ensures Decodes(IntToString(n), IntToString(n))
  {
    var s := IntToString(n);
    var digits := NatToString(if n < 0 then -n else n);
    assert s == (if n < 0 then "-" else "") + digits;
    assert forall k | 0 <= k < |s| :: s[k] == '-' || '0' <= s[k] <= '9';
    PlainDecodes(s);
  }

  /** `line` reads back as the record `rec`, followed by whatever comes
      after it, and is not empty. */
  ghost predicate LineReads(line: string, rec: seq<string>) {
    |line| >= 1 && forall rest | rest == [] || rest[0] == '\n' :: ReadRecord(line + rest) == (rec, rest)
  }

  lemma RowCellsDecode(s: ExportStation)
    ensures forall k | 0 <= k < |RowCells(s)| :: Decodes(RowCells(s)[k], RowValues(s)[k])
  {
    EscapeDecodes(s.name);
    EscapeDecodes(StreamUrl(s));
    EscapeDecodes(s.homepage);
    EscapeDecodes(s.country);
    EscapeDecodes(Join(s.tags, ";"));
    NumberDecodes(s.votes);
    NumberDecodes(s.clickCount);
  }

  /** A line of comma-joined cells that each decode reads as the record of
      their values. */
  lemma CellsRead(cells: seq<string>, vs: seq<string>)
    requires |cells| == |vs| >= 1 && |cells[0]| >= 1
    requires forall k | 0 <= k < |cells| :: Decodes(cells[k], vs[k])
    ensures LineReads(Join(cells, ","), vs)
  {
    forall rest | rest == [] || rest[0] == '\n'
      ensures ReadRecord(Join(cells, ",") + rest) == (vs, rest)
    {
      ReadCells(cells, vs, rest);
    }
    JoinNotEmpty(cells, ",");
  }

  lemma RowReads(s: ExportStation)
    ensures LineReads(Row(s), RowValues(s))
  {
    RowCellsDecode(s);
    CellsRead(RowCells(s), RowValues(s));
  }

  lemma HeaderReads()
    ensures LineReads(Join(HEADER_FIELDS, ","), HEADER_FIELDS)
  {
    forall k | 0 <= k < |HEADER_FIELDS|
      ensures Decodes(HEADER_FIELDS[k], HEADER_FIELDS[k])
    {
      PlainDecodes(HEADER_FIELDS[k]);
    }
    CellsRead(HEADER_FIELDS, HEADER_FIELDS);
  }

  lemma ReadCsvMore(t: string, rec: seq<string>, tail: string)
    requires ReadRecord(t) == (rec, "\n" + tail) && |tail| >= 1
    ensures ReadCsv(t) == [rec] + ReadCsv(tail)
  {
    assert ("\n" + tail)[1..] == tail;
  }

  /** Lines that each read as their record, joined with line feeds, read
      as the list of records. */
  lemma {:induction false} ReadLines(lines: seq<string>, recs: seq<seq<string>>)
    requires |lines| == |recs| >= 1
    requires forall k | 0 <= k < |lines| :: LineReads(lines[k], recs[k])
    ensures ReadCsv(Join(lines, "\n")) == recs
    decreases |lines|
  {
    assert LineReads(lines[0], recs[0]);
    if |lines| == 1 {
      assert Join(lines, "\n") + "" == lines[0];
    } else {
      var tail := Join(lines[1..], "\n");
      var rest := "\n" + tail;
      assert Join(lines, "\n") == lines[0] + rest;
      assert ReadRecord(lines[0] + rest) == (recs[0], rest) by {
        assert LineReads(lines[0], recs[0]);
      }
      assert LineReads(lines[1], recs[1]);
      JoinNotEmpty(lines[1..], "\n");
      ReadCsvMore(Join(lines, "\n"), recs[0], tail);
      ReadLines(lines[1..], recs[1..]);
      assert recs == [recs[0]] + recs[1..];
    }
  }

  function AllRowValues(stations: seq<ExportStation>): (vals: seq<seq<string>>)
    ensures |vals| == |stations|
  {
    seq(|stations|, k requires 0 <= k < |stations| => RowValues(stations[k]))
  }

  /** Read with the rules above, the exported file gives the header and,
      for each station in order, exactly the values written for it. */
  lemma ReadExport(stations: seq<ExportStation>)
    ensures ReadCsv(Csv(stations)) == [HEADER_FIELDS] + AllRowValues(stations)
  {
    var line := Join(HEADER_FIELDS, ",");
    var rows := Rows(stations);
    HeaderReads();
    if stations == [] {
      assert Csv(stations) == line + "\n";
      assert ReadRecord(line + "\n") == (HEADER_FIELDS, "\n");
    } else {
      forall k | 0 <= k < |rows|
        ensures LineReads(rows[k], AllRowValues(stations)[k])
      {
        RowReads(stations[k]);
      }
      var lines := [line] + rows;
      assert lines[1..] == rows;
      JoinCons(line, rows, "\n");
      assert Csv(stations) == Join(lines, "\n");
      ReadLines(lines, [HEADER_FIELDS] + AllRowValues(stations));
    }
  }
}
