/** The body of GET `/export.csv`: a header line naming the nine columns, then one line per
    result row in which every column is written as a double-quoted field with each `"` doubled
    (the escaping of section 2, rule 7 of RFC 4180) and lines end in LF. A decoder for that
    format shows that every field, and so every row, is recovered from the text. */
module Csv {
  import opened Js

  const HEADERS: seq<string> :=
    ["fecha", "tipo", "codigo", "producto", "cantidad", "precio_unitario", "total", "categoria", "usuario"]

  /** `headers.join(',') + '\n'` */
  const HEADER_LINE: string := Join(HEADERS, ",") + "\n"

  /** A result row: each column's text, `None` for SQL NULL; a column may also be absent. */
  type Row = map<string, Option<string>>

  /** `String(r[h] ?? '')` */
  function Cell(r: Row, h: string): string
  {
    if h in r && r[h].Some? then r[h].value else ""
  }

  function Cells(r: Row): (vals: seq<string>)
    ensures |vals| == |HEADERS|
  {
    seq(|HEADERS|, i requires 0 <= i < |HEADERS| => Cell(r, HEADERS[i]))
  }

  /** `s.replace(/"/g, '""')` */
  function Escape(s: string): string
  {
    if s == [] then [] else (if s[0] == '"' then "\"\"" else [s[0]]) + Escape(s[1..])
  }

  /** `` `"${s}"` `` */
  function Quote(s: string): string
  {
    "\"" + Escape(s) + "\""
  }

  function QuoteAll(vals: seq<string>): (r: seq<string>)
    ensures |r| == |vals|
  {
    if vals == [] then [] else [Quote(vals[0])] + QuoteAll(vals[1..])
  }

  /** One record: the quoted fields joined by commas, then LF. */
  function Line(vals: seq<string>): string
  {
    Join(QuoteAll(vals), ",") + "\n"
  }

  function Lines(rows: seq<Row>): string
  {
    if rows == [] then "" else Line(Cells(rows[0])) + Lines(rows[1..])
  }

  /** The whole export. */
  function Encode(rows: seq<Row>): string
  {
    HEADER_LINE + Lines(rows)
  }

  /** The table the export carries: each row's nine column texts. */
  function Table(rows: seq<Row>): (t: seq<seq<string>>)
    ensures |t| == |rows|
  {
    seq(|rows|, i requires 0 <= i < |rows| => Cells(rows[i]))
  }

  lemma {:induction false} LinesAppend(rows: seq<Row>, r: Row)
    ensures Lines(rows + [r]) == Lines(rows) + Line(Cells(r))
    decreases |rows|
  {
    if rows != [] {
      assert (rows + [r])[1..] == rows[1..] + [r];
      LinesAppend(rows[1..], r);
    }
  }

  /** One more row appended to the export text so far, after any header. */
  lemma ExportStep(rows: seq<Row>, i: nat, header: string, csv: string)
    requires i < |rows| && csv == header + Lines(rows[..i])
    ensures csv + Line(Cells(rows[i])) == header + Lines(rows[..i + 1])
  {
    assert rows[..i + 1] == rows[..i] + [rows[i]];
    LinesAppend(rows[..i], rows[i]);
  }

  /** The export loop: the header line, then one `csv += line + '\n'` per row. */
  method ExportCsv(rows: seq<Row>) returns (csv: string)
    ensures csv == Encode(rows)
    ensures rows == [] ==> csv == HEADER_LINE
    ensures Decode(csv) == Some(Table(rows))
  {
    csv := HEADER_LINE;
    for i := 0 to |rows|
      invariant csv == HEADER_LINE + Lines(rows[..i])
    {
      ExportStep(rows, i, HEADER_LINE, csv);
      csv := csv + Line(Cells(rows[i]));
    }
    assert rows[..|rows|] == rows;
    DecodeEncode(rows);
  }

  // ---------------------------------------------------------------------------
  // Reading the format back
  // ---------------------------------------------------------------------------

  /** The rest of a quoted field after its opening quote: text up to the closing quote, with
      `""` read as one `"`; returns the field and what follows the closing quote. */
  function ReadBody(s: string): (r: Option<(string, string)>)
    ensures r.Some? ==> |r.value.1| < |s|
    decreases |s|
  {
    if s == [] then None
    else if s[0] == '"' then
      if |s| >= 2 && s[1] == '"' then
        match ReadBody(s[2..])
        case None => None
        case Some((f, rest)) => Some(("\"" + f, rest))
      else Some(("", s[1..]))
    else
      match ReadBody(s[1..])
      case None => None
      case Some((f, rest)) => Some(([s[0]] + f, rest))
  }

  /** A quoted field: an opening quote, then its body. */
  function ReadField(s: string): (r: Option<(string, string)>)
    ensures r.Some? ==> |r.value.1| < |s|
  {
    if s != [] && s[0] == '"' then ReadBody(s[1..]) else None
  }

  /** `n` quoted fields separated by commas and ended by LF. */
  function ReadRecord(s: string, n: nat): (r: Option<(seq<string>, string)>)
    requires n >= 1
    ensures r.Some? ==> |r.value.1| < |s|
    decreases n
  {
    match ReadField(s)
    case None => None
    case Some((f, rest)) =>
      if rest == [] then None
      else if n == 1 then (if rest[0] == '\n' then Some(([f], rest[1..])) else None)
      else if rest[0] != ',' then None
      else
        match ReadRecord(rest[1..], n - 1)
        case None => None
        case Some((fs, rest')) => Some(([f] + fs, rest'))
  }

  function ReadRecords(s: string): Option<seq<seq<string>>>
    decreases |s|
  {
    if s == [] then Some([])
    else
      match ReadRecord(s, |HEADERS|)
      case None => None
      case Some((rec, rest)) =>
        match ReadRecords(rest)
        case None => None
        case Some(recs) => Some([rec] + recs)
  }

  /** The header line, then records until the end of the text. */
  function Decode(csv: string): Option<seq<seq<string>>>
  {
    if StartsWith(csv, HEADER_LINE) then ReadRecords(csv[|HEADER_LINE|..]) else None
  }

  /** Collapsing the doubled quotes of an escaped field and stopping at its closing quote gives
      back the field, whatever follows unless that starts with another quote. */
  lemma {:induction false} ReadBodyEscape(v: string, rest: string)
    requires rest == [] || rest[0] != '"'
    ensures ReadBody(Escape(v) + "\"" + rest) == Some((v, rest))
    decreases |v|
  {
    var s := Escape(v) + "\"" + rest;
    if v == [] {
      assert s == "\"" + rest;
    } else {
      ReadBodyEscape(v[1..], rest);
      if v[0] == '"' {
        assert s[2..] == Escape(v[1..]) + "\"" + rest;
      } else {
        assert s[1..] == Escape(v[1..]) + "\"" + rest;
      }
      assert v == [v[0]] + v[1..];
    }
  }

  /** Every field survives quoting: stripping the quotes and collapsing `""` recovers it. */
  lemma FieldRoundTrip(v: string)
    ensures ReadField(Quote(v)) == Some((v, ""))
  {
    ReadBodyEscape(v, "");
    assert Quote(v)[1..] == Escape(v) + "\"" + "";
  }

  /** A quoted field is read back from the front of any text not starting with a quote. */
  lemma ReadFieldThen(v: string, rest: string)
    requires rest == [] || rest[0] != '"'
    ensures ReadField(Quote(v) + rest) == Some((v, rest))
  {
    ReadBodyEscape(v, rest);
    assert (Quote(v) + rest)[1..] == Escape(v) + "\"" + rest;
  }

  lemma LineOne(vals: seq<string>)
    requires |vals| == 1
    ensures Line(vals) == Quote(vals[0]) + "\n"
  {
    assert QuoteAll(vals) == [Quote(vals[0])];
  }

  lemma LineCons(vals: seq<string>)
    requires |vals| >= 2
    ensures Line(vals) == Quote(vals[0]) + ("," + Line(vals[1..]))
  {
    var q := QuoteAll(vals);
    assert q[0] == Quote(vals[0]) && q[1..] == QuoteAll(vals[1..]);
  }

  lemma {:induction false} ReadRecordLine(vals: seq<string>, rest: string)
    requires |vals| >= 1
    ensures ReadRecord(Line(vals) + rest, |vals|) == Some((vals, rest))
    decreases |vals|
  {
    if |vals| == 1 {
      LineOne(vals);
      var after := "\n" + rest;
      ReadFieldThen(vals[0], after);
      assert Line(vals) + rest == Quote(vals[0]) + after;
      assert after[1..] == rest;
      assert vals == [vals[0]];
    } else {
      LineCons(vals);
      var tail := Line(vals[1..]) + rest;
      var after := "," + tail;
      ReadFieldThen(vals[0], after);
      assert Line(vals) + rest == Quote(vals[0]) + after;
      assert after[1..] == tail;
      ReadRecordLine(vals[1..], rest);
      assert vals == [vals[0]] + vals[1..];
    }
  }

  lemma {:induction false} ReadLines(rows: seq<Row>)
    ensures ReadRecords(Lines(rows)) == Some(Table(rows))
    decreases |rows|
  {
    if rows != [] {
      ReadRecordLine(Cells(rows[0]), Lines(rows[1..]));
      ReadLines(rows[1..]);
      assert Table(rows) == [Cells(rows[0])] + Table(rows[1..]);
    }
  }

  /** The export round-trips: decoding it yields, for every row in order, the nine column
      texts, with NULL or absent columns as the empty string. With no rows it is the header
      line alone. */
  lemma DecodeEncode(rows: seq<Row>)
    ensures Decode(Encode(rows)) == Some(Table(rows))
  {
    var csv := Encode(rows);
    assert csv[..|HEADER_LINE|] == HEADER_LINE;
    assert csv[|HEADER_LINE|..] == Lines(rows);
    ReadLines(rows);
  }
}
