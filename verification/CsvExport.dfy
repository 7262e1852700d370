// The purchase-order CSV: printing of rows and documents, against a reader for the
// grammar of section 2 of RFC 4180 (text may also hold tabs and characters outside
// ASCII, which that grammar leaves out).
module CsvExport {
  import opened Basics

  // ---- Printing ----

  predicate IsControl(c: char) {
    var n := c as int;
    n <= 0x08 || n == 0x0B || n == 0x0C || 0x0E <= n <= 0x1F || n == 0x7F
  }

  function Clean(s: string): string {
    if s == "" then "" else (if IsControl(s[0]) then "" else [s[0]]) + Clean(s[1..])
  }

  predicate IsText(c: char) { c != ',' && c != '"' && c != '\n' && c != '\r' }

  predicate NeedsQuotes(s: string) { exists c | c in s :: !IsText(c) }

  function DoubleQuotes(s: string): string {
    if s == "" then "" else (if s[0] == '"' then "\"\"" else [s[0]]) + DoubleQuotes(s[1..])
  }

  function Field(value: string): string {
    var clean := Clean(value);
    if NeedsQuotes(clean) then "\"" + DoubleQuotes(clean) + "\"" else clean
  }

  function ToCsvRow(values: seq<string>): string {
    if values == [] then "" else if |values| == 1 then Field(values[0])
    else Field(values[0]) + "," + ToCsvRow(values[1..])
  }

  const CRLF := "\r\n"

  function Document(rows: seq<seq<string>>): string
    requires rows != []
  {
    if |rows| == 1 then ToCsvRow(rows[0]) else ToCsvRow(rows[0]) + CRLF + Document(rows[1..])
  }

  // ---- Reading ----

  // Text up to the first separator, quote or line break.
  function ReadPlain(s: string): (r: (string, string))
    ensures r.0 + r.1 == s
  {
    if s != "" && IsText(s[0]) then
      var (field, rest) := ReadPlain(s[1..]);
      ([s[0]] + field, rest)
    else ("", s)
  }

  // After an opening quote: up to the closing one, two quotes standing for one.
  function ReadQuoted(s: string): (r: Option<(string, string)>)
    ensures r.Some? ==> |r.value.1| < |s|
  {
    if s == "" then None
    else if s[0] != '"' then
      var r := ReadQuoted(s[1..]);
      if r.None? then None else Some(([s[0]] + r.value.0, r.value.1))
    else if |s| > 1 && s[1] == '"' then
      var r := ReadQuoted(s[2..]);
      if r.None? then None else Some((['"'] + r.value.0, r.value.1))
    else Some(("", s[1..]))
  }

  function ReadField(s: string): (r: Option<(string, string)>)
    ensures r.Some? ==> |r.value.1| <= |s|
  {
    if s != "" && s[0] == '"' then ReadQuoted(s[1..]) else
      var (field, rest) := ReadPlain(s);
      assert |field + rest| == |s|;
      Some((field, rest))
  }

  function ReadRecord(s: string): (r: Option<(seq<string>, string)>)
    ensures r.Some? ==> |r.value.1| <= |s|
    decreases |s|
  {
    var f := ReadField(s);
    if f.None? then None
    else if f.value.1 != "" && f.value.1[0] == ',' then
      var more := ReadRecord(f.value.1[1..]);
      if more.None? then None else Some(([f.value.0] + more.value.0, more.value.1))
    else Some(([f.value.0], f.value.1))
  }

  // Records separated by CRLF; a break after the last record is optional.
  function ReadFile(s: string): Option<seq<seq<string>>>
    decreases |s|
  {
    var r := ReadRecord(s);
    if r.None? then None
    else
      var (fields, rest) := r.value;
      if rest == "" || rest == CRLF then Some([fields])
      else if CRLF <= rest then
        var more := ReadFile(rest[2..]);
        if more.None? then None else Some([fields] + more.value)
      else None
  }

  // ---- Round trips ----

  // What a reader gets for a row: the cleaned values; an empty row is one empty field.
  function AsRead(values: seq<string>): seq<string> {
    if values == [] then [""] else seq(|values|, i requires 0 <= i < |values| => Clean(values[i]))
  }

  function AllAsRead(rows: seq<seq<string>>): seq<seq<string>> {
    seq(|rows|, i requires 0 <= i < |rows| => AsRead(rows[i]))
  }

  // Printing ends a field, and a record, with one of these.
  predicate EndsField(rest: string) { rest == "" || rest[0] == ',' || rest[0] == '\r' }
  predicate EndsRecord(rest: string) { rest == "" || rest[0] == '\r' }

  lemma {:induction false} PlainRoundTrip(s: string, rest: string)
    requires (forall c | c in s :: IsText(c)) && EndsField(rest)
    ensures ReadPlain(s + rest) == (s, rest)
  {
    if s == "" {
      assert s + rest == rest;
    } else {
      PlainRoundTrip(s[1..], rest);
      assert (s + rest)[1..] == s[1..] + rest;
      assert s == [s[0]] + s[1..];
    }
  }

  lemma {:induction false} QuotedRoundTrip(s: string, rest: string)
    requires EndsField(rest)
    ensures ReadQuoted(DoubleQuotes(s) + "\"" + rest) == Some((s, rest))
  {
    if s == "" {
      assert DoubleQuotes(s) + "\"" + rest == "\"" + rest;
    } else {
      QuotedRoundTrip(s[1..], rest);
      var tail := DoubleQuotes(s[1..]) + "\"" + rest;
      assert s == [s[0]] + s[1..];
      if s[0] == '"' {
        assert DoubleQuotes(s) + "\"" + rest == "\"\"" + tail;
        assert ("\"\"" + tail)[2..] == tail;
      } else {
        assert DoubleQuotes(s) + "\"" + rest == [s[0]] + tail;
        assert ([s[0]] + tail)[1..] == tail;
      }
    }
  }

  lemma {:induction false} FieldRoundTrip(value: string, rest: string)
    requires EndsField(rest)
    ensures ReadField(Field(value) + rest) == Some((Clean(value), rest))
  {
    hide DoubleQuotes, ReadQuoted, ReadPlain, Clean, IsControl;
    var clean := Clean(value);
    if NeedsQuotes(clean) {
      QuotedRoundTrip(clean, rest);
      assert (Field(value) + rest)[1..] == DoubleQuotes(clean) + "\"" + rest;
    } else {
      PlainRoundTrip(clean, rest);
      assert clean != "" ==> IsText(clean[0]);
    }
  }

  lemma {:induction false} NoFieldReads(rest: string)
    requires EndsRecord(rest)
    ensures ReadField(rest) == Some(("", rest))
  {}

  // A printed row reads back as its cleaned values.
  lemma {:induction false} RowRoundTrip(values: seq<string>, rest: string)
    requires EndsRecord(rest)
    ensures ReadRecord(ToCsvRow(values) + rest) == Some((AsRead(values), rest))
  {
    hide ReadField, Field, Clean;
    if values == [] {
      NoFieldReads(rest);
      assert ToCsvRow(values) + rest == rest;
    } else if |values| == 1 {
      FieldRoundTrip(values[0], rest);
      assert AsRead(values) == [Clean(values[0])];
    } else {
      var tail := ToCsvRow(values[1..]) + rest;
      RowRoundTrip(values[1..], rest);
      FieldRoundTrip(values[0], "," + tail);
      assert ToCsvRow(values) + rest == Field(values[0]) + ("," + tail);
      assert ("," + tail)[1..] == tail;
      assert AsRead(values) == [Clean(values[0])] + AsRead(values[1..]);
    }
  }

  // A reader takes a final empty line for the optional last break.
  predicate LosesLastRow(rows: seq<seq<string>>)
    requires rows != []
  {
    |rows| > 1 && ToCsvRow(rows[|rows| - 1]) == ""
  }

  lemma {:induction false} FirstRowReads(row: seq<string>, tail: string)
    ensures ReadFile(ToCsvRow(row)) == Some([AsRead(row)])
    ensures ReadFile(ToCsvRow(row) + (CRLF + tail)) ==
      if tail == "" then Some([AsRead(row)])
      else if ReadFile(tail).None? then None else Some([AsRead(row)] + ReadFile(tail).value)
  {
    hide ReadRecord, ToCsvRow, AsRead;
    RowRoundTrip(row, "");
    assert ToCsvRow(row) + "" == ToCsvRow(row);
    var rest := CRLF + tail;
    RowRoundTrip(row, rest);
    assert |rest| == 2 + |tail| && rest[2..] == tail;
    assert tail == "" ==> rest == CRLF;
  }

  lemma {:induction false} DocumentReads(rows: seq<seq<string>>)
    requires rows != []
    ensures ReadFile(Document(rows)) ==
            Some(AllAsRead(if LosesLastRow(rows) then rows[..|rows| - 1] else rows))
  {
    hide ReadFile, ToCsvRow, AsRead;
    var tail := rows[1..];
    FirstRowReads(rows[0], if tail == [] then "" else Document(tail));
    assert AllAsRead(rows[..1]) == [AsRead(rows[0])];
    if tail == [] {
      assert rows[..1] == rows;
    } else {
      assert Document(rows) == ToCsvRow(rows[0]) + (CRLF + Document(tail));
      assert tail[|tail| - 1] == rows[|rows| - 1];
      EmptyDocument(tail);
      if Document(tail) != "" {
        DocumentReads(tail);
        DropFirst(rows);
      }
    }
  }

  lemma {:induction false} DropFirst(rows: seq<seq<string>>)
    requires |rows| > 1 && Document(rows[1..]) != ""
    ensures var tail := rows[1..];
      AllAsRead(if LosesLastRow(rows) then rows[..|rows| - 1] else rows) ==
      [AsRead(rows[0])] + AllAsRead(if LosesLastRow(tail) then tail[..|tail| - 1] else tail)
  {
    hide ToCsvRow, AsRead;
    EmptyDocument(rows[1..]);
  }

  lemma {:induction false} EmptyDocument(rows: seq<seq<string>>)
    requires rows != []
    ensures Document(rows) == "" <==> |rows| == 1 && ToCsvRow(rows[0]) == ""
  {
    if |rows| > 1 {
      assert |Document(rows)| == |ToCsvRow(rows[0])| + 2 + |Document(rows[1..])|;
    }
  }

  // Which rows print as nothing.
  lemma {:induction false} EmptyRow(values: seq<string>)
    ensures ToCsvRow(values) == "" <==> values == [] || (|values| == 1 && Clean(values[0]) == "")
  {
    if |values| > 1 {
      assert |ToCsvRow(values)| == |Field(values[0])| + 1 + |ToCsvRow(values[1..])|;
    } else if |values| == 1 && NeedsQuotes(Clean(values[0])) {
      assert |Field(values[0])| == 2 + |DoubleQuotes(Clean(values[0]))|;
    }
  }

  // A printed document reads back as all its rows exactly when it has one row or
  // its last row does not print as nothing; an exported order ends in its totals.
  lemma {:induction false} DocumentRoundTripIff(rows: seq<seq<string>>)
    requires rows != []
    ensures ReadFile(Document(rows)) == Some(AllAsRead(rows)) <==>
            |rows| == 1 || !(rows[|rows| - 1] == [] || (|rows[|rows| - 1]| == 1 && Clean(rows[|rows| - 1][0]) == ""))
  {
    DocumentReads(rows);
    EmptyRow(rows[|rows| - 1]);
    if LosesLastRow(rows) {
      assert |AllAsRead(rows[..|rows| - 1])| == |rows| - 1 && |AllAsRead(rows)| == |rows|;
    }
  }

  lemma {:induction false} CleanStep(c: char, s: string)
    ensures Clean([c] + s) == if IsControl(c) then Clean(s) else [c] + Clean(s)
  {
    assert ([c] + s)[1..] == s;
    assert "" + Clean(s) == Clean(s);
  }

  // Cleaning takes out exactly the control characters, and once is enough.
  lemma {:induction false} CleanKeepsText(s: string)
    ensures forall c :: c in Clean(s) <==> c in s && !IsControl(c)
    ensures Clean(Clean(s)) == Clean(s)
  {
    if s != "" {
      hide IsControl, Clean;
      CleanKeepsText(s[1..]);
      CleanStep(s[0], s[1..]);
      CleanStep(s[0], Clean(s[1..]));
      assert s == [s[0]] + s[1..];
    }
  }

  // ---- The order form ----

  datatype FormLine = FormLine(product: string, unit: string, ordered: nat, notes: string)
  datatype Form = Form(
    company: string, id: string, date: string, supplier: string, shipTo: string, createdBy: string, lines: seq<FormLine>)

  function Digits(n: nat): string {
    var last := [(n % 10 + '0' as int) as char];
    if n < 10 then last else Digits(n / 10) + last
  }

  function TotalOrdered(lines: seq<FormLine>): nat {
    if lines == [] then 0 else TotalOrdered(lines[..|lines| - 1]) + lines[|lines| - 1].ordered
  }

  // Unit prices are not stored, so that column is empty.
  function FormRows(f: Form): (rows: seq<seq<string>>)
    ensures rows != []
  {
    [["Purchase Order"], ["Company Name", f.company], ["PO Number", f.id], ["Date Created", f.date],
     ["Supplier Name", f.supplier], ["Ship To Location", f.shipTo]]
    + (if f.createdBy == "" then [] else [["Created By", f.createdBy]])
    + [[], ["Line #", "Product Name", "Ordering Unit Label", "Qty Ordered", "Unit Price", "Notes"]]
    + seq(|f.lines|, i requires 0 <= i < |f.lines| =>
        [Digits(i + 1), f.lines[i].product, f.lines[i].unit, Digits(f.lines[i].ordered), "", f.lines[i].notes])
    + [["", "", "Total Qty Ordered", Digits(TotalOrdered(f.lines)), "", ""]]
  }

  // Whatever the names and notes hold, an exported order reads back row by row.
  lemma {:induction false} FormRoundTrip(f: Form)
    ensures ReadFile(Document(FormRows(f))) == Some(AllAsRead(FormRows(f)))
  {
    hide ReadFile, AllAsRead, Digits, Document;
    var rows := FormRows(f);
    assert |rows[|rows| - 1]| == 6;
    DocumentRoundTripIff(rows);
  }

  // ---- What a reader of the form finds ----

  predicate IsDigit(c: char) { '0' <= c <= '9' }

  function ReadNumber(s: string): nat
    requires forall c | c in s :: IsDigit(c)
  {
    if s == "" then 0 else
      var c := s[|s| - 1];
      assert c in s && IsDigit(c);
      assert c as int >= '0' as int;
      10 * ReadNumber(s[..|s| - 1]) + (c as int - '0' as int)
  }

  // The decimal numeral of n, without leading zeros.
  predicate IsNumeral(s: string, n: nat) {
    s != "" && (forall c | c in s :: IsDigit(c)) && ReadNumber(s) == n && (|s| > 1 ==> s[0] != '0')
  }

  lemma {:induction false} DigitsAre(n: nat)
    ensures IsNumeral(Digits(n), n) && Clean(Digits(n)) == Digits(n)
  {
    var s := Digits(n);
    if n < 10 {
      assert s[..0] == "";
    } else {
      DigitsAre(n / 10);
      assert s[..|s| - 1] == Digits(n / 10);
      if n / 10 < 10 { assert s[0] as int == '0' as int + n / 10; }
    }
    TextStays(s);
  }

  lemma {:induction false} TextStays(s: string)
    requires forall c | c in s :: !IsControl(c)
    ensures Clean(s) == s
  {
    if s != "" {
      TextStays(s[1..]);
      assert s == [s[0]] + s[1..];
    }
  }

  lemma {:induction false} TotalsAdd(front: seq<FormLine>, l: FormLine)
    ensures TotalOrdered([]) == 0 && TotalOrdered(front + [l]) == TotalOrdered(front) + l.ordered
  {
    assert (front + [l])[..|front|] == front;
  }

  // The cells of one ordered line.
  ghost predicate ShowsLine(cells: seq<string>, i: nat, l: FormLine) {
    && |cells| == 6 && IsNumeral(cells[0], i + 1)
    && cells[1] == Clean(l.product) && cells[2] == Clean(l.unit)
    && IsNumeral(cells[3], l.ordered) && cells[4] == "" && cells[5] == Clean(l.notes)
  }

  // The rows before the titles.
  function Head(f: Form): nat { if f.createdBy == "" then 7 else 8 }

  // The form names the order, its date, supplier and destination.
  ghost predicate ShowsHead(cells: seq<seq<string>>, f: Form) {
    && |cells| > Head(f)
    && cells[1] == ["Company Name", Clean(f.company)] && cells[2] == ["PO Number", Clean(f.id)]
    && cells[3] == ["Date Created", Clean(f.date)] && cells[4] == ["Supplier Name", Clean(f.supplier)]
    && cells[5] == ["Ship To Location", Clean(f.shipTo)]
    && (f.createdBy != "" ==> cells[6] == ["Created By", Clean(f.createdBy)])
    && cells[Head(f)] == ["Line #", "Product Name", "Ordering Unit Label", "Qty Ordered", "Unit Price", "Notes"]
  }

  ghost predicate ShowsTotal(cells: seq<string>, total: nat) {
    |cells| == 6 && cells[2] == "Total Qty Ordered" && IsNumeral(cells[3], total)
  }

  // Read back, an exported order shows its head; then its lines, numbered, in order,
  // with their quantities; then their total; and nothing else.
  lemma {:induction false} FormShows(f: Form)
    ensures ReadFile(Document(FormRows(f))).Some?
    ensures var cells, first := ReadFile(Document(FormRows(f))).value, Head(f) + 1;
      && |cells| == first + |f.lines| + 1
      && ShowsHead(cells, f)
      && (forall i | 0 <= i < |f.lines| :: ShowsLine(cells[first + i], i, f.lines[i]))
      && ShowsTotal(cells[first + |f.lines|], TotalOrdered(f.lines))
  {
    hide ReadFile, Document, AsRead, FormRows, ShowsHead, ShowsLine, ShowsTotal, TotalOrdered;
    FormRoundTrip(f);
    HeadShows(f);
    TotalShows(f);
    forall i | 0 <= i < |f.lines| ensures ShowsLine(AllAsRead(FormRows(f))[Head(f) + 1 + i], i, f.lines[i]) { LineShows(f, i); }
  }

  lemma {:induction false} HeadShows(f: Form)
    ensures ShowsHead(AllAsRead(FormRows(f)), f)
  {
    hide Clean, Digits, TotalOrdered;
    TitlesStay();
    var rows := FormRows(f);
    assert rows[Head(f)] == ["Line #", "Product Name", "Ordering Unit Label", "Qty Ordered", "Unit Price", "Notes"];
  }

  lemma {:induction false} TotalShows(f: Form)
    ensures var rows := FormRows(f);
      |rows| == Head(f) + |f.lines| + 2 && ShowsTotal(AsRead(rows[|rows| - 1]), TotalOrdered(f.lines))
  {
    hide Clean, Digits, IsNumeral, TotalOrdered;
    TitlesStay();
    DigitsAre(TotalOrdered(f.lines));
    var rows := FormRows(f);
    assert rows[|rows| - 1] == ["", "", "Total Qty Ordered", Digits(TotalOrdered(f.lines)), "", ""];
  }

  lemma {:induction false} LineShows(f: Form, i: nat)
    requires i < |f.lines|
    ensures var rows := FormRows(f); |rows| == Head(f) + |f.lines| + 2 && ShowsLine(AsRead(rows[Head(f) + 1 + i]), i, f.lines[i])
  {
    hide Clean, IsNumeral, Digits, TotalOrdered;
    var l := f.lines[i];
    assert FormRows(f)[Head(f) + 1 + i] == [Digits(i + 1), l.product, l.unit, Digits(l.ordered), "", l.notes];
    DigitsAre(i + 1);
    DigitsAre(l.ordered);
    TextStays("");
  }

  lemma {:induction false} TitlesStay()
    ensures forall t: string | t in {"", "Company Name", "PO Number", "Date Created", "Supplier Name", "Ship To Location", "Created By",
        "Line #", "Product Name", "Ordering Unit Label", "Qty Ordered", "Unit Price", "Notes", "Total Qty Ordered"} :: Clean(t) == t
  {
    hide Clean;
    TextStays("");
    TextStays("Company Name");
    TextStays("PO Number");
    TextStays("Date Created");
    TextStays("Supplier Name");
    TextStays("Ship To Location");
    TextStays("Created By");
    TextStays("Line #");
    TextStays("Product Name");
    TextStays("Ordering Unit Label");
    TextStays("Qty Ordered");
    TextStays("Unit Price");
    TextStays("Notes");
    TextStays("Total Qty Ordered");
  }
}
