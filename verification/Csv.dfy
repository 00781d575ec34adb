/** Two independently written CSV printers and the grammar that reads them back
    (section 2 of RFC 4180). */
module Csv {
  import opened HubTables

  const BOM: char := '\U{FEFF}'
  const EOL: string := "\r\n"

  predicate IsNumberText(text: string) {
    forall i :: 0 <= i < |text| ==> text[i] in "0123456789+-.e"
  }

  /** String(value) of a finite number. */
  type NumberText = text: string | IsNumberText(text) witness ""

  /** A number is None when it is not finite. */
  datatype Cell = Text(text: string) | Number(number: Option<NumberText>) | Missing

  type Row = seq<Cell>

  // ------------------------------------------------------- the shared printer

  predicate StartsFormula(text: string) {
    text != "" && text[0] in "=+-@\t\r"
  }

  function Neutralized(text: string): string {
    if StartsFormula(text) then "'" + text else text
  }

  predicate IsSpecial(c: char) {
    c in "\",\r\n"
  }

  predicate NeedsQuotes(text: string) {
    exists i :: 0 <= i < |text| && IsSpecial(text[i])
  }

  function Doubled(text: string): string {
    if text == "" then "" else (if text[0] == '"' then "\"\"" else [text[0]]) + Doubled(text[1..])
  }

  function Quoted(text: string): string {
    if NeedsQuotes(text) then "\"" + Doubled(text) + "\"" else text
  }

  /** parts.join(separator). */
  function Join(parts: seq<string>, separator: string): string {
    if parts == [] then "" else if |parts| == 1 then parts[0] else parts[0] + separator + Join(parts[1..], separator)
  }

  function NumberCell(number: Option<NumberText>): string {
    if number.Some? then number.value else ""
  }

  function CsvCell(cell: Cell): string {
    match cell
    case Missing => ""
    case Text(text) => Quoted(Neutralized(text))
    case Number(number) => Quoted(NumberCell(number))
  }

  function Mapped<A, B>(f: A -> B, s: seq<A>): (r: seq<B>)
    ensures |r| == |s| && forall i :: 0 <= i < |s| ==> r[i] == f(s[i])
  {
    seq(|s|, i requires 0 <= i < |s| => f(s[i]))
  }

  function PrintedRow(row: Row): string {
    Join(Mapped(CsvCell, row), ",")
  }

  function ToCsv(header: seq<string>, rows: seq<Row>): string {
    [BOM] + Join(Mapped(PrintedRow, [Mapped((title: string) => Text(title), header)] + rows), EOL) + EOL
  }

  // ------------------------------------------------ the movements' own printer

  datatype MovementStatus = Approved | PendingApproval | Rejected
  datatype Movement = Movement(
    id: string, date: string, description: string, category: string, amount: Option<NumberText>, status: MovementStatus)

  /** A column's value: a number of ours, a text of ours, or a text from users. */
  datatype Field = Amount(number: Option<NumberText>) | Trusted(text: string) | Untrusted(text: string)

  const TITLES: seq<string> := ["Folio", "Fecha", "Descripción", "Categoría", "Monto", "Estado"]

  function StatusLabel(status: MovementStatus): string {
    match status
    case Approved => "Aprobado"
    case PendingApproval => "Pendiente"
    case Rejected => "Rechazado"
  }

  function Columns(m: Movement): seq<Field> {
    [Trusted(m.id), Trusted(m.date), Untrusted(m.description), Untrusted(m.category), Amount(m.amount), Trusted(StatusLabel(m.status))]
  }

  function EncodeField(field: Field): string {
    match field
    case Amount(None) => ""
    case Amount(Some(number)) => Quoted(number)
    case Trusted(text) => Quoted(text)
    case Untrusted(text) => Quoted(Neutralized(text))
  }

  function MovementLine(m: Movement): string {
    Join(Mapped(EncodeField, Columns(m)), ",")
  }

  function Terminated(lines: seq<string>): string {
    if lines == [] then "" else lines[0] + EOL + Terminated(lines[1..])
  }

  function MovementsCsv(movements: seq<Movement>): string {
    [BOM] + Terminated([Join(Mapped(EncodeField, Mapped((title: string) => Trusted(title), TITLES)), ",")] + Mapped(MovementLine, movements))
  }

  // -------------------------------------- the reader: section 2 of RFC 4180

  /** The rest of a quoted field after its opening quote: its text and what follows. */
  function ReadQuoted(s: string): Option<(string, string)> {
    if s == "" then None
    else if s[0] != '"' then
      match ReadQuoted(s[1..])
      case None => None
      case Some((text, rest)) => Some(([s[0]] + text, rest))
    else if 1 < |s| && s[1] == '"' then
      match ReadQuoted(s[2..])
      case None => None
      case Some((text, rest)) => Some(("\"" + text, rest))
    else Some(("", s[1..]))
  }

  function ReadPlain(s: string): (string, string) {
    if s == "" || IsSpecial(s[0]) then ("", s)
    else var (text, rest) := ReadPlain(s[1..]); ([s[0]] + text, rest)
  }

  function ReadField(s: string): Option<(string, string)> {
    if s != "" && s[0] == '"' then ReadQuoted(s[1..]) else Some(ReadPlain(s))
  }

  lemma {:induction false} QuotedShrinks(s: string)
    ensures ReadQuoted(s).Some? ==> |ReadQuoted(s).value.1| < |s|
  {
    if s != "" {
      if s[0] != '"' {
        QuotedShrinks(s[1..]);
      } else if 1 < |s| && s[1] == '"' {
        QuotedShrinks(s[2..]);
      }
    }
  }

  lemma {:induction false} PlainShrinks(s: string)
    ensures |ReadPlain(s).1| <= |s|
  {
    if s != "" && !IsSpecial(s[0]) {
      PlainShrinks(s[1..]);
    }
  }

  lemma FieldShrinks(s: string)
    ensures ReadField(s).Some? ==> |ReadField(s).value.1| <= |s|
  {
    if s != "" && s[0] == '"' {
      QuotedShrinks(s[1..]);
    } else {
      PlainShrinks(s);
    }
  }

  /** One record up to and including its line break. */
  function ReadRecord(s: string): (r: Option<(seq<string>, string)>)
    ensures r.Some? ==> |r.value.1| < |s|
    decreases |s|
  {
    FieldShrinks(s);
    match ReadField(s)
    case None => None
    case Some((text, rest)) =>
      if 2 <= |rest| && rest[..2] == EOL then Some(([text], rest[2..]))
      else if rest == "" || rest[0] != ',' then None
      else
        match ReadRecord(rest[1..])
        case None => None
        case Some((fields, after)) => Some(([text] + fields, after))
  }

  function ReadRecords(s: string): Option<seq<seq<string>>>
    decreases |s|
  {
    if s == "" then Some([])
    else
      match ReadRecord(s)
      case None => None
      case Some((fields, rest)) =>
        match ReadRecords(rest)
        case None => None
        case Some(records) => Some([fields] + records)
  }

  /** A file with its byte order mark. */
  function ReadFile(s: string): Option<seq<seq<string>>> {
    if s == "" || s[0] != BOM then None else ReadRecords(s[1..])
  }

  // ------------------------------------------------------ printing and reading

  predicate AtBoundary(rest: string) {
    rest != "" && (rest[0] == ',' || rest[0] == '\r')
  }

  lemma {:induction false} ReadDoubled(text: string, rest: string)
    requires AtBoundary(rest)
    ensures ReadQuoted(Doubled(text) + "\"" + rest) == Some((text, rest))
  {
    var s := Doubled(text) + "\"" + rest;
    if text == "" {
      assert s == "\"" + rest;
    } else {
      var tail := Doubled(text[1..]) + "\"" + rest;
      ReadDoubled(text[1..], rest);
      assert [text[0]] + text[1..] == text;
      if text[0] == '"' {
        assert s == "\"\"" + tail && s[2..] == tail;
      } else {
        assert s == [text[0]] + tail && s[1..] == tail;
      }
    }
  }

  lemma {:induction false} ReadUnquoted(text: string, rest: string)
    requires AtBoundary(rest) && !NeedsQuotes(text)
    ensures ReadPlain(text + rest) == (text, rest)
  {
    if text != "" {
      assert !NeedsQuotes(text[1..]) by {
        if i :| 0 <= i < |text[1..]| && IsSpecial(text[1..][i]) {
          assert IsSpecial(text[i + 1]);
        }
      }
      ReadUnquoted(text[1..], rest);
      assert (text + rest)[1..] == text[1..] + rest && [text[0]] + text[1..] == text;
      assert !IsSpecial(text[0]) && (text + rest)[0] == text[0];
    } else {
      assert text + rest == rest;
    }
  }

  lemma ReadQuotedField(text: string, rest: string)
    requires AtBoundary(rest)
    ensures ReadField(Quoted(text) + rest) == Some((text, rest))
  {
    if NeedsQuotes(text) {
      ReadDoubled(text, rest);
      OpeningQuote(Doubled(text), rest);
    } else {
      ReadUnquoted(text, rest);
      PlainStart(text, rest);
    }
  }

  lemma OpeningQuote(doubled: string, rest: string)
    ensures var s := "\"" + doubled + "\"" + rest;
      s != "" && s[0] == '"' && s[1..] == doubled + "\"" + rest
  {}

  lemma PlainStart(text: string, rest: string)
    requires AtBoundary(rest) && !NeedsQuotes(text)
    ensures text + rest != "" && (text + rest)[0] != '"'
  {
    if text != "" {
      assert !IsSpecial(text[0]);
    }
  }

  function Line(fields: seq<string>): string {
    Join(Mapped(Quoted, fields), ",")
  }

  lemma {:induction false} ReadLine(fields: seq<string>, rest: string)
    requires fields != []
    ensures ReadRecord(Line(fields) + EOL + rest) == Some((fields, rest))
    decreases |fields|
  {
    var s := Line(fields) + EOL + rest;
    if |fields| == 1 {
      assert s == Quoted(fields[0]) + (EOL + rest);
      ReadQuotedField(fields[0], EOL + rest);
      assert (EOL + rest)[..2] == EOL && (EOL + rest)[2..] == rest;
      assert [fields[0]] == fields;
    } else {
      var tail := Line(fields[1..]) + EOL + rest;
      assert Mapped(Quoted, fields)[1..] == Mapped(Quoted, fields[1..]);
      assert s == Quoted(fields[0]) + ("," + tail);
      ReadQuotedField(fields[0], "," + tail);
      ReadLine(fields[1..], rest);
      assert ("," + tail)[1..] == tail && ("," + tail)[0] == ',';
      assert [fields[0]] + fields[1..] == fields;
    }
  }

  /** What reading makes of a record: a line is never without a field. */
  function Readable(fields: seq<string>): seq<string> {
    if fields == [] then [""] else fields
  }

  lemma {:induction false} ReadLines(records: seq<seq<string>>)
    ensures ReadRecords(Terminated(Mapped(Line, records))) == Some(Mapped(Readable, records))
  {
    if records != [] {
      var lines := Mapped(Line, records);
      ReadLines(records[1..]);
      assert lines[1..] == Mapped(Line, records[1..]);
      assert Line([""]) == "" by {
        assert Mapped(Quoted, [""]) == [""];
      }
      assert Line(records[0]) == Line(Readable(records[0])) by {
        assert records[0] == [] ==> Mapped(Quoted, records[0]) == [];
      }
      ReadLine(Readable(records[0]), Terminated(lines[1..]));
      assert Mapped(Readable, records) == [Readable(records[0])] + Mapped(Readable, records[1..]);
    }
  }

  lemma {:induction false} JoinedIsTerminated(lines: seq<string>)
    requires lines != []
    ensures Join(lines, EOL) + EOL == Terminated(lines)
  {
    if 1 < |lines| {
      JoinedIsTerminated(lines[1..]);
      assert Join(lines, EOL) + EOL == lines[0] + EOL + (Join(lines[1..], EOL) + EOL);
    } else {
      assert Terminated(lines[1..]) == "";
    }
  }

  // ------------------------------------------------------------- main results

  /** The text a cell is read back as. */
  function CellText(cell: Cell): string {
    match cell
    case Missing => ""
    case Text(text) => Neutralized(text)
    case Number(number) => NumberCell(number)
  }

  function RowTexts(row: Row): seq<string> {
    Mapped(CellText, row)
  }

  function HeaderRow(header: seq<string>): Row {
    Mapped((title: string) => Text(title), header)
  }

  lemma PrintedIsLine(row: Row)
    ensures PrintedRow(row) == Line(RowTexts(row))
  {
    assert Mapped(CsvCell, row) == Mapped(Quoted, RowTexts(row)) by {
      assert Quoted("") == "";
    }
  }

  lemma ToCsvIsLines(header: seq<string>, rows: seq<Row>)
    ensures ToCsv(header, rows) == [BOM] + Terminated(Mapped(Line, Mapped(RowTexts, [HeaderRow(header)] + rows)))
  {
    var all := [HeaderRow(header)] + rows;
    forall i | 0 <= i < |all| ensures PrintedRow(all[i]) == Line(RowTexts(all[i])) {
      PrintedIsLine(all[i]);
    }
    assert Mapped(PrintedRow, all) == Mapped(Line, Mapped(RowTexts, all));
    JoinedIsTerminated(Mapped(PrintedRow, all));
  }

  /** The printed file is read back as exactly its records, text neutralized,
      when and only when neither the header nor any row is without cells. */
  lemma FileIsReadBackIffNoRowIsEmpty(header: seq<string>, rows: seq<Row>)
    ensures ReadFile(ToCsv(header, rows)) == Some(Mapped(RowTexts, [HeaderRow(header)] + rows))
      <==> RowsHaveCells(header, rows)
  {
    var all := [HeaderRow(header)] + rows;
    var records := Mapped(RowTexts, all);
    ToCsvIsLines(header, rows);
    ReadLines(records);
    var csv := ToCsv(header, rows);
    assert csv[0] == BOM && csv[1..] == Terminated(Mapped(Line, records));
    if RowsHaveCells(header, rows) {
      forall i | 0 <= i < |all| ensures records[i] != [] {
        if 0 < i { assert all[i] == rows[i - 1]; }
      }
      assert Mapped(Readable, records) == records;
    } else {
      var k :| 0 <= k < |all| && all[k] == [] by {
        if header == [] {
          assert all[0] == [];
        } else {
          var i :| 0 <= i < |rows| && rows[i] == [];
          assert all[i + 1] == [];
        }
      }
      assert Mapped(Readable, records)[k] == [""] && records[k] == [];
    }
  }

  lemma NeutralizedIsHarmless(text: string)
    ensures !StartsFormula(Neutralized(text)) && (Neutralized(text) == text <==> !StartsFormula(text))
  {
    if StartsFormula(text) {
      assert Neutralized(text)[0] == '\'';
    }
  }

  predicate RowsHaveCells(header: seq<string>, rows: seq<Row>) {
    header != [] && forall k :: 0 <= k < |rows| ==> rows[k] != []
  }

  /** No text cell is read back as something a spreadsheet could run; numbers keep their sign. */
  lemma NoTextRunsAsFormula(header: seq<string>, rows: seq<Row>, i: nat, j: nat)
    requires i < |rows| && j < |rows[i]| && RowsHaveCells(header, rows)
    ensures var records := ReadFile(ToCsv(header, rows));
      && records.Some? && |records.value| == |rows| + 1 && |records.value[i + 1]| == |rows[i]|
      && (rows[i][j].Text? ==>
            && !StartsFormula(records.value[i + 1][j])
            && (records.value[i + 1][j] == rows[i][j].text <==> !StartsFormula(rows[i][j].text)))
      && (rows[i][j].Number? ==> records.value[i + 1][j] == NumberCell(rows[i][j].number))
  {
    FileIsReadBackIffNoRowIsEmpty(header, rows);
    RowOfFile(header, rows, i, j);
    if rows[i][j].Text? {
      NeutralizedIsHarmless(rows[i][j].text);
    }
  }

  lemma RowOfFile(header: seq<string>, rows: seq<Row>, i: nat, j: nat)
    requires i < |rows| && j < |rows[i]|
    ensures var texts := Mapped(RowTexts, [HeaderRow(header)] + rows);
      |texts| == |rows| + 1 && |texts[i + 1]| == |rows[i]| && texts[i + 1][j] == CellText(rows[i][j])
  {
    assert ([HeaderRow(header)] + rows)[i + 1] == rows[i];
  }

  function FieldText(field: Field): string {
    match field
    case Amount(number) => NumberCell(number)
    case Trusted(text) => text
    case Untrusted(text) => Neutralized(text)
  }

  function MovementTexts(m: Movement): seq<string> {
    Mapped(FieldText, Columns(m))
  }

  lemma FieldsAreLine(fields: seq<Field>)
    ensures Join(Mapped(EncodeField, fields), ",") == Line(Mapped(FieldText, fields))
  {
    assert Quoted("") == "";
    assert Mapped(EncodeField, fields) == Mapped(Quoted, Mapped(FieldText, fields));
  }

  lemma MovementsCsvIsLines(movements: seq<Movement>)
    ensures MovementsCsv(movements) == [BOM] + Terminated(Mapped(Line, [TITLES] + Mapped(MovementTexts, movements)))
  {
    var titles := Mapped((title: string) => Trusted(title), TITLES);
    FieldsAreLine(titles);
    assert Mapped(FieldText, titles) == TITLES;
    forall i | 0 <= i < |movements| ensures MovementLine(movements[i]) == Line(MovementTexts(movements[i])) {
      FieldsAreLine(Columns(movements[i]));
    }
    assert [Line(TITLES)] + Mapped(MovementLine, movements) == Mapped(Line, [TITLES] + Mapped(MovementTexts, movements));
  }

  /** The movements file is read back as its titles and rows. */
  lemma MovementsAreReadBack(movements: seq<Movement>)
    ensures ReadFile(MovementsCsv(movements)) == Some([TITLES] + Mapped(MovementTexts, movements))
  {
    var records := [TITLES] + Mapped(MovementTexts, movements);
    MovementsCsvIsLines(movements);
    ReadLines(records);
    assert MovementsCsv(movements)[1..] == Terminated(Mapped(Line, records));
    assert Mapped(Readable, records) == records;
  }

  /** A movement as cells of the shared printer. */
  function MovementRow(m: Movement): Row {
    [Text(m.id), Text(m.date), Text(m.description), Text(m.category), Number(m.amount), Text(StatusLabel(m.status))]
  }

  predicate TrustedTextIsPlain(m: Movement) {
    !StartsFormula(m.id) && !StartsFormula(m.date)
  }

  lemma TextsAgreeIffPlain(m: Movement)
    ensures MovementTexts(m) == RowTexts(MovementRow(m)) <==> TrustedTextIsPlain(m)
  {
    var ours, shared := MovementTexts(m), RowTexts(MovementRow(m));
    assert ours[0] == m.id && shared[0] == Neutralized(m.id);
    assert ours[1] == m.date && shared[1] == Neutralized(m.date);
  }

  function SharedTexts(movements: seq<Movement>): seq<seq<string>> {
    Mapped((m: Movement) => RowTexts(MovementRow(m)), movements)
  }

  lemma SharedRows(movements: seq<Movement>)
    ensures Mapped(RowTexts, [HeaderRow(TITLES)] + Mapped(MovementRow, movements)) == [TITLES] + SharedTexts(movements)
  {
    assert RowTexts(HeaderRow(TITLES)) == TITLES;
  }

  lemma SharedRecords(movements: seq<Movement>)
    ensures ReadFile(ToCsv(TITLES, Mapped(MovementRow, movements))) == Some([TITLES] + SharedTexts(movements))
  {
    var rows := Mapped(MovementRow, movements);
    SharedRows(movements);
    FileIsReadBackIffNoRowIsEmpty(TITLES, rows);
    assert forall i :: 0 <= i < |rows| ==> rows[i] != [];
  }

  /** The two printers write the same bytes exactly when no text of ours opens like a formula. */
  lemma PrintersAgreeIffTrustedTextIsPlain(movements: seq<Movement>)
    ensures MovementsCsv(movements) == ToCsv(TITLES, Mapped(MovementRow, movements))
      <==> forall i :: 0 <= i < |movements| ==> TrustedTextIsPlain(movements[i])
  {
    var ours := Mapped(MovementTexts, movements);
    var shared := SharedTexts(movements);
    MovementsAreReadBack(movements);
    SharedRecords(movements);
    forall i | 0 <= i < |movements| ensures ours[i] == shared[i] <==> TrustedTextIsPlain(movements[i]) {
      TextsAgreeIffPlain(movements[i]);
    }
    if ours == shared {
      MovementsCsvIsLines(movements);
      ToCsvIsLines(TITLES, Mapped(MovementRow, movements));
      SharedRows(movements);
    } else {
      assert ([TITLES] + ours)[1..] == ours && ([TITLES] + shared)[1..] == shared;
    }
  }
}
