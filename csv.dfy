/**
 * The CSV codec of src/database.ts: the character-by-character reader
 * `parseCSV` and the field escaper that `Database.exportCSV` applies to
 * every header name and cell.
 *
 * The reader is specified by `Scan`, which consumes the rest of the input
 * from a reader state exactly as one iteration of the source loop does
 * (including the one-character lookahead for `""` and `\r\n`); the method
 * `ParseCsv` is the loop itself, proved equal to `Parse`.
 */
module Csv {
  import opened Types
  import opened Text
  import opened JsRuntime

  /** The four variables of the reader: finished rows, the row and field being read, quote mode. */
  datatype CsvState = CsvState(rows: seq<seq<string>>, current: seq<string>, field: string, inQuotes: bool)

  const Start := CsvState([], [], "", false)

  /**
   * After the last character: the finished rows are kept, and one more row
   * is emitted exactly when a field or row is pending; an empty input tail
   * after a line break adds no row.
   */
  function Finish(st: CsvState): (r: seq<seq<string>>)
    ensures |r| >= |st.rows| && r[..|st.rows|] == st.rows
    ensures |r| == |st.rows| + 1 <==> st.field != "" || st.current != []
    ensures st.field != "" || st.current != [] ==> r[|st.rows|] == st.current + [st.field]
    ensures st.field == "" && st.current == [] ==> r == st.rows
  {
    if st.field != "" || |st.current| > 0 then st.rows + [st.current + [st.field]] else st.rows
  }

  /**
   * One iteration of the reader's loop on the remaining input `s`: how many
   * characters it consumes (two for `""` inside quotes and for `\r\n`) and
   * the state it leaves.
   */
  function Step(s: string, st: CsvState): (r: (nat, CsvState))
    requires s != []
    ensures 1 <= r.0 <= |s|
  {
    var ch := s[0];
    if st.inQuotes then
      if ch == '"' then
        if |s| > 1 && s[1] == '"' then (2, st.(field := st.field + ['"']))
        else (1, st.(inQuotes := false))
      else (1, st.(field := st.field + [ch]))
    else if ch == '"' then (1, st.(inQuotes := true))
    else if ch == ',' then (1, st.(current := st.current + [st.field], field := ""))
    else if ch == '\n' || ch == '\r' then
      // `current` always holds the field just pushed, so the row is always emitted.
      var skip := if ch == '\r' && |s| > 1 && s[1] == '\n' then 2 else 1;
      (skip, st.(rows := st.rows + [st.current + [st.field]], current := [], field := ""))
    else (1, st.(field := st.field + [ch]))
  }

  /** The rows the reader produces from state `st` on the remaining input `s`. */
  function Scan(s: string, st: CsvState): seq<seq<string>>
    decreases |s|
  {
    if s == [] then Finish(st)
    else
      var (k, next) := Step(s, st);
      Scan(s[k..], next)
  }

  /** `parseCSV(csv)`. */
  function Parse(csv: string): seq<seq<string>> {
    Scan(csv, Start)
  }

  /** `parseCSV`: the source's index loop with its lookahead. */
  method ParseCsv(csv: string) returns (rows: seq<seq<string>>)
    ensures rows == Parse(csv)
  {
    rows := [];
    var current: seq<string> := [];
    var field := "";
    var inQuotes := false;
    var i := 0;
    while i < |csv|
      invariant 0 <= i <= |csv|
      invariant Scan(csv[i..], CsvState(rows, current, field, inQuotes)) == Parse(csv)
      decreases |csv| - i
    {
      var ch := csv[i];
      if inQuotes {
        if ch == '"' {
          if i + 1 < |csv| && csv[i + 1] == '"' {
            field := field + ['"'];
            i := i + 1;
          } else {
            inQuotes := false;
          }
        } else {
          field := field + [ch];
        }
      } else if ch == '"' {
        inQuotes := true;
      } else if ch == ',' {
        current := current + [field];
        field := "";
      } else if ch == '\n' || ch == '\r' {
        if ch == '\r' && i + 1 < |csv| && csv[i + 1] == '\n' {
          i := i + 1;
        }
        current := current + [field];
        field := "";
        if |current| > 0 {
          rows := rows + [current];
        }
        current := [];
      } else {
        field := field + [ch];
      }
      i := i + 1;
    }
    if field != "" || |current| > 0 {
      current := current + [field];
      rows := rows + [current];
    }
  }

  /** Every row the reader emits has at least one field. */
  lemma {:induction false} ScanRowsNonEmpty(s: string, st: CsvState)
    requires forall k :: 0 <= k < |st.rows| ==> |st.rows[k]| > 0
    ensures forall k :: 0 <= k < |Scan(s, st)| ==> |Scan(s, st)[k]| > 0
    decreases |s|
  {
    if s != [] {
      var (k, next) := Step(s, st);
      ScanRowsNonEmpty(s[k..], next);
    }
  }

  lemma ParseRowsNonEmpty(csv: string)
    ensures forall k :: 0 <= k < |Parse(csv)| ==> |Parse(csv)[k]| > 0
  {
    ScanRowsNonEmpty(csv, Start);
  }

  /** Empty input yields no rows; a lone line break yields one row with one empty field. */
  lemma ParseEdgeCases()
    ensures Parse("") == []
    ensures Parse("\n") == [[""]]
    ensures Parse("\r\n") == [[""]]
  {
    assert "\r\n"[2..] == [];
    LineBreakScan("\n", [], Start);
    assert "\n" + [] == "\n";
    assert Start.current + [Start.field] == [""];
    assert Start.rows + [[""]] == [[""]];
  }

  /** No two adjacent double quotes anywhere in the input. */
  predicate NoDoubledQuote(s: string) {
    forall i :: 0 <= i < |s| - 1 ==> !(s[i] == '"' && s[i + 1] == '"')
  }

  predicate QuoteFreeFields(fields: seq<string>) {
    forall c :: 0 <= c < |fields| ==> '"' !in fields[c]
  }

  predicate QuoteFreeRows(rows: seq<seq<string>>) {
    forall r :: 0 <= r < |rows| ==> QuoteFreeFields(rows[r])
  }

  predicate QuoteFreeState(st: CsvState) {
    QuoteFreeRows(st.rows) && QuoteFreeFields(st.current) && '"' !in st.field
  }

  /** One step of the reader adds a quote to the field only on a doubled quote. */
  lemma StepQuoteFree(s: string, st: CsvState)
    requires s != [] && NoDoubledQuote(s) && QuoteFreeState(st)
    ensures QuoteFreeState(Step(s, st).1)
    ensures NoDoubledQuote(s[Step(s, st).0..])
  {
    var k := Step(s, st).0;
    if |s| > 1 {
      assert !(s[0] == '"' && s[1] == '"');
    }
    forall i | 0 <= i < |s[k..]| - 1
      ensures !(s[k..][i] == '"' && s[k..][i + 1] == '"')
    {
      assert s[k..][i] == s[k + i] && s[k..][i + 1] == s[k + i + 1];
    }
  }

  lemma {:induction false} ScanQuoteFree(s: string, st: CsvState)
    requires NoDoubledQuote(s) && QuoteFreeState(st)
    ensures QuoteFreeRows(Scan(s, st))
    decreases |s|
  {
    if s != [] {
      var (k, next) := Step(s, st);
      StepQuoteFree(s, st);
      ScanQuoteFree(s[k..], next);
    }
  }

  /**
   * Quote characters open and close quoted fields; one reaches a field only
   * through a doubled quote, so input without `""` yields no quote at all.
   */
  lemma ParseQuoteFree(csv: string)
    requires NoDoubledQuote(csv)
    ensures forall r, c :: 0 <= r < |Parse(csv)| && 0 <= c < |Parse(csv)[r]| ==> '"' !in Parse(csv)[r][c]
  {
    ScanQuoteFree(csv, Start);
  }

  /* ── the writer ── */

  /** The escaper quotes a field containing a comma, a double quote or a line feed. */
  predicate NeedsQuoting(s: string) {
    ',' in s || '"' in s || '\n' in s
  }

  /** `s.replace(/"/g, '""')`. */
  function DoubleQuotes(s: string): string {
    ReplaceChar(s, '"', "\"\"")
  }

  /** The escaper on a text: quoted with embedded quotes doubled, or unchanged. */
  function EscapeText(s: string): (r: string)
    ensures NeedsQuoting(s) ==> |r| >= 2 && r[0] == '"' && r[|r| - 1] == '"'
    ensures !NeedsQuoting(s) ==> r == s
  {
    if NeedsQuoting(s) then "\"" + DoubleQuotes(s) + "\"" else s
  }

  /** The escaper `esc` on a cell: `null` becomes the empty text, anything else its `String` form. */
  function EscapeCell(v: JsValue, rt: Runtime): string {
    if v == Null then "" else EscapeText(ToText(v, rt))
  }

  function EscapeAll(fields: seq<string>): (r: seq<string>)
    ensures |r| == |fields|
  {
    if fields == [] then [] else [EscapeText(fields[0])] + EscapeAll(fields[1..])
  }

  function EscapeRow(row: seq<JsValue>, rt: Runtime): (r: seq<string>)
    ensures |r| == |row|
  {
    if row == [] then [] else [EscapeCell(row[0], rt)] + EscapeRow(row[1..], rt)
  }

  function RowLines(rows: seq<seq<JsValue>>, rt: Runtime): (r: seq<string>)
    ensures |r| == |rows|
  {
    if rows == [] then [] else [Join(EscapeRow(rows[0], rt), ",")] + RowLines(rows[1..], rt)
  }

  /** The text `exportCSV` returns for a non-empty result: header line, then one line per row. */
  function ExportText(columns: seq<string>, values: seq<seq<JsValue>>, rt: Runtime): string {
    Join([Join(EscapeAll(columns), ",")] + RowLines(values, rt), "\n")
  }

  /** What the reader gives back for a cell: the empty text for null, else its `String` form. */
  function CellText(v: JsValue, rt: Runtime): string {
    if v == Null then "" else ToText(v, rt)
  }

  function CellTexts(row: seq<JsValue>, rt: Runtime): (r: seq<string>)
    ensures |r| == |row|
  {
    if row == [] then [] else [CellText(row[0], rt)] + CellTexts(row[1..], rt)
  }

  function TextRows(values: seq<seq<JsValue>>, rt: Runtime): (r: seq<seq<string>>)
    ensures |r| == |values|
  {
    if values == [] then [] else [CellTexts(values[0], rt)] + TextRows(values[1..], rt)
  }

  /** A line of escaped fields. */
  function Line(fields: seq<string>): string {
    Join(EscapeAll(fields), ",")
  }

  /** Lines joined with a line break. */
  function Lines(table: seq<seq<string>>, sep: string): string
    decreases |table|
  {
    if |table| == 0 then ""
    else if |table| == 1 then Line(table[0])
    else Line(table[0]) + sep + Lines(table[1..], sep)
  }

  /** The line breaks the reader accepts. */
  predicate LineBreak(sep: string) {
    sep == "\n" || sep == "\r\n" || sep == "\r"
  }

  /**
   * A field the reader gives back unchanged: the escaper quotes it, or it
   * holds no carriage return (which the escaper leaves unquoted and the
   * reader takes for a line break).
   */
  predicate Survives(f: string) {
    NeedsQuoting(f) || '\r' !in f
  }

  /** A table the writer and reader agree on. */
  predicate WellShaped(table: seq<seq<string>>) {
    && |table| > 0
    && (forall r :: 0 <= r < |table| ==> |table[r]| > 0)
    && (forall r, c :: 0 <= r < |table| && 0 <= c < |table[r]| ==> Survives(table[r][c]))
    && table[|table| - 1] != [""]
  }

  /** The rest of the input after a field: empty, or a separator or line break follows. */
  predicate FieldEnd(rest: string) {
    rest == [] || rest[0] == ',' || rest[0] == '\n' || rest[0] == '\r'
  }

  /** Inside quotes, the doubled body of `y` and the closing quote yield exactly `y`. */
  lemma {:induction false} QuotedBodyScan(y: string, rest: string, st: CsvState)
    requires st.inQuotes
    requires rest == [] || rest[0] != '"'
    ensures Scan(DoubleQuotes(y) + "\"" + rest, st) == Scan(rest, st.(field := st.field + y, inQuotes := false))
    decreases |y|
  {
    if y == [] {
      assert DoubleQuotes(y) + "\"" + rest == "\"" + rest;
      ClosingQuoteScan(rest, st);
      assert st.field + y == st.field;
    } else {
      var tail := DoubleQuotes(y[1..]) + "\"" + rest;
      var c := y[0];
      var st1 := st.(field := st.field + [c]);
      assert Scan(DoubleQuotes(y) + "\"" + rest, st) == Scan(tail, st1) by {
        if c == '"' {
          assert DoubleQuotes(y) + "\"" + rest == "\"\"" + tail;
          DoubledQuoteScan(tail, st);
        } else {
          assert DoubleQuotes(y) + "\"" + rest == [c] + tail;
          QuotedCharScan(c, tail, st);
        }
      }
      QuotedBodyScan(y[1..], rest, st1);
      assert st.field + [c] + y[1..] == st.field + y;
    }
  }

  /** Inside quotes, a quote not followed by another closes the quoted part. */
  lemma ClosingQuoteScan(rest: string, st: CsvState)
    requires st.inQuotes && (rest == [] || rest[0] != '"')
    ensures Scan("\"" + rest, st) == Scan(rest, st.(inQuotes := false))
  {
    assert ("\"" + rest)[1..] == rest;
  }

  /** Inside quotes, `""` reads as one quote. */
  lemma DoubledQuoteScan(tail: string, st: CsvState)
    requires st.inQuotes
    ensures Scan("\"\"" + tail, st) == Scan(tail, st.(field := st.field + ['"']))
  {
    assert ("\"\"" + tail)[2..] == tail;
  }

  /** Inside quotes, any other character is taken literally. */
  lemma QuotedCharScan(c: char, tail: string, st: CsvState)
    requires st.inQuotes && c != '"'
    ensures Scan([c] + tail, st) == Scan(tail, st.(field := st.field + [c]))
  {
    assert ([c] + tail)[1..] == tail;
  }

  /** Outside quotes, a text free of the special characters is read into the field. */
  lemma {:induction false} PlainScan(x: string, rest: string, st: CsvState)
    requires !st.inQuotes
    requires !NeedsQuoting(x) && '\r' !in x
    ensures Scan(x + rest, st) == Scan(rest, st.(field := st.field + x))
    decreases |x|
  {
    if x == [] {
      assert x + rest == rest;
      assert st.field + x == st.field;
    } else {
      assert (x + rest)[0] == x[0];
      assert (x + rest)[1..] == x[1..] + rest;
      assert !NeedsQuoting(x[1..]) && '\r' !in x[1..] by {
        assert forall c :: c in x[1..] ==> c in x;
      }
      PlainScan(x[1..], rest, st.(field := st.field + [x[0]]));
      assert st.field + [x[0]] + x[1..] == st.field + x;
    }
  }

  /** An escaped field, followed by a separator, a line break or the end, is read back as itself. */
  lemma FieldScan(x: string, rest: string, st: CsvState)
    requires !st.inQuotes && Survives(x) && FieldEnd(rest)
    ensures Scan(EscapeText(x) + rest, st) == Scan(rest, st.(field := st.field + x))
  {
    if NeedsQuoting(x) {
      var body := DoubleQuotes(x) + "\"" + rest;
      QuotedFieldText(x, rest);
      OpeningQuoteScan(body, st);
      QuotedBodyScan(x, rest, st.(inQuotes := true));
    } else {
      PlainScan(x, rest, st);
    }
  }

  lemma QuotedFieldText(x: string, rest: string)
    requires NeedsQuoting(x)
    ensures EscapeText(x) + rest == "\"" + (DoubleQuotes(x) + "\"" + rest)
  {
  }

  /** Outside quotes, a quote opens the quoted part. */
  lemma OpeningQuoteScan(body: string, st: CsvState)
    requires !st.inQuotes
    ensures Scan("\"" + body, st) == Scan(body, st.(inQuotes := true))
  {
    assert ("\"" + body)[1..] == body;
  }

  /** A line of escaped fields is read into the current row, its last field left pending. */
  lemma {:induction false} LineScan(fields: seq<string>, rest: string, st: CsvState)
    requires |fields| > 0 && (forall k :: 0 <= k < |fields| ==> Survives(fields[k]))
    requires !st.inQuotes && st.field == "" && FieldEnd(rest)
    ensures Scan(Line(fields) + rest, st)
         == Scan(rest, st.(current := st.current + fields[..|fields| - 1], field := fields[|fields| - 1]))
    decreases |fields|
  {
    var n := |fields|;
    var final := st.(current := st.current + fields[..n - 1], field := fields[n - 1]);
    if n == 1 {
      assert Line(fields) == EscapeText(fields[0]) by {
        assert EscapeAll(fields) == [EscapeText(fields[0])];
      }
      assert st.field + fields[0] == fields[0];
      assert final == st.(field := fields[0]) by {
        assert st.current + fields[..0] == st.current;
      }
      FieldScan(fields[0], rest, st);
    } else {
      var tail := Line(fields[1..]) + rest;
      var st1 := st.(field := fields[0]);
      var st2 := st.(current := st.current + [fields[0]], field := "");
      assert Scan(Line(fields) + rest, st) == Scan(tail, st2) by {
        LineCons(fields, rest);
        assert st.field + fields[0] == fields[0];
        FieldScan(fields[0], "," + tail, st);
        CommaScan(tail, st1);
      }
      assert Scan(tail, st2) == Scan(rest, final) by {
        LineScan(fields[1..], rest, st2);
        PushPrefix(st.current, fields);
      }
    }
  }

  /** A line of several fields is the first escaped field, a comma and the rest of the line. */
  lemma LineCons(fields: seq<string>, rest: string)
    requires |fields| > 1
    ensures Line(fields) + rest == EscapeText(fields[0]) + ("," + (Line(fields[1..]) + rest))
  {
    var esc := EscapeAll(fields);
    assert esc[1..] == EscapeAll(fields[1..]);
    assert Line(fields) == esc[0] + "," + Line(fields[1..]);
  }

  lemma PushPrefix(current: seq<string>, fields: seq<string>)
    requires |fields| > 1
    ensures current + [fields[0]] + fields[1..][..|fields| - 2] == current + fields[..|fields| - 1]
  {
    assert [fields[0]] + fields[1..][..|fields| - 2] == fields[..|fields| - 1];
  }

  /** Outside quotes, a comma closes the field. */
  lemma CommaScan(tail: string, st: CsvState)
    requires !st.inQuotes
    ensures Scan("," + tail, st) == Scan(tail, st.(current := st.current + [st.field], field := ""))
  {
    assert ("," + tail)[1..] == tail;
  }

  /** At the end of the input the pending field and row are emitted. */
  lemma EndScan(st: CsvState)
    ensures Scan([], st) == Finish(st)
  {
  }

  /** A line break after a pending field closes the row. */
  lemma LineBreakScan(sep: string, rest: string, st: CsvState)
    requires LineBreak(sep) && !st.inQuotes
    requires sep == "\r" ==> rest == [] || rest[0] != '\n'
    ensures Scan(sep + rest, st) == Scan(rest, CsvState(st.rows + [st.current + [st.field]], [], "", false))
  {
    var s := sep + rest;
    if sep == "\r\n" {
      assert s[0] == '\r' && s[1] == '\n' && s[2..] == rest;
    } else {
      assert s[1..] == rest;
    }
  }

  /** Reading escaped lines from a fresh row appends exactly those lines as rows. */
  lemma {:induction false} LinesScan(table: seq<seq<string>>, sep: string, rows: seq<seq<string>>)
    requires WellShaped(table) && LineBreak(sep)
    ensures Scan(Lines(table, sep), CsvState(rows, [], "", false)) == rows + table
    decreases |table|
  {
    if |table| == 1 {
      LastLineScan(table, sep, rows);
    } else {
      LineThenBreakScan(table, sep, rows);
      LinesScan(table[1..], sep, rows + [table[0]]);
      assert rows + [table[0]] + table[1..] == rows + table;
    }
  }

  /** The last line is emitted as the last row, since it is not a single empty field. */
  lemma LastLineScan(table: seq<seq<string>>, sep: string, rows: seq<seq<string>>)
    requires WellShaped(table) && LineBreak(sep) && |table| == 1
    ensures Scan(Lines(table, sep), CsvState(rows, [], "", false)) == rows + table
  {
    var st := CsvState(rows, [], "", false);
    var row := table[0];
    var n := |row|;
    var st1 := st.(current := row[..n - 1], field := row[n - 1]);
    assert [] + row[..n - 1] == row[..n - 1];
    assert row[..n - 1] + [row[n - 1]] == row;
    assert Scan(Lines(table, sep), st) == Scan([], st1) by {
      assert Lines(table, sep) == Line(row) + [];
      LineScan(row, [], st);
    }
    EndScan(st1);
    assert row[n - 1] != "" || n > 1;
  }

  /** A line followed by a line break is emitted as one row. */
  lemma LineThenBreakScan(table: seq<seq<string>>, sep: string, rows: seq<seq<string>>)
    requires WellShaped(table) && LineBreak(sep) && |table| > 1
    ensures WellShaped(table[1..])
    ensures Scan(Lines(table, sep), CsvState(rows, [], "", false))
         == Scan(Lines(table[1..], sep), CsvState(rows + [table[0]], [], "", false))
  {
    WellShapedTail(table);
    var tail := Lines(table[1..], sep);
    if sep == "\r" && tail != [] {
      LinesStart(table[1..]);
    }
    WellShapedRow(table, 0);
    LinesCons(table, sep);
    RowThenBreakScan(table[0], sep, tail, rows);
  }

  lemma WellShapedRow(table: seq<seq<string>>, r: nat)
    requires WellShaped(table) && r < |table|
    ensures |table[r]| > 0 && forall k :: 0 <= k < |table[r]| ==> Survives(table[r][k])
  {
  }

  lemma LinesCons(table: seq<seq<string>>, sep: string)
    requires |table| > 1
    ensures Lines(table, sep) == Line(table[0]) + (sep + Lines(table[1..], sep))
  {
  }

  /** One row's line, then a line break, closes exactly that row. */
  lemma RowThenBreakScan(row: seq<string>, sep: string, tail: string, rows: seq<seq<string>>)
    requires |row| > 0 && (forall k :: 0 <= k < |row| ==> Survives(row[k]))
    requires LineBreak(sep) && (sep == "\r" ==> tail == [] || tail[0] != '\n')
    ensures Scan(Line(row) + (sep + tail), CsvState(rows, [], "", false))
         == Scan(tail, CsvState(rows + [row], [], "", false))
  {
    var st := CsvState(rows, [], "", false);
    var n := |row|;
    var st1 := st.(current := row[..n - 1], field := row[n - 1]);
    assert (sep + tail)[0] == sep[0];
    assert [] + row[..n - 1] == row[..n - 1];
    LineScan(row, sep + tail, st);
    LineBreakScan(sep, tail, st1);
    assert st1.current + [st1.field] == row;
  }

  lemma WellShapedTail(table: seq<seq<string>>)
    requires WellShaped(table) && |table| > 1
    ensures WellShaped(table[1..])
  {
  }

  /** Lines separated by carriage returns never start with a line feed. */
  lemma LinesStart(table: seq<seq<string>>)
    requires WellShaped(table)
    requires Lines(table, "\r") != []
    ensures Lines(table, "\r")[0] != '\n'
  {
    var f := table[0][0];
    var esc := EscapeAll(table[0]);
    var text := Lines(table, "\r");
    assert Line(table[0]) == esc[0] + (if |esc| == 1 then "" else "," + Join(esc[1..], ","));
    if NeedsQuoting(f) {
      assert text[0] == '"';
    } else if f != [] {
      assert text[0] == f[0];
      assert f[0] in f;
    } else if |esc| > 1 {
      assert text[0] == ',';
    } else {
      assert |table| > 1;
      assert text[0] == '\r';
    }
  }

  /** The reader gives back every well-shaped table the writer's lines encode. */
  lemma CsvRoundTrip(table: seq<seq<string>>, sep: string)
    requires WellShaped(table) && LineBreak(sep)
    ensures Parse(Lines(table, sep)) == table
  {
    LinesScan(table, sep, []);
    assert [] + table == table;
  }

  function LineTexts(table: seq<seq<string>>): (r: seq<string>)
    ensures |r| == |table|
  {
    if table == [] then [] else [Line(table[0])] + LineTexts(table[1..])
  }

  lemma {:induction false} JoinLineTexts(table: seq<seq<string>>, sep: string)
    ensures Join(LineTexts(table), sep) == Lines(table, sep)
    decreases |table|
  {
    if |table| > 1 {
      assert LineTexts(table)[1..] == LineTexts(table[1..]);
      JoinLineTexts(table[1..], sep);
    }
  }

  /** The escaper on a cell is the escaper on the text the reader gives back for it. */
  lemma {:induction false} EscapeRowIsEscapeAll(row: seq<JsValue>, rt: Runtime)
    ensures EscapeRow(row, rt) == EscapeAll(CellTexts(row, rt))
    decreases |row|
  {
    if row != [] {
      assert !NeedsQuoting("");
      assert CellTexts(row, rt)[1..] == CellTexts(row[1..], rt);
      EscapeRowIsEscapeAll(row[1..], rt);
    }
  }

  lemma {:induction false} RowLinesAreLines(values: seq<seq<JsValue>>, rt: Runtime)
    ensures RowLines(values, rt) == LineTexts(TextRows(values, rt))
    decreases |values|
  {
    if values != [] {
      assert TextRows(values, rt)[1..] == TextRows(values[1..], rt);
      EscapeRowIsEscapeAll(values[0], rt);
      RowLinesAreLines(values[1..], rt);
    }
  }

  /** `exportCSV`'s text is the header and the cell texts written as escaped lines. */
  lemma ExportTextIsLines(columns: seq<string>, values: seq<seq<JsValue>>, rt: Runtime)
    ensures ExportText(columns, values, rt) == Lines([columns] + TextRows(values, rt), "\n")
  {
    var table := [columns] + TextRows(values, rt);
    RowLinesAreLines(values, rt);
    assert table[1..] == TextRows(values, rt);
    assert [Line(columns)] + RowLines(values, rt) == LineTexts(table);
    JoinLineTexts(table, "\n");
  }

  /**
   * Reading back an export gives the header and, per row, the `String`
   * form of every cell (the empty text for null), provided the resulting
   * table is well shaped: no unquoted carriage return, and a last row that
   * is not a single empty cell.
   */
  lemma ExportRoundTrip(columns: seq<string>, values: seq<seq<JsValue>>, rt: Runtime)
    requires WellShaped([columns] + TextRows(values, rt))
    ensures Parse(ExportText(columns, values, rt)) == [columns] + TextRows(values, rt)
  {
    ExportTextIsLines(columns, values, rt);
    CsvRoundTrip([columns] + TextRows(values, rt), "\n");
  }

  /**
   * A cell holding a carriage return but no comma, quote or line feed is
   * written unquoted, and the reader splits it into two rows.
   */
  lemma CarriageReturnSplitsRow(rt: Runtime)
    ensures Parse(ExportText(["a"], [[Str("x\ry")]], rt)) == [["a"], ["x"], ["y"]]
  {
    CarriageReturnExport(rt);
    CarriageReturnParse();
  }

  lemma CarriageReturnExport(rt: Runtime)
    ensures ExportText(["a"], [[Str("x\ry")]], rt) == "a\nx\ry"
  {
    assert !NeedsQuoting("a") && !NeedsQuoting("x\ry");
    assert EscapeAll(["a"]) == ["a"];
    assert EscapeRow([Str("x\ry")], rt) == ["x\ry"];
    assert RowLines([[Str("x\ry")]], rt) == ["x\ry"];
    assert Join(["a", "x\ry"], "\n") == "a" + "\n" + "x\ry";
  }

  lemma CarriageReturnParse()
    ensures Parse("a\nx\ry") == [["a"], ["x"], ["y"]]
  {
    var none: seq<string> := [];
    var norows: seq<seq<string>> := [];
    var s1 := CsvState([], [], "a", false);
    var s2 := CsvState([["a"]], [], "", false);
    calc {
      Scan("a\nx\ry", Start);
      { assert "a\nx\ry" == "a" + "\nx\ry";
        PlainScan("a", "\nx\ry", Start);
        assert Start.field + "a" == "a"; }
      Scan("\nx\ry", s1);
      { assert "\nx\ry" == "\n" + "x\ry";
        LineBreakScan("\n", "x\ry", s1);
        assert none + ["a"] == ["a"];
        assert norows + [["a"]] == [["a"]]; }
      Scan("x\ry", s2);
      { CarriageReturnSecondLine(); }
      [["a"], ["x"], ["y"]];
    }
  }

  /** The second line `x\ry` of `CarriageReturnParse`, read after the row `a`. */
  lemma CarriageReturnSecondLine()
    ensures Scan("x\ry", CsvState([["a"]], [], "", false)) == [["a"], ["x"], ["y"]]
  {
    var none: seq<string> := [];
    var s2 := CsvState([["a"]], [], "", false);
    var s3 := CsvState([["a"], ["x"]], [], "", false);
    calc {
      Scan("x\ry", s2);
      { assert "x\ry" == "x" + "\ry";
        PlainScan("x", "\ry", s2);
        assert s2.field + "x" == "x"; }
      Scan("\ry", s2.(field := "x"));
      { assert "\ry" == "\r" + "y";
        LineBreakScan("\r", "y", s2.(field := "x"));
        assert none + ["x"] == ["x"]; }
      Scan("y", s3);
      { assert "y" == "y" + [];
        PlainScan("y", [], s3);
        assert s3.field + "y" == "y"; }
      Scan([], s3.(field := "y"));
      { EndScan(s3.(field := "y"));
        assert none + ["y"] == ["y"]; }
      [["a"], ["x"], ["y"]];
    }
  }
}
