/**
 * The database adapter, class `Database` of src/database.ts: an open sql.js
 * database over the bytes of one file, a `dirty` flag, and the operations
 * the editor calls. Every operation that writes marks the database dirty
 * and flushes it, so the file holds the image again when it returns.
 */
module DatabaseAdapter {
  import opened Types
  import opened Text
  import opened JsRuntime
  import opened Coercion
  import opened Csv
  import opened SqlEngine
  import opened SchemaSql

  /** The message of the Error `conn` throws once the database is closed. */
  const NotOpen := "Database not open"

  /** The characters `\b` counts as word characters. */
  predicate IsWordChar(c: char) {
    'a' <= c <= 'z' || 'A' <= c <= 'Z' || '0' <= c <= '9' || c == '_'
  }

  /** `t` starts with the keyword `kw` in any ASCII case, followed by a word boundary. */
  predicate StartsWithWord(t: string, kw: string) {
    StartsWith(ToUpperAscii(t), kw) && (|t| == |kw| || !IsWordChar(t[|kw|]))
  }

  /** The read test of `executeQuery`: `/^\s*(SELECT|PRAGMA|EXPLAIN|WITH)\b/i`. */
  predicate IsReadStatement(s: string) {
    var t := TrimStart(s);
    StartsWithWord(t, "SELECT") || StartsWithWord(t, "PRAGMA")
    || StartsWithWord(t, "EXPLAIN") || StartsWithWord(t, "WITH")
  }

  /**
   * Only the four keywords' initials can start a read statement: a
   * statement whose first non-blank letter is not S, P, E or W, in either
   * case, is run as a write.
   */
  lemma ReadStatementInitial(s: string)
    requires IsReadStatement(s)
    ensures TrimStart(s) != []
    ensures UpperChar(TrimStart(s)[0]) in {'S', 'P', 'E', 'W'}
  {
    var t := TrimStart(s);
    var u := ToUpperAscii(t);
    assert "SELECT"[0] == 'S' && "PRAGMA"[0] == 'P' && "EXPLAIN"[0] == 'E' && "WITH"[0] == 'W';
    assert u[0] == UpperChar(t[0]);
  }

  /** A keyword that runs on into a word character is no keyword: `SELECTED` or `WITHOUT` is a write. */
  lemma WordBoundaryRequired(t: string, kw: string)
    requires StartsWith(ToUpperAscii(t), kw) && |t| > |kw| && IsWordChar(t[|kw|])
    ensures !StartsWithWord(t, kw)
  {
  }

  /** The upper-case letter of a character is a word character exactly when the character is. */
  lemma UpperCharWord(c: char)
    ensures IsWordChar(UpperChar(c)) == IsWordChar(c)
    ensures IsJsSpace(UpperChar(c)) == IsJsSpace(c)
    ensures UpperChar(UpperChar(c)) == UpperChar(c)
  {
  }

  lemma {:induction false} TrimStartUpper(s: string)
    ensures TrimStart(ToUpperAscii(s)) == ToUpperAscii(TrimStart(s))
    decreases |s|
  {
    if s != [] {
      UpperCharWord(s[0]);
      assert ToUpperAscii(s)[1..] == ToUpperAscii(s[1..]);
      TrimStartUpper(s[1..]);
    }
  }

  /** The read test ignores the case of the statement, as the `i` flag says. */
  lemma ReadStatementIgnoresCase(s: string)
    ensures IsReadStatement(ToUpperAscii(s)) == IsReadStatement(s)
  {
    TrimStartUpper(s);
    var t := TrimStart(s);
    var u := ToUpperAscii(t);
    assert ToUpperAscii(u) == u by {
      forall i | 0 <= i < |u|
        ensures ToUpperAscii(u)[i] == u[i]
      {
        UpperCharWord(t[i]);
      }
    }
    forall k | 0 <= k < |t|
      ensures IsWordChar(u[k]) == IsWordChar(t[k])
    {
      UpperCharWord(t[k]);
    }
  }

  /** The result of the read path: the first result set, or none. */
  function ReadResult(rs: seq<ExecResult>): (r: QueryResult)
    ensures r.rowsAffected == 0
    ensures rs == [] ==> r.columns == [] && r.values == []
    ensures rs != [] ==> r.columns == rs[0].columns && r.values == rs[0].values
  {
    if rs == [] then QueryResult([], [], 0) else QueryResult(rs[0].columns, rs[0].values, 0)
  }

  /** What a call that may throw returns. */
  function ResultOf(o: Outcome<nat>): (r: Result<nat>)
    ensures r.Ok? <==> o.Done?
  {
    if o.Done? then Ok(o.value) else Err(o.message)
  }

  /** The page of the browse grid with the table's row count. */
  datatype TableData = TableData(result: QueryResult, totalRows: nat)

  /** The import of parsed CSV lines: the first line names the columns, the others are rows. */
  function CsvImport(e: Engine, img: Image, rt: Runtime, table: string, lines: seq<seq<string>>): (r: Outcome<nat>)
    requires |lines| >= 1
    ensures r.Done? ==> r.value == |lines| - 1
  {
    Transaction(e, img, InsertSql(table, lines[0]),
      CsvBatch(lines[1..], lines[0], e.tableInfo(img, table), rt))
  }

  /** The import of parsed JSON objects: the first object's keys name the columns. */
  function JsonImport(e: Engine, img: Image, rt: Runtime, table: string, rows: seq<JsonObject>): (r: Outcome<nat>)
    requires |rows| >= 1
    ensures r.Done? ==> r.value == |rows|
  {
    var headers := Keys(rows[0]);
    Transaction(e, img, InsertSql(table, headers), JsonBatch(rows, headers, e.tableInfo(img, table), rt))
  }

  class Database {
    const filePath: string
    const engine: Engine
    const rt: Runtime
    /** The bytes of the file at `filePath`. */
    var disk: Image
    /** The open sql.js database as its image; `None` before `open` and after `close`. */
    var db: Option<Image>
    /** Set by a write, cleared by `flush`. */
    var dirty: bool

    constructor(filePath: string, disk: Image, engine: Engine, rt: Runtime)
      ensures this.filePath == filePath && this.disk == disk && this.engine == engine && this.rt == rt
      ensures db == None && !dirty
    {
      this.filePath := filePath;
      this.disk := disk;
      this.engine := engine;
      this.rt := rt;
      db := None;
      dirty := false;
    }

    /** `open`: loads the file into a new in-memory database. */
    method Open()
      modifies this
      ensures db == Some(disk) && disk == old(disk) && dirty == old(dirty)
    {
      db := Some(disk);
    }

    /** `close`: flushes only when dirty, then drops the handle. */
    method Close()
      modifies this
      ensures db == None && Conn() == Err(NotOpen)
      ensures old(dirty) && old(db).Some? ==> disk == old(db).value && !dirty
      ensures !(old(dirty) && old(db).Some?) ==> disk == old(disk) && dirty == old(dirty)
    {
      if dirty {
        Flush();
      }
      db := None;
    }

    /** `flush`: writes the exported image to the file and clears `dirty`; nothing when closed. */
    method Flush()
      modifies this
      ensures db == old(db)
      ensures old(db).Some? ==> disk == old(db).value && !dirty
      ensures old(db).None? ==> disk == old(disk) && dirty == old(dirty)
    {
      if db.None? {
        return;
      }
      disk := db.value;
      dirty := false;
    }

    /** `conn`: the open database, or the Error "Database not open". */
    function Conn(): (r: Result<Image>)
      reads this
      ensures r.Ok? <==> db.Some?
      ensures db.Some? ==> r.value == db.value
      ensures db.None? ==> r.message == NotOpen
    {
      if db.Some? then Ok(db.value) else Err(NotOpen)
    }

    /**
     * The state a write leaves: the engine's image in memory, and on success
     * that image in the file with `dirty` cleared; on failure the file and
     * the flag as they were.
     */
    twostate predicate Wrote(new o: Outcome<nat>)
      reads this
    {
      db == Some(o.image)
      && (o.Done? ==> disk == o.image && !dirty)
      && (o.Failed? ==> disk == old(disk) && dirty == old(dirty))
    }

    /** `conn.run(sql, params)`, then `dirty = true` and `flush()`, as every writer does. */
    method RunWrite(img: Image, sql: string, params: seq<JsValue>) returns (r: Result<nat>)
      requires db == Some(img)
      modifies this
      ensures r == ResultOf(engine.run(img, sql, params))
      ensures Wrote(engine.run(img, sql, params))
    {
      var o := engine.run(img, sql, params);
      db := Some(o.image);
      if o.Failed? {
        return Err(o.message);
      }
      dirty := true;
      Flush();
      return Ok(o.value);
    }

    /**
     * `executeQuery`: a statement the read test accepts goes through `exec`
     * and returns its first result set without touching the flag or the
     * file; any other statement goes through `run`, returns only the count
     * of changed rows, and is flushed.
     */
    method ExecuteQuery(sql: string) returns (r: Result<QueryResult>)
      modifies this
      ensures old(db).None? ==> r == Err(NotOpen) && unchanged(this)
      ensures old(db).Some? && IsReadStatement(Trim(sql)) ==>
        var o := engine.exec(old(db).value, Trim(sql));
        db == Some(o.image) && disk == old(disk) && dirty == old(dirty)
        && r == (if o.Done? then Ok(ReadResult(o.value)) else Err(o.message))
      ensures old(db).Some? && !IsReadStatement(Trim(sql)) ==>
        var o := engine.run(old(db).value, Trim(sql), []);
        Wrote(o) && r == (if o.Done? then Ok(QueryResult([], [], o.value)) else Err(o.message))
    {
      var trimmed := Trim(sql);
      if db.None? {
        return Err(NotOpen);
      }
      var img := db.value;
      if IsReadStatement(trimmed) {
        var o := engine.exec(img, trimmed);
        db := Some(o.image);
        if o.Failed? {
          return Err(o.message);
        }
        return Ok(ReadResult(o.value));
      }
      var changes := RunWrite(img, trimmed, []);
      if changes.Err? {
        return Err(changes.message);
      }
      return Ok(QueryResult([], [], changes.value));
    }

    /** `getTables`. */
    function GetTables(): (r: Result<seq<TableInfo>>)
      reads this
      ensures r.Ok? <==> db.Some?
      ensures r.Ok? ==> |r.value| == |engine.tableList(db.value)|
      ensures r.Ok? ==> forall i :: 0 <= i < |r.value| ==>
        && r.value[i].name == engine.tableList(db.value)[i].0
        && r.value[i].kind == engine.tableList(db.value)[i].1
        && r.value[i].rowCount == RowCount(engine.count(db.value, CountSql(r.value[i].name)))
    {
      if db.None? then Err(NotOpen) else Ok(Tables(engine, db.value))
    }

    /** `getSchema`: the table's columns and its indexes with their key columns. */
    function GetSchema(table: string): (r: Result<(seq<ColumnInfo>, seq<IndexInfo>)>)
      reads this
      ensures r.Ok? <==> db.Some?
      ensures r.Ok? ==> r.value.0 == engine.tableInfo(db.value, table)
      ensures r.Ok? ==> |r.value.1| == |engine.indexList(db.value, table)|
      ensures r.Ok? ==> forall i :: 0 <= i < |r.value.1| ==>
        && r.value.1[i].name == engine.indexList(db.value, table)[i].0
        && r.value.1[i].unique == engine.indexList(db.value, table)[i].1
        && r.value.1[i].columns == engine.indexInfo(db.value, r.value.1[i].name)
    {
      if db.None? then Err(NotOpen)
      else Ok((engine.tableInfo(db.value, table), Indexes(engine, db.value, table)))
    }

    /**
     * `getTableData`: the row count (0 when the count comes back empty) and
     * the page that starts at row `page * pageSize`, in the requested order.
     */
    function GetTableData(table: string, page: int, pageSize: int, orderBy: Option<string>, orderDir: SortDir): (r: Result<TableData>)
      reads this
      ensures db.None? ==> r == Err(NotOpen)
      ensures db.Some? && engine.count(db.value, CountSql(table)).Err? ==>
        r == Err(engine.count(db.value, CountSql(table)).message)
      ensures db.Some? && engine.count(db.value, CountSql(table)).Ok? ==>
        var page := engine.query(db.value, TableDataSql(table, orderBy, orderDir, pageSize, page * pageSize));
        (r.Ok? <==> page.Ok?) && (page.Err? ==> r == Err(page.message))
      ensures r.Ok? ==>
        var count := engine.count(db.value, CountSql(table));
        var page := engine.query(db.value, TableDataSql(table, orderBy, orderDir, pageSize, page * pageSize));
        count.Ok? && r.value.totalRows == (if count.value.Some? then count.value.value else 0)
        && page.Ok? && r.value.result == ReadResult(page.value)
    {
      if db.None? then Err(NotOpen)
      else
        var img := db.value;
        match engine.count(img, CountSql(table))
        case Err(m) => Err(m)
        case Ok(count) =>
          var totalRows := if count.Some? then count.value else 0;
          var offset := page * pageSize;
          match engine.query(img, TableDataSql(table, orderBy, orderDir, pageSize, offset))
          case Err(m) => Err(m)
          case Ok(rs) => Ok(TableData(ReadResult(rs), totalRows))
    }

    /** `updateRow`: binds the value coerced for the column's declared type, then the rowid. */
    method UpdateRow(table: string, rowid: int, column: string, value: JsValue) returns (r: Result<()>)
      modifies this
      ensures old(db).None? ==> r == Err(NotOpen) && unchanged(this)
      ensures old(db).Some? ==>
        var img := old(db).value;
        var colType := ColumnTypeIn(engine.tableInfo(img, table), column);
        var o := engine.run(img, UpdateSql(table, column), [CastValue(value, colType, rt), Num(rowid as real)]);
        Wrote(o) && (r.Ok? <==> o.Done?) && (o.Failed? ==> r == Err(o.message))
    {
      if db.None? {
        return Err(NotOpen);
      }
      var img := db.value;
      var parsed := CastValue(value, ColumnTypeIn(engine.tableInfo(img, table), column), rt);
      var changes := RunWrite(img, UpdateSql(table, column), [parsed, Num(rowid as real)]);
      if changes.Err? {
        return Err(changes.message);
      }
      return Ok(());
    }

    /**
     * `insertRow`: one INSERT naming the object's keys, each value coerced
     * for the type of the column of that name (TEXT when there is none).
     */
    method InsertRow(table: string, values: JsonObject) returns (r: Result<()>)
      modifies this
      ensures old(db).None? ==> r == Err(NotOpen) && unchanged(this)
      ensures old(db).Some? ==>
        var img := old(db).value;
        var cols := Keys(values);
        var o := engine.run(img, InsertSql(table, cols), JsonRowValues(values, cols, engine.tableInfo(img, table), rt));
        Wrote(o) && (r.Ok? <==> o.Done?) && (o.Failed? ==> r == Err(o.message))
    {
      if db.None? {
        return Err(NotOpen);
      }
      var img := db.value;
      var cols := Keys(values);
      var vals := JsonRowValues(values, cols, engine.tableInfo(img, table), rt);
      var changes := RunWrite(img, InsertSql(table, cols), vals);
      if changes.Err? {
        return Err(changes.message);
      }
      return Ok(());
    }

    /** `deleteRows`: one DELETE binding every rowid. */
    method DeleteRows(table: string, rowids: seq<int>) returns (r: Result<()>)
      modifies this
      ensures old(db).None? ==> r == Err(NotOpen) && unchanged(this)
      ensures old(db).Some? ==>
        var params := seq(|rowids|, i requires 0 <= i < |rowids| => Num(rowids[i] as real));
        var o := engine.run(old(db).value, DeleteSql(table, |rowids|), params);
        Wrote(o) && (r.Ok? <==> o.Done?) && (o.Failed? ==> r == Err(o.message))
    {
      if db.None? {
        return Err(NotOpen);
      }
      var params := seq(|rowids|, i requires 0 <= i < |rowids| => Num(rowids[i] as real));
      var changes := RunWrite(db.value, DeleteSql(table, |rowids|), params);
      if changes.Err? {
        return Err(changes.message);
      }
      return Ok(());
    }

    /**
     * `exportCSV`: the empty text when the table yields no result set,
     * otherwise the header line and one escaped line per row, which the CSV
     * reader turns back into the header and the rows' text forms whenever
     * no field would be split by a carriage return and the last row is not
     * one empty field.
     */
    function ExportCsv(table: string): (r: Result<string>)
      reads this
      ensures db.None? ==> r == Err(NotOpen)
      ensures db.Some? && engine.query(db.value, SelectAllSql(table)).Err? ==>
        r == Err(engine.query(db.value, SelectAllSql(table)).message)
      ensures db.Some? && engine.query(db.value, SelectAllSql(table)).Ok? ==>
        var rs := engine.query(db.value, SelectAllSql(table)).value;
        r.Ok? && (rs == [] ==> r.value == "")
        && (rs != [] ==> r.value == ExportText(rs[0].columns, rs[0].values, rt))
        && (rs != [] && WellShaped([rs[0].columns] + TextRows(rs[0].values, rt)) ==>
              Parse(r.value) == [rs[0].columns] + TextRows(rs[0].values, rt))
    {
      if db.None? then Err(NotOpen)
      else
        match engine.query(db.value, SelectAllSql(table))
        case Err(m) => Err(m)
        case Ok(rs) =>
          if rs == [] then Ok("")
          else
            var text := ExportText(rs[0].columns, rs[0].values, rt);
            if WellShaped([rs[0].columns] + TextRows(rs[0].values, rt)) then
              ExportRoundTrip(rs[0].columns, rs[0].values, rt);
              Ok(text)
            else
              Ok(text)
    }

    /**
     * BEGIN, one INSERT per row, COMMIT, then `dirty = true` and `flush()`;
     * a failing row or COMMIT is followed by ROLLBACK and the error is
     * passed on without marking or flushing anything.
     */
    method InsertInTransaction(img: Image, sql: string, batch: seq<seq<JsValue>>) returns (r: Result<nat>)
      requires db == Some(img)
      modifies this
      ensures r == ResultOf(Transaction(engine, img, sql, batch))
      ensures Wrote(Transaction(engine, img, sql, batch))
    {
      var begin := engine.run(img, Begin, []);
      if begin.Failed? {
        db := Some(begin.image);
        return Err(begin.message);
      }
      var begun := begin.image;
      var cur := begun;
      var imported: nat := 0;
      while imported < |batch|
        invariant imported <= |batch|
        invariant InsertAll(engine, begun, sql, batch) == Shift(InsertAll(engine, cur, sql, batch[imported..]), imported)
      {
        var o := engine.run(cur, sql, batch[imported]);
        assert batch[imported..][0] == batch[imported];
        if o.Failed? {
          db := Some(img);
          return Err(o.message);
        }
        assert batch[imported..][1..] == batch[imported + 1..];
        cur := o.image;
        imported := imported + 1;
      }
      assert batch[imported..] == [];
      var commit := engine.run(cur, Commit, []);
      if commit.Failed? {
        db := Some(img);
        return Err(commit.message);
      }
      db := Some(commit.image);
      dirty := true;
      Flush();
      return Ok(imported);
    }

    /**
     * `importCSV`: fewer than two parsed lines import nothing and touch
     * nothing, not even the handle; otherwise the data lines are inserted
     * in one transaction and the count of data lines is returned.
     */
    method ImportCsv(table: string, csv: string) returns (r: Result<nat>)
      modifies this
      ensures |Parse(csv)| < 2 ==> r == Ok(0) && unchanged(this)
      ensures |Parse(csv)| >= 2 && old(db).None? ==> r == Err(NotOpen) && unchanged(this)
      ensures |Parse(csv)| >= 2 && old(db).Some? ==>
        var t := CsvImport(engine, old(db).value, rt, table, Parse(csv));
        r == ResultOf(t) && Wrote(t)
    {
      var lines := ParseCsv(csv);
      if |lines| < 2 {
        return Ok(0);
      }
      if db.None? {
        return Err(NotOpen);
      }
      var img := db.value;
      var headers := lines[0];
      var columns := engine.tableInfo(img, table);
      var sql := InsertSql(table, headers);
      r := InsertInTransaction(img, sql, CsvBatch(lines[1..], headers, columns, rt));
    }

    /**
     * `importJSON` of the parsed array: an empty array imports nothing;
     * otherwise every object is inserted under the first object's keys in
     * one transaction and the count of objects is returned.
     */
    method ImportJson(table: string, rows: seq<JsonObject>) returns (r: Result<nat>)
      modifies this
      ensures |rows| == 0 ==> r == Ok(0) && unchanged(this)
      ensures |rows| > 0 && old(db).None? ==> r == Err(NotOpen) && unchanged(this)
      ensures |rows| > 0 && old(db).Some? ==>
        var t := JsonImport(engine, old(db).value, rt, table, rows);
        r == ResultOf(t) && Wrote(t)
    {
      if |rows| == 0 {
        return Ok(0);
      }
      if db.None? {
        return Err(NotOpen);
      }
      var img := db.value;
      var headers := Keys(rows[0]);
      var columns := engine.tableInfo(img, table);
      var sql := InsertSql(table, headers);
      r := InsertInTransaction(img, sql, JsonBatch(rows, headers, columns, rt));
    }

    /** `getSchemaSQL`: the blocks of every table, built by appending as the source does. */
    /**
     * One iteration of the loop over the tables: the banner, the CREATE
     * statement with the foreign keys gathered into a map, and one line per
     * index, appended to the text so far.
     */
    method AppendTableBlock(img: Image, t: TableInfo, text: string) returns (out: string)
      ensures out == text + TableBlock(engine, img, rt, t)
    {
      var columns := engine.tableInfo(img, t.name);
      var indexes := Indexes(engine, img, t.name);
      var fkRows := engine.foreignKeys(img, t.name);
      var fkMap: map<string, ForeignKey> := map[];
      for j := 0 to |fkRows|
        invariant fkMap == FkMap(fkRows[..j])
      {
        assert fkRows[..j + 1][..j] == fkRows[..j];
        fkMap := fkMap[fkRows[j].from := fkRows[j]];
      }
      assert fkRows[..|fkRows|] == fkRows;
      var defs := ColumnDefs(columns, fkMap);
      out := text + TableHeader(t, rt);
      out := out + CreateTable(t.name, defs);
      var head := out;
      for k := 0 to |indexes|
        invariant out == head + IndexLines(t.name, indexes[..k])
      {
        assert indexes[..k + 1][..k] == indexes[..k];
        SeqAssoc(head, IndexLines(t.name, indexes[..k]), IndexLine(t.name, indexes[k]));
        out := out + IndexLine(t.name, indexes[k]);
      }
      assert indexes[..|indexes|] == indexes;
      out := out + "\n";
      BlockAppended(text, TableHeader(t, rt), CreateTable(t.name, defs), IndexLines(t.name, indexes), out);
    }

    method GetSchemaSql() returns (r: Result<string>)
      ensures db.None? ==> r == Err(NotOpen)
      ensures db.Some? ==> r == Ok(SchemaText(engine, db.value, rt, Tables(engine, db.value)))
    {
      if db.None? {
        return Err(NotOpen);
      }
      var img := db.value;
      var tables := Tables(engine, img);
      var out := "";
      for i := 0 to |tables|
        invariant out == SchemaText(engine, img, rt, tables[..i])
      {
        out := AppendTableBlock(img, tables[i], out);
        SchemaTextSnoc(engine, img, rt, tables, i);
      }
      assert tables[..|tables|] == tables;
      return Ok(out);
    }
  }

  lemma BlockAppended(before: string, header: string, create: string, lines: string, out: string)
    requires out == before + header + create + lines + "\n"
    ensures out == before + (header + create + lines + "\n")
  {
  }
}
