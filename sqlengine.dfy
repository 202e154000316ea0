/**
 * The sql.js engine as the database adapter (src/database.ts) uses it, and
 * the statements the adapter builds for it.
 *
 * SQL semantics are foreign to the model: an open database is its image
 * (the bytes `db.export()` returns) and each engine call is a function of
 * the image it runs on. The PRAGMA introspection statements are given
 * already decoded into the records of src/types.ts.
 */
module SqlEngine {
  import opened Types
  import opened Text
  import opened Coercion
  import opened JsRuntime

  /** The bytes of a SQLite database file; `export()` returns them as they are. */
  type Image = seq<bv8>

  /** One result set of `exec`: column names and rows. */
  datatype ExecResult = ExecResult(columns: seq<string>, values: seq<seq<JsValue>>)

  /**
   * An engine call that may change the image: the image it leaves and either
   * a value or the message of the Error it throws.
   */
  datatype Outcome<T> = Done(image: Image, value: T) | Failed(image: Image, message: string)

  datatype Engine = Engine(
    /** `exec(sql)` of user SQL: every result set, possibly changing the image. */
    exec: (Image, string) -> Outcome<seq<ExecResult>>,
    /** `exec(sql)` of a SELECT the adapter builds itself; it reads only. */
    query: (Image, string) -> Result<seq<ExecResult>>,
    /** `run(sql, params)` followed by `getRowsModified()`. */
    run: (Image, string, seq<JsValue>) -> Outcome<nat>,
    /** `SELECT COUNT(*)`: `None` when no result set comes back. */
    count: (Image, string) -> Result<Option<nat>>,
    /** The tables and views of `sqlite_master`, by name, without `sqlite_` ones. */
    tableList: Image -> seq<(string, TableKind)>,
    /** `PRAGMA table_info` of a table. */
    tableInfo: (Image, string) -> seq<ColumnInfo>,
    /** `PRAGMA index_list` of a table: index name and uniqueness. */
    indexList: (Image, string) -> seq<(string, bool)>,
    /** `PRAGMA index_info` of an index: its key columns in key order. */
    indexInfo: (Image, string) -> seq<string>,
    /** `PRAGMA foreign_key_list` of a table, in the order the engine lists them. */
    foreignKeys: (Image, string) -> seq<ForeignKey>)

  const Begin := "BEGIN TRANSACTION"
  const Commit := "COMMIT"

  /* ── statement text ── */

  /** An identifier inside double quotes, as the adapter interpolates it. */
  function Quote(name: string): string {
    "\"" + name + "\""
  }

  /** The number of `?` bind parameters in a statement text. */
  function Params(sql: string): nat
    decreases |sql|
  {
    if sql == [] then 0 else (if sql[0] == '?' then 1 else 0) + Params(sql[1..])
  }

  /** A bind parameter. */
  const Param := "?"

  function Repeat(x: string, n: nat): (r: seq<string>)
    ensures |r| == n
  {
    seq(n, _ => x)
  }

  /** `xs.map(() => "?").join(", ")` for `n` elements. */
  function Placeholders(n: nat): string {
    Join(Repeat(Param, n), ", ")
  }

  /** `names.map((c) => `"${c}"`).join(", ")`. */
  function QuotedList(names: seq<string>): string {
    Join(seq(|names|, i requires 0 <= i < |names| => Quote(names[i])), ", ")
  }

  function CountSql(table: string): string {
    "SELECT COUNT(*) FROM " + Quote(table)
  }

  function SelectAllSql(table: string): string {
    "SELECT * FROM " + Quote(table)
  }

  function InsertSql(table: string, cols: seq<string>): string {
    "INSERT INTO " + Quote(table) + " (" + QuotedList(cols) + ") VALUES (" + Placeholders(|cols|) + ")"
  }

  /** `UPDATE "t" SET "c" = ? WHERE rowid = ?`. */
  function UpdateSql(table: string, column: string): string {
    "UPDATE " + Quote(table) + " SET " + Quote(column) + " = " + Param + " WHERE rowid = " + Param
  }

  function DeleteSql(table: string, n: nat): string {
    "DELETE FROM " + Quote(table) + " WHERE rowid IN (" + Placeholders(n) + ")"
  }

  function DirText(d: SortDir): string {
    if d == Asc then "ASC" else "DESC"
  }

  /** ` ORDER BY "c" DIR`, only when a non-empty sort column is given. */
  function OrderClause(orderBy: Option<string>, dir: SortDir): string {
    if orderBy.Some? && orderBy.value != "" then " ORDER BY " + Quote(orderBy.value) + " " + DirText(dir) else ""
  }

  /** The page query of the browse grid. */
  function TableDataSql(table: string, orderBy: Option<string>, dir: SortDir, pageSize: int, offset: int): string {
    "SELECT rowid AS __rowid, * FROM " + Quote(table) + OrderClause(orderBy, dir)
    + " LIMIT " + IntToString(pageSize) + " OFFSET " + IntToString(offset)
  }

  /* ── bind-parameter arity ── */

  lemma {:induction false} NoCharParams(s: string)
    requires '?' !in s
    ensures Params(s) == 0
    decreases |s|
  {
    if s != [] {
      assert '?' !in s[1..];
      NoCharParams(s[1..]);
    }
  }

  lemma {:induction false} JoinLacks(parts: seq<string>, sep: string, c: char)
    requires c !in sep && forall k :: 0 <= k < |parts| ==> c !in parts[k]
    ensures c !in Join(parts, sep)
  {
    if c in Join(parts, sep) {
      JoinChars(parts, sep, c);
    }
  }

  /** The placeholder list has exactly one bind parameter per element. */
  lemma {:induction false} PlaceholderCount(n: nat)
    ensures Params(Placeholders(n)) == n
  {
    if n == 1 {
      assert Placeholders(1) == Param;
      OneParam();
    } else if n > 1 {
      var parts := Repeat(Param, n);
      assert parts[1..] == Repeat(Param, n - 1);
      assert Placeholders(n) == Param + ", " + Placeholders(n - 1);
      PlaceholderCount(n - 1);
      OneParam();
      NoCharParams(", ");
      ParamsAppend(Param, ", ");
      ParamsAppend(Param + ", ", Placeholders(n - 1));
    }
  }

  /** Quoting names that hold no `?` adds no bind parameter. */
  lemma QuotedListLacks(names: seq<string>)
    requires forall k :: 0 <= k < |names| ==> '?' !in names[k]
    ensures Params(QuotedList(names)) == 0
  {
    var parts := seq(|names|, i requires 0 <= i < |names| => Quote(names[i]));
    forall k | 0 <= k < |parts|
      ensures '?' !in parts[k]
    {
      assert parts[k] == "\"" + names[k] + "\"";
    }
    JoinLacks(parts, ", ", '?');
    NoCharParams(QuotedList(names));
  }

  lemma {:induction false} ParamsAppend(a: string, b: string)
    ensures Params(a + b) == Params(a) + Params(b)
    decreases |a|
  {
    if a == [] {
      assert a + b == b;
    } else {
      assert (a + b)[0] == a[0];
      assert (a + b)[1..] == a[1..] + b;
      ParamsAppend(a[1..], b);
    }
  }

  /** Quoting a name that holds no `?` adds no bind parameter. */
  lemma QuoteLacks(name: string)
    requires '?' !in name
    ensures Params(Quote(name)) == 0
  {
    assert '?' !in Quote(name);
    NoCharParams(Quote(name));
  }

  lemma OneParam()
    ensures Params(Param) == 1
  {
    assert Param[0] == '?' && Param[1..] == [];
  }

  /** Text around two parts adds only its own bind parameters. */
  lemma ParamsAround(p1: string, x: string, p2: string, y: string, p3: string)
    requires '?' !in p1 && '?' !in p2
    ensures Params(p1 + x + p2 + y + p3) == Params(x) + Params(y) + Params(p3)
  {
    NoCharParams(p1);
    NoCharParams(p2);
    ParamsAppend(p1, x);
    ParamsAppend(p1 + x, p2);
    ParamsAppend(p1 + x + p2, y);
    ParamsAppend(p1 + x + p2 + y, p3);
  }

  /**
   * The INSERT statement has one bind parameter per column, so the values
   * the imports and `insertRow` bind line up with the column list.
   */
  lemma InsertSqlArity(table: string, cols: seq<string>)
    requires '?' !in table && forall k :: 0 <= k < |cols| ==> '?' !in cols[k]
    ensures Params(InsertSql(table, cols)) == |cols|
  {
    QuoteLacks(table);
    QuotedListLacks(cols);
    PlaceholderCount(|cols|);
    NoCharParams(") VALUES (");
    NoCharParams(")");
    var front := "INSERT INTO " + Quote(table) + " (" + QuotedList(cols) + ") VALUES (";
    ParamsAround("INSERT INTO ", Quote(table), " (", QuotedList(cols), ") VALUES (");
    ParamsAppend(front, Placeholders(|cols|));
    ParamsAppend(front + Placeholders(|cols|), ")");
  }

  /** The UPDATE statement binds the new value and then the rowid. */
  lemma UpdateSqlArity(table: string, column: string)
    requires '?' !in table && '?' !in column
    ensures Params(UpdateSql(table, column)) == 2
  {
    QuoteLacks(table);
    QuoteLacks(column);
    OneParam();
    var front := "UPDATE " + Quote(table) + " SET " + Quote(column) + " = ";
    ParamsAround("UPDATE ", Quote(table), " SET ", Quote(column), " = ");
    ParamsAround(front, Param, " WHERE rowid = ", Param, "");
    assert front + Param + " WHERE rowid = " + Param + "" == front + Param + " WHERE rowid = " + Param;
  }

  /** The DELETE statement has one bind parameter per rowid. */
  lemma DeleteSqlArity(table: string, n: nat)
    requires '?' !in table
    ensures Params(DeleteSql(table, n)) == n
  {
    QuoteLacks(table);
    PlaceholderCount(n);
    NoCharParams(")");
    ParamsAround("DELETE FROM ", Quote(table), " WHERE rowid IN (", Placeholders(n), ")");
  }

  /* ── column lookup and the values the imports bind ── */

  /** `columns.find((c) => c.name === name)`, as an index. */
  function FindColumn(columns: seq<ColumnInfo>, name: string): (r: Option<nat>)
    ensures r.Some? ==> r.value < |columns| && columns[r.value].name == name
    ensures r.Some? ==> forall k :: 0 <= k < r.value ==> columns[k].name != name
    ensures r.None? ==> forall k :: 0 <= k < |columns| ==> columns[k].name != name
  {
    FirstWithKey(columns, (c: ColumnInfo) => c.name, name)
  }

  /** `columns.find(...)?.type ?? "TEXT"`: the declared type of the first column so named. */
  function ColumnTypeIn(columns: seq<ColumnInfo>, name: string): string {
    match FindColumn(columns, name)
    case None => "TEXT"
    case Some(k) => columns[k].colType
  }

  /** A CSV cell as `importCSV` hands it to `castValue`: the empty text is null. */
  function CsvCell(v: string): JsValue {
    if v == "" then Null else Str(v)
  }

  /**
   * The values bound for one CSV data row; a cell beyond the header has no
   * column name, so it is coerced as TEXT.
   */
  function CsvRowValues(row: seq<string>, headers: seq<string>, columns: seq<ColumnInfo>, rt: Runtime): (r: seq<JsValue>)
    ensures |r| == |row|
  {
    seq(|row|, j requires 0 <= j < |row| =>
      CastValue(CsvCell(row[j]), if j < |headers| then ColumnTypeIn(columns, headers[j]) else "TEXT", rt))
  }

  function CsvBatch(rows: seq<seq<string>>, headers: seq<string>, columns: seq<ColumnInfo>, rt: Runtime): (r: seq<seq<JsValue>>)
    ensures |r| == |rows|
  {
    seq(|rows|, i requires 0 <= i < |rows| => CsvRowValues(rows[i], headers, columns, rt))
  }

  /** An empty CSV cell is bound as null, whatever its column's type. */
  lemma CsvEmptyCellIsNull(row: seq<string>, headers: seq<string>, columns: seq<ColumnInfo>, rt: Runtime, j: nat)
    requires j < |row| && row[j] == ""
    ensures CsvRowValues(row, headers, columns, rt)[j] == Null
  {
    CastNullRule(Null, if j < |headers| then ColumnTypeIn(columns, headers[j]) else "TEXT", rt);
  }

  /** A parsed JSON object: its keys in `Object.keys` order with their values. */
  type JsonObject = seq<(string, JsValue)>

  function Keys(obj: JsonObject): (r: seq<string>)
    ensures |r| == |obj|
  {
    seq(|obj|, i requires 0 <= i < |obj| => obj[i].0)
  }

  /** The members every object, `JSON.parse`'s included, inherits from `Object.prototype`. */
  const InheritedNames: set<string> := {
    "constructor", "hasOwnProperty", "isPrototypeOf", "propertyIsEnumerable",
    "toString", "toLocaleString", "valueOf", "__proto__",
    "__defineGetter__", "__defineSetter__", "__lookupGetter__", "__lookupSetter__"}

  /**
   * `obj[key]`: the own value; for a missing key the inherited member, which
   * `castValue` treats in every branch as its `String` text; otherwise
   * `undefined`.
   */
  function Lookup(obj: JsonObject, key: string, rt: Runtime): JsValue
    decreases |obj|
  {
    if obj == [] then (if key in InheritedNames then Str(rt.inheritedText(key)) else Undefined)
    else if obj[0].0 == key then obj[0].1
    else Lookup(obj[1..], key, rt)
  }

  /**
   * A key missing from an object reads as `undefined`, unless it names an
   * inherited member, which reads as that member.
   */
  lemma {:induction false} LookupMissing(obj: JsonObject, key: string, rt: Runtime)
    requires key !in Keys(obj)
    ensures key !in InheritedNames ==> Lookup(obj, key, rt) == Undefined
    ensures key in InheritedNames ==> Lookup(obj, key, rt) == Str(rt.inheritedText(key))
    decreases |obj|
  {
    if obj != [] {
      assert obj[0].0 == Keys(obj)[0];
      assert Keys(obj[1..]) == Keys(obj)[1..];
      LookupMissing(obj[1..], key, rt);
    }
  }

  /** The values bound for one JSON row, in the order of the first row's keys. */
  function JsonRowValues(obj: JsonObject, headers: seq<string>, columns: seq<ColumnInfo>, rt: Runtime): (r: seq<JsValue>)
    ensures |r| == |headers|
  {
    seq(|headers|, j requires 0 <= j < |headers| => CastValue(Lookup(obj, headers[j], rt), ColumnTypeIn(columns, headers[j]), rt))
  }

  function JsonBatch(rows: seq<JsonObject>, headers: seq<string>, columns: seq<ColumnInfo>, rt: Runtime): (r: seq<seq<JsValue>>)
    ensures |r| == |rows|
  {
    seq(|rows|, i requires 0 <= i < |rows| => JsonRowValues(rows[i], headers, columns, rt))
  }

  /**
   * A later JSON row that lacks one of the first row's keys binds null for
   * it, unless the key names an inherited member: that member's text is
   * bound instead.
   */
  lemma JsonMissingKeyIsNull(obj: JsonObject, headers: seq<string>, columns: seq<ColumnInfo>, rt: Runtime, j: nat)
    requires j < |headers| && headers[j] !in Keys(obj)
    ensures headers[j] !in InheritedNames ==> JsonRowValues(obj, headers, columns, rt)[j] == Null
    ensures headers[j] in InheritedNames ==>
      JsonRowValues(obj, headers, columns, rt)[j]
        == CastValue(Str(rt.inheritedText(headers[j])), ColumnTypeIn(columns, headers[j]), rt)
  {
    LookupMissing(obj, headers[j], rt);
    CastNullRule(Undefined, ColumnTypeIn(columns, headers[j]), rt);
  }

  /**
   * `[{"toString": 1}, {}]`: the second row binds the text of the inherited
   * `toString` function, which is not null.
   */
  lemma InheritedKeyIsNotNull(columns: seq<ColumnInfo>, rt: Runtime)
    requires rt.inheritedText("toString") != "NULL"
    ensures JsonRowValues([], ["toString"], columns, rt)[0] != Null
  {
    var h := "toString";
    assert h in InheritedNames;
    LookupMissing([], h, rt);
    CastNullRule(Str(rt.inheritedText(h)), ColumnTypeIn(columns, h), rt);
  }

  /* ── the import transaction ── */

  /** Adds `k` to the count of a successful outcome. */
  function Shift(o: Outcome<nat>, k: nat): Outcome<nat> {
    match o
    case Done(img, n) => Done(img, n + k)
    case Failed(img, m) => Failed(img, m)
  }

  /** Runs `sql` once per row of `batch`, stopping at the first failure. */
  function InsertAll(e: Engine, img: Image, sql: string, batch: seq<seq<JsValue>>): (r: Outcome<nat>)
    ensures r.Done? ==> r.value == |batch|
    decreases |batch|
  {
    if batch == [] then Done(img, 0)
    else
      match e.run(img, sql, batch[0])
      case Failed(after, m) => Failed(after, m)
      case Done(after, _) => Shift(InsertAll(e, after, sql, batch[1..]), 1)
  }

  /**
   * BEGIN, one INSERT per row, COMMIT; a failing row or COMMIT is followed by
   * ROLLBACK, which restores `img`, the image as it was before BEGIN, and
   * the error is passed on. A failing BEGIN is outside the `try` and is
   * passed on as is.
   */
  function Transaction(e: Engine, img: Image, sql: string, batch: seq<seq<JsValue>>): (r: Outcome<nat>)
    ensures r.Done? ==> r.value == |batch|
    ensures r.Failed? && e.run(img, Begin, []).Done? ==> r.image == img
  {
    match e.run(img, Begin, [])
    case Failed(after, m) => Failed(after, m)
    case Done(begun, _) =>
      match InsertAll(e, begun, sql, batch)
      case Failed(_, m) => Failed(img, m)
      case Done(inserted, n) =>
        match e.run(inserted, Commit, [])
        case Failed(_, m) => Failed(img, m)
        case Done(committed, _) => Done(committed, n)
  }

  /** When every row's INSERT succeeds on any image, so does the whole batch. */
  lemma {:induction false} InsertAllSucceeds(e: Engine, img: Image, sql: string, batch: seq<seq<JsValue>>)
    requires forall im: Image, k :: 0 <= k < |batch| ==> e.run(im, sql, batch[k]).Done?
    ensures InsertAll(e, img, sql, batch).Done?
    decreases |batch|
  {
    if batch != [] {
      var after := e.run(img, sql, batch[0]).image;
      assert e.run(img, sql, batch[0]).Done?;
      forall im: Image, k | 0 <= k < |batch[1..]|
        ensures e.run(im, sql, batch[1..][k]).Done?
      {
        assert batch[1..][k] == batch[k + 1];
      }
      InsertAllSucceeds(e, after, sql, batch[1..]);
    }
  }

  /** A row that fails makes the batch fail with that row's message. */
  lemma FirstRowFailure(e: Engine, img: Image, sql: string, batch: seq<seq<JsValue>>)
    requires batch != [] && e.run(img, sql, batch[0]).Failed?
    ensures InsertAll(e, img, sql, batch) == e.run(img, sql, batch[0])
  {
  }
}
