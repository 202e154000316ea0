/**
 * Shared data model: the records exchanged between the database adapter,
 * the editor provider and the webview (src/types.ts), the JavaScript values
 * that flow through them, and the Option/Result wrappers used for the
 * source's `null`/`undefined` results and thrown errors.
 */
module Types {

  datatype Option<+T> = None | Some(value: T)

  /** A call that either returns a value or throws an Error carrying `message`. */
  datatype Result<+T> = Ok(value: T) | Err(message: string)

  /**
   * `Array.prototype.find` by a string key, as an index: the first element
   * whose key is `k`, or none. Both the column lookup of the imports and
   * the history lookup of the editor provider are this search.
   */
  function FirstWithKey<T>(xs: seq<T>, key: T -> string, k: string): (r: Option<nat>)
    ensures r.Some? ==> r.value < |xs| && key(xs[r.value]) == k
    ensures r.Some? ==> forall i :: 0 <= i < r.value ==> key(xs[i]) != k
    ensures r.None? ==> forall i :: 0 <= i < |xs| ==> key(xs[i]) != k
    decreases |xs|
  {
    if xs == [] then None
    else if key(xs[0]) == k then Some(0)
    else
      match FirstWithKey(xs[1..], key, k)
      case None => None
      case Some(i) => Some(i + 1)
  }

  /**
   * The JavaScript values the core handles: user input (`unknown`), cell
   * values of a query result, and the coerced value bound to a statement.
   * JavaScript numbers are modelled as mathematical reals (no NaN, no
   * infinities, no rounding); `Bytes` is a `Uint8Array` (a BLOB cell).
   */
  datatype JsValue =
    | Null
    | Undefined
    | Bool(b: bool)
    | Num(n: real)
    | Str(s: string)
    | Bytes(bytes: seq<bv8>)

  datatype TableKind = Table | View

  /** A sort direction, `"ASC" | "DESC"`. */
  datatype SortDir = Asc | Desc

  /** One entry of the table list: `TableInfo`. */
  datatype TableInfo = TableInfo(name: string, kind: TableKind, rowCount: int)

  /** One column as `PRAGMA table_info` describes it: `ColumnInfo`. */
  datatype ColumnInfo = ColumnInfo(
    cid: int,
    name: string,
    colType: string,
    notNull: bool,
    defaultValue: Option<string>,
    pk: bool)

  /** One index with its key columns in key order: `IndexInfo`. */
  datatype IndexInfo = IndexInfo(name: string, unique: bool, columns: seq<string>)

  /**
   * One row of `PRAGMA foreign_key_list`: child column `from`, parent table
   * and parent column `to` (NULL when the parent key is implicit).
   */
  datatype ForeignKey = ForeignKey(from: string, table: string, to: Option<string>)

  /** `QueryResult` without its `time` field (timing is not modelled). */
  datatype QueryResult = QueryResult(columns: seq<string>, values: seq<seq<JsValue>>, rowsAffected: int)

  datatype SavedQuery = SavedQuery(name: string, sql: string, createdAt: int)

  datatype HistoryEntry = HistoryEntry(id: string, sql: string, timestamp: int, rowCount: nat, pinned: bool)
}
