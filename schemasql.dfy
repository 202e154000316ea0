/**
 * The metadata side of the adapter (src/database.ts): the table list with
 * row counts, a table's columns and indexes, and the DDL text
 * `getSchemaSQL` renders from them.
 */
module SchemaSql {
  import opened Types
  import opened Text
  import opened JsRuntime
  import opened SqlEngine

  /**
   * The row count `getTables` reports: the COUNT(*) cell, 0 when no result
   * set comes back (`?? 0`) and 0 when the statement throws (a view may).
   */
  function RowCount(res: Result<Option<nat>>): nat {
    match res
    case Err(_) => 0
    case Ok(None) => 0
    case Ok(Some(n)) => n
  }

  /** `getTables()`: every table and view with its row count, in the engine's order. */
  function Tables(e: Engine, img: Image): (r: seq<TableInfo>)
    ensures |r| == |e.tableList(img)|
    ensures forall i :: 0 <= i < |r| ==>
      r[i].name == e.tableList(img)[i].0 && r[i].kind == e.tableList(img)[i].1
      && r[i].rowCount == RowCount(e.count(img, CountSql(r[i].name)))
  {
    var list := e.tableList(img);
    seq(|list|, i requires 0 <= i < |list| =>
      TableInfo(list[i].0, list[i].1, RowCount(e.count(img, CountSql(list[i].0)))))
  }

  /** A table whose COUNT(*) throws is still listed, with 0 rows. */
  lemma FailingCountListsZero(e: Engine, img: Image, i: nat)
    requires i < |e.tableList(img)| && e.count(img, CountSql(e.tableList(img)[i].0)).Err?
    ensures Tables(e, img)[i].rowCount == 0
  {
  }

  /** The indexes of `getSchema`: each `index_list` entry with its `index_info` columns. */
  function Indexes(e: Engine, img: Image, table: string): (r: seq<IndexInfo>)
    ensures |r| == |e.indexList(img, table)|
    ensures forall i :: 0 <= i < |r| ==>
      r[i].name == e.indexList(img, table)[i].0 && r[i].unique == e.indexList(img, table)[i].1
      && r[i].columns == e.indexInfo(img, r[i].name)
  {
    var list := e.indexList(img, table);
    seq(|list|, i requires 0 <= i < |list| => IndexInfo(list[i].0, list[i].1, e.indexInfo(img, list[i].0)))
  }

  /* ── foreign keys ── */

  /** The `fkMap` built by `set` over the foreign-key rows in order: a later row for a column wins. */
  function FkMap(fks: seq<ForeignKey>): map<string, ForeignKey>
    decreases |fks|
  {
    if fks == [] then map[] else FkMap(fks[..|fks| - 1])[fks[|fks| - 1].from := fks[|fks| - 1]]
  }

  /**
   * A column has an entry exactly when some foreign-key row starts from it,
   * and the entry is the last such row.
   */
  lemma {:induction false} FkMapLastWins(fks: seq<ForeignKey>, col: string)
    ensures col in FkMap(fks) <==> exists i :: 0 <= i < |fks| && fks[i].from == col
    ensures col in FkMap(fks) ==>
      exists i :: 0 <= i < |fks| && fks[i].from == col && FkMap(fks)[col] == fks[i]
        && forall j :: i < j < |fks| ==> fks[j].from != col
    decreases |fks|
  {
    if fks != [] {
      var n := |fks| - 1;
      var init := fks[..n];
      FkMapLastWins(init, col);
      if fks[n].from == col {
        assert FkMap(fks)[col] == fks[n];
      } else {
        assert col in FkMap(fks) <==> col in FkMap(init);
        if col in FkMap(init) {
          var i :| 0 <= i < |init| && init[i].from == col && FkMap(init)[col] == init[i]
            && forall j :: i < j < |init| ==> init[j].from != col;
          assert fks[i] == init[i];
          assert forall j :: i < j < |fks| ==> fks[j].from != col by {
            forall j | i < j < |fks|
              ensures fks[j].from != col
            {
              if j < n {
                assert fks[j] == init[j];
              }
            }
          }
        } else {
          forall i | 0 <= i < |fks|
            ensures fks[i].from != col
          {
            if i < n {
              assert fks[i] == init[i];
            }
          }
        }
      }
    }
  }

  /**
   * The reference clause as the source renders it: `${fk.to}` of a NULL
   * parent column (an implicit reference to the parent's primary key)
   * prints `null`.
   */
  function ReferenceClauseAsWritten(fk: ForeignKey): string {
    " REFERENCES " + Quote(fk.table) + "(" + Quote(if fk.to.Some? then fk.to.value else "null") + ")"
  }

  /**
   * As written, an implicit parent key renders exactly like a reference to
   * a parent column named `null`.
   */
  lemma ImplicitKeyReadsAsNullColumn(fk: ForeignKey)
    requires fk.to.None?
    ensures ReferenceClauseAsWritten(fk) == ReferenceClauseAsWritten(fk.(to := Some("null")))
    ensures ReferenceClauseAsWritten(fk) == " REFERENCES " + Quote(fk.table) + "(" + Quote("null") + ")"
  {
  }

  /** The reference clause with an implicit parent key rendered as a bare table reference. */
  function ReferenceClause(fk: ForeignKey): (r: string)
    ensures fk.to.Some? ==> r == ReferenceClauseAsWritten(fk)
    ensures fk.to.None? ==> r == " REFERENCES " + Quote(fk.table)
  {
    if fk.to.Some? then " REFERENCES " + Quote(fk.table) + "(" + Quote(fk.to.value) + ")"
    else " REFERENCES " + Quote(fk.table)
  }

  /**
   * The corrected clause tells an implicit parent key apart from every
   * explicit parent column: one ends in the quoted table, the other in `)`.
   */
  lemma ReferenceClauseDistinguishesImplicitKey(a: ForeignKey, b: ForeignKey)
    requires a.to.None? && b.to.Some?
    ensures ReferenceClause(a) != ReferenceClause(b)
  {
    var ra := ReferenceClause(a);
    var rb := ReferenceClause(b);
    assert ra[|ra| - 1] == '"';
    assert rb[|rb| - 1] == ')';
  }

  /* ── the DDL text ── */

  /** `c.type || "ANY"`. */
  function TypeOrAny(t: string): string {
    if t == "" then "ANY" else t
  }

  function DefaultClause(d: Option<string>): string {
    if d.Some? then " DEFAULT " + d.value else ""
  }

  function ReferenceOf(name: string, fks: map<string, ForeignKey>): string {
    if name in fks then ReferenceClauseAsWritten(fks[name]) else ""
  }

  const PrimaryKeyText := " PRIMARY KEY"
  const NotNullText := " NOT NULL"

  /** A keyword that is written only when its flag is set. */
  function Flag(b: bool, text: string): string {
    if b then text else ""
  }

  /** `"  " + name + " " + (type || "ANY")`: what every column definition starts with. */
  function ColumnHead(c: ColumnInfo): string {
    "  " + c.name + " " + TypeOrAny(c.colType)
  }

  /** PRIMARY KEY, NOT NULL and the default, each when it applies. */
  function Modifiers(c: ColumnInfo): string {
    Flag(c.pk, PrimaryKeyText) + (Flag(c.notNull, NotNullText) + DefaultClause(c.defaultValue))
  }

  /**
   * One column definition: name and type (or ANY), then PRIMARY KEY, NOT
   * NULL, the default text verbatim and the reference, each only when it
   * applies, in that order. The reference is rendered as the source writes
   * it, so an implicit parent key prints as `("null")`.
   */
  function ColumnClause(c: ColumnInfo, fks: map<string, ForeignKey>): (r: string)
    ensures StartsWith(r, ColumnHead(c))
    ensures !c.pk && !c.notNull && c.defaultValue.None? && c.name !in fks ==> r == ColumnHead(c)
    ensures c.name in fks ==> EndsWith(r, ReferenceClauseAsWritten(fks[c.name]))
  {
    var head := ColumnHead(c);
    var ref := ReferenceOf(c.name, fks);
    var r := (head + Modifiers(c)) + ref;
    assert r[..|head|] == head;
    SuffixEndsWith(head + Modifiers(c), ref);
    r
  }

  /** What follows the default: the reference, if any; it starts with " R". */
  lemma ReferenceShape(name: string, fks: map<string, ForeignKey>)
    ensures ReferenceOf(name, fks) == [] || (|ReferenceOf(name, fks)| >= 2 && ReferenceOf(name, fks)[1] == 'R')
  {
  }

  /** What follows NOT NULL: the default and the reference; it starts with " D", " R" or is empty. */
  lemma DefaultShape(d: Option<string>, ref: string)
    requires ref == [] || (|ref| >= 2 && ref[1] == 'R')
    ensures var t := DefaultClause(d) + ref;
      t == [] || (|t| >= 2 && (t[1] == 'D' || t[1] == 'R'))
  {
    if d.Some? {
      assert (DefaultClause(d) + ref)[1] == 'D';
    }
  }

  /** `h + t` starts with `h + p` exactly when `t` starts with `p`. */
  lemma StartsWithAfter(h: string, t: string, p: string)
    ensures StartsWith(h + t, h + p) <==> StartsWith(t, p)
  {
    if StartsWith(h + t, h + p) {
      assert t[..|p|] == (h + t)[..|h + p|][|h|..];
    }
    if StartsWith(t, p) {
      assert (h + t)[..|h + p|] == h + t[..|p|];
    }
  }

  lemma KeywordStarts(k: string, t: string)
    ensures StartsWith(k + t, k)
  {
    assert (k + t)[..|k|] == k;
  }

  /** A text whose second character differs from that of `p` does not start with `p`. */
  lemma SecondCharDiffers(t: string, p: string)
    requires |p| >= 2 && (t == [] || (|t| >= 2 && t[1] != p[1]))
    ensures !StartsWith(t, p)
  {
  }

  /** The pieces a column definition is made of, in their order. */
  lemma ColumnClausePieces(c: ColumnInfo, fks: map<string, ForeignKey>)
    ensures ColumnClause(c, fks) == ColumnHead(c) + (Flag(c.pk, PrimaryKeyText)
      + (Flag(c.notNull, NotNullText) + (DefaultClause(c.defaultValue) + ReferenceOf(c.name, fks))))
  {
    assert ColumnClause(c, fks) == (ColumnHead(c) + Modifiers(c)) + ReferenceOf(c.name, fks);
  }

  /** PRIMARY KEY follows the type exactly when the column is a key. */
  lemma ColumnClausePrimaryKey(c: ColumnInfo, fks: map<string, ForeignKey>)
    ensures StartsWith(ColumnClause(c, fks), ColumnHead(c) + PrimaryKeyText) <==> c.pk
  {
    var nn := Flag(c.notNull, NotNullText);
    var ref := ReferenceOf(c.name, fks);
    var rest := DefaultClause(c.defaultValue) + ref;
    ColumnClausePieces(c, fks);
    ReferenceShape(c.name, fks);
    DefaultShape(c.defaultValue, ref);
    StartsWithAfter(ColumnHead(c), Flag(c.pk, PrimaryKeyText) + (nn + rest), PrimaryKeyText);
    if c.pk {
      KeywordStarts(PrimaryKeyText, nn + rest);
    } else {
      if c.notNull {
        assert (nn + rest)[1] == 'N';
      }
      SecondCharDiffers(nn + rest, PrimaryKeyText);
    }
  }

  /** NOT NULL follows the type and the key flag exactly when the column is declared so. */
  lemma ColumnClauseNotNull(c: ColumnInfo, fks: map<string, ForeignKey>)
    ensures StartsWith(ColumnClause(c, fks), ColumnHead(c) + Flag(c.pk, PrimaryKeyText) + NotNullText) <==> c.notNull
  {
    var head := ColumnHead(c) + Flag(c.pk, PrimaryKeyText);
    var nn := Flag(c.notNull, NotNullText);
    var ref := ReferenceOf(c.name, fks);
    var rest := DefaultClause(c.defaultValue) + ref;
    ColumnClausePieces(c, fks);
    assert ColumnClause(c, fks) == head + (nn + rest);
    ReferenceShape(c.name, fks);
    DefaultShape(c.defaultValue, ref);
    StartsWithAfter(head, nn + rest, NotNullText);
    if c.notNull {
      KeywordStarts(NotNullText, rest);
    } else {
      SecondCharDiffers(rest, NotNullText);
    }
  }

  /** The default text comes verbatim after the flags, followed only by the reference. */
  lemma ColumnClauseDefault(c: ColumnInfo, fks: map<string, ForeignKey>)
    requires c.defaultValue.Some?
    ensures EndsWith(ColumnClause(c, fks), " DEFAULT " + c.defaultValue.value + ReferenceOf(c.name, fks))
  {
    var pre := ColumnHead(c) + Flag(c.pk, PrimaryKeyText) + Flag(c.notNull, NotNullText);
    var tail := DefaultClause(c.defaultValue) + ReferenceOf(c.name, fks);
    ColumnClausePieces(c, fks);
    assert ColumnClause(c, fks) == pre + tail;
    SuffixEndsWith(pre, tail);
  }

  /**
   * The parts of a column definition and their order: PRIMARY KEY right
   * after the type exactly when the column is a key, then NOT NULL exactly
   * when it is declared so, then the default text verbatim, then the
   * reference; with no default and no reference the flags end it.
   */
  lemma ColumnClauseOrder(c: ColumnInfo, fks: map<string, ForeignKey>)
    ensures StartsWith(ColumnClause(c, fks), ColumnHead(c) + PrimaryKeyText) <==> c.pk
    ensures StartsWith(ColumnClause(c, fks), ColumnHead(c) + Flag(c.pk, PrimaryKeyText) + NotNullText) <==> c.notNull
    ensures c.pk && c.notNull ==> StartsWith(ColumnClause(c, fks), ColumnHead(c) + " PRIMARY KEY NOT NULL")
    ensures c.defaultValue.Some? && c.name !in fks ==>
      EndsWith(ColumnClause(c, fks), " DEFAULT " + c.defaultValue.value)
    ensures c.defaultValue.Some? && c.name in fks ==>
      EndsWith(ColumnClause(c, fks), " DEFAULT " + c.defaultValue.value + ReferenceClauseAsWritten(fks[c.name]))
    ensures c.defaultValue.None? && c.name !in fks ==>
      ColumnClause(c, fks) == ColumnHead(c) + Flag(c.pk, PrimaryKeyText) + Flag(c.notNull, NotNullText)
  {
    ColumnClausePrimaryKey(c, fks);
    ColumnClauseNotNull(c, fks);
    if c.pk && c.notNull {
      assert ColumnHead(c) + Flag(c.pk, PrimaryKeyText) + NotNullText == ColumnHead(c) + " PRIMARY KEY NOT NULL";
    }
    if c.defaultValue.Some? {
      ColumnClauseDefault(c, fks);
      if c.name !in fks {
        assert " DEFAULT " + c.defaultValue.value + ReferenceOf(c.name, fks) == " DEFAULT " + c.defaultValue.value;
      }
    }
    ColumnClausePieces(c, fks);
    if c.defaultValue.None? && c.name !in fks {
      assert DefaultClause(c.defaultValue) + ReferenceOf(c.name, fks) == [];
    }
  }

  /** The definition of a key column `id INTEGER NOT NULL` with no default and no reference. */
  lemma KeyColumnExample()
    ensures ColumnClause(ColumnInfo(0, "id", "INTEGER", true, None, true), map[]) == "  id INTEGER PRIMARY KEY NOT NULL"
  {
    var c := ColumnInfo(0, "id", "INTEGER", true, None, true);
    ColumnClauseOrder(c, map[]);
  }

  /** As written, a column whose foreign key has an implicit parent key ends in `("null")`. */
  lemma ImplicitKeyColumnEndsInNull(c: ColumnInfo, fks: map<string, ForeignKey>)
    requires c.name in fks && fks[c.name].to.None?
    ensures EndsWith(ColumnClause(c, fks), "(" + Quote("null") + ")")
  {
    var fk := fks[c.name];
    var tail := "(" + Quote("null") + ")";
    var ref := ReferenceClauseAsWritten(fk);
    assert ref == (" REFERENCES " + Quote(fk.table)) + tail;
    SuffixEndsWith(" REFERENCES " + Quote(fk.table), tail);
    EndsWithTrans(ColumnClause(c, fks), ref, tail);
  }

  lemma SuffixEndsWith(x: string, y: string)
    ensures EndsWith(x + y, y)
  {
    assert (x + y)[|x + y| - |y|..] == y;
  }

  lemma EndsWithTrans(s: string, m: string, t: string)
    requires EndsWith(s, m) && EndsWith(m, t)
    ensures EndsWith(s, t)
  {
    assert s[|s| - |t|..] == s[|s| - |m|..][|m| - |t|..];
  }

  function ColumnDefs(columns: seq<ColumnInfo>, fks: map<string, ForeignKey>): string {
    Join(seq(|columns|, i requires 0 <= i < |columns| => ColumnClause(columns[i], fks)), ",\n")
  }

  /** `-- name (n rows)`, with the count in the runtime's locale format. */
  function TableHeader(t: TableInfo, rt: Runtime): string {
    "-- " + t.name + " (" + rt.localeText(t.rowCount) + " rows)\n"
  }

  function CreateTable(name: string, defs: string): string {
    "CREATE TABLE " + Quote(name) + " (\n" + defs + "\n);\n"
  }

  /** `CREATE [UNIQUE ]INDEX "n" ON "t" ("c1", ...);` with the key columns in key order. */
  function IndexLine(table: string, idx: IndexInfo): string {
    "CREATE " + (if idx.unique then "UNIQUE " else "") + "INDEX " + Quote(idx.name)
    + " ON " + Quote(table) + " (" + QuotedList(idx.columns) + ");\n"
  }

  function IndexLines(table: string, idxs: seq<IndexInfo>): string
    decreases |idxs|
  {
    if idxs == [] then "" else IndexLines(table, idxs[..|idxs| - 1]) + IndexLine(table, idxs[|idxs| - 1])
  }

  /** The comment, CREATE TABLE and CREATE INDEX lines of one table, then a blank line. */
  function TableBlock(e: Engine, img: Image, rt: Runtime, t: TableInfo): string {
    var defs := ColumnDefs(e.tableInfo(img, t.name), FkMap(e.foreignKeys(img, t.name)));
    TableHeader(t, rt) + CreateTable(t.name, defs) + IndexLines(t.name, Indexes(e, img, t.name)) + "\n"
  }

  /** The blocks of a list of tables, one per table in list order. */
  function Blocks(e: Engine, img: Image, rt: Runtime, tables: seq<TableInfo>): (r: seq<string>)
    ensures |r| == |tables|
  {
    seq(|tables|, i requires 0 <= i < |tables| => TableBlock(e, img, rt, tables[i]))
  }

  /** The concatenation of texts, built by appending, as `out +=` does. */
  function Concat(parts: seq<string>): string
    decreases |parts|
  {
    if parts == [] then "" else Concat(parts[..|parts| - 1]) + parts[|parts| - 1]
  }

  /** `getSchemaSQL()` over a list of tables: their blocks in order. */
  function SchemaText(e: Engine, img: Image, rt: Runtime, tables: seq<TableInfo>): string {
    Concat(Blocks(e, img, rt, tables))
  }

  lemma SeqAssoc(x: string, y: string, z: string)
    ensures x + y + z == x + (y + z)
  {
  }

  lemma {:induction false} ConcatSplits(a: seq<string>, b: seq<string>)
    ensures Concat(a + b) == Concat(a) + Concat(b)
    decreases |b|
  {
    if b == [] {
      assert a + b == a;
    } else {
      var n := |b| - 1;
      var ab := a + b;
      assert ab[..|ab| - 1] == a + b[..n];
      assert ab[|ab| - 1] == b[n];
      calc {
        Concat(ab);
        Concat(a + b[..n]) + b[n];
        { ConcatSplits(a, b[..n]); }
        Concat(a) + Concat(b[..n]) + b[n];
        { SeqAssoc(Concat(a), Concat(b[..n]), b[n]); }
        Concat(a) + (Concat(b[..n]) + b[n]);
      }
    }
  }

  /** Each table of the list contributes exactly its own block, in list order. */
  lemma SchemaTextHasBlock(e: Engine, img: Image, rt: Runtime, tables: seq<TableInfo>, i: nat)
    requires i < |tables|
    ensures SchemaText(e, img, rt, tables) ==
      SchemaText(e, img, rt, tables[..i]) + TableBlock(e, img, rt, tables[i]) + SchemaText(e, img, rt, tables[i + 1..])
  {
    var bs := Blocks(e, img, rt, tables);
    assert bs == Blocks(e, img, rt, tables[..i]) + [bs[i]] + Blocks(e, img, rt, tables[i + 1..]);
    ConcatSplits(Blocks(e, img, rt, tables[..i]) + [bs[i]], Blocks(e, img, rt, tables[i + 1..]));
    ConcatSplits(Blocks(e, img, rt, tables[..i]), [bs[i]]);
    assert [bs[i]][..0] == [];
  }

  /** Appending one more table appends its block. */
  lemma SchemaTextSnoc(e: Engine, img: Image, rt: Runtime, tables: seq<TableInfo>, i: nat)
    requires i < |tables|
    ensures SchemaText(e, img, rt, tables[..i + 1]) == SchemaText(e, img, rt, tables[..i]) + TableBlock(e, img, rt, tables[i])
  {
    var bs := Blocks(e, img, rt, tables[..i + 1]);
    assert bs[..i] == Blocks(e, img, rt, tables[..i]);
    assert bs[i] == TableBlock(e, img, rt, tables[i]);
  }
}
