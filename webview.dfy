/**
 * The browse-side state of the webview (src/webview/main.ts): the selected
 * table, the pager, the sort column, the set of checked rows, and the pure
 * helpers that escape attribute text and read edited cells.
 */
module Webview {
  import opened Types
  import opened Text

  /** Rows per browse page. */
  const PageSize := 50

  /* ── attribute escaping ── */

  /** The four entities `attr` writes. */
  const Amp := "&amp;"
  const Quot := "&quot;"
  const Lt := "&lt;"
  const Gt := "&gt;"

  /** `attr`: `&` first, then `"`, `<` and `>`, each replaced by its entity everywhere. */
  function Attr(s: string): string {
    ReplaceChar(ReplaceChar(ReplaceChar(ReplaceChar(s, '&', Amp), '"', Quot), '<', Lt), '>', Gt)
  }

  lemma {:induction false} ReplaceCharKeepsOut(s: string, c: char, rep: string, d: char)
    requires d !in s && d !in rep
    ensures d !in ReplaceChar(s, c, rep)
    decreases |s|
  {
    if s != [] {
      ReplaceCharKeepsOut(s[1..], c, rep, d);
    }
  }

  /** The escaped text holds no raw `"`, `<` or `>`, so it cannot end the attribute or open a tag. */
  lemma AttrHasNoMarkup(s: string)
    ensures '"' !in Attr(s) && '<' !in Attr(s) && '>' !in Attr(s)
  {
    var s1 := ReplaceChar(s, '&', Amp);
    var s2 := ReplaceChar(s1, '"', Quot);
    var s3 := ReplaceChar(s2, '<', Lt);
    ReplaceCharKeepsOut(s2, '<', Lt, '"');
    ReplaceCharKeepsOut(s3, '>', Gt, '"');
    ReplaceCharKeepsOut(s3, '>', Gt, '<');
  }

  /** The entity one character becomes. */
  function Entity(c: char): string {
    if c == '&' then Amp
    else if c == '"' then Quot
    else if c == '<' then Lt
    else if c == '>' then Gt
    else [c]
  }

  /** Escaping character by character, in one pass. */
  function EscapeEach(s: string): string
    decreases |s|
  {
    if s == [] then "" else Entity(s[0]) + EscapeEach(s[1..])
  }

  lemma {:induction false} ReplaceCharAppend(a: string, b: string, c: char, rep: string)
    ensures ReplaceChar(a + b, c, rep) == ReplaceChar(a, c, rep) + ReplaceChar(b, c, rep)
    decreases |a|
  {
    if a == [] {
      assert a + b == b;
    } else {
      assert (a + b)[1..] == a[1..] + b;
      ReplaceCharAppend(a[1..], b, c, rep);
    }
  }

  lemma AttrAppend(a: string, b: string)
    ensures Attr(a + b) == Attr(a) + Attr(b)
  {
    var a1, b1 := ReplaceChar(a, '&', Amp), ReplaceChar(b, '&', Amp);
    var a2, b2 := ReplaceChar(a1, '"', Quot), ReplaceChar(b1, '"', Quot);
    var a3, b3 := ReplaceChar(a2, '<', Lt), ReplaceChar(b2, '<', Lt);
    ReplaceCharAppend(a, b, '&', Amp);
    ReplaceCharAppend(a1, b1, '"', Quot);
    ReplaceCharAppend(a2, b2, '<', Lt);
    ReplaceCharAppend(a3, b3, '>', Gt);
  }

  lemma {:induction false} ReplaceCharAbsent(s: string, c: char, rep: string)
    requires c !in s
    ensures ReplaceChar(s, c, rep) == s
    decreases |s|
  {
    if s != [] {
      ReplaceCharAbsent(s[1..], c, rep);
    }
  }

  lemma ReplaceCharOne(x: char, c: char, rep: string)
    ensures ReplaceChar([x], c, rep) == if x == c then rep else [x]
  {
    assert [x][1..] == "";
  }

  /** The last three replacements leave a text without their characters alone. */
  lemma ChainSkips(t: string)
    requires '"' !in t && '<' !in t && '>' !in t
    ensures ReplaceChar(ReplaceChar(ReplaceChar(t, '"', Quot), '<', Lt), '>', Gt) == t
  {
    ReplaceCharAbsent(t, '"', Quot);
    ReplaceCharAbsent(t, '<', Lt);
    ReplaceCharAbsent(t, '>', Gt);
  }

  /** The last two replacements on one character other than `&` and `"`. */
  lemma TailOfChar(c: char)
    ensures ReplaceChar(ReplaceChar([c], '<', Lt), '>', Gt) == if c == '<' then Lt else if c == '>' then Gt else [c]
  {
    ReplaceCharOne(c, '<', Lt);
    if c == '<' {
      assert '>' !in Lt;
      ReplaceCharAbsent(Lt, '>', Gt);
    } else {
      ReplaceCharOne(c, '>', Gt);
    }
  }

  lemma AttrOfChar(c: char)
    ensures Attr([c]) == Entity(c)
  {
    ReplaceCharOne(c, '&', Amp);
    if c == '&' {
      assert '"' !in Amp && '<' !in Amp && '>' !in Amp;
      ChainSkips(Amp);
    } else {
      ReplaceCharOne(c, '"', Quot);
      if c == '"' {
        assert '<' !in Quot && '>' !in Quot;
        ReplaceCharAbsent(Quot, '<', Lt);
        ReplaceCharAbsent(Quot, '>', Gt);
      } else {
        TailOfChar(c);
      }
    }
  }

  /**
   * The chain of replacements escapes every character exactly once:
   * because `&` goes first, no entity written by a later step is escaped again.
   */
  lemma {:induction false} AttrIsSinglePass(s: string)
    ensures Attr(s) == EscapeEach(s)
    decreases |s|
  {
    if s != [] {
      assert s == [s[0]] + s[1..];
      AttrAppend([s[0]], s[1..]);
      AttrOfChar(s[0]);
      AttrIsSinglePass(s[1..]);
    }
  }

  /** How a browser reads back an attribute value that holds these four entities. */
  function Unescape(t: string): string
    decreases |t|
  {
    if t == [] then ""
    else if StartsWith(t, Amp) then "&" + Unescape(t[5..])
    else if StartsWith(t, Quot) then "\"" + Unescape(t[6..])
    else if StartsWith(t, Lt) then "<" + Unescape(t[4..])
    else if StartsWith(t, Gt) then ">" + Unescape(t[4..])
    else [t[0]] + Unescape(t[1..])
  }

  lemma UnescapeEntity(c: char, t: string)
    ensures Unescape(Entity(c) + t) == [c] + Unescape(t)
  {
    var e := Entity(c) + t;
    assert Amp[1] == 'a' && Quot[1] == 'q' && Lt[1] == 'l' && Gt[1] == 'g';
    if c == '&' {
      assert e[..5] == Amp && e[5..] == t;
    } else if c == '"' {
      assert e[1] == 'q' && !StartsWith(e, Amp);
      assert e[..6] == Quot && e[6..] == t;
    } else if c == '<' {
      assert e[1] == 'l' && !StartsWith(e, Amp) && !StartsWith(e, Quot);
      assert e[..4] == Lt && e[4..] == t;
    } else if c == '>' {
      assert e[1] == 'g' && !StartsWith(e, Amp) && !StartsWith(e, Quot) && !StartsWith(e, Lt);
      assert e[..4] == Gt && e[4..] == t;
    } else {
      assert e[0] == c && e[1..] == t;
      assert Amp[0] == '&' && Quot[0] == '&' && Lt[0] == '&' && Gt[0] == '&';
    }
  }

  /**
   * What the `data-sql` and `data-name` attributes give back is the text
   * that was escaped: loading a saved or past query loads the same SQL.
   */
  lemma {:induction false} AttrRoundTrip(s: string)
    ensures Unescape(Attr(s)) == s
    decreases |s|
  {
    AttrIsSinglePass(s);
    if s != [] {
      UnescapeEntity(s[0], EscapeEach(s[1..]));
      AttrRoundTrip(s[1..]);
      AttrIsSinglePass(s[1..]);
    }
  }

  /* ── pager ── */

  /** `Math.max(1, Math.ceil(totalRows / pageSize))`. */
  function TotalPages(totalRows: nat): (r: nat)
    ensures r >= 1
    ensures totalRows <= r * PageSize
    ensures r == 1 || (r - 1) * PageSize < totalRows
  {
    var pages := (totalRows + PageSize - 1) / PageSize;
    if pages < 1 then 1 else pages
  }

  /** The pager text and the state of its two buttons. */
  datatype Pager = Pager(caption: string, prevDisabled: bool, nextDisabled: bool)

  /**
   * `updatePager`: Prev is disabled on the first page and Next from the
   * last page on, so the two buttons never lead off the page range.
   */
  function PagerView(currentPage: int, totalRows: nat): (r: Pager)
    ensures r.prevDisabled <==> currentPage == 0
    ensures 0 <= currentPage ==> (r.nextDisabled <==> currentPage + 1 >= TotalPages(totalRows))
  {
    var caption := "Page " + IntToString(currentPage + 1) + " of " + IntToString(TotalPages(totalRows))
      + " (" + IntToString(totalRows) + " rows)";
    Pager(caption, currentPage == 0, (currentPage + 1) * PageSize >= totalRows)
  }

  /* ── reading edited cells ── */

  /** The inline editor's value: "" or `null` in any letter case is NULL, anything else the raw text. */
  function ParseCellEdit(v: string): (r: JsValue)
    ensures r == Null || r == Str(v)
  {
    if v == "" || ToUpperAscii(v) == "NULL" then Null else Str(v)
  }

  /** The add-row form trims each input before the same rule. */
  function ParseAddRow(v: string): (r: JsValue)
    ensures r == Null || r == Str(Trim(v))
  {
    ParseCellEdit(Trim(v))
  }

  /** The spellings that read as NULL are exactly the empty text and the four letters n, u, l, l in any case. */
  lemma ParseCellEditNull(v: string)
    ensures ParseCellEdit(v) == Null <==>
      v == "" || (|v| == 4 && v[0] in "nN" && v[1] in "uU" && v[2] in "lL" && v[3] in "lL")
    ensures ParseCellEdit(v) != Null ==> ParseCellEdit(v) == Str(v)
  {
    if |v| == 4 && ToUpperAscii(v) == "NULL" {
      assert UpperChar(v[0]) == 'N' && UpperChar(v[1]) == 'U' && UpperChar(v[2]) == 'L' && UpperChar(v[3]) == 'L';
    }
    if |v| == 4 && v[0] in "nN" && v[1] in "uU" && v[2] in "lL" && v[3] in "lL" {
      assert ToUpperAscii(v) == "NULL";
    }
  }

  /** A blank add-row input or a padded `null` is NULL; any other input is sent trimmed. */
  lemma ParseAddRowTrims(v: string)
    ensures ParseAddRow(v) == Null <==> ParseCellEdit(Trim(v)) == Null
    ensures ParseAddRow(v) != Null ==> ParseAddRow(v) == Str(Trim(v))
    ensures ParseAddRow("  " + v + " ") == ParseAddRow(v)
  {
    ParseCellEditNull(Trim(v));
    TrimPadded(v);
  }

  lemma TrimPadded(v: string)
    ensures Trim("  " + v + " ") == Trim(v)
  {
    var p := "  " + v + " ";
    assert TrimStart(p) == TrimStart(v + " ") by {
      assert p[1..] == " " + v + " ";
      assert p[1..][1..] == v + " ";
    }
    TrimStartAppendSpace(v);
    TrimEndSpace(TrimStart(v));
  }

  lemma {:induction false} TrimStartAppendSpace(v: string)
    ensures TrimStart(v + " ") == TrimStart(v) + " " || (TrimStart(v) == "" && TrimStart(v + " ") == "")
    decreases |v|
  {
    if v == [] {
      assert v + " " == " ";
      assert (v + " ")[1..] == "";
    } else {
      assert (v + " ")[0] == v[0];
      assert (v + " ")[1..] == v[1..] + " ";
      TrimStartAppendSpace(v[1..]);
    }
  }

  lemma TrimEndSpace(t: string)
    ensures TrimEnd(t + " ") == TrimEnd(t)
  {
    assert (t + " ")[..|t|] == t;
  }

  /* ── history preview ── */

  /** The first 120 characters of a past query, then "..." exactly when it was cut. */
  function HistoryPreview(sql: string): (r: string)
    ensures |sql| <= 120 ==> r == sql
    ensures |sql| > 120 ==> |r| == 123 && r[..120] == sql[..120] && r[120..] == "..."
  {
    if |sql| > 120 then sql[..120] + "..." else sql
  }

  /* ── the selection set ── */

  predicate Distinct(s: seq<int>) {
    forall i, j :: 0 <= i < j < |s| ==> s[i] != s[j]
  }

  /** `Set.add`: a new element goes last; one already there keeps its place. */
  function Add(s: seq<int>, x: int): (r: seq<int>)
    ensures Distinct(s) ==> Distinct(r)
    ensures forall y :: y in r <==> y in s || y == x
  {
    if x in s then s else s + [x]
  }

  /** `Set.delete`. */
  function Remove(s: seq<int>, x: int): (r: seq<int>)
    ensures Distinct(s) ==> Distinct(r)
    ensures forall y :: y in r <==> y in s && y != x
    decreases |s|
  {
    if s == [] then []
    else if s[0] == x then Remove(s[1..], x)
    else
      assert Distinct(s) ==> Distinct(s[1..]) && s[0] !in s[1..];
      [s[0]] + Remove(s[1..], x)
  }

  /** Adding each of several rows in turn. */
  function AddAll(s: seq<int>, ids: seq<int>): seq<int>
    decreases |ids|
  {
    if ids == [] then s else Add(AddAll(s, ids[..|ids| - 1]), ids[|ids| - 1])
  }

  /** Removing each of several rows in turn. */
  function RemoveAll(s: seq<int>, ids: seq<int>): seq<int>
    decreases |ids|
  {
    if ids == [] then s else Remove(RemoveAll(s, ids[..|ids| - 1]), ids[|ids| - 1])
  }

  /** Checking all rows selects every shown row and keeps the rows selected before, each once. */
  lemma {:induction false} AddAllSelects(s: seq<int>, ids: seq<int>, y: int)
    ensures y in AddAll(s, ids) <==> y in s || y in ids
    ensures Distinct(s) ==> Distinct(AddAll(s, ids))
    decreases |ids|
  {
    if ids != [] {
      var n := |ids| - 1;
      AddAllSelects(s, ids[..n], y);
      assert ids == ids[..n] + [ids[n]];
    }
  }

  /** Unchecking all rows deselects every shown row and nothing else. */
  lemma {:induction false} RemoveAllDeselects(s: seq<int>, ids: seq<int>, y: int)
    ensures y in RemoveAll(s, ids) <==> y in s && y !in ids
    ensures Distinct(s) ==> Distinct(RemoveAll(s, ids))
    decreases |ids|
  {
    if ids != [] {
      var n := |ids| - 1;
      RemoveAllDeselects(s, ids[..n], y);
      assert ids == ids[..n] + [ids[n]];
    }
  }

  /* ── messages to the extension host ── */

  datatype Request =
    | GetSchema(table: string)
      /** A page of rows; the host reads a missing direction as ASC. */
    | GetTableData(table: string, page: int, pageSize: int, orderBy: Option<string>, orderDir: SortDir)
    | DeleteRows(table: string, rowids: seq<int>)

  /** The module-level state of the webview script. */
  class ViewState {
    var currentTable: Option<string>
    var currentPage: int
    var totalRows: nat
    var browseColumns: seq<string>
    /** `selectedRowids`, in insertion order, as `[...set]` lists it. */
    var selected: seq<int>
    var sortColumn: Option<string>
    var sortDir: SortDir

    constructor()
      ensures currentTable == None && currentPage == 0 && totalRows == 0 && browseColumns == []
      ensures selected == [] && sortColumn == None && sortDir == Asc
    {
      currentTable := None;
      currentPage := 0;
      totalRows := 0;
      browseColumns := [];
      selected := [];
      sortColumn := None;
      sortDir := Asc;
    }

    /** The selection holds each row once. */
    predicate Valid()
      reads this
    {
      Distinct(selected)
    }

    /** The page shown is one of the pages the rows fill. */
    predicate OnPage()
      reads this
    {
      0 <= currentPage < TotalPages(totalRows)
    }

    /** `selectTable`: back to the first, unsorted page with nothing selected. */
    method SelectTable(name: string) returns (requests: seq<Request>)
      modifies this
      ensures currentTable == Some(name) && currentPage == 0 && sortColumn == None && sortDir == Asc
      ensures selected == [] && Valid() && OnPage()
      ensures totalRows == old(totalRows) && browseColumns == old(browseColumns)
      ensures requests == [GetSchema(name), GetTableData(name, 0, PageSize, None, Asc)]
    {
      currentTable := Some(name);
      currentPage := 0;
      sortColumn := None;
      sortDir := Asc;
      selected := [];
      requests := [GetSchema(name), GetTableData(name, 0, PageSize, None, Asc)];
    }

    /** The `tableData` message: the page and row count as the host reports them; the grid is redrawn unselected. */
    method OnTableData(page: int, rows: nat, columns: seq<string>) returns (deleteDisabled: bool)
      modifies this
      ensures currentPage == page && totalRows == rows && browseColumns == columns
      ensures selected == [] && deleteDisabled && Valid()
      ensures currentTable == old(currentTable) && sortColumn == old(sortColumn) && sortDir == old(sortDir)
    {
      currentPage := page;
      totalRows := rows;
      browseColumns := columns;
      selected := [];
      deleteDisabled := true;
    }

    /** The Prev button: only past the first page and with a table selected. */
    method PrevPage() returns (request: Option<Request>)
      modifies this
      ensures old(OnPage()) ==> OnPage()
      ensures old(currentPage) > 0 && old(currentTable).Some? && old(currentTable).value != "" ==>
        currentPage == old(currentPage) - 1
        && request == Some(GetTableData(old(currentTable).value, currentPage, PageSize, sortColumn, sortDir))
      ensures !(old(currentPage) > 0 && old(currentTable).Some? && old(currentTable).value != "") ==>
        currentPage == old(currentPage) && request.None?
      ensures currentTable == old(currentTable) && totalRows == old(totalRows) && selected == old(selected)
      ensures sortColumn == old(sortColumn) && sortDir == old(sortDir) && browseColumns == old(browseColumns)
    {
      request := None;
      if currentPage > 0 && currentTable.Some? && currentTable.value != "" {
        currentPage := currentPage - 1;
        request := Some(GetTableData(currentTable.value, currentPage, PageSize, sortColumn, sortDir));
      }
    }

    /** The Next button: only while a later page holds rows and a table is selected. */
    method NextPage() returns (request: Option<Request>)
      modifies this
      ensures old(OnPage()) ==> OnPage()
      ensures (old(currentPage) + 1) * PageSize < totalRows && old(currentTable).Some? && old(currentTable).value != "" ==>
        currentPage == old(currentPage) + 1
        && request == Some(GetTableData(old(currentTable).value, currentPage, PageSize, sortColumn, sortDir))
      ensures !((old(currentPage) + 1) * PageSize < totalRows && old(currentTable).Some? && old(currentTable).value != "") ==>
        currentPage == old(currentPage) && request.None?
      ensures currentTable == old(currentTable) && totalRows == old(totalRows) && selected == old(selected)
      ensures sortColumn == old(sortColumn) && sortDir == old(sortDir) && browseColumns == old(browseColumns)
    {
      request := None;
      if (currentPage + 1) * PageSize < totalRows && currentTable.Some? && currentTable.value != "" {
        currentPage := currentPage + 1;
        request := Some(GetTableData(currentTable.value, currentPage, PageSize, sortColumn, sortDir));
      }
    }

    /**
     * A click on a column header: the sorted column flips direction, any
     * other column becomes the sort column ascending; either way back to
     * the first page. Headers exist only once a table's grid is shown.
     */
    method ToggleSort(col: string) returns (request: Request)
      requires currentTable.Some?
      modifies this
      ensures old(sortColumn) == Some(col) ==>
        sortColumn == Some(col) && sortDir == (if old(sortDir) == Asc then Desc else Asc)
      ensures old(sortColumn) != Some(col) ==> sortColumn == Some(col) && sortDir == Asc
      ensures currentTable == old(currentTable) && totalRows == old(totalRows) && selected == old(selected)
      ensures currentPage == 0 && request == GetTableData(currentTable.value, 0, PageSize, Some(col), sortDir)
      ensures browseColumns == old(browseColumns)
    {
      if sortColumn == Some(col) {
        sortDir := if sortDir == Asc then Desc else Asc;
      } else {
        sortColumn := Some(col);
        sortDir := Asc;
      }
      currentPage := 0;
      request := GetTableData(currentTable.value, 0, PageSize, sortColumn, sortDir);
    }

    /** One row checkbox changed; Delete is disabled exactly when nothing is selected. */
    method SetRowChecked(rowid: int, checked: bool) returns (deleteDisabled: bool)
      requires Valid()
      modifies this
      ensures Valid()
      ensures selected == if checked then Add(old(selected), rowid) else Remove(old(selected), rowid)
      ensures deleteDisabled <==> selected == []
      ensures currentTable == old(currentTable) && currentPage == old(currentPage) && totalRows == old(totalRows)
      ensures sortColumn == old(sortColumn) && sortDir == old(sortDir) && browseColumns == old(browseColumns)
    {
      if checked {
        selected := Add(selected, rowid);
      } else {
        selected := Remove(selected, rowid);
      }
      deleteDisabled := |selected| == 0;
    }

    /** The select-all checkbox, applied to each row checkbox in grid order. */
    method SetAllChecked(rowids: seq<int>, checked: bool) returns (deleteDisabled: bool)
      requires Valid()
      modifies this
      ensures Valid()
      ensures selected == if checked then AddAll(old(selected), rowids) else RemoveAll(old(selected), rowids)
      ensures deleteDisabled <==> selected == []
      ensures currentTable == old(currentTable) && currentPage == old(currentPage) && totalRows == old(totalRows)
      ensures sortColumn == old(sortColumn) && sortDir == old(sortDir) && browseColumns == old(browseColumns)
    {
      var sel := selected;
      for i := 0 to |rowids|
        invariant Distinct(sel)
        invariant sel == if checked then AddAll(selected, rowids[..i]) else RemoveAll(selected, rowids[..i])
      {
        assert rowids[..i + 1][..i] == rowids[..i];
        sel := if checked then Add(sel, rowids[i]) else Remove(sel, rowids[i]);
      }
      assert rowids[..|rowids|] == rowids;
      selected := sel;
      deleteDisabled := |selected| == 0;
    }

    /** The Delete button of the grid drawn for `table`: nothing when no row is checked. */
    method DeleteSelected(table: string) returns (request: Option<Request>)
      ensures selected == [] ==> request.None?
      ensures selected != [] ==> request == Some(DeleteRows(table, selected))
    {
      if |selected| == 0 {
        return None;
      }
      request := Some(DeleteRows(table, selected));
    }
  }
}
