/**
 * The per-database state the editor provider keeps (src/editorProvider.ts):
 * saved queries and the query history of each database path, kept for as
 * long as the extension runs, and the handlers that change them.
 */
module Session {
  import opened Types
  import opened Text
  import opened SqlEngine
  import opened DatabaseAdapter

  /** The history keeps at most this many entries. */
  const HistoryLimit := 100

  /* ── history ── */

  /** `history.unshift(entry)`, then `history.length = 100` when it grew past that. */
  function Remember(history: seq<HistoryEntry>, entry: HistoryEntry): (r: seq<HistoryEntry>)
    ensures |r| == if |history| < HistoryLimit then |history| + 1 else HistoryLimit
    ensures r[0] == entry
    ensures forall i :: 1 <= i < |r| ==> r[i] == history[i - 1]
  {
    var h := [entry] + history;
    if |h| > HistoryLimit then h[..HistoryLimit] else h
  }

  /** The first history entry with the given id: `history.find((e) => e.id === id)`. */
  function FindEntry(history: seq<HistoryEntry>, id: string): (r: Option<nat>)
    ensures r.Some? ==> r.value < |history| && history[r.value].id == id
    ensures r.Some? ==> forall k :: 0 <= k < r.value ==> history[k].id != id
    ensures r.None? ==> forall k :: 0 <= k < |history| ==> history[k].id != id
  {
    FirstWithKey(history, (e: HistoryEntry) => e.id, id)
  }

  /** `pinResult`: flips `pinned` on the first entry with the id, if there is one. */
  function TogglePin(history: seq<HistoryEntry>, id: string): (r: seq<HistoryEntry>)
    ensures |r| == |history|
  {
    match FindEntry(history, id)
    case None => history
    case Some(k) => history[k := history[k].(pinned := !history[k].pinned)]
  }

  /**
   * Pinning touches one entry at most: the first with the id, and of it only
   * `pinned`; with no such entry the history is unchanged.
   */
  lemma TogglePinChangesOnlyFirstMatch(history: seq<HistoryEntry>, id: string)
    ensures FindEntry(history, id).None? ==> TogglePin(history, id) == history
    ensures FindEntry(history, id).Some? ==>
      var k := FindEntry(history, id).value;
      var r := TogglePin(history, id);
      r[k] == history[k].(pinned := !history[k].pinned)
      && forall i :: 0 <= i < |history| && i != k ==> r[i] == history[i]
  {
  }

  lemma {:induction false} FindEntryIgnoresPins(history: seq<HistoryEntry>, other: seq<HistoryEntry>, id: string)
    requires |other| == |history| && forall i :: 0 <= i < |history| ==> other[i].id == history[i].id
    ensures FindEntry(other, id) == FindEntry(history, id)
    decreases |history|
  {
    if history != [] {
      FindEntryIgnoresPins(history[1..], other[1..], id);
    }
  }

  /** Pinning the same id twice restores the history. */
  lemma TogglePinTwice(history: seq<HistoryEntry>, id: string)
    ensures TogglePin(TogglePin(history, id), id) == history
  {
    var once := TogglePin(history, id);
    FindEntryIgnoresPins(history, once, id);
  }

  /* ── saved queries ── */

  /** `saved.filter((q) => q.name !== name)`. */
  function Without(saved: seq<SavedQuery>, name: string): (r: seq<SavedQuery>)
    ensures |r| <= |saved|
    decreases |saved|
  {
    if saved == [] then []
    else (if saved[0].name != name then [saved[0]] else []) + Without(saved[1..], name)
  }

  /** An entry survives the filter exactly when it was there under another name. */
  lemma {:induction false} WithoutMembers(saved: seq<SavedQuery>, name: string, q: SavedQuery)
    ensures q in Without(saved, name) <==> q in saved && q.name != name
    decreases |saved|
  {
    if saved != [] {
      WithoutMembers(saved[1..], name, q);
      assert saved == [saved[0]] + saved[1..];
    }
  }

  lemma {:induction false} WithoutAppend(a: seq<SavedQuery>, b: seq<SavedQuery>, name: string)
    ensures Without(a + b, name) == Without(a, name) + Without(b, name)
    decreases |a|
  {
    if a == [] {
      assert a + b == b;
    } else {
      assert (a + b)[0] == a[0];
      assert (a + b)[1..] == a[1..] + b;
      WithoutAppend(a[1..], b, name);
    }
  }

  /** Filtering a name out twice is filtering it out once. */
  lemma {:induction false} WithoutTwice(saved: seq<SavedQuery>, name: string)
    ensures Without(Without(saved, name), name) == Without(saved, name)
    decreases |saved|
  {
    if saved != [] {
      var head := if saved[0].name != name then [saved[0]] else [];
      WithoutAppend(head, Without(saved[1..], name), name);
      WithoutTwice(saved[1..], name);
      assert Without(head, name) == head;
    }
  }

  /** `saveQuery` with a name: drop every query of that name, then append the new one. */
  function Saved(saved: seq<SavedQuery>, q: SavedQuery): (r: seq<SavedQuery>)
    ensures |r| >= 1 && r[|r| - 1] == q
  {
    Without(saved, q.name) + [q]
  }

  /**
   * After saving, the new query is the only one with its name, and the
   * other queries are those that were there, in the same order.
   */
  lemma SavedReplacesByName(saved: seq<SavedQuery>, q: SavedQuery)
    ensures forall i :: 0 <= i < |Saved(saved, q)| - 1 ==> Saved(saved, q)[i].name != q.name
    ensures Without(Saved(saved, q), q.name) == Without(saved, q.name)
  {
    var kept := Without(saved, q.name);
    forall i | 0 <= i < |kept|
      ensures kept[i].name != q.name
    {
      WithoutMembers(saved, q.name, kept[i]);
    }
    WithoutAppend(kept, [q], q.name);
    WithoutTwice(saved, q.name);
    assert Without([q], q.name) == [];
  }

  /** A name no saved query has filters nothing out. */
  lemma {:induction false} WithoutAbsent(saved: seq<SavedQuery>, name: string)
    requires forall i :: 0 <= i < |saved| ==> saved[i].name != name
    ensures Without(saved, name) == saved
    decreases |saved|
  {
    if saved != [] {
      WithoutAbsent(saved[1..], name);
    }
  }

  /* ── state ── */

  /** `DbState`: the saved queries and the history of one database path. */
  class DbState {
    var savedQueries: seq<SavedQuery>
    var history: seq<HistoryEntry>

    constructor()
      ensures savedQueries == [] && history == []
    {
      savedQueries := [];
      history := [];
    }

    /** The history never grows past its limit. */
    predicate Valid()
      reads this
    {
      |history| <= HistoryLimit
    }

    /** The history bookkeeping after a query ran. */
    method Record(entry: HistoryEntry)
      requires Valid()
      modifies this
      ensures Valid()
      ensures history == Remember(old(history), entry) && savedQueries == old(savedQueries)
    {
      history := [entry] + history;
      if |history| > HistoryLimit {
        history := history[..HistoryLimit];
      }
    }

    /** `saveQuery`: nothing when the name prompt was cancelled or left empty. */
    method SaveQuery(name: Option<string>, sql: string, createdAt: int)
      modifies this
      ensures name.None? || name.value == "" ==> savedQueries == old(savedQueries)
      ensures name.Some? && name.value != "" ==>
        savedQueries == Saved(old(savedQueries), SavedQuery(name.value, sql, createdAt))
      ensures history == old(history)
    {
      if name.None? || name.value == "" {
        return;
      }
      savedQueries := Without(savedQueries, name.value);
      savedQueries := savedQueries + [SavedQuery(name.value, sql, createdAt)];
    }

    /** `deleteSavedQuery`. */
    method DeleteSavedQuery(name: string)
      modifies this
      ensures savedQueries == Without(old(savedQueries), name) && history == old(history)
    {
      savedQueries := Without(savedQueries, name);
    }

    /** `pinResult`. */
    method PinResult(id: string)
      requires Valid()
      modifies this
      ensures Valid()
      ensures history == TogglePin(old(history), id) && savedQueries == old(savedQueries)
    {
      var k := FindEntry(history, id);
      if k.Some? {
        history := history[k.value := history[k.value].(pinned := !history[k.value].pinned)];
      }
    }
  }

  /**
   * The `executeQuery` and `aiExecute` handlers: run the statement, and only
   * when it returns, put an unpinned entry counting its result rows at the
   * front of the history. The entry's id and timestamp come from the clock
   * and the random generator and are given.
   */
  method RunAndRecord(db: Database, state: DbState, sql: string, id: string, timestamp: int)
    returns (reply: Result<QueryResult>)
    requires state.Valid()
    modifies db, state
    ensures old(db.db).None? ==> reply == Err(NotOpen) && unchanged(db)
    ensures old(db.db).Some? && IsReadStatement(Trim(sql)) ==>
      var o := db.engine.exec(old(db.db).value, Trim(sql));
      db.db == Some(o.image) && db.disk == old(db.disk) && db.dirty == old(db.dirty)
      && reply == (if o.Done? then Ok(ReadResult(o.value)) else Err(o.message))
    ensures old(db.db).Some? && !IsReadStatement(Trim(sql)) ==>
      var o := db.engine.run(old(db.db).value, Trim(sql), []);
      db.Wrote(o) && reply == (if o.Done? then Ok(QueryResult([], [], o.value)) else Err(o.message))
    ensures state.Valid() && state.savedQueries == old(state.savedQueries)
    ensures reply.Err? ==> state.history == old(state.history)
    ensures reply.Ok? ==>
      state.history == Remember(old(state.history), HistoryEntry(id, sql, timestamp, |reply.value.values|, false))
  {
    reply := db.ExecuteQuery(sql);
    if reply.Ok? {
      state.Record(HistoryEntry(id, sql, timestamp, |reply.value.values|, false));
    }
  }

  /** The module-level `stateStore`: one state per database path. */
  class StateStore {
    var states: map<string, DbState>

    constructor()
      ensures states == map[]
    {
      states := map[];
    }

    /** The state of a path: created empty on the first open, the same object afterwards. */
    method StateFor(path: string) returns (s: DbState)
      modifies this
      ensures path in old(states) ==> s == old(states)[path] && states == old(states)
      ensures path !in old(states) ==>
        fresh(s) && s.savedQueries == [] && s.history == [] && states == old(states)[path := s]
    {
      if path !in states {
        var created := new DbState();
        states := states[path := created];
      }
      s := states[path];
    }
  }
}
