/**
 * Loss detection and restore. A restore fills every empty table from the newest dump that has rows
 * for it; a pg_dump file, when there is one, is the last resort and only for a wiped database.
 */
module Restore {
  import opened BackupDumps

  /** A dump that passed verification, under its name. */
  datatype Source = Source(name: string, data: Tables)

  const SELF_REFILLING: set<string> := {"users", "audit_log", "access_requests"}

  function RowsIn(data: Tables, t: string): seq<Row> {
    if t in data then data[t] else []
  }

  predicate Empty(db: Tables, t: string) {
    RowsIn(db, t) == []
  }

  /** Sources are tried in order; the one named `barred` is passed over. */
  predicate Serves(d: Source, barred: Option<string>, t: string) {
    barred != Some(d.name) && RowsIn(d.data, t) != []
  }

  /** The rows an empty table is filled with. */
  function Pick(sources: seq<Source>, barred: Option<string>, t: string): Option<seq<Row>> {
    if sources == [] then None
    else if Serves(sources[0], barred, t) then Some(sources[0].data[t])
    else Pick(sources[1..], barred, t)
  }

  /** JSON dumps, newest first, and the optional pg_dump fallback behind them. */
  datatype Supply = Supply(dumps: seq<Source>, fallback: Option<Source>) {

    function All(): seq<Source> {
      if fallback.Some? then dumps + [fallback.value] else dumps
    }

    /** pg_dump names carry a prefix no JSON dump has. */
    predicate NamesApart() {
      fallback.Some? ==> forall d :: d in dumps ==> d.name != fallback.value.name
    }

    /** Every table the fallback has rows for, apart from the self-refilling ones, is empty. */
    ghost predicate Wiped(db: Tables, tables: seq<string>)
      requires fallback.Some?
    {
      forall t :: t in fallback.value.data && fallback.value.data[t] != [] && t in tables && t !in SELF_REFILLING
                  ==> Empty(db, t)
    }

    /** The fallback is passed over unless the whole database looks wiped. */
    ghost function Barred(db: Tables, tables: seq<string>): Option<string> {
      if fallback.Some? && !Wiped(db, tables) then Some(fallback.value.name) else None
    }

    ghost function Filled(db: Tables, tables: seq<string>, t: string): seq<Row> {
      var rows := Pick(All(), Barred(db, tables), t);
      if t in tables && Empty(db, t) && rows.Some? then rows.value else RowsIn(db, t)
    }

    /** The database after a restore. */
    ghost predicate IsRestored(db: Tables, tables: seq<string>, after: Tables) {
      forall t :: RowsIn(after, t) == Filled(db, tables, t)
    }
  }

  /** Loss: some recent dump has rows for a table that is empty now. The pg_dump file is not consulted. */
  ghost predicate Lost(dumps: seq<Source>, tables: seq<string>, db: Tables) {
    exists d, t :: d in dumps && t in d.data && d.data[t] != [] && t in tables && Empty(db, t)
  }

  /** A table is lost when it is known, has no rows, and some recent dump has rows for it. */
  lemma LostIff(dumps: seq<Source>, tables: seq<string>, db: Tables)
    ensures Lost(dumps, tables, db)
       <==> exists i, t :: 0 <= i < |dumps| && t in tables && (t in db ==> db[t] == []) && t in dumps[i].data && dumps[i].data[t] != []
  {
    if d, t :| d in dumps && t in d.data && d.data[t] != [] && t in tables && Empty(db, t) {
      var i :| 0 <= i < |dumps| && dumps[i] == d;
      assert t in tables && t in dumps[i].data;
    }
  }

  // ----- The loops -----

  method IsWiped(s: Supply, db: Tables, tables: seq<string>) returns (allowed: bool)
    requires s.fallback.Some?
    ensures allowed <==> s.Wiped(db, tables)
  {
    allowed := true;
    var data := s.fallback.value.data;
    var names := data.Keys;
    while names != {}
      invariant names <= data.Keys
      invariant allowed <==> forall t :: t in data && t !in names && data[t] != [] && t in tables && t !in SELF_REFILLING ==> Empty(db, t)
      decreases |names|
    {
      var t :| t in names;
      names := names - {t};
      if data[t] != [] && t in tables && t !in SELF_REFILLING && !Empty(db, t) {
        allowed := false;
      }
    }
  }

  /** Restore every empty table, each from the newest source that still has rows for it. */
  method RestoreTables(s: Supply, tables: seq<string>, db: Tables) returns (after: Tables, filled: set<string>)
    ensures s.IsRestored(db, tables, after)
    ensures forall t :: t in filled <==> t in tables && Empty(db, t) && !Empty(after, t)
  {
    hide Pick, Serves;
    var barred := None;
    if s.fallback.Some? {
      var allowed := IsWiped(s, db, tables);
      if !allowed { barred := Some(s.fallback.value.name); }
    }
    var sources := s.All();
    after, filled := db, {};
    for i := 0 to |tables|
      invariant forall t :: t in filled <==> t in tables[..i] && Empty(db, t) && Pick(sources, barred, t).Some?
      invariant forall t :: RowsIn(after, t) == if t in filled then Pick(sources, barred, t).value else RowsIn(db, t)
      invariant forall t :: t in filled ==> RowsIn(after, t) != []
    {
      var t := tables[i];
      if Empty(after, t) {
        var rows := FirstRows(sources, barred, t);
        if rows.Some? {
          after := after[t := rows.value];
          filled := filled + {t};
        }
      }
    }
    assert tables[..|tables|] == tables;
  }

  /** Walk back through the sources until one has rows for the table. */
  method FirstRows(sources: seq<Source>, barred: Option<string>, t: string) returns (rows: Option<seq<Row>>)
    ensures rows == Pick(sources, barred, t)
    ensures rows.Some? ==> rows.value != []
  {
    for i := 0 to |sources|
      invariant Pick(sources, barred, t) == Pick(sources[i..], barred, t)
    {
      if barred == Some(sources[i].name) { continue; }
      var found := RowsIn(sources[i].data, t);
      if found == [] { continue; }
      return Some(found);
    }
    rows := None;
  }

  method Detect(dumps: seq<Source>, tables: seq<string>, db: Tables) returns (lost: bool)
    ensures lost <==> Lost(dumps, tables, db)
  {
    var known: set<string> := {};
    for i := 0 to |dumps|
      invariant forall t :: t in known <==> exists k :: 0 <= k < i && t in dumps[k].data && dumps[k].data[t] != []
    {
      var data := dumps[i].data;
      known := known + set t | t in data.Keys && data[t] != [];
    }
    var names := known;
    while names != {}
      invariant names <= known
      invariant forall t :: t in known && t !in names && t in tables ==> !Empty(db, t)
      decreases |names|
    {
      var t :| t in names;
      names := names - {t};
      if t in tables && Empty(db, t) {
        return true;
      }
    }
    lost := false;
  }

  // ----- What a restore guarantees -----

  /** `Pick` finds rows iff some source serves the table, and then those of the first that does. */
  lemma {:induction false} PickIsFirst(sources: seq<Source>, barred: Option<string>, t: string)
    ensures Pick(sources, barred, t).None? <==> forall i :: 0 <= i < |sources| ==> !Serves(sources[i], barred, t)
    ensures Pick(sources, barred, t).Some? ==>
              exists i :: 0 <= i < |sources| && Serves(sources[i], barred, t)
                          && Pick(sources, barred, t).value == RowsIn(sources[i].data, t)
                          && forall j :: 0 <= j < i ==> !Serves(sources[j], barred, t)
  {
    if sources != [] {
      PickIsFirst(sources[1..], barred, t);
      if Serves(sources[0], barred, t) {
        assert Pick(sources, barred, t).value == RowsIn(sources[0].data, t);
      } else if Pick(sources[1..], barred, t).Some? {
        var i :| 0 <= i < |sources[1..]| && Serves(sources[1..][i], barred, t)
                 && Pick(sources[1..], barred, t).value == RowsIn(sources[1..][i].data, t)
                 && forall j :: 0 <= j < i ==> !Serves(sources[1..][j], barred, t);
        assert sources[i + 1] == sources[1..][i];
        forall j | 0 <= j < i + 1
          ensures !Serves(sources[j], barred, t)
        {
          if j > 0 { assert sources[j] == sources[1..][j - 1]; }
        }
      } else {
        forall j | 0 <= j < |sources|
          ensures !Serves(sources[j], barred, t)
        {
          if j > 0 { assert sources[j] == sources[1..][j - 1]; }
        }
      }
    }
  }

  lemma {:induction false} PickSome(sources: seq<Source>, barred: Option<string>, t: string, d: Source)
    requires d in sources && Serves(d, barred, t)
    ensures Pick(sources, barred, t).Some?
  {
    if d != sources[0] {
      assert d in sources[1..];
      PickSome(sources[1..], barred, t, d);
    }
  }

  lemma {:induction false} PickNotEmpty(sources: seq<Source>, barred: Option<string>, t: string)
    ensures Pick(sources, barred, t).Some? ==> Pick(sources, barred, t).value != []
    ensures Pick(sources, barred, t).Some? ==> Pick(sources, None, t).Some?
  {
    if sources != [] {
      PickNotEmpty(sources[1..], barred, t);
    }
  }

  /** Tables that had rows are untouched, and no table is emptied. */
  lemma OnlyEmptyTablesChange(s: Supply, tables: seq<string>, db: Tables, after: Tables, t: string)
    requires s.IsRestored(db, tables, after)
    ensures !Empty(db, t) || t !in tables ==> RowsIn(after, t) == RowsIn(db, t)
    ensures Empty(after, t) ==> Empty(db, t)
  {
    assert RowsIn(after, t) == s.Filled(db, tables, t);
  }

  /** Detection and restore agree: after a restore the same dumps show no loss. */
  lemma NoLossAfterRestore(s: Supply, tables: seq<string>, db: Tables, after: Tables)
    requires s.NamesApart() && s.IsRestored(db, tables, after)
    ensures !Lost(s.dumps, tables, after)
  {
    var barred := s.Barred(db, tables);
    forall d, t | d in s.dumps && t in d.data && d.data[t] != [] && t in tables
      ensures !Empty(after, t)
    {
      assert RowsIn(after, t) == s.Filled(db, tables, t);
      PickSome(s.All(), barred, t, d);
      PickNotEmpty(s.All(), barred, t);
    }
  }

  /** The prefix matters: under a shared name the pg_dump rule also bars a JSON dump, and the loss stays. */
  lemma SharedNameHidesDump(t: string, row: Row)
    requires t !in SELF_REFILLING && t != "x"
    ensures var s := Supply([Source("n", map[t := [row]])], Some(Source("n", map["x" := [row]])));
            var db := map[t := [], "x" := [row]];
            s.IsRestored(db, [t, "x"], db) && Lost(s.dumps, [t, "x"], db)
  {
    var d := Source("n", map[t := [row]]);
    var s := Supply([d], Some(Source("n", map["x" := [row]])));
    var db := map[t := [], "x" := [row]];
    var tables := [t, "x"];
    assert d in s.dumps && t in d.data && d.data[t] != [] && t in tables && Empty(db, t);
    assert "x" in tables && !Empty(db, "x");
    assert s.Barred(db, tables) == Some("n");
    forall u
      ensures Pick(s.All(), Some("n"), u).None?
    {
      PickIsFirst(s.All(), Some("n"), u);
    }
  }

  /** The fallback is barred, and every source with rows for this lost table goes by its name. */
  ghost predicate Shadowed(s: Supply, tables: seq<string>, db: Tables, t: string) {
    && t in tables && Empty(db, t) && s.Barred(db, tables).Some?
    && (exists d :: d in s.dumps && RowsIn(d.data, t) != [])
    && (forall d :: d in s.All() && RowsIn(d.data, t) != [] ==> s.Barred(db, tables) == Some(d.name))
  }

  /** Whatever the names, loss remains after a restore exactly for such a table. */
  lemma LossRemainsIff(s: Supply, tables: seq<string>, db: Tables, after: Tables)
    requires s.IsRestored(db, tables, after)
    ensures Lost(s.dumps, tables, after) <==> exists t :: Shadowed(s, tables, db, t)
  {
    var barred := s.Barred(db, tables);
    forall t | t in tables
      ensures Empty(after, t) <==> Empty(db, t) && Pick(s.All(), barred, t).None?
    {
      assert RowsIn(after, t) == s.Filled(db, tables, t);
      PickNotEmpty(s.All(), barred, t);
    }
    forall t
      ensures Shadowed(s, tables, db, t) <==>
                t in tables && Empty(after, t) && exists d :: d in s.dumps && RowsIn(d.data, t) != []
    {
      NoneServes(s, barred, t);
    }
    if t :| Shadowed(s, tables, db, t) {
      var d :| d in s.dumps && RowsIn(d.data, t) != [];
      assert t in d.data && d.data[t] != [];
    }
    if d, t :| d in s.dumps && t in d.data && d.data[t] != [] && t in tables && Empty(after, t) {
      assert RowsIn(d.data, t) != [];
      assert Shadowed(s, tables, db, t);
    }
  }

  /** No source serves a table iff every source with rows for it is the barred one. */
  lemma NoneServes(s: Supply, barred: Option<string>, t: string)
    ensures Pick(s.All(), barred, t).None? <==>
              forall d :: d in s.All() && RowsIn(d.data, t) != [] ==> barred == Some(d.name)
    ensures (exists d :: d in s.dumps && RowsIn(d.data, t) != []) && Pick(s.All(), barred, t).None? ==> barred.Some?
  {
    PickIsFirst(s.All(), barred, t);
    forall d | d in s.All() && RowsIn(d.data, t) != [] && barred != Some(d.name)
      ensures Pick(s.All(), barred, t).Some?
    {
      PickSome(s.All(), barred, t, d);
    }
  }

  /** A filled table holds the rows of the newest dump that has any, or else those of the fallback. */
  lemma FilledFromNewest(s: Supply, tables: seq<string>, db: Tables, after: Tables, t: string)
    requires s.NamesApart() && s.IsRestored(db, tables, after)
    requires t in tables && Empty(db, t) && !Empty(after, t)
    ensures (exists i :: 0 <= i < |s.dumps| && RowsIn(s.dumps[i].data, t) == RowsIn(after, t)
                         && forall j :: 0 <= j < i ==> RowsIn(s.dumps[j].data, t) == [])
         || (s.fallback.Some? && s.Wiped(db, tables) && RowsIn(s.fallback.value.data, t) == RowsIn(after, t)
             && forall j :: 0 <= j < |s.dumps| ==> RowsIn(s.dumps[j].data, t) == [])
  {
    var barred := s.Barred(db, tables);
    assert RowsIn(after, t) == s.Filled(db, tables, t);
    PickIsFirst(s.All(), barred, t);
    var i :| 0 <= i < |s.All()| && Serves(s.All()[i], barred, t)
             && Pick(s.All(), barred, t).value == RowsIn(s.All()[i].data, t)
             && forall j :: 0 <= j < i ==> !Serves(s.All()[j], barred, t);
    forall j | 0 <= j < i && j < |s.dumps|
      ensures RowsIn(s.dumps[j].data, t) == []
    {
      assert s.All()[j] == s.dumps[j] && s.dumps[j] in s.dumps;
      assert !Serves(s.All()[j], barred, t);
    }
    if i < |s.dumps| {
      assert s.All()[i] == s.dumps[i];
    }
  }

  /** Every known table the pg_dump has rows for is empty, those that fill up by themselves aside. */
  ghost predicate LooksWiped(dump: Tables, db: Tables, tables: seq<string>) {
    forall u :: u in tables && u in dump && dump[u] != [] && u != "users" && u != "audit_log" && u != "access_requests" ==>
      u in db ==> db[u] == []
  }

  /** The pg_dump is the last resort: it fills a table no JSON dump has rows for if and only if the database looks wiped. */
  lemma FallbackIff(s: Supply, tables: seq<string>, db: Tables, after: Tables, t: string)
    requires s.IsRestored(db, tables, after) && s.fallback.Some? && t in tables && Empty(db, t)
    requires forall d :: d in s.dumps ==> RowsIn(d.data, t) == []
    ensures RowsIn(after, t) == if LooksWiped(s.fallback.value.data, db, tables) then RowsIn(s.fallback.value.data, t) else []
  {
    var barred := s.Barred(db, tables);
    assert RowsIn(after, t) == s.Filled(db, tables, t);
    assert s.Wiped(db, tables) <==> LooksWiped(s.fallback.value.data, db, tables);
    PickIsFirst(s.All(), barred, t);
    if Pick(s.All(), barred, t).Some? {
      var i :| 0 <= i < |s.All()| && Serves(s.All()[i], barred, t)
               && Pick(s.All(), barred, t).value == RowsIn(s.All()[i].data, t);
      assert forall j :: 0 <= j < |s.dumps| ==> s.All()[j] in s.dumps;
    } else {
      assert s.All()[|s.dumps|] == s.fallback.value;
      assert !Serves(s.All()[|s.dumps|], barred, t);
    }
  }

  /** What looks wiped after a restore looked wiped before, so the second restore has no more sources. */
  lemma NoNewSource(s: Supply, tables: seq<string>, db: Tables, once: Tables, t: string)
    requires s.IsRestored(db, tables, once)
    ensures Pick(s.All(), s.Barred(once, tables), t).Some? ==> Pick(s.All(), s.Barred(db, tables), t).Some?
  {
    forall u
      ensures Empty(once, u) ==> Empty(db, u)
    {
      OnlyEmptyTablesChange(s, tables, db, once, u);
    }
    assert s.fallback.Some? && s.Wiped(once, tables) ==> s.Wiped(db, tables);
    PickNotEmpty(s.All(), s.Barred(once, tables), t);
  }

  /** A second restore changes nothing, with or without the same fallback on offer. */
  lemma SecondRestoreChangesNothing(s: Supply, tables: seq<string>, db: Tables, once: Tables, twice: Tables)
    requires s.IsRestored(db, tables, once) && s.IsRestored(once, tables, twice)
    ensures forall t :: RowsIn(twice, t) == RowsIn(once, t)
  {
    forall t
      ensures RowsIn(twice, t) == RowsIn(once, t)
    {
      assert RowsIn(once, t) == s.Filled(db, tables, t);
      assert RowsIn(twice, t) == s.Filled(once, tables, t);
      NoNewSource(s, tables, db, once, t);
      PickNotEmpty(s.All(), s.Barred(db, tables), t);
    }
  }

  /** Nor does one from the same dumps alone, once an applied fallback has been withdrawn. */
  lemma WithdrawnFallbackChangesNothing(s: Supply, tables: seq<string>, db: Tables, once: Tables, twice: Tables)
    requires s.NamesApart() && s.IsRestored(db, tables, once)
    requires Supply(s.dumps, None).IsRestored(once, tables, twice)
    ensures forall t :: RowsIn(twice, t) == RowsIn(once, t)
  {
    var barred := s.Barred(db, tables);
    forall t
      ensures RowsIn(twice, t) == RowsIn(once, t)
    {
      assert RowsIn(once, t) == s.Filled(db, tables, t);
      assert RowsIn(twice, t) == Supply(s.dumps, None).Filled(once, tables, t);
      PickNotEmpty(s.All(), barred, t);
      PickIsFirst(s.dumps, None, t);
      if i :| 0 <= i < |s.dumps| && Serves(s.dumps[i], None, t) {
        assert s.dumps[i] in s.dumps && s.All()[i] == s.dumps[i];
        PickSome(s.All(), barred, t, s.dumps[i]);
      }
    }
  }

  // ----- Dump and restore together -----

  /** The verified dumps of the newest `depth` files, newest first. */
  function Recent(history: seq<Dump>, depth: nat): seq<Source> {
    if history == [] || depth == 0 then []
    else
      var last := history[|history| - 1];
      var rest := Recent(history[..|history| - 1], depth - 1);
      if last.valid then [Source("dump", last.data)] + rest else rest
  }

  lemma {:induction false} RecentIs(history: seq<Dump>, depth: nat, data: Tables)
    ensures (exists d :: d in Recent(history, depth) && d.data == data)
       <==> exists i :: 0 <= i < |history| && i >= |history| - depth && history[i].valid && history[i].data == data
    ensures depth > 0 && history != [] && history[|history| - 1].valid ==>
              Recent(history, depth) != [] && Recent(history, depth)[0].data == history[|history| - 1].data
  {
    if history != [] && depth > 0 {
      var m := |history| - 1;
      var last, rest := history[m], Recent(history[..m], depth - 1);
      RecentIs(history[..m], depth - 1, data);
      var r := Recent(history, depth);
      assert last.valid ==> r[0] == Source("dump", last.data) && r[0] in r;
      assert forall d :: d in r <==> d in rest || (last.valid && d == Source("dump", last.data));
      assert forall i :: 0 <= i < m ==> history[..m][i] == history[i];
    }
  }

  /**
   * Wiping any tables and restoring from the dumps brings back a table that was current in the
   * newest dump exactly when it had rows, or no recent dump holds older rows for it.
   */
  lemma WipeThenRestore(tg: Target, s: State, depth: nat, wiped: Tables, after: Tables, t: string)
    requires tg.Base(s.history).Some? && depth > 0 && t in tg.tables && Carries(tg.Base(s.history).value, s.db, t)
    requires Empty(wiped, t)
    requires Supply(Recent(s.history, depth), None).IsRestored(wiped, tg.tables, after)
    ensures RowsIn(after, t) == s.db[t] <==>
              s.db[t] != [] || forall d :: d in Recent(s.history, depth) ==> RowsIn(d.data, t) == []
  {
    var dumps := Recent(s.history, depth);
    var supply := Supply(dumps, None);
    assert RowsIn(after, t) == supply.Filled(wiped, tg.tables, t);
    var newest := dumps[0];
    assert newest.data == tg.Base(s.history).value;
    PickIsFirst(dumps, None, t);
    PickNotEmpty(dumps, None, t);
    forall d | d in dumps && Pick(dumps, None, t).None?
      ensures RowsIn(d.data, t) == []
    {
      var i :| 0 <= i < |dumps| && dumps[i] == d;
      assert !Serves(dumps[i], None, t);
    }
  }
}
