/**
 * Incremental dumps. A write-triggered dump re-reads only the tables that commits reported dirty
 * and carries the rest over from the previous dump; a periodic dump reads every table. Commits
 * may land between any two table reads of a dump.
 */
module BackupDumps {

  type Row = map<string, string>

  type Tables = map<string, seq<Row>>

  /** `valid`: the file decrypts and its signature matches. */
  datatype Dump = Dump(data: Tables, valid: bool)

  /** A dump being taken: `dirty` is what it took from the pending set, `todo` the tables still to read. */
  datatype Flight = Flight(dirty: set<string>, data: Tables, todo: seq<string>)

  datatype Option<+T> = None | Some(value: T)

  datatype State = State(db: Tables, pending: set<string>, history: seq<Dump>, flight: Option<Flight>)

  datatype Event =
    | Commit(changes: Tables, dirty: set<string>)   // dirty: what the session reported
    | StartDebounced
    | StartFull
    | ReadNext
    | Finish
    | Fail
    | Damage                                        // the newest dump file no longer verifies

  predicate Distinct(names: seq<string>) {
    forall i, j :: 0 <= i < j < |names| ==> names[i] != names[j]
  }

  /** Where a slice ends that stops before `stop`: a negative stop counts from the end. */
  function SliceEnd(n: nat, stop: int): (e: nat)
    ensures e <= n
  {
    if stop >= n then n
    else if stop >= 0 then stop
    else if n + stop >= 0 then n + stop
    else 0
  }

  /** The fixed parts: the target's tables in dependency order, and the configured number of dumps to keep. */
  datatype Target = Target(tables: seq<string>, retention: int) {

    predicate Valid() {
      Distinct(tables)
    }

    /** The tables of `names`, in the order they are read. */
    function Listed(names: set<string>, k: nat := 0): (r: seq<string>)
      requires k <= |tables|
      ensures forall t :: t in r <==> t in tables[k..] && t in names
      decreases |tables| - k
    {
      if k == |tables| then []
      else if tables[k] in names then [tables[k]] + Listed(names, k + 1)
      else Listed(names, k + 1)
    }

    /** What is left after deleting the slice that stops before `length - retention`. */
    function Rotated(history: seq<Dump>): seq<Dump> {
      history[SliceEnd(|history|, |history| - retention)..]
    }

    /** The dump to carry forward from, if there is one and it verifies. */
    function Base(history: seq<Dump>): Option<Tables> {
      if history != [] && history[|history| - 1].valid then Some(history[|history| - 1].data) else None
    }

    ghost predicate Enabled(s: State, e: Event) {
      match e
      case Commit(changes, _) => changes.Keys <= s.db.Keys
      case StartDebounced => s.flight.None?
      case StartFull => s.flight.None?
      case ReadNext => s.flight.Some? && s.flight.value.todo != [] && s.flight.value.todo[0] in s.db
      case Finish => s.flight.Some? && s.flight.value.todo == []
      case Fail => s.flight.Some?
      case Damage => s.history != []
    }

    ghost function Next(s: State, e: Event): State
      requires Enabled(s, e)
    {
      match e
      case Commit(changes, dirty) => s.(db := s.db + changes, pending := s.pending + dirty)
      case StartDebounced =>
        if s.pending == {} then s
        else
          var b := Base(s.history);
          s.(pending := {}, flight := Some(if b.Some? then Flight(s.pending, b.value, Listed(s.pending))
                                            else Flight(s.pending, map[], tables)))
      case StartFull => s.(flight := Some(Flight({}, map[], tables)))
      case ReadNext =>
        var f := s.flight.value;
        s.(flight := Some(f.(data := f.data[f.todo[0] := s.db[f.todo[0]]], todo := f.todo[1..])))
      case Finish => s.(flight := None, history := Rotated(s.history + [Dump(s.flight.value.data, true)]))
      case Fail => s.(flight := None)
      case Damage =>
        var n := |s.history| - 1;
        s.(history := s.history[n := s.history[n].(valid := false)])
    }
  }

  /**
   * What no dump is going to notice: `lost` holds the tables that failed dumps took from the pending
   * set and those changed without being reported; `flying` is the part of it that the dump being
   * taken will not repair.
   */
  datatype Blind = Blind(lost: set<string>, flying: set<string>)

  ghost function Unseen(tg: Target, s: State, e: Event, b: Blind): Blind
    requires tg.Enabled(s, e)
  {
    match e
    case Commit(changes, dirty) =>
      var more := changes.Keys - dirty;
      Blind(b.lost + more, b.flying + if s.flight.Some? then set t | t in more && t !in s.flight.value.todo else {})
    case StartDebounced =>
      var s' := tg.Next(s, e);
      if s'.flight.None? then b else b.(flying := set t | t in b.lost && t !in s'.flight.value.todo)
    case StartFull => b.(flying := set t | t in b.lost && t !in tg.tables)
    case ReadNext => b
    case Finish => Blind(b.flying, {})
    case Fail => Blind(b.lost + s.flight.value.dirty, {})
    case Damage => b
  }

  ghost predicate Carries(data: Tables, db: Tables, t: string) {
    t in data && t in db && data[t] == db[t]
  }

  /** Outside `but`, the dump data hold exactly the current rows of the target's tables. */
  ghost predicate Current(tg: Target, data: Tables, db: Tables, but: set<string>) {
    forall t :: t in tg.tables && t !in but ==> Carries(data, db, t)
  }

  ghost function Dirty(s: State): set<string> {
    if s.flight.Some? then s.pending + s.flight.value.dirty else s.pending
  }

  ghost function Todo(s: State): set<string> {
    if s.flight.Some? then set t | t in s.flight.value.todo else {}
  }

  ghost predicate NewestCurrent(tg: Target, s: State, b: Blind) {
    tg.Base(s.history).Some? ==> Current(tg, tg.Base(s.history).value, s.db, Dirty(s) + b.lost)
  }

  ghost predicate FlightCurrent(tg: Target, s: State, b: Blind) {
    s.flight.Some? ==>
      && Current(tg, s.flight.value.data, s.db, s.pending + Todo(s) + b.flying)
      && (forall t :: t in s.flight.value.todo ==> t in tg.tables)
      && b.flying !! Todo(s)
      && Distinct(s.flight.value.todo)
  }

  ghost predicate Inv(tg: Target, s: State, b: Blind) {
    && (forall t :: t in tg.tables ==> t in s.db)
    && NewestCurrent(tg, s, b)
    && FlightCurrent(tg, s, b)
  }

  // ----- Each step keeps the invariant -----

  lemma CommitKeeps(tg: Target, s: State, b: Blind, e: Event)
    requires Inv(tg, s, b) && tg.Enabled(s, e) && e.Commit?
    ensures Inv(tg, tg.Next(s, e), Unseen(tg, s, e, b))
  {
  }

  lemma {:induction false} ListedDistinct(tg: Target, names: set<string>, k: nat)
    requires tg.Valid() && k <= |tg.tables|
    ensures Distinct(tg.Listed(names, k))
    decreases |tg.tables| - k
  {
    if k < |tg.tables| {
      ListedDistinct(tg, names, k + 1);
      assert tg.tables[k] !in tg.Listed(names, k + 1);
    }
  }

  lemma StartKeeps(tg: Target, s: State, b: Blind, e: Event)
    requires tg.Valid() && Inv(tg, s, b) && tg.Enabled(s, e) && (e.StartDebounced? || e.StartFull?)
    ensures Inv(tg, tg.Next(s, e), Unseen(tg, s, e, b))
  {
    ListedDistinct(tg, s.pending, 0);
    var s' := tg.Next(s, e);
    var b' := Unseen(tg, s, e, b);
    if s'.flight.Some? {
      assert tg.tables[0..] == tg.tables;
      forall t | t in tg.tables && t !in s'.pending + Todo(s') + b'.flying
        ensures Carries(s'.flight.value.data, s'.db, t)
      {
        assert t !in s'.flight.value.todo;
        assert e.StartDebounced? && tg.Base(s.history).Some?;
        assert t in tg.tables[0..];
        assert t !in Dirty(s) + b.lost;
      }
    }
  }

  /**
   * A write-triggered dump takes all of the pending set. It reads the dirty tables and carries the
   * rest over when the newest dump verifies; otherwise it carries nothing and reads every table.
   */
  lemma DebouncedReads(tg: Target, s: State, t: string)
    requires s.flight.None? && s.pending != {}
    ensures var s' := tg.Next(s, StartDebounced);
      && s'.pending == {} && s'.db == s.db && s'.history == s.history && s'.flight.Some?
      && s'.flight.value.dirty == s.pending
      && var newest := |s.history| - 1;
         if newest >= 0 && s.history[newest].valid
         then s'.flight.value.data == s.history[newest].data && (t in s'.flight.value.todo <==> t in tg.tables && t in s.pending)
         else s'.flight.value.data == map[] && s'.flight.value.todo == tg.tables
  {
    assert tg.tables[0..] == tg.tables;
  }

  lemma ReadKeeps(tg: Target, s: State, b: Blind)
    requires Inv(tg, s, b) && tg.Enabled(s, ReadNext)
    ensures Inv(tg, tg.Next(s, ReadNext), b)
  {
    var f := s.flight.value;
    var s' := tg.Next(s, ReadNext);
    forall t | t in tg.tables && t !in s'.pending + Todo(s') + b.flying
      ensures Carries(s'.flight.value.data, s'.db, t)
    {
      if t != f.todo[0] {
        assert t !in Todo(s);
      }
    }
  }

  lemma NewestAfterFinish(tg: Target, s: State)
    requires tg.Enabled(s, Finish)
    ensures tg.Base(tg.Next(s, Finish).history) == if tg.retention <= 0 then None else Some(s.flight.value.data)
  {
  }

  lemma EndKeeps(tg: Target, s: State, b: Blind, e: Event)
    requires Inv(tg, s, b) && tg.Enabled(s, e) && (e.Finish? || e.Fail? || e.Damage?)
    ensures Inv(tg, tg.Next(s, e), Unseen(tg, s, e, b))
  {
    if e.Finish? {
      NewestAfterFinish(tg, s);
    }
  }

  lemma StepKeeps(tg: Target, s: State, b: Blind, e: Event)
    requires tg.Valid() && Inv(tg, s, b) && tg.Enabled(s, e)
    ensures Inv(tg, tg.Next(s, e), Unseen(tg, s, e, b))
  {
    hide Inv;
    match e
    case Commit(_, _) => CommitKeeps(tg, s, b, e);
    case StartDebounced => StartKeeps(tg, s, b, e);
    case StartFull => StartKeeps(tg, s, b, e);
    case ReadNext => ReadKeeps(tg, s, b);
    case Finish => EndKeeps(tg, s, b, e);
    case Fail => EndKeeps(tg, s, b, e);
    case Damage => EndKeeps(tg, s, b, e);
  }

  // ----- Runs -----

  ghost predicate Possible(tg: Target, s: State, run: seq<Event>)
    decreases |run|
  {
    run == [] || (tg.Enabled(s, run[0]) && Possible(tg, tg.Next(s, run[0]), run[1..]))
  }

  ghost function After(tg: Target, s: State, run: seq<Event>): State
    requires Possible(tg, s, run)
    decreases |run|
  {
    if run == [] then s else After(tg, tg.Next(s, run[0]), run[1..])
  }

  ghost function BlindAfter(tg: Target, s: State, run: seq<Event>, b: Blind): Blind
    requires Possible(tg, s, run)
    decreases |run|
  {
    if run == [] then b else BlindAfter(tg, tg.Next(s, run[0]), run[1..], Unseen(tg, s, run[0], b))
  }

  lemma {:induction false} RunKeeps(tg: Target, s: State, run: seq<Event>, b: Blind)
    requires tg.Valid() && Inv(tg, s, b) && Possible(tg, s, run)
    ensures Inv(tg, After(tg, s, run), BlindAfter(tg, s, run, b))
    decreases |run|
  {
    hide Inv, Unseen, Target.Valid, Target.Next, Target.Enabled;
    if run != [] {
      StepKeeps(tg, s, b, run[0]);
      RunKeeps(tg, tg.Next(s, run[0]), run[1..], Unseen(tg, s, run[0], b));
    }
  }

  ghost predicate Fresh(tg: Target, s: State) {
    s.history == [] && s.flight.None? && forall t :: t in tg.tables ==> t in s.db
  }

  lemma FreshInv(tg: Target, s: State)
    requires Fresh(tg, s)
    ensures Inv(tg, s, Blind({}, {}))
  {
  }

  /** Over every run, a table that is neither pending, in flight nor blind is current in the newest dump. */
  lemma NewestDumpIsCurrent(tg: Target, start: State, run: seq<Event>)
    requires tg.Valid() && Fresh(tg, start) && Possible(tg, start, run)
    ensures var s := After(tg, start, run);
      tg.Base(s.history).Some? ==>
        Current(tg, tg.Base(s.history).value, s.db, Dirty(s) + BlindAfter(tg, start, run, Blind({}, {})).lost)
  {
    hide Target.Base, Current, Dirty, After, BlindAfter;
    FreshInv(tg, start);
    RunKeeps(tg, start, run, Blind({}, {}));
  }

  // ----- Runs in which nothing goes unseen -----

  /** Every commit reports what it changed, and no dump that took dirty tables fails. */
  ghost predicate Smooth(tg: Target, s: State, run: seq<Event>)
    requires Possible(tg, s, run)
    decreases |run|
  {
    run == [] ||
    (&& (run[0].Commit? ==> run[0].changes.Keys <= run[0].dirty)
     && (run[0].Fail? ==> s.flight.value.dirty == {})
     && Smooth(tg, tg.Next(s, run[0]), run[1..]))
  }

  lemma {:induction false} SmoothSeesAll(tg: Target, s: State, run: seq<Event>)
    requires Possible(tg, s, run) && Smooth(tg, s, run)
    ensures BlindAfter(tg, s, run, Blind({}, {})) == Blind({}, {})
    decreases |run|
  {
    if run != [] {
      assert Unseen(tg, s, run[0], Blind({}, {})) == Blind({}, {});
      SmoothSeesAll(tg, tg.Next(s, run[0]), run[1..]);
    }
  }

  /** What a full dump of an unchanging database holds. */
  ghost function FullDump(tg: Target, db: Tables): Tables
    requires forall t :: t in tg.tables ==> t in db
  {
    map t | t in tg.tables :: db[t]
  }

  ghost function Restricted(tg: Target, data: Tables): Tables {
    map t | t in tg.tables && t in data :: data[t]
  }

  /**
   * On every smooth run, whenever nothing is pending and no dump is being taken, the newest dump,
   * however it was pieced together, is the full dump of the current database.
   */
  lemma IncrementalEqualsFull(tg: Target, start: State, run: seq<Event>)
    requires tg.Valid() && Fresh(tg, start) && Possible(tg, start, run) && Smooth(tg, start, run)
    requires var s := After(tg, start, run); s.pending == {} && s.flight.None? && tg.Base(s.history).Some?
    ensures var s := After(tg, start, run);
      && (forall t :: t in tg.tables ==> t in s.db)
      && Restricted(tg, tg.Base(s.history).value) == FullDump(tg, s.db)
  {
    NewestDumpIsCurrent(tg, start, run);
    SmoothSeesAll(tg, start, run);
    RunKeeps(tg, start, run, Blind({}, {}));
    var s := After(tg, start, run);
    CurrentIsFull(tg, tg.Base(s.history).value, s.db);
  }

  lemma CurrentIsFull(tg: Target, data: Tables, db: Tables)
    requires Current(tg, data, db, {}) && forall t :: t in tg.tables ==> t in db
    ensures Restricted(tg, data) == FullDump(tg, db)
  {
    forall t | t in tg.tables
      ensures Carries(data, db, t)
    {
    }
  }

  /** Reading table after table without commits in between. */
  function Reads(n: nat): seq<Event> {
    if n == 0 then [Finish] else [ReadNext] + Reads(n - 1)
  }

  lemma NothingToRead(tg: Target, s: State)
    requires tg.retention > 0 && tg.Enabled(s, Finish)
    ensures Possible(tg, s, Reads(0)) && tg.Base(After(tg, s, Reads(0)).history) == Some(s.flight.value.data)
  {
    assert [Finish][1..] == [];
    NewestAfterFinish(tg, s);
    assert After(tg, s, [Finish]) == tg.Next(s, Finish);
  }

  ghost function Filled(data: Tables, db: Tables, todo: seq<string>): Tables
    requires forall t :: t in todo ==> t in db
  {
    data + map t | t in todo :: db[t]
  }

  lemma FilledStep(data: Tables, db: Tables, todo: seq<string>)
    requires todo != [] && forall t :: t in todo ==> t in db
    ensures Filled(data[todo[0] := db[todo[0]]], db, todo[1..]) == Filled(data, db, todo)
  {
    assert forall t :: t in todo <==> t == todo[0] || t in todo[1..];
  }

  lemma ReadNextOnce(tg: Target, s: State)
    requires tg.Enabled(s, ReadNext)
    ensures var f := s.flight.value;
      tg.Next(s, ReadNext) ==
        s.(flight := Some(Flight(f.dirty, f.data[f.todo[0] := s.db[f.todo[0]]], f.todo[1..])))
  {
  }

  lemma {:induction false} QuietReads(tg: Target, s: State)
    requires s.flight.Some? && tg.retention > 0
    requires forall t :: t in s.flight.value.todo ==> t in s.db
    ensures var f := s.flight.value; var run := Reads(|f.todo|);
      && Possible(tg, s, run) && tg.Base(After(tg, s, run).history) == Some(Filled(f.data, s.db, f.todo))
    decreases |s.flight.value.todo|
  {
    hide Target.Base, Target.Rotated, Filled, Target.Next;
    var f := s.flight.value;
    if f.todo == [] {
      NothingToRead(tg, s);
      assert Filled(f.data, s.db, f.todo) == f.data by { FilledNone(f.data, s.db); }
    } else {
      ReadNextOnce(tg, s);
      var s' := tg.Next(s, ReadNext);
      FilledStep(f.data, s.db, f.todo);
      QuietReads(tg, s');
      assert Reads(|f.todo|)[1..] == Reads(|f.todo| - 1);
    }
  }

  lemma FilledNone(data: Tables, db: Tables)
    ensures Filled(data, db, []) == data
  {
  }

  /** An undisturbed periodic dump is that full dump. */
  lemma QuietFullDump(tg: Target, s: State)
    requires s.flight.None? && tg.retention > 0 && forall t :: t in tg.tables ==> t in s.db
    ensures var run := [StartFull] + Reads(|tg.tables|);
      && Possible(tg, s, run) && tg.Base(After(tg, s, run).history) == Some(FullDump(tg, s.db))
  {
    var run := [StartFull] + Reads(|tg.tables|);
    var s' := tg.Next(s, StartFull);
    QuietReads(tg, s');
    assert run[1..] == Reads(|tg.tables|);
    assert Filled(map[], s.db, tg.tables) == FullDump(tg, s.db);
  }

  // ----- A failed write-triggered dump -----

  /** Events that give no dump a reason to read `t` again. */
  predicate Passes(e: Event, t: string) {
    match e
    case Commit(changes, dirty) => t !in changes && t !in dirty
    case StartFull => false
    case Damage => false
    case _ => true
  }

  function Entry(data: Tables, t: string): Option<seq<Row>> {
    if t in data then Some(data[t]) else None
  }

  ghost predicate Unread(tg: Target, s: State, t: string, entry: Option<seq<Row>>) {
    && t !in s.pending
    && tg.Base(s.history).Some? && Entry(tg.Base(s.history).value, t) == entry
    && (s.flight.Some? ==> t !in s.flight.value.todo && Entry(s.flight.value.data, t) == entry)
  }

  lemma PassKeepsEntry(tg: Target, s: State, e: Event, t: string, entry: Option<seq<Row>>)
    requires tg.retention > 0 && tg.Enabled(s, e) && Passes(e, t) && Unread(tg, s, t, entry)
    ensures Unread(tg, tg.Next(s, e), t, entry) && Entry(tg.Next(s, e).db, t) == Entry(s.db, t)
  {
    if e.Finish? {
      NewestAfterFinish(tg, s);
    }
  }

  /**
   * A failed write-triggered dump forgets its tables: until a full dump, a damaged newest dump or
   * another commit to such a table, the newest dump keeps whatever it held for it before.
   */
  lemma {:induction false} ForgottenTableStaysStale(tg: Target, s: State, run: seq<Event>, t: string)
    requires tg.retention > 0 && Possible(tg, s, run) && forall i :: 0 <= i < |run| ==> Passes(run[i], t)
    requires tg.Base(s.history).Some? && Unread(tg, s, t, Entry(tg.Base(s.history).value, t))
    ensures var s' := After(tg, s, run);
      && tg.Base(s'.history).Some?
      && Entry(s'.db, t) == Entry(s.db, t)
      && Entry(tg.Base(s'.history).value, t) == Entry(tg.Base(s.history).value, t)
    decreases |run|
  {
    var entry := Entry(tg.Base(s.history).value, t);
    assert Unread(tg, s, t, entry);
    if run != [] {
      PassKeepsEntry(tg, s, run[0], t, entry);
      var s1 := tg.Next(s, run[0]);
      assert Unread(tg, s1, t, entry);
      ForgottenTableStaysStale(tg, s1, run[1..], t);
    }
  }

  lemma ThreeSteps(tg: Target, s: State, e0: Event, e1: Event, e2: Event)
    requires tg.Enabled(s, e0) && tg.Enabled(tg.Next(s, e0), e1) && tg.Enabled(tg.Next(tg.Next(s, e0), e1), e2)
    ensures Possible(tg, s, [e0, e1, e2])
    ensures After(tg, s, [e0, e1, e2]) == tg.Next(tg.Next(tg.Next(s, e0), e1), e2)
  {
    hide Target.Enabled, Target.Next;
    var s1 := tg.Next(s, e0);
    var s2 := tg.Next(s1, e1);
    assert [e2][1..] == [] && Possible(tg, tg.Next(s2, e2), []);
    assert Possible(tg, s2, [e2]) && After(tg, s2, [e2]) == tg.Next(s2, e2);
    assert [e1, e2][1..] == [e2];
    assert Possible(tg, s1, [e1, e2]) && After(tg, s1, [e1, e2]) == After(tg, s2, [e2]);
    assert [e0, e1, e2][1..] == [e1, e2];
  }

  /**
   * A commit whose write-triggered dump fails leaves nothing pending, and the newest dump is then
   * current for the committed table only if it already held those very rows.
   */
  lemma FailedDumpForgets(tg: Target, s: State, t: string, rows: seq<Row>)
    requires s.flight.None? && tg.Base(s.history).Some? && t in s.db
    ensures var run := [Commit(map[t := rows], {t}), StartDebounced, Fail];
      && Possible(tg, s, run)
      && var s' := After(tg, s, run);
         && s'.pending == {} && s'.flight.None? && tg.Base(s'.history).Some?
         && Unread(tg, s', t, Entry(tg.Base(s'.history).value, t))
         && (Carries(tg.Base(s'.history).value, s'.db, t) <==> Entry(tg.Base(s.history).value, t) == Some(rows))
  {
    ThreeSteps(tg, s, Commit(map[t := rows], {t}), StartDebounced, Fail);
  }

  /** While a full dump is being taken, only reported commits land. */
  predicate Reported(e: Event) {
    e == ReadNext || (e.Commit? && e.changes.Keys <= e.dirty)
  }

  lemma {:induction false} ReportedKeepsFlying(tg: Target, s: State, run: seq<Event>, b: Blind)
    requires s.flight.Some? && Possible(tg, s, run) && forall i :: 0 <= i < |run| ==> Reported(run[i])
    ensures BlindAfter(tg, s, run, b).flying == b.flying && After(tg, s, run).flight.Some?
    decreases |run|
  {
    if run != [] {
      ReportedKeepsFlying(tg, tg.Next(s, run[0]), run[1..], Unseen(tg, s, run[0], b));
    }
  }

  /** A full dump heals every table of the target, whatever was missed before it. */
  lemma FullDumpHeals(tg: Target, s: State, mid: seq<Event>, b: Blind)
    requires Possible(tg, s, [StartFull]) && forall i :: 0 <= i < |mid| ==> Reported(mid[i])
    requires var s1 := tg.Next(s, StartFull); Possible(tg, s1, mid) && tg.Enabled(After(tg, s1, mid), Finish)
    ensures var s1 := tg.Next(s, StartFull);
            var b1 := BlindAfter(tg, s1, mid, Unseen(tg, s, StartFull, b));
            Unseen(tg, After(tg, s1, mid), Finish, b1).lost !! (set t | t in tg.tables)
  {
    ReportedKeepsFlying(tg, tg.Next(s, StartFull), mid, Unseen(tg, s, StartFull, b));
  }

  // ----- How many dumps are kept -----

  /**
   * Rotation deletes nothing exactly when the archive has the configured size or at most half of
   * it: below the configured size the slice counts from the wrong end and takes old dumps anyway.
   */
  lemma RotationKeepsAllIff(tg: Target, history: seq<Dump>)
    ensures tg.Rotated(history) == history <==> history == [] || |history| == tg.retention || 2 * |history| <= tg.retention
  {
    assert |tg.Rotated(history)| == |history| - SliceEnd(|history|, |history| - tg.retention);
  }

  /** With 24 dumps to be kept, the thirteenth costs the two oldest. */
  lemma ThirteenthDumpCostsTwo(tg: Target, history: seq<Dump>)
    requires tg.retention == 24 && |history| == 13
    ensures tg.Rotated(history) == history[2..]
  {
  }

  /** One dump more: how many are left. */
  lemma AfterFinish(tg: Target, s: State)
    requires tg.Enabled(s, Finish) && tg.retention >= 1
    ensures var n, kept := |s.history| + 1, |tg.Next(s, Finish).history|;
      kept == if n >= tg.retention then tg.retention else if 2 * n <= tg.retention then n else tg.retention - n
  {
  }

  lemma OnlyFinishCounts(tg: Target, s: State, e: Event)
    requires tg.Enabled(s, e) && e != Finish
    ensures |tg.Next(s, e).history| == |s.history|
  {
  }

  /**
   * The archive reaches the configured number of dumps only from where it had all but one of them.
   * From fewer, with three or more to be kept, it never again holds more than half of them.
   */
  lemma {:induction false} ArchiveSize(tg: Target, s: State, run: seq<Event>)
    requires tg.retention >= 1 && Possible(tg, s, run)
    ensures var kept := |After(tg, s, run).history|;
      && (Finish !in run ==> kept == |s.history|)
      && (Finish in run && |s.history| >= tg.retention - 1 ==> kept == tg.retention)
      && (Finish in run && |s.history| < tg.retention - 1 && tg.retention >= 3 ==> 2 * kept <= tg.retention)
    decreases |run|
  {
    hide Target.Enabled, Target.Next;
    if run != [] {
      var s' := tg.Next(s, run[0]);
      ArchiveSize(tg, s', run[1..]);
      if run[0] == Finish {
        AfterFinish(tg, s);
      } else {
        OnlyFinishCounts(tg, s, run[0]);
      }
      assert Finish in run <==> run[0] == Finish || Finish in run[1..];
    }
  }

  /** A service that starts with an empty archive keeps at most half of what it is configured to keep. */
  lemma HalfIsKept(tg: Target, start: State, run: seq<Event>)
    requires tg.retention >= 3 && Fresh(tg, start) && Possible(tg, start, run)
    ensures 2 * |After(tg, start, run).history| <= tg.retention
  {
    ArchiveSize(tg, start, run);
  }

  // ----- The service object -----

  class BackupService {
    const target: Target
    var db: Tables
    var pending: set<string>
    var history: seq<Dump>
    var dumping: bool
    var taken: set<string>
    var data: Tables
    var todo: seq<string>

    function View(): State
      reads this
    {
      State(db, pending, history, if dumping then Some(Flight(taken, data, todo)) else None)
    }

    constructor (target: Target, db: Tables)
      requires forall t :: t in target.tables ==> t in db
      ensures Fresh(target, View()) && this.target == target && this.db == db && pending == {}
    {
      this.target, this.db := target, db;
      pending, history, dumping, taken, data, todo := {}, [], false, {}, map[], [];
    }

    /** after_commit: remember what the session reported dirty. */
    method OnCommit(changes: Tables, dirty: set<string>)
      requires target.Enabled(View(), Commit(changes, dirty))
      modifies this
      ensures View() == target.Next(old(View()), Commit(changes, dirty))
    {
      db := db + changes;
      pending := pending + dirty;
    }

    /** The debounce timer fires: swap the pending set and carry forward from the newest dump. */
    method BeginDebounced() returns (started: bool)
      requires !dumping
      modifies this
      ensures View() == target.Next(old(View()), StartDebounced)
      ensures started <==> old(pending) != {}
    {
      var tables := pending;
      pending := {};
      started := tables != {};
      if !started { return; }
      dumping, taken := true, tables;
      if history != [] && history[|history| - 1].valid {
        data := history[|history| - 1].data;
        todo := target.Listed(tables);
      } else {
        data := map[];
        todo := target.tables;
      }
    }

    method BeginFull()
      requires !dumping
      modifies this
      ensures View() == target.Next(old(View()), StartFull)
    {
      dumping, taken, data, todo := true, {}, map[], target.tables;
    }

    method ReadTable()
      requires target.Enabled(View(), ReadNext)
      modifies this
      ensures View() == target.Next(old(View()), ReadNext)
    {
      data := data[todo[0] := db[todo[0]]];
      todo := todo[1..];
    }

    /** Write the file, then delete the oldest ones, one by one. */
    method WriteDump()
      requires target.Enabled(View(), Finish)
      modifies this
      ensures View() == target.Next(old(View()), Finish)
    {
      history := history + [Dump(data, true)];
      ghost var all := history;
      var excess := |history| - target.retention;
      var stale := SliceEnd(|history|, excess);
      for i := 0 to stale
        invariant history == all[i..]
        invariant (db, pending, data, todo, taken) == old((db, pending, data, todo, taken))
      {
        history := history[1..];
      }
      dumping := false;
    }

    method Abort()
      requires dumping
      modifies this
      ensures View() == target.Next(old(View()), Fail)
    {
      dumping := false;
    }
  }
}
