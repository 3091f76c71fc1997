/** Separation alerts: every drone against every other, and the state table that stores the outcome. */
module Proximity {

  datatype Option<+T> = None | Some(value: T)

  /** Python values of a state dictionary. True and False equal 1 and 0 there, so they are numbers here. */
  datatype Value = Nil | Num(r: real) | Text(s: string) | Time(at: real)

  type Drone = map<string, Value>

  type Fleet = map<int, Drone>

  const TRUE := Num(1.0)
  const FALSE := Num(0.0)
  const ALERT := "proximity_alert"
  const MANUAL := "manual_control_required"
  const DISTANCE := "proximity_distance_m"
  const INTRUDER := "proximity_intruder_drone_id"
  const UPDATED := "last_updated"
  const ALERT_KEYS: set<string> := {ALERT, MANUAL, DISTANCE, INTRUDER}

  /** What the monitor is built from; `dist` takes two positions, `round` keeps one decimal. */
  datatype Monitor = Monitor(dist: (real, real, real, real) -> real, round: real -> real,
                             minDistance: real, maxAge: real) {

    function Get(d: Drone, key: string): Value {
      if key in d then d[key] else Nil
    }

    predicate Positioned(d: Drone) {
      var lat, lon := Get(d, "lat"), Get(d, "lon");
      lat.Num? && lon.Num? && (lat.r != 0.0 || lon.r != 0.0)
    }

    predicate Recent(d: Drone, now: real) {
      var at := Get(d, UPDATED);
      at.Time? && now - at.at <= maxAge
    }

    predicate Eligible(f: Fleet, id: int, now: real) {
      id in f && Positioned(f[id]) && Recent(f[id], now)
    }

    /** Distance of a pair, as computed: from the lower id to the higher. */
    function Between(f: Fleet, a: int, b: int, now: real): real
      requires Eligible(f, a, now) && Eligible(f, b, now)
    {
      var p, q := if a < b then f[a] else f[b], if a < b then f[b] else f[a];
      dist(p["lat"].r, p["lon"].r, q["lat"].r, q["lon"].r)
    }

    predicate Near(f: Fleet, id: int, other: int, now: real) {
      id != other && Eligible(f, id, now) && Eligible(f, other, now) && Between(f, id, other, now) <= minDistance
    }

    /** `other` is the near drone with the smallest (distance, id). */
    ghost predicate Nearest(f: Fleet, id: int, other: int, now: real) {
      Near(f, id, other, now) &&
      forall p :: p in f && Near(f, id, p, now) ==>
        Between(f, id, other, now) < Between(f, id, p, now)
        || (Between(f, id, other, now) == Between(f, id, p, now) && other <= p)
    }

    function Cleared(): Drone {
      map[ALERT := FALSE, MANUAL := FALSE, DISTANCE := Nil, INTRUDER := Nil]
    }

    function Alerted(other: int, distance: real): Drone {
      map[ALERT := TRUE, MANUAL := TRUE, DISTANCE := Num(round(distance)), INTRUDER := Num(other as real)]
    }

    /** The alert fields `patch` are those drone `id` should have. */
    ghost predicate Right(f: Fleet, id: int, now: real, patch: Drone) {
      || ((forall p :: p in f ==> !Near(f, id, p, now)) && patch == Cleared())
      || exists p :: p in f && Nearest(f, id, p, now) && patch == Alerted(p, Between(f, id, p, now))
    }
  }

  // ----- Sorting the eligible ids -----

  predicate Ascending(ids: seq<int>) {
    forall i, j :: 0 <= i < j < |ids| ==> ids[i] < ids[j]
  }

  ghost predicate Least(s: set<int>, m: int) {
    m in s && forall x :: x in s ==> m <= x
  }

  lemma SomeElement(s: set<int>)
    ensures s != {} ==> exists x :: x in s
  {
    if forall x :: x !in s {
      assert s == {};
    }
  }

  lemma {:induction false} LeastExists(s: set<int>)
    requires s != {}
    ensures exists m :: Least(s, m)
    decreases |s|
  {
    SomeElement(s);
    var x :| x in s;
    if s == {x} {
      assert Least(s, x);
    } else {
      var rest := s - {x};
      LeastExists(rest);
      var m :| Least(rest, m);
      var k := if x < m then x else m;
      forall y | y in s
        ensures k <= y
      {
        if y != x { assert y in rest; }
      }
      assert Least(s, k);
    }
  }

  method SortedIds(s: set<int>) returns (ids: seq<int>)
    ensures Ascending(ids) && forall x :: x in ids <==> x in s
  {
    ids := [];
    var left := s;
    while left != {}
      invariant left <= s && Ascending(ids)
      invariant forall x :: x in ids <==> x in s && x !in left
      invariant forall i, y :: 0 <= i < |ids| && y in left ==> ids[i] < y
      decreases |left|
    {
      LeastExists(left);
      assert exists m :: m in left && forall x :: x in left ==> m <= x by {
        ghost var m :| Least(left, m);
        assert m in left;
      }
      var m :| m in left && forall x :: x in left ==> m <= x;
      ids := ids + [m];
      left := left - {m};
    }
  }

  // ----- Nearest among a prefix of the sorted ids -----

  /** One candidate considered by `_remember_nearest`: a tie keeps the earlier one. */
  function Consider(m: Monitor, f: Fleet, now: real, id: int, other: int, best: Option<(int, real)>): Option<(int, real)>
    requires m.Eligible(f, id, now) && m.Eligible(f, other, now)
  {
    var d := m.Between(f, id, other, now);
    if id == other || d > m.minDistance then best
    else if best.None? || d < best.value.1 then Some((other, d))
    else best
  }

  ghost predicate AllEligible(m: Monitor, f: Fleet, now: real, ids: seq<int>) {
    forall i :: 0 <= i < |ids| ==> m.Eligible(f, ids[i], now)
  }

  /** The nearest of the first `n` ids. */
  ghost function NearestOf(m: Monitor, f: Fleet, now: real, ids: seq<int>, id: int, n: nat): Option<(int, real)>
    requires AllEligible(m, f, now, ids) && m.Eligible(f, id, now) && n <= |ids|
  {
    if n == 0 then None else Consider(m, f, now, id, ids[n - 1], NearestOf(m, f, now, ids, id, n - 1))
  }

  /** How many ids have been compared with the one at position `k` when the loops stand at pair (i, j). */
  function Compared(k: nat, i: nat, j: nat, n: nat): nat {
    if k < i then n else if k == i then j else if k < j then i + 1 else i
  }

  function Entry(nearest: map<int, (int, real)>, id: int): Option<(int, real)> {
    if id in nearest then Some(nearest[id]) else None
  }

  /** The entry of position `k` is the nearest of the ids it has been compared with. */
  ghost predicate EntryRight(m: Monitor, f: Fleet, now: real, ids: seq<int>, nearest: map<int, (int, real)>, k: nat, n: nat)
    requires AllEligible(m, f, now, ids) && k < |ids| && n <= |ids|
  {
    Entry(nearest, ids[k]) == NearestOf(m, f, now, ids, ids[k], n)
  }

  ghost predicate Table(m: Monitor, f: Fleet, now: real, ids: seq<int>, nearest: map<int, (int, real)>, i: nat, j: nat)
    requires AllEligible(m, f, now, ids) && i < j <= |ids|
  {
    && (forall id :: id in nearest ==> id in ids)
    && forall k: nat :: k < |ids| ==> EntryRight(m, f, now, ids, nearest, k, Compared(k, i, j, |ids|))
  }

  function Remember(nearest: map<int, (int, real)>, id: int, other: int, d: real): map<int, (int, real)> {
    if id !in nearest || d < nearest[id].1 then nearest[id := (other, d)] else nearest
  }

  method RememberNearest(nearest: map<int, (int, real)>, id: int, other: int, d: real)
    returns (after: map<int, (int, real)>)
    ensures after == Remember(nearest, id, other, d)
  {
    after := nearest;
    if id !in nearest || d < nearest[id].1 {
      after := nearest[id := (other, d)];
    }
  }

  /** The table after comparing one pair. */
  function Paired(m: Monitor, f: Fleet, now: real, nearest: map<int, (int, real)>, a: int, b: int): map<int, (int, real)>
    requires m.Eligible(f, a, now) && m.Eligible(f, b, now)
  {
    var d := m.Between(f, a, b, now);
    if d > m.minDistance then nearest else Remember(Remember(nearest, a, b, d), b, a, d)
  }

  lemma PairedEntries(m: Monitor, f: Fleet, now: real, nearest: map<int, (int, real)>, a: int, b: int)
    requires m.Eligible(f, a, now) && m.Eligible(f, b, now) && a < b
    ensures var after := Paired(m, f, now, nearest, a, b);
      && Entry(after, a) == Consider(m, f, now, a, b, Entry(nearest, a))
      && Entry(after, b) == Consider(m, f, now, b, a, Entry(nearest, b))
      && (forall id :: id != a && id != b ==> Entry(after, id) == Entry(nearest, id))
      && (forall id :: id in after ==> id == a || id == b || id in nearest)
  {
    hide Monitor.Eligible;
  }

  lemma NearestOfNext(m: Monitor, f: Fleet, now: real, ids: seq<int>, id: int, n: nat)
    requires AllEligible(m, f, now, ids) && m.Eligible(f, id, now) && n < |ids|
    ensures NearestOf(m, f, now, ids, id, n + 1) == Consider(m, f, now, id, ids[n], NearestOf(m, f, now, ids, id, n))
  {
    hide Consider;
  }

  lemma ComparedNext(k: nat, i: nat, j: nat, n: nat)
    requires i < j < n && k < n
    ensures k != i && k != j ==> Compared(k, i, j + 1, n) == Compared(k, i, j, n)
    ensures k == i ==> Compared(k, i, j, n) == j && Compared(k, i, j + 1, n) == j + 1
    ensures k == j ==> Compared(k, i, j, n) == i && Compared(k, i, j + 1, n) == i + 1
    ensures Compared(k, i, j, n) <= n && Compared(k, i, j + 1, n) <= n
  {
  }

  lemma PairKeepsEntry(m: Monitor, f: Fleet, now: real, ids: seq<int>, nearest: map<int, (int, real)>, i: nat, j: nat, k: nat)
    requires AllEligible(m, f, now, ids) && Ascending(ids) && i < j < |ids| && k < |ids|
    requires EntryRight(m, f, now, ids, nearest, k, Compared(k, i, j, |ids|))
    ensures EntryRight(m, f, now, ids, Paired(m, f, now, nearest, ids[i], ids[j]), k, Compared(k, i, j + 1, |ids|))
  {
    hide Paired, Consider, NearestOf, Entry, Compared, Monitor.Eligible;
    ComparedNext(k, i, j, |ids|);
    PairedEntries(m, f, now, nearest, ids[i], ids[j]);
    NearestOfNext(m, f, now, ids, ids[i], j);
    NearestOfNext(m, f, now, ids, ids[j], i);
  }

  lemma PairKeepsTable(m: Monitor, f: Fleet, now: real, ids: seq<int>, nearest: map<int, (int, real)>, i: nat, j: nat)
    requires AllEligible(m, f, now, ids) && Ascending(ids) && i < j < |ids| && Table(m, f, now, ids, nearest, i, j)
    ensures Table(m, f, now, ids, Paired(m, f, now, nearest, ids[i], ids[j]), i, j + 1)
  {
    hide Paired, Entry, EntryRight, NearestOf, Monitor.Eligible, Compared;
    PairedEntries(m, f, now, nearest, ids[i], ids[j]);
    var next := j + 1;
    forall k: nat | k < |ids|
      ensures Compared(k, i, next, |ids|) <= |ids|
      ensures EntryRight(m, f, now, ids, Paired(m, f, now, nearest, ids[i], ids[j]), k, Compared(k, i, next, |ids|))
    {
      ComparedNext(k, i, j, |ids|);
      PairKeepsEntry(m, f, now, ids, nearest, i, j, k);
    }
  }

  lemma Unrelated(m: Monitor, f: Fleet, now: real, id: int, best: Option<(int, real)>)
    requires m.Eligible(f, id, now)
    ensures Consider(m, f, now, id, id, best) == best
  {
  }

  lemma RowKeepsTable(m: Monitor, f: Fleet, now: real, ids: seq<int>, nearest: map<int, (int, real)>, i: nat)
    requires AllEligible(m, f, now, ids) && i + 1 < |ids| && Table(m, f, now, ids, nearest, i, |ids|)
    ensures Table(m, f, now, ids, nearest, i + 1, i + 2)
  {
    hide Consider, NearestOf, Entry, Monitor.Eligible;
    var i', j' := i + 1, i + 2;
    forall k: nat | k < |ids|
      ensures EntryRight(m, f, now, ids, nearest, k, Compared(k, i', j', |ids|))
    {
      assert EntryRight(m, f, now, ids, nearest, k, Compared(k, i, |ids|, |ids|));
      if k == i + 1 {
        NearestOfNext(m, f, now, ids, ids[k], k);
        Unrelated(m, f, now, ids[k], NearestOf(m, f, now, ids, ids[k], k));
      }
    }
  }

  /** The fold keeps the lexicographic minimum of (distance, id) among the ids it has seen. */
  lemma {:induction false} NearestOfIsLeast(m: Monitor, f: Fleet, now: real, ids: seq<int>, id: int, n: nat)
    requires AllEligible(m, f, now, ids) && m.Eligible(f, id, now) && n <= |ids| && Ascending(ids)
    ensures var best := NearestOf(m, f, now, ids, id, n);
      && (best.None? <==> forall i :: 0 <= i < n ==> !m.Near(f, id, ids[i], now))
      && (best.Some? ==> best.value.0 in ids[..n] && m.Near(f, id, best.value.0, now)
                         && best.value.1 == m.Between(f, id, best.value.0, now))
      && (best.Some? ==> forall i :: 0 <= i < n && m.Near(f, id, ids[i], now) ==>
            best.value.1 < m.Between(f, id, ids[i], now)
            || (best.value.1 == m.Between(f, id, ids[i], now) && best.value.0 <= ids[i]))
  {
    if n > 0 {
      NearestOfIsLeast(m, f, now, ids, id, n - 1);
      assert ids[..n] == ids[..n - 1] + [ids[n - 1]];
    }
  }

  // ----- The evaluation -----

  method NearestTable(m: Monitor, f: Fleet, now: real, ids: seq<int>) returns (nearest: map<int, (int, real)>)
    requires AllEligible(m, f, now, ids) && Ascending(ids)
    ensures forall id :: id in nearest ==> id in ids
    ensures forall k: nat :: k < |ids| ==> EntryRight(m, f, now, ids, nearest, k, |ids|)
  {
    hide Table, EntryRight, Remember, Monitor.Eligible, NearestOf;
    nearest := map[];
    if |ids| == 0 { return; }
    FirstTable(m, f, now, ids);
    var i := 0;
    while i < |ids| - 1
      invariant i < |ids| && Table(m, f, now, ids, nearest, i, i + 1)
    {
      var j := i + 1;
      while j < |ids|
        invariant i < j <= |ids| && Table(m, f, now, ids, nearest, i, j)
      {
        EligiblePair(m, f, now, ids, i, j);
        PairKeepsTable(m, f, now, ids, nearest, i, j);
        var p, q := f[ids[i]], f[ids[j]];
        var d := m.dist(p["lat"].r, p["lon"].r, q["lat"].r, q["lon"].r);
        if !(d > m.minDistance) {
          nearest := RememberNearest(nearest, ids[i], ids[j], d);
          nearest := RememberNearest(nearest, ids[j], ids[i], d);
        }
        j := j + 1;
      }
      RowKeepsTable(m, f, now, ids, nearest, i);
      i := i + 1;
    }
    LastTable(m, f, now, ids, nearest);
  }

  lemma EligiblePair(m: Monitor, f: Fleet, now: real, ids: seq<int>, i: nat, j: nat)
    requires AllEligible(m, f, now, ids) && Ascending(ids) && i < j < |ids|
    ensures ids[i] < ids[j] && ids[i] in f && ids[j] in f
    ensures var p, q := f[ids[i]], f[ids[j]];
      && "lat" in p && "lon" in p && "lat" in q && "lon" in q
      && p["lat"].Num? && p["lon"].Num? && q["lat"].Num? && q["lon"].Num?
      && m.Between(f, ids[i], ids[j], now) == m.dist(p["lat"].r, p["lon"].r, q["lat"].r, q["lon"].r)
  {
    assert m.Eligible(f, ids[i], now) && m.Eligible(f, ids[j], now);
  }

  lemma FirstTable(m: Monitor, f: Fleet, now: real, ids: seq<int>)
    requires AllEligible(m, f, now, ids) && |ids| > 0
    ensures Table(m, f, now, ids, map[], 0, 1)
  {
    hide Monitor.Eligible;
    forall k: nat | k < |ids|
      ensures EntryRight(m, f, now, ids, map[], k, Compared(k, 0, 1, |ids|))
    {
      assert NearestOf(m, f, now, ids, ids[k], 0) == None;
      if k == 0 {
        NearestOfNext(m, f, now, ids, ids[0], 0);
        Unrelated(m, f, now, ids[0], None);
      }
    }
  }

  lemma LastTable(m: Monitor, f: Fleet, now: real, ids: seq<int>, nearest: map<int, (int, real)>)
    requires AllEligible(m, f, now, ids) && |ids| > 0 && Table(m, f, now, ids, nearest, |ids| - 1, |ids|)
    ensures forall id :: id in nearest ==> id in ids
    ensures forall k: nat :: k < |ids| ==> EntryRight(m, f, now, ids, nearest, k, |ids|)
  {
    hide Monitor.Eligible, NearestOf, EntryRight;
    forall k: nat | k < |ids|
      ensures EntryRight(m, f, now, ids, nearest, k, |ids|)
    {
      assert EntryRight(m, f, now, ids, nearest, k, Compared(k, |ids| - 1, |ids|, |ids|));
    }
  }

  /** Every drone gets exactly the alert fields it should have. */
  method Evaluate(m: Monitor, f: Fleet, now: real) returns (updates: map<int, Drone>)
    ensures updates.Keys == f.Keys && forall id :: id in f ==> m.Right(f, id, now, updates[id])
  {
    hide Monitor.Right, Monitor.Eligible, AllEligible, EntryRight, NearestOf, Ascending;
    var eligible := set id | id in f && m.Eligible(f, id, now);
    var ids := SortedIds(eligible);
    IdsEligible(m, f, now, ids);
    var nearest := NearestTable(m, f, now, ids);
    updates := map[];
    var left := f.Keys;
    while left != {}
      invariant left <= f.Keys && updates.Keys == f.Keys - left
      invariant forall id :: id in updates ==> m.Right(f, id, now, updates[id])
      decreases |left|
    {
      SomeElement(left);
      var id :| id in left;
      left := left - {id};
      var patch := if id in nearest then m.Alerted(nearest[id].0, nearest[id].1) else m.Cleared();
      EntryOf(m, f, now, ids, nearest, id);
      PatchIsRight(m, f, now, ids, id, Entry(nearest, id));
      updates := updates[id := patch];
    }
  }

  lemma IdsEligible(m: Monitor, f: Fleet, now: real, ids: seq<int>)
    requires forall x :: x in ids <==> x in f && m.Eligible(f, x, now)
    ensures AllEligible(m, f, now, ids)
  {
    hide Monitor.Eligible;
    forall i | 0 <= i < |ids|
      ensures m.Eligible(f, ids[i], now)
    {
      assert ids[i] in ids;
    }
  }

  lemma EntryOf(m: Monitor, f: Fleet, now: real, ids: seq<int>, nearest: map<int, (int, real)>, id: int)
    requires AllEligible(m, f, now, ids) && forall x :: x in nearest ==> x in ids
    requires forall k: nat :: k < |ids| ==> EntryRight(m, f, now, ids, nearest, k, |ids|)
    ensures id in ids ==> m.Eligible(f, id, now) && Entry(nearest, id) == NearestOf(m, f, now, ids, id, |ids|)
    ensures id !in ids ==> Entry(nearest, id) == None
  {
    hide Monitor.Eligible, NearestOf;
    if id in ids {
      var k: nat :| k < |ids| && ids[k] == id;
      assert EntryRight(m, f, now, ids, nearest, k, |ids|);
    }
  }

  lemma PatchIsRight(m: Monitor, f: Fleet, now: real, ids: seq<int>, id: int, best: Option<(int, real)>)
    requires Ascending(ids) && (forall x :: x in ids <==> x in f && m.Eligible(f, x, now)) && id in f
    requires AllEligible(m, f, now, ids)
    requires if id in ids then best == NearestOf(m, f, now, ids, id, |ids|) else best.None?
    ensures m.Right(f, id, now, if best.Some? then m.Alerted(best.value.0, best.value.1) else m.Cleared())
  {
    if id in ids {
      NearestOfIsLeast(m, f, now, ids, id, |ids|);
      forall p | p in f && m.Near(f, id, p, now)
        ensures exists i :: 0 <= i < |ids| && ids[i] == p
      {
        assert p in ids;
      }
    }
  }

  // ----- The stored alert fields -----

  function Stored(m: Monitor, d: Drone): Drone {
    map k | k in ALERT_KEYS :: m.Get(d, k)
  }

  /** Every registered drone's stored alert fields equal a recomputation. */
  ghost predicate InStep(m: Monitor, f: Fleet, now: real) {
    forall id :: id in f ==> m.Right(f, id, now, Stored(m, f[id]))
  }

  ghost predicate Kept(m: Monitor, before: Drone, after: Drone) {
    forall k :: k !in ALERT_KEYS ==> m.Get(after, k) == m.Get(before, k)
  }

  /** Same drones, and the same fields apart from the alert. */
  ghost predicate SameElsewhere(m: Monitor, f: Fleet, g: Fleet) {
    f.Keys == g.Keys && forall id :: id in f ==> Kept(m, f[id], g[id])
  }

  lemma KeysApart()
    ensures "lat" !in ALERT_KEYS && "lon" !in ALERT_KEYS && UPDATED !in ALERT_KEYS
  {
    assert |ALERT| == 15 && |MANUAL| == 23 && |DISTANCE| == 20 && |INTRUDER| == 27;
    assert |"lat"| == 3 && |"lon"| == 3 && |UPDATED| == 12;
  }

  lemma SameEligible(m: Monitor, f: Fleet, g: Fleet, now: real, id: int)
    requires SameElsewhere(m, f, g)
    ensures m.Eligible(f, id, now) <==> m.Eligible(g, id, now)
    ensures m.Eligible(f, id, now) ==> f[id]["lat"] == g[id]["lat"] && f[id]["lon"] == g[id]["lon"]
  {
    if id in f {
      KeysApart();
      assert Kept(m, f[id], g[id]);
      assert m.Get(g[id], "lat") == m.Get(f[id], "lat") && m.Get(g[id], "lon") == m.Get(f[id], "lon");
      assert m.Get(g[id], UPDATED) == m.Get(f[id], UPDATED);
    }
  }

  lemma SameNear(m: Monitor, f: Fleet, g: Fleet, now: real, a: int, b: int)
    requires SameElsewhere(m, f, g)
    ensures m.Near(f, a, b, now) <==> m.Near(g, a, b, now)
    ensures m.Near(f, a, b, now) ==> m.Between(f, a, b, now) == m.Between(g, a, b, now)
  {
    hide Monitor.Eligible, SameElsewhere;
    SameEligible(m, f, g, now, a);
    SameEligible(m, f, g, now, b);
  }

  /** What is right for a drone does not depend on anyone's alert fields. */
  lemma SameRight(m: Monitor, f: Fleet, g: Fleet, now: real, id: int, patch: Drone)
    requires SameElsewhere(m, f, g) && m.Right(f, id, now, patch)
    ensures m.Right(g, id, now, patch)
  {
    hide Monitor.Eligible, Monitor.Between, Monitor.Cleared, Monitor.Alerted;
    forall p
      ensures m.Near(f, id, p, now) <==> m.Near(g, id, p, now)
      ensures m.Near(f, id, p, now) ==> m.Between(f, id, p, now) == m.Between(g, id, p, now)
    {
      SameNear(m, f, g, now, id, p);
    }
    if !(forall p :: p in f ==> !m.Near(f, id, p, now)) {
      var p :| p in f && m.Nearest(f, id, p, now) && patch == m.Alerted(p, m.Between(f, id, p, now));
      assert m.Nearest(g, id, p, now);
    }
  }

  /** A drone shows an alert exactly when some other drone is near, and the intruder it shows does too. */
  lemma AlertIffNear(m: Monitor, f: Fleet, now: real, id: int)
    requires InStep(m, f, now) && id in f
    ensures m.Get(f[id], ALERT) == TRUE <==> exists p :: p in f && m.Near(f, id, p, now)
    ensures m.Get(f[id], ALERT) == TRUE ==>
              exists p :: p in f && m.Nearest(f, id, p, now) && m.Get(f[id], INTRUDER) == Num(p as real)
                          && m.Get(f[p], ALERT) == TRUE
  {
    StoredRight(m, f, now, id);
    if p :| p in f && m.Nearest(f, id, p, now) && m.Get(f[id], INTRUDER) == Num(p as real) {
      assert m.Near(f, p, id, now);
      StoredRight(m, f, now, p);
    }
  }

  // ----- Who counts, spelled out -----

  /** A state with a numeric position other than (0, 0), updated at most `maxAge` seconds before `now`. */
  ghost predicate Airborne(d: Drone, now: real, maxAge: real) {
    && "lat" in d && "lon" in d && d["lat"].Num? && d["lon"].Num? && (d["lat"].r != 0.0 || d["lon"].r != 0.0)
    && UPDATED in d && d[UPDATED].Time? && now <= d[UPDATED].at + maxAge
  }

  /** Only such states take part; a state nobody updates drops out for good once it is too old. */
  lemma EligibleIff(m: Monitor, f: Fleet, id: int, now: real, later: real)
    requires now <= later
    ensures m.Eligible(f, id, now) <==> id in f && Airborne(f[id], now, m.maxAge)
    ensures m.Eligible(f, id, later) ==> m.Eligible(f, id, now)
  {
  }

  /** A pair is near for both drones or for neither: both count and their distance is at most the limit. */
  lemma NearIff(m: Monitor, f: Fleet, a: int, b: int, now: real)
    requires a < b
    ensures m.Near(f, a, b, now) == m.Near(f, b, a, now)
    ensures m.Near(f, a, b, now)
       <==> && a in f && b in f && Airborne(f[a], now, m.maxAge) && Airborne(f[b], now, m.maxAge)
            && m.dist(f[a]["lat"].r, f[a]["lon"].r, f[b]["lat"].r, f[b]["lon"].r) <= m.minDistance
    ensures m.Near(f, a, b, now) ==>
              m.Between(f, a, b, now) == m.Between(f, b, a, now)
              == m.dist(f[a]["lat"].r, f[a]["lon"].r, f[b]["lat"].r, f[b]["lon"].r)
  {
  }

  /** The four stored fields agree: alert and manual control together, and then the nearest drone and its distance. */
  lemma AlertFields(m: Monitor, f: Fleet, now: real, id: int)
    requires InStep(m, f, now) && id in f
    ensures m.Get(f[id], MANUAL) == m.Get(f[id], ALERT)
    ensures m.Get(f[id], ALERT) == Num(0.0) ==> m.Get(f[id], DISTANCE) == Nil && m.Get(f[id], INTRUDER) == Nil
    ensures m.Get(f[id], ALERT) != Num(0.0) ==>
              && m.Get(f[id], ALERT) == Num(1.0)
              && exists p :: p in f && m.Nearest(f, id, p, now) && m.Get(f[id], INTRUDER) == Num(p as real)
                             && m.Get(f[id], DISTANCE) == Num(m.round(m.Between(f, id, p, now)))
  {
    hide Monitor.Near, Monitor.Between, Monitor.Nearest;
    var patch := Stored(m, f[id]);
    assert m.Right(f, id, now, patch);
    assert forall k :: k in ALERT_KEYS ==> patch[k] == m.Get(f[id], k);
    AlertKeysDiffer();
  }

  lemma AlertKeysDiffer()
    ensures ALERT != MANUAL && ALERT != DISTANCE && ALERT != INTRUDER && MANUAL != DISTANCE && MANUAL != INTRUDER
    ensures DISTANCE != INTRUDER
  {
    assert |ALERT| == 15 && |MANUAL| == 23 && |DISTANCE| == 20 && |INTRUDER| == 27;
  }

  lemma StoredRight(m: Monitor, f: Fleet, now: real, id: int)
    requires InStep(m, f, now) && id in f
    ensures (m.Get(f[id], ALERT) == FALSE && m.Get(f[id], INTRUDER) == Nil && forall p :: p in f ==> !m.Near(f, id, p, now))
         || (m.Get(f[id], ALERT) == TRUE &&
             exists p :: p in f && m.Nearest(f, id, p, now) && m.Get(f[id], INTRUDER) == Num(p as real))
  {
    hide Monitor.Near, Monitor.Between, Monitor.Nearest;
    var patch := Stored(m, f[id]);
    assert m.Right(f, id, now, patch);
    assert ALERT in patch && INTRUDER in patch;
    assert patch[ALERT] == m.Get(f[id], ALERT) && patch[INTRUDER] == m.Get(f[id], INTRUDER);
  }

  // ----- The state table -----

  /** The fields of a fresh registration that this model reads. */
  function DefaultState(callSign: string): Drone {
    map["lat" := Num(0.0), "lon" := Num(0.0), "call_sign" := Text(callSign), "connected" := TRUE, UPDATED := Nil,
        ALERT := FALSE, MANUAL := FALSE, DISTANCE := Nil, INTRUDER := Nil]
  }

  lemma StoredIs(m: Monitor, d: Drone, patch: Drone)
    requires patch.Keys == ALERT_KEYS
    ensures Stored(m, d) == patch <==> forall k :: k in patch ==> m.Get(d, k) == patch[k]
  {
    hide Monitor.Get;
    assert forall k :: k in patch ==> Stored(m, d)[k] == m.Get(d, k);
  }

  lemma GetUpdated(m: Monitor, d: Drone, key: string, v: Value)
    ensures forall k :: m.Get(d[key := v], k) == if k == key then v else m.Get(d, k)
  {
    forall k
      ensures m.Get(d[key := v], k) == if k == key then v else m.Get(d, k)
    {
      if k == key {
        assert k in d[key := v];
      }
    }
  }

  /** Overwrite the fields that differ. */
  method Merged(m: Monitor, before: Drone, patch: Drone) returns (after: Drone, changed: bool)
    requires patch.Keys == ALERT_KEYS
    ensures Stored(m, after) == patch && Kept(m, before, after)
    ensures changed <==> Stored(m, before) != patch
  {
    hide Stored, Monitor.Get;
    after, changed := before, false;
    var keys := patch.Keys;
    while keys != {}
      invariant keys <= patch.Keys
      invariant forall k :: m.Get(after, k) == if k in patch && k !in keys then patch[k] else m.Get(before, k)
      invariant changed <==> exists k :: k in patch && k !in keys && m.Get(before, k) != patch[k]
      decreases |keys|
    {
      var key :| key in keys;
      keys := keys - {key};
      if m.Get(after, key) != patch[key] {
        GetUpdated(m, after, key, patch[key]);
        after := after[key := patch[key]];
        changed := true;
      }
    }
    StoredIs(m, after, patch);
    StoredIs(m, before, patch);
  }

  /** Half way through storing: the drones in `left` are still to be done. */
  ghost predicate Storing(m: Monitor, mid: Fleet, cur: Fleet, updates: map<int, Drone>, left: set<int>, differing: set<int>)
    requires updates.Keys == mid.Keys == cur.Keys
  {
    && (forall o :: o in mid ==> if o in left then cur[o] == mid[o]
                                 else Stored(m, cur[o]) == updates[o] && Kept(m, mid[o], cur[o]))
    && (forall o :: o in differing <==> o in mid && o !in left && Stored(m, mid[o]) != updates[o])
  }

  lemma NothingStored(m: Monitor, mid: Fleet, updates: map<int, Drone>)
    requires updates.Keys == mid.Keys
    ensures Storing(m, mid, mid, updates, updates.Keys, {})
  {
    hide Stored, Kept;
  }

  lemma StoreOne(m: Monitor, mid: Fleet, before: Fleet, after: Fleet, updates: map<int, Drone>,
                 left: set<int>, differing: set<int>, o: int, differs: bool)
    requires updates.Keys == mid.Keys == before.Keys == after.Keys && o in left && left <= updates.Keys
    requires Storing(m, mid, before, updates, left, differing)
    requires forall x :: x in after && x != o ==> after[x] == before[x]
    requires Stored(m, after[o]) == updates[o] && Kept(m, before[o], after[o])
    requires differs <==> Stored(m, before[o]) != updates[o]
    ensures Storing(m, mid, after, updates, left - {o}, if differs then differing + {o} else differing)
  {
    hide Stored, Kept;
  }

  lemma AllStored(m: Monitor, mid: Fleet, cur: Fleet, updates: map<int, Drone>, differing: set<int>)
    requires updates.Keys == mid.Keys == cur.Keys && Storing(m, mid, cur, updates, {}, differing)
    ensures SameElsewhere(m, mid, cur)
    ensures forall o :: o in cur ==> Stored(m, cur[o]) == updates[o]
    ensures forall o :: o in differing <==> o in cur && Stored(m, cur[o]) != Stored(m, mid[o])
  {
    hide Stored, Kept;
  }

  class StateManager {
    const monitor: Monitor
    var states: Fleet
    var locks: set<int>

    ghost predicate Valid()
      reads this
    {
      locks == states.Keys
    }

    constructor (monitor: Monitor, now: real)
      ensures Valid() && this.monitor == monitor && states == map[] && InStep(monitor, states, now)
    {
      this.monitor := monitor;
      states, locks := map[], {};
    }

    /** A registration re-evaluates nobody: alerts stay in step iff no other drone shows this one as its intruder. */
    method InitDrone(id: int, callSign: string)
      requires Valid()
      modifies this
      ensures Valid() && states == old(states)[id := DefaultState(callSign)]
      ensures forall now :: InStep(monitor, old(states), now) ==>
                (InStep(monitor, states, now) <==> NobodyShows(monitor, old(states), id))
    {
      states := states[id := DefaultState(callSign)];
      locks := locks + {id};
      hide InStep, Withdrawn, NobodyShows;
      forall now | InStep(monitor, old(states), now)
        ensures InStep(monitor, states, now) <==> NobodyShows(monitor, old(states), id)
      {
        RegistrationWithdraws(monitor, old(states), id, callSign, now);
        WithdrawalKeepsStepIff(monitor, old(states), states, id, now);
      }
    }

    /** Nor does a removal. */
    method RemoveDrone(id: int)
      requires Valid()
      modifies this
      ensures Valid() && states == old(states) - {id}
      ensures forall now :: InStep(monitor, old(states), now) ==>
                (InStep(monitor, states, now) <==> NobodyShows(monitor, old(states), id))
    {
      states := states - {id};
      locks := locks - {id};
      hide InStep, Withdrawn, NobodyShows;
      forall now | InStep(monitor, old(states), now)
        ensures InStep(monitor, states, now) <==> NobodyShows(monitor, old(states), id)
      {
        RemovalWithdraws(monitor, old(states), id, now);
        WithdrawalKeepsStepIff(monitor, old(states), states, id, now);
      }
    }

    /** Store a patch of alert fields; report whether any differed. */
    method ApplyPatch(id: int, patch: Drone) returns (changed: bool)
      requires Valid() && patch.Keys == ALERT_KEYS
      modifies this
      ensures Valid() && states.Keys == old(states).Keys
      ensures forall o :: o in states && o != id ==> states[o] == old(states)[o]
      ensures id in states ==> Stored(monitor, states[id]) == patch
      ensures id in states ==> Kept(monitor, old(states)[id], states[id])
      ensures changed <==> id in states && Stored(monitor, old(states)[id]) != patch
    {
      hide Stored, Kept;
      changed := false;
      if id !in states { return; }
      var after;
      after, changed := Merged(monitor, states[id], patch);
      states := states[id := after];
    }

    /** Store every drone's patch; the drones whose alert fields differed come back. */
    method StorePatches(updates: map<int, Drone>) returns (differing: set<int>)
      requires Valid() && updates.Keys == states.Keys && forall o :: o in updates ==> updates[o].Keys == ALERT_KEYS
      modifies this
      ensures Valid() && SameElsewhere(monitor, old(states), states)
      ensures forall o :: o in states ==> Stored(monitor, states[o]) == updates[o]
      ensures forall o :: o in differing <==> o in states && Stored(monitor, states[o]) != Stored(monitor, old(states)[o])
    {
      hide Stored, Kept, SameElsewhere, Monitor.Get, Storing;
      ghost var mid := states;
      differing := {};
      var left := updates.Keys;
      NothingStored(monitor, mid, updates);
      while left != {}
        invariant Valid() && left <= updates.Keys && updates.Keys == mid.Keys == states.Keys
        invariant Storing(monitor, mid, states, updates, left, differing)
        decreases |left|
      {
        SomeElement(left);
        var o :| o in left;
        ghost var before := states;
        var differs := ApplyPatch(o, updates[o]);
        StoreOne(monitor, mid, before, states, updates, left, differing, o, differs);
        left := left - {o};
        if differs { differing := differing + {o}; }
      }
      AllStored(monitor, mid, states, updates, differing);
    }

    /** Merge telemetry, re-evaluate the whole fleet and store every drone's alert fields. */
    method Update(id: int, data: Drone, now: real) returns (changed: set<int>)
      requires Valid()
      modifies this
      ensures Valid()
      ensures id !in old(states) ==> states == old(states) && changed == {}
      ensures id in old(states) ==> InStep(monitor, states, now)
      ensures id in old(states) ==>
                SameElsewhere(monitor, old(states)[id := old(states)[id] + data + map[UPDATED := Time(now)]], states)
      ensures id in old(states) ==>
                var mid := old(states)[id := old(states)[id] + data + map[UPDATED := Time(now)]];
                forall o :: o in changed <==>
                  o == id || (o in states && Stored(monitor, states[o]) != Stored(monitor, mid[o]))
    {
      hide Monitor.Get, Stored, SameElsewhere, Monitor.Right;
      if id !in states { return {}; }
      states := states[id := states[id] + data];
      states := states[id := states[id][UPDATED := Time(now)]];
      ghost var mid := old(states)[id := old(states)[id] + data + map[UPDATED := Time(now)]];
      assert (old(states)[id] + data)[UPDATED := Time(now)] == old(states)[id] + data + map[UPDATED := Time(now)];
      assert states == mid;
      var updates := Evaluate(monitor, states, now);
      forall o | o in updates
        ensures updates[o].Keys == ALERT_KEYS
      {
        RightHasAlertKeys(monitor, mid, o, now, updates[o]);
      }
      var differing := StorePatches(updates);
      changed := {id} + differing;
      SameKeys(monitor, mid, states);
      forall o | o in states
        ensures monitor.Right(states, o, now, Stored(monitor, states[o]))
      {
        SameRight(monitor, mid, states, now, o, updates[o]);
      }
    }
  }

  lemma SameKeys(m: Monitor, f: Fleet, g: Fleet)
    requires SameElsewhere(m, f, g)
    ensures f.Keys == g.Keys
  {
  }

  lemma RightHasAlertKeys(m: Monitor, f: Fleet, id: int, now: real, patch: Drone)
    requires m.Right(f, id, now, patch)
    ensures patch.Keys == ALERT_KEYS
  {
    hide Monitor.Near, Monitor.Between, Monitor.Nearest;
  }

  // ----- Leaving the table -----

  /** `g` is `f` after drone `r` was removed or registered afresh. */
  ghost predicate Withdrawn(m: Monitor, f: Fleet, g: Fleet, r: int, now: real) {
    && (forall id :: id != r ==> (id in g <==> id in f))
    && (forall id :: id != r && id in f ==> g[id] == f[id])
    && !m.Eligible(g, r, now)
    && (r in g ==> Stored(m, g[r]) == m.Cleared())
  }

  ghost predicate NobodyShows(m: Monitor, f: Fleet, r: int) {
    forall id :: id in f && id != r ==> m.Get(f[id], INTRUDER) != Num(r as real)
  }

  lemma RemovalWithdraws(m: Monitor, f: Fleet, r: int, now: real)
    ensures Withdrawn(m, f, f - {r}, r, now)
  {
  }

  lemma FreshIsClear(m: Monitor, callSign: string)
    ensures !m.Positioned(DefaultState(callSign)) && Stored(m, DefaultState(callSign)) == m.Cleared()
  {
    StoredIs(m, DefaultState(callSign), m.Cleared());
  }

  lemma RegistrationWithdraws(m: Monitor, f: Fleet, r: int, callSign: string, now: real)
    ensures Withdrawn(m, f, f[r := DefaultState(callSign)], r, now)
  {
    hide Monitor.Positioned, Monitor.Recent, DefaultState, Stored, Monitor.Cleared;
    FreshIsClear(m, callSign);
  }

  lemma NearAfterWithdrawal(m: Monitor, f: Fleet, g: Fleet, r: int, now: real, a: int, b: int)
    requires Withdrawn(m, f, g, r, now)
    ensures m.Near(g, a, b, now) <==> m.Near(f, a, b, now) && a != r && b != r
    ensures m.Near(g, a, b, now) ==> m.Between(g, a, b, now) == m.Between(f, a, b, now)
  {
  }

  lemma PatchFields(m: Monitor)
    ensures forall p: int, d: real :: var a := m.Alerted(p, d);
              ALERT in a && INTRUDER in a && a[ALERT] == TRUE && a[INTRUDER] == Num(p as real)
    ensures var c := m.Cleared(); ALERT in c && INTRUDER in c && c[ALERT] == FALSE && c[INTRUDER] == Nil
    ensures TRUE != FALSE
  {
  }

  lemma StaysRight(m: Monitor, f: Fleet, g: Fleet, r: int, now: real, id: int, patch: Drone)
    requires Withdrawn(m, f, g, r, now) && id in f && id != r && m.Right(f, id, now, patch)
    ensures INTRUDER in patch && (m.Right(g, id, now, patch) <==> patch[INTRUDER] != Num(r as real))
  {
    hide Monitor.Between, Monitor.Eligible, Monitor.Cleared, Monitor.Alerted;
    PatchFields(m);
    forall p
      ensures m.Near(g, id, p, now) <==> m.Near(f, id, p, now) && p != r
      ensures m.Near(g, id, p, now) ==> m.Between(g, id, p, now) == m.Between(f, id, p, now)
    {
      NearAfterWithdrawal(m, f, g, r, now, id, p);
    }
    if p :| p in f && m.Nearest(f, id, p, now) && patch == m.Alerted(p, m.Between(f, id, p, now)) {
      assert p in g ==> (m.Nearest(g, id, p, now) <==> p != r);
      IntruderIsUnique(m, g, id, p, m.Between(f, id, p, now), now);
    }
  }

  /** An alert that names `p` is right only when `p` is the nearest drone. */
  lemma IntruderIsUnique(m: Monitor, f: Fleet, id: int, p: int, d: real, now: real)
    ensures m.Right(f, id, now, m.Alerted(p, d)) ==> m.Near(f, id, p, now)
  {
    hide Monitor.Between, Monitor.Eligible, Monitor.Cleared, Monitor.Alerted;
    PatchFields(m);
    if m.Right(f, id, now, m.Alerted(p, d)) {
      var o :| o in f && m.Nearest(f, id, o, now) && m.Alerted(p, d) == m.Alerted(o, m.Between(f, id, o, now));
      assert m.Alerted(o, m.Between(f, id, o, now))[INTRUDER] == Num(o as real);
    }
  }

  lemma StaysInStep(m: Monitor, f: Fleet, g: Fleet, r: int, now: real, id: int)
    requires Withdrawn(m, f, g, r, now) && InStep(m, f, now) && id in f && id != r
    ensures m.Right(g, id, now, Stored(m, g[id])) <==> m.Get(f[id], INTRUDER) != Num(r as real)
  {
    hide Monitor.Right, Monitor.Eligible, Monitor.Get;
    var patch := Stored(m, f[id]);
    StaysRight(m, f, g, r, now, id, patch);
    assert patch[INTRUDER] == m.Get(f[id], INTRUDER);
  }

  /**
   * Removing or re-registering a drone does not re-evaluate the others: the stored alerts stay in step
   * exactly when no other drone shows it as its intruder.
   */
  lemma WithdrawalKeepsStepIff(m: Monitor, f: Fleet, g: Fleet, r: int, now: real)
    requires Withdrawn(m, f, g, r, now) && InStep(m, f, now)
    ensures InStep(m, g, now) <==> NobodyShows(m, f, r)
  {
    hide Monitor.Right, Monitor.Eligible, Stored;
    forall id | id in f && id != r
      ensures m.Right(g, id, now, Stored(m, g[id])) <==> m.Get(f[id], INTRUDER) != Num(r as real)
    {
      StaysInStep(m, f, g, r, now, id);
    }
    if r in g {
      NobodyNear(m, f, g, r, now);
    }
  }

  lemma NobodyNear(m: Monitor, f: Fleet, g: Fleet, r: int, now: real)
    requires Withdrawn(m, f, g, r, now) && r in g
    ensures m.Right(g, r, now, Stored(m, g[r]))
  {
    forall p | p in g
      ensures !m.Near(g, r, p, now)
    {
      NearAfterWithdrawal(m, f, g, r, now, r, p);
    }
  }
}
