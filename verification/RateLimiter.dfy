/**
 * The sliding-window limiter: one sorted set of request times per client, pruned and given an
 * expiry on every check. Members are named after their time, so equal times are one member.
 */
module RateLimiter {

  /** A sorted set with the time at which Redis drops it. */
  datatype ZSet = ZSet(times: set<real>, expires: real)

  /** Times of a history that still lie in the window ending at `now`. */
  ghost function Recent(history: seq<real>, now: real, window: real): set<real> {
    set t | t in history && t > now - window
  }

  /** The decision of a limiter that keeps every request for ever. */
  ghost predicate Allows(history: seq<real>, now: real, limit: int, window: real) {
    |Recent(history, now, window)| < limit
  }

  ghost predicate Ordered(history: seq<real>) {
    forall i, j :: 0 <= i < j < |history| ==> history[i] <= history[j]
  }

  /** What Redis holds for a client after these requests. */
  ghost predicate Stores(store: map<string, ZSet>, client: string, history: seq<real>, window: real) {
    if history == [] then client !in store
    else
      var last := history[|history| - 1];
      client in store && store[client] == ZSet(Recent(history, last, window) + {last}, last + window + 1.0)
  }

  /** zremrangebyscore(-inf, now - window) on a set that may have expired. */
  function Pruned(store: map<string, ZSet>, client: string, now: real, window: real): set<real> {
    if client in store && now < store[client].expires
    then set t | t in store[client].times && t > now - window
    else {}
  }

  class RateLimiter {
    const limit: int
    const window: real
    var store: map<string, ZSet>
    ghost var history: map<string, seq<real>>

    ghost function Requests(client: string): seq<real>
      reads this
    {
      if client in history then history[client] else []
    }

    ghost predicate ClientOk(client: string)
      reads this
    {
      Ordered(Requests(client)) && Stores(store, client, Requests(client), window)
    }

    ghost predicate Valid()
      reads this
    {
      window >= 0.0 && forall client :: ClientOk(client)
    }

    constructor (limit: int, window: real)
      requires window >= 0.0
      ensures Valid() && this.limit == limit && this.window == window
      ensures forall client :: Requests(client) == []
    {
      this.limit, this.window := limit, window;
      store, history := map[], map[];
    }

    /**
     * One request. Pruning and expiry never change the decision: it is the one a limiter with
     * the full history would take. Rejected requests are recorded like accepted ones.
     */
    method Check(client: string, now: real) returns (allowed: bool)
      requires Valid() && forall t :: t in Requests(client) ==> t <= now
      modifies this
      ensures Valid()
      ensures allowed <==> Allows(old(Requests(client)), now, limit, window)
      ensures Requests(client) == old(Requests(client)) + [now]
      ensures forall other :: other != client ==> Requests(other) == old(Requests(other))
    {
      ghost var past := Requests(client);
      assert ClientOk(client);
      PruningIsExact(store, client, past, now, window);
      var kept := Pruned(store, client, now, window);
      allowed := |kept| < limit;
      label before:
      store := store[client := ZSet(kept + {now}, now + window + 1.0)];
      history := history[client := past + [now]];
      RecordingIsExact(store, client, past, now, window);
      hide Ordered, Stores, Recent, Pruned;
      forall other
        ensures ClientOk(other)
        ensures other != client ==> Requests(other) == old(Requests(other))
      {
        if other != client {
          assert old@before(ClientOk(other));
          OthersUntouched(old@before(store), store, client, other, Requests(other), window);
        }
      }
    }
  }

  lemma OthersUntouched(before: map<string, ZSet>, after: map<string, ZSet>, client: string, other: string,
                        past: seq<real>, window: real)
    requires client in after && after == before[client := after[client]] && other != client
    requires Stores(before, other, past, window)
    ensures Stores(after, other, past, window)
  {
  }

  /** What survives the expiry and the pruning is exactly the recent part of the full history. */
  lemma PruningIsExact(store: map<string, ZSet>, client: string, past: seq<real>, now: real, window: real)
    requires Stores(store, client, past, window) && Ordered(past) && window >= 0.0
    requires forall t :: t in past ==> t <= now
    ensures Pruned(store, client, now, window) == Recent(past, now, window)
  {
    if past != [] {
      var last := past[|past| - 1];
      forall t | t in past
        ensures t <= last
      {
        var i :| 0 <= i < |past| && past[i] == t;
      }
      assert last in past;
    }
  }

  lemma RecordingIsExact(store: map<string, ZSet>, client: string, past: seq<real>, now: real, window: real)
    requires client in store && store[client] == ZSet(Recent(past, now, window) + {now}, now + window + 1.0)
    requires Ordered(past) && forall t :: t in past ==> t <= now
    ensures Ordered(past + [now]) && Stores(store, client, past + [now], window)
  {
    var all := past + [now];
    assert all[|all| - 1] == now;
    assert forall i :: 0 <= i < |past| ==> all[i] == past[i] && past[i] in past;
    assert Recent(all, now, window) + {now} == Recent(past, now, window) + {now};
  }

  // ----- Over a whole run -----

  /** Request i of a run is accepted. */
  ghost predicate Accepted(run: seq<real>, i: nat, limit: int, window: real)
    requires i < |run|
  {
    Allows(run[..i], run[i], limit, window)
  }

  /** Accepted requests with times in [from, from + window). */
  ghost function AcceptedIn(run: seq<real>, from: real, limit: int, window: real): set<nat> {
    set i: nat | i < |run| && from <= run[i] < from + window && Accepted(run, i, limit, window)
  }

  ghost predicate StrictlyOrdered(run: seq<real>) {
    forall i, j :: 0 <= i < j < |run| ==> run[i] < run[j]
  }

  lemma {:induction false} Injected(run: seq<real>, ids: set<nat>, times: set<real>)
    requires StrictlyOrdered(run)
    requires forall i :: i in ids ==> i < |run| && run[i] in times
    ensures |ids| <= |times|
    decreases ids
  {
    if ids != {} {
      var i :| i in ids;
      Injected(run, ids - {i}, times - {run[i]});
    }
  }

  lemma {:induction false} Greatest(ids: set<nat>) returns (m: nat)
    requires ids != {}
    ensures m in ids && forall i :: i in ids ==> i <= m
    decreases ids
  {
    m :| m in ids;
    var rest := ids - {m};
    if rest != {} {
      var m' := Greatest(rest);
      assert forall i :: i in ids ==> i == m || i in rest;
      m := if m' > m then m' else m;
    } else {
      assert ids == {m};
    }
  }

  /** Strictly increasing request times: no window ever holds more than `limit` accepted requests. */
  lemma NeverOverLimit(run: seq<real>, from: real, limit: int, window: real)
    requires StrictlyOrdered(run) && limit >= 0
    ensures |AcceptedIn(run, from, limit, window)| <= limit
  {
    var ids := AcceptedIn(run, from, limit, window);
    if ids != {} {
      var m := Greatest(ids);
      var recent := Recent(run[..m], run[m], window);
      forall i | i in ids - {m}
        ensures i < |run| && run[i] in recent
      {
        assert i < m && run[..m][i] == run[i];
      }
      Injected(run, ids - {m}, recent);
    }
  }

  // ----- Nobody is rejected without reason -----

  /** Earlier requests, accepted or not, in the window (run[i] - window, run[i]]. */
  ghost function Earlier(run: seq<real>, i: nat, window: real): set<nat>
    requires i < |run|
  {
    set j: nat | j < i && run[i] - window < run[j] <= run[i]
  }

  lemma SomeTime(times: set<real>)
    ensures times != {} ==> exists t :: t in times
  {
    if forall t :: t !in times {
      assert times == {};
    }
  }

  lemma {:induction false} TimesOf(run: seq<real>, times: set<real>, ids: set<nat>)
    requires forall t :: t in times ==> exists j :: j in ids && j < |run| && run[j] == t
    ensures |times| <= |ids|
    decreases times
  {
    if times != {} {
      SomeTime(times);
      var t :| t in times;
      var j :| j in ids && j < |run| && run[j] == t;
      forall u | u in times - {t}
        ensures exists k :: k in ids - {j} && k < |run| && run[k] == u
      {
        var k :| k in ids && k < |run| && run[k] == u;
        assert k in ids - {j};
      }
      TimesOf(run, times - {t}, ids - {j});
    }
  }

  /** A rejected request follows at least `limit` others within the window. */
  lemma RejectedIsBusy(run: seq<real>, i: nat, limit: int, window: real)
    requires Ordered(run) && i < |run| && !Accepted(run, i, limit, window)
    ensures |Earlier(run, i, window)| >= limit
  {
    var recent := Recent(run[..i], run[i], window);
    forall t | t in recent
      ensures exists j :: j in Earlier(run, i, window) && j < |run| && run[j] == t
    {
      var j :| 0 <= j < i && run[..i][j] == t;
      assert j in Earlier(run, i, window);
    }
    TimesOf(run, recent, Earlier(run, i, window));
  }

  /** At strictly increasing times a request is accepted exactly when fewer than `limit` precede it in the window. */
  lemma AcceptedIff(run: seq<real>, i: nat, limit: int, window: real)
    requires StrictlyOrdered(run) && i < |run|
    ensures Accepted(run, i, limit, window) <==> |Earlier(run, i, window)| < limit
  {
    if !Accepted(run, i, limit, window) {
      RejectedIsBusy(run, i, limit, window);
    } else {
      var recent := Recent(run[..i], run[i], window);
      forall j | j in Earlier(run, i, window)
        ensures j < |run| && run[j] in recent
      {
        assert run[..i][j] == run[j];
      }
      Injected(run, Earlier(run, i, window), recent);
    }
  }

  /** A client that never makes more than `limit` requests in a window is never rejected. */
  lemma LawfulClientPasses(run: seq<real>, limit: int, window: real)
    requires Ordered(run) && window > 0.0
    requires forall i :: 0 <= i < |run| ==> |Earlier(run, i, window) + {i}| <= limit
    ensures forall i :: 0 <= i < |run| ==> Accepted(run, i, limit, window)
  {
    forall i | 0 <= i < |run|
      ensures Accepted(run, i, limit, window)
    {
      assert |Earlier(run, i, window) + {i}| == |Earlier(run, i, window)| + 1;
      if !Accepted(run, i, limit, window) {
        RejectedIsBusy(run, i, limit, window);
      }
    }
  }

  // ----- Requests at equal times -----

  ghost function Repeat(t: real, n: nat): seq<real> {
    seq(n, _ => t)
  }

  /** With equal times the set holds one member, so a burst passes any limit above one. */
  lemma BurstPasses(t: real, limit: int, window: real)
    requires limit >= 2 && window > 0.0
    ensures |AcceptedIn(Repeat(t, limit + 1), t, limit, window)| == limit + 1
  {
    var run := Repeat(t, limit + 1);
    forall i: nat | i < |run|
      ensures Accepted(run, i, limit, window)
    {
      assert Recent(run[..i], t, window) <= {t};
      SubsetSize(Recent(run[..i], t, window), {t});
    }
    assert AcceptedIn(run, t, limit, window) == Below(limit + 1);
  }

  lemma SubsetSize(a: set<real>, b: set<real>)
    requires a <= b
    ensures |a| <= |b|
  {
    assert b == a + (b - a);
  }

  ghost function Below(n: nat): (ids: set<nat>)
    ensures |ids| == n && forall i: nat :: i in ids <==> i < n
  {
    if n == 0 then {} else Below(n - 1) + {n - 1}
  }

  ghost predicate SafeForEveryRun(limit: int, window: real) {
    forall run, from :: Ordered(run) ==> |AcceptedIn(run, from, limit, window)| <= limit
  }

  /** For runs whose times may repeat, the bound holds for limits 0 and 1 and for no other. */
  lemma SafeWithRepeatsIff(limit: int, window: real)
    requires limit >= 0 && window > 0.0
    ensures SafeForEveryRun(limit, window) <==> limit <= 1
  {
    if limit <= 1 {
      forall run, from | Ordered(run)
        ensures |AcceptedIn(run, from, limit, window)| <= limit
      {
        AtMostOne(run, from, limit, window);
      }
    } else {
      BurstPasses(0.0, limit, window);
      assert Ordered(Repeat(0.0, limit + 1));
    }
  }

  /** An earlier request in the window of an accepted one means the limit exceeds one. */
  lemma EarlierCounts(run: seq<real>, i: nat, m: nat, limit: int, window: real)
    requires i < m < |run| && run[i] > run[m] - window && Accepted(run, m, limit, window)
    ensures limit >= 2
  {
    var recent := Recent(run[..m], run[m], window);
    assert run[..m][i] in recent;
    SubsetSize({run[i]}, recent);
  }

  lemma AtMostOne(run: seq<real>, from: real, limit: int, window: real)
    requires Ordered(run) && 0 <= limit <= 1
    ensures |AcceptedIn(run, from, limit, window)| <= limit
  {
    var ids := AcceptedIn(run, from, limit, window);
    if ids != {} {
      var m := Greatest(ids);
      forall i | i in ids
        ensures i == m
      {
        if i != m {
          EarlierCounts(run, i, m, limit, window);
        }
      }
      assert ids == {m};
    }
  }
}
