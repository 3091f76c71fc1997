/**
 * Ramer-Douglas-Peucker simplification. The deviation of a point from a chord is an arbitrary
 * function, so nothing here depends on the geometry behind it.
 */
module PathSimplify {

  datatype Option<+T> = None | Some(value: T)

  /** deviation(point, chord start, chord end) */
  type Deviation<!P> = (P, P, P) -> real

  /** Deviation of vertex i from the chord between the two ends; vertex 0 stands for "none yet". */
  function DevAt<P>(dev: Deviation, ps: seq<P>, i: nat): real
    requires i < |ps|
  {
    if i == 0 then 0.0 else dev(ps[i], ps[0], ps[|ps| - 1])
  }

  /** First vertex of largest positive deviation among 1..k-1, or 0 when none is positive. */
  function Farthest<P>(dev: Deviation, ps: seq<P>, k: nat): (m: nat)
    requires 1 <= k < |ps|
    ensures m < k && (m > 0 ==> DevAt(dev, ps, m) > 0.0)
    ensures forall i :: 0 <= i < k ==> DevAt(dev, ps, i) <= DevAt(dev, ps, m)
    ensures forall i :: 0 <= i < m ==> DevAt(dev, ps, i) < DevAt(dev, ps, m)
  {
    if k == 1 then 0
    else
      var m := Farthest(dev, ps, k - 1);
      if DevAt(dev, ps, k - 1) > DevAt(dev, ps, m) then k - 1 else m
  }

  function SplitPoint<P>(dev: Deviation, ps: seq<P>): (m: nat)
    requires |ps| >= 2
    ensures m < |ps| - 1
  {
    Farthest(dev, ps, |ps| - 1)
  }

  /** left[:-1] + right: the two halves share the split vertex. */
  function Join<T>(left: seq<T>, right: seq<T>): seq<T>
    requires left != []
  {
    left[..|left| - 1] + right
  }

  /** True when the path is split further rather than replaced by its chord. */
  predicate Splits<P>(dev: Deviation, ps: seq<P>, eps: real) {
    |ps| >= 3 && DevAt(dev, ps, SplitPoint(dev, ps)) > eps
  }

  function Simplified<P>(dev: Deviation, ps: seq<P>, eps: real): (r: seq<P>)
    requires eps >= 0.0
    ensures ps != [] ==> r != [] && r[0] == ps[0] && r[|r| - 1] == ps[|ps| - 1]
    ensures |ps| >= 2 ==> 2 <= |r| <= |ps|
    decreases |ps|
  {
    if |ps| < 3 then ps
    else
      var m := SplitPoint(dev, ps);
      if DevAt(dev, ps, m) > eps then
        var left := Simplified(dev, ps[..m + 1], eps);
        var right := Simplified(dev, ps[m..], eps);
        Join(left, right)
      else [ps[0], ps[|ps| - 1]]
  }

  /**
   * Every split the recursion reaches is at an inner vertex. From zero up that is always so; below
   * zero a stretch without deviation is split at vertex 0, and its right part is the stretch itself.
   */
  predicate Ends<P>(dev: Deviation, ps: seq<P>, eps: real)
    decreases |ps|
  {
    |ps| < 3 ||
    var m := SplitPoint(dev, ps);
    DevAt(dev, ps, m) > eps ==> m > 0 && Ends(dev, ps[..m + 1], eps) && Ends(dev, ps[m..], eps)
  }

  /** `Ends` is not a choice: outside it no depth of calls suffices, see ReturnsIffEnds. */
  method Rdp<P>(dev: Deviation, points: seq<P>, eps: real) returns (r: seq<P>)
    requires Ends(dev, points, eps)
    ensures r == Answer(dev, points, eps)
    decreases |points|
  {
    hide Answer, Kept, SplitPoint;
    AnswerStep(dev, points, eps);
    if |points| < 3 {
      return points;
    }
    var dmax := 0.0;
    var index := 0;
    for i := 1 to |points| - 1
      invariant index < |points| - 1
      invariant index == Farthest(dev, points, i)
      invariant dmax == DevAt(dev, points, index)
    {
      var d := dev(points[i], points[0], points[|points| - 1]);
      if d > dmax {
        dmax := d;
        index := i;
      }
    }
    SplitPointIs(dev, points);
    if dmax > eps {
      var left := Rdp(dev, points[..index + 1], eps);
      var right := Rdp(dev, points[index..], eps);
      return Join(left, right);
    }
    return [points[0], points[|points| - 1]];
  }

  lemma SplitPointIs<P>(dev: Deviation, ps: seq<P>)
    requires |ps| >= 2
    ensures SplitPoint(dev, ps) == Farthest(dev, ps, |ps| - 1)
  {
  }

  method SimplifyPath<P>(dev: Deviation, waypoints: seq<P>, tolerance: real) returns (r: seq<P>)
    requires Ends(dev, waypoints, tolerance)
    ensures tolerance >= 0.0 ==> r == Simplified(dev, waypoints, tolerance)
    ensures tolerance < 0.0 ==> r == waypoints
  {
    if |waypoints| <= 2 {
      return waypoints;
    }
    r := Rdp(dev, waypoints, tolerance);
  }

  // ----- Which vertices are kept -----

  function Shift(s: seq<nat>, offset: nat): (r: seq<nat>)
    ensures |r| == |s|
    ensures forall i :: 0 <= i < |s| ==> r[i] == s[i] + offset
  {
    seq(|s|, i requires 0 <= i < |s| => s[i] + offset)
  }

  /** Indices of the vertices that survive. */
  ghost function Kept<P>(dev: Deviation, ps: seq<P>, eps: real): (ks: seq<nat>)
    requires eps >= 0.0
    ensures ps != [] ==> ks != [] && ks[0] == 0 && ks[|ks| - 1] == |ps| - 1
    ensures |ps| >= 2 ==> |ks| >= 2
    decreases |ps|
  {
    if |ps| == 0 then []
    else if |ps| == 1 then [0]
    else if |ps| == 2 then [0, 1]
    else
      var m := SplitPoint(dev, ps);
      if DevAt(dev, ps, m) > eps then
        Join(Kept(dev, ps[..m + 1], eps), Shift(Kept(dev, ps[m..], eps), m))
      else [0, |ps| - 1]
  }

  /** One step of the recursion; the proofs below use this instead of the definitions. */
  lemma Unfold<P>(dev: Deviation, ps: seq<P>, eps: real) returns (m: nat)
    requires eps >= 0.0 && |ps| >= 3
    ensures m == SplitPoint(dev, ps) && m < |ps| - 1
    ensures forall i :: 0 <= i < |ps| - 1 ==> DevAt(dev, ps, i) <= DevAt(dev, ps, m)
    ensures forall i :: 0 <= i < m ==> DevAt(dev, ps, i) < DevAt(dev, ps, m)
    ensures Splits(dev, ps, eps) ==>
              && 0 < m
              && Kept(dev, ps, eps) == Join(Kept(dev, ps[..m + 1], eps), Shift(Kept(dev, ps[m..], eps), m))
              && Simplified(dev, ps, eps)
                 == Join(Simplified(dev, ps[..m + 1], eps), Simplified(dev, ps[m..], eps))
    ensures Splits(dev, ps, eps) == (DevAt(dev, ps, m) > eps)
    ensures !Splits(dev, ps, eps) ==>
              && Kept(dev, ps, eps) == [0, |ps| - 1]
              && Simplified(dev, ps, eps) == [ps[0], ps[|ps| - 1]]
  {
    m := SplitPoint(dev, ps);
  }

  ghost predicate Increasing(ks: seq<nat>) {
    forall i, j :: 0 <= i < j < |ks| ==> ks[i] < ks[j]
  }

  /** r is the subsequence of ps at the increasing indices ks. */
  ghost predicate Picks<P(!new)>(ps: seq<P>, ks: seq<nat>, r: seq<P>) {
    && Increasing(ks) && |r| == |ks|
    && forall k :: 0 <= k < |ks| ==> ks[k] < |ps| && r[k] == ps[ks[k]]
  }

  /** What Join does, index by index. */
  lemma JoinAt<T>(left: seq<T>, right: seq<T>)
    requires left != []
    ensures var cut := |left| - 1;
            var j := Join(left, right);
            && |j| == cut + |right|
            && (forall k :: 0 <= k < cut ==> j[k] == left[k])
            && (forall k :: cut <= k < |j| ==> j[k] == right[k - cut])
  {
  }

  lemma JoinIncreases(lk: seq<nat>, rk: seq<nat>, m: nat)
    requires Increasing(lk) && Increasing(rk)
    requires lk != [] && lk[|lk| - 1] == m && rk != [] && rk[0] == 0
    ensures Increasing(Join(lk, Shift(rk, m)))
  {
    hide Join;
    JoinAt(lk, Shift(rk, m));
    var cut := |lk| - 1;
    assert forall k :: 0 <= k < cut ==> lk[k] < m;
  }

  lemma JoinPicks<P(!new)>(ps: seq<P>, m: nat, lk: seq<nat>, l: seq<P>, rk: seq<nat>, r: seq<P>)
    requires m < |ps| && Picks(ps[..m + 1], lk, l) && Picks(ps[m..], rk, r)
    requires lk != [] && lk[|lk| - 1] == m && rk != [] && rk[0] == 0
    ensures Picks(ps, Join(lk, Shift(rk, m)), Join(l, r))
  {
    hide Join;
    JoinAt(lk, Shift(rk, m));
    JoinAt(l, r);
    JoinIncreases(lk, rk, m);
  }

  /** Paths of at most two vertices are kept whole. */
  lemma ShortPath<P(!new)>(dev: Deviation, ps: seq<P>, eps: real)
    requires eps >= 0.0 && |ps| < 3
    ensures Simplified(dev, ps, eps) == ps && |Kept(dev, ps, eps)| == |ps|
    ensures forall i :: 0 <= i < |ps| ==> Kept(dev, ps, eps)[i] == i
    ensures Picks(ps, Kept(dev, ps, eps), Simplified(dev, ps, eps))
  {
  }

  lemma ChordPicks<P(!new)>(ps: seq<P>)
    requires |ps| >= 3
    ensures Picks(ps, [0, |ps| - 1], [ps[0], ps[|ps| - 1]])
  {
  }

  /** The result is the subsequence of the input at the kept indices. */
  lemma {:induction false} KeepsSubsequence<P(!new)>(dev: Deviation, ps: seq<P>, eps: real)
    requires eps >= 0.0
    ensures Picks(ps, Kept(dev, ps, eps), Simplified(dev, ps, eps))
    decreases |ps|
  {
    hide *;
    if |ps| < 3 {
      ShortPath(dev, ps, eps);
    } else {
      var m := Unfold(dev, ps, eps);
      if Splits(dev, ps, eps) {
        KeepsSubsequence(dev, ps[..m + 1], eps);
        KeepsSubsequence(dev, ps[m..], eps);
        JoinPicks(ps, m, Kept(dev, ps[..m + 1], eps), Simplified(dev, ps[..m + 1], eps),
                  Kept(dev, ps[m..], eps), Simplified(dev, ps[m..], eps));
      } else {
        ChordPicks(ps);
      }
    }
  }

  // ----- Error bound -----

  ghost predicate Within(ks: seq<nat>, n: nat) {
    forall k :: 0 <= k < |ks| ==> ks[k] < n
  }

  /** Vertex i is kept, or lies within eps of the chord between the kept vertices around it. */
  ghost predicate Bounded<P(!new)>(dev: Deviation, ps: seq<P>, eps: real, ks: seq<nat>, i: nat)
    requires i < |ps| && Within(ks, |ps|)
  {
    || i in ks
    || (exists k :: 0 <= k < |ks| - 1 && ks[k] < i < ks[k + 1]
                    && dev(ps[i], ps[ks[k]], ps[ks[k + 1]]) <= eps)
  }

  /** ks contains, from position `at` on, the indices `local` of the part starting at `from`. */
  ghost predicate Embeds(ks: seq<nat>, local: seq<nat>, at: nat, from: nat) {
    at + |local| <= |ks| && forall k :: 0 <= k < |local| ==> ks[at + k] == local[k] + from
  }

  lemma JoinEmbeds(lk: seq<nat>, rk: seq<nat>, m: nat)
    requires lk != [] && lk[|lk| - 1] == m && rk != [] && rk[0] == 0
    ensures Embeds(Join(lk, Shift(rk, m)), lk, 0, 0)
    ensures Embeds(Join(lk, Shift(rk, m)), rk, |lk| - 1, m)
    ensures |Join(lk, Shift(rk, m))| == |lk| - 1 + |rk|
  {
  }

  /** A bound inside the part starting at `from` is a bound in the whole. */
  lemma BoundedInPart<P(!new)>(dev: Deviation, ps: seq<P>, part: seq<P>, from: nat, eps: real,
                               ks: seq<nat>, local: seq<nat>, at: nat, i: nat)
    requires from + |part| <= |ps| && from <= i < from + |part| && part == ps[from..from + |part|]
    requires Within(ks, |ps|) && Within(local, |part|) && Embeds(ks, local, at, from)
    requires Bounded(dev, part, eps, local, i - from)
    ensures Bounded(dev, ps, eps, ks, i)
  {
    if i - from in local {
      var k :| 0 <= k < |local| && local[k] == i - from;
      assert ks[at + k] == i;
    } else {
      var k :| 0 <= k < |local| - 1 && local[k] < i - from < local[k + 1]
            && dev(part[i - from], part[local[k]], part[local[k + 1]]) <= eps;
      assert ks[at + k] == local[k] + from && ks[at + k + 1] == local[k + 1] + from;
      assert part[i - from] == ps[i];
    }
  }

  lemma KeptIsBounded<P(!new)>(dev: Deviation, ps: seq<P>, eps: real, ks: seq<nat>, i: nat)
    requires i < |ps| && Within(ks, |ps|) && i in ks
    ensures Bounded(dev, ps, eps, ks, i)
  {
  }

  lemma ChordIsBounded<P(!new)>(dev: Deviation, ps: seq<P>, eps: real, i: nat)
    requires |ps| >= 3 && i < |ps| && DevAt(dev, ps, i) <= eps
    ensures Within([0, |ps| - 1], |ps|) && Bounded(dev, ps, eps, [0, |ps| - 1], i)
  {
    var ks := [0, |ps| - 1];
    if 0 < i < |ps| - 1 {
      assert ks[0] < i < ks[0 + 1];
    } else {
      assert ks[0] == 0 && ks[1] == |ps| - 1;
    }
  }

  lemma LastIsBounded<P(!new)>(dev: Deviation, ps: seq<P>, eps: real)
    requires |ps| >= 3
    ensures Within([0, |ps| - 1], |ps|) && Bounded(dev, ps, eps, [0, |ps| - 1], |ps| - 1)
  {
    assert [0, |ps| - 1][1] == |ps| - 1;
  }

  lemma PicksWithin<P(!new)>(ps: seq<P>, ks: seq<nat>, r: seq<P>)
    requires Picks(ps, ks, r)
    ensures Within(ks, |ps|)
  {
  }

  /** Every dropped vertex is within tolerance of the chord that replaces it. */
  lemma {:induction false} DroppedWithinTolerance<P(!new)>(dev: Deviation, ps: seq<P>, eps: real, i: nat)
    requires eps >= 0.0 && i < |ps|
    ensures Within(Kept(dev, ps, eps), |ps|) && Bounded(dev, ps, eps, Kept(dev, ps, eps), i)
    decreases |ps|
  {
    hide *;
    var ks := Kept(dev, ps, eps);
    KeepsSubsequence(dev, ps, eps);
    PicksWithin(ps, ks, Simplified(dev, ps, eps));
    if |ps| < 3 {
      ShortPath(dev, ps, eps);
      assert ks[i] == i;
      KeptIsBounded(dev, ps, eps, ks, i);
    } else {
      var m := Unfold(dev, ps, eps);
      if Splits(dev, ps, eps) {
        var left, right := Kept(dev, ps[..m + 1], eps), Kept(dev, ps[m..], eps);
        JoinEmbeds(left, right, m);
        if i <= m {
          DroppedWithinTolerance(dev, ps[..m + 1], eps, i);
          BoundedInPart(dev, ps, ps[..m + 1], 0, eps, ks, left, 0, i);
        } else {
          DroppedWithinTolerance(dev, ps[m..], eps, i - m);
          BoundedInPart(dev, ps, ps[m..], m, eps, ks, right, |left| - 1, i);
        }
      } else if i < |ps| - 1 {
        ChordIsBounded(dev, ps, eps, i);
      } else {
        LastIsBounded(dev, ps, eps);
      }
    }
  }

  /** Kept vertex k is the first farthest vertex from the chord between kept a and b, and farther than eps. */
  ghost predicate Reason<P(!new)>(dev: Deviation, ps: seq<P>, eps: real, ks: seq<nat>, k: nat, a: nat, b: nat) {
    && a < k < b < |ks| && Within(ks, |ps|)
    && FirstFarthest(dev, ps, eps, ks[a], ks[k], ks[b])
  }

  ghost predicate FirstFarthest<P(!new)>(dev: Deviation, ps: seq<P>, eps: real, from: nat, m: nat, to: nat) {
    && from < m < to < |ps| && dev(ps[m], ps[from], ps[to]) > eps
    && (forall i :: from < i < to ==> dev(ps[i], ps[from], ps[to]) <= dev(ps[m], ps[from], ps[to]))
    && (forall i :: from < i < m ==> dev(ps[i], ps[from], ps[to]) < dev(ps[m], ps[from], ps[to]))
  }

  lemma FarthestInPart<P(!new)>(dev: Deviation, ps: seq<P>, part: seq<P>, at: nat, eps: real, from: nat, m: nat, to: nat)
    requires at + |part| <= |ps| && part == ps[at..at + |part|]
    requires FirstFarthest(dev, part, eps, from, m, to)
    ensures FirstFarthest(dev, ps, eps, at + from, at + m, at + to)
  {
    assert forall i :: at + from <= i <= at + to ==> ps[i] == part[i - at];
  }

  lemma ReasonInPart<P(!new)>(dev: Deviation, ps: seq<P>, part: seq<P>, from: nat, eps: real,
                              ks: seq<nat>, local: seq<nat>, at: nat, k: nat, a: nat, b: nat)
    requires from + |part| <= |ps| && part == ps[from..from + |part|]
    requires Within(ks, |ps|) && Embeds(ks, local, at, from)
    requires Reason(dev, part, eps, local, k, a, b)
    ensures Reason(dev, ps, eps, ks, at + k, at + a, at + b)
  {
    hide FirstFarthest;
    assert ks[at + k] == local[k] + from && ks[at + a] == local[a] + from && ks[at + b] == local[b] + from;
    FarthestInPart(dev, ps, part, from, eps, local[a], local[k], local[b]);
  }

  lemma SplitIsReason<P(!new)>(dev: Deviation, ps: seq<P>, eps: real, ks: seq<nat>, k: nat)
    requires 0 < k < |ks| - 1 && Within(ks, |ps|) && ks[0] == 0 && ks[|ks| - 1] == |ps| - 1
    requires 0 < ks[k] < |ps| - 1 && DevAt(dev, ps, ks[k]) > eps
    requires forall i :: 0 <= i < |ps| - 1 ==> DevAt(dev, ps, i) <= DevAt(dev, ps, ks[k])
    requires forall i :: 0 <= i < ks[k] ==> DevAt(dev, ps, i) < DevAt(dev, ps, ks[k])
    ensures Reason(dev, ps, eps, ks, k, 0, |ks| - 1)
  {
    assert forall i :: 0 < i < |ps| - 1 ==> DevAt(dev, ps, i) == dev(ps[i], ps[0], ps[|ps| - 1]);
  }

  lemma EmbedsAt(ks: seq<nat>, local: seq<nat>, at: nat, from: nat, k: nat)
    requires Embeds(ks, local, at, from) && k < |local|
    ensures at + k < |ks| && ks[at + k] == local[k] + from
  {
  }

  /** Every kept inner vertex is needed: it is the farthest from a chord of kept vertices, beyond eps. */
  lemma {:induction false} KeptForAReason<P(!new)>(dev: Deviation, ps: seq<P>, eps: real, k: nat)
    returns (a: nat, b: nat)
    requires eps >= 0.0 && 0 < k < |Kept(dev, ps, eps)| - 1
    ensures Reason(dev, ps, eps, Kept(dev, ps, eps), k, a, b)
    decreases |ps|
  {
    hide *;
    var ks := Kept(dev, ps, eps);
    KeepsSubsequence(dev, ps, eps);
    PicksWithin(ps, ks, Simplified(dev, ps, eps));
    if |ps| < 3 {
      ShortPath(dev, ps, eps);
    }
    var m := Unfold(dev, ps, eps);
    var left, right := Kept(dev, ps[..m + 1], eps), Kept(dev, ps[m..], eps);
    var cut := |left| - 1;
    JoinEmbeds(left, right, m);
    if k == cut {
      a, b := 0, |ks| - 1;
      EmbedsAt(ks, left, 0, 0, cut);
      SplitIsReason(dev, ps, eps, ks, k);
    } else if k < cut {
      a, b := KeptForAReason(dev, ps[..m + 1], eps, k);
      ReasonInPart(dev, ps, ps[..m + 1], 0, eps, ks, left, 0, k, a, b);
    } else {
      var a', b' := KeptForAReason(dev, ps[m..], eps, k - cut);
      ReasonInPart(dev, ps, ps[m..], m, eps, ks, right, cut, k - cut, a', b');
      a, b := cut + a', cut + b';
    }
  }

  // ----- Idempotence -----

  /** The split point is the only index with its two properties. */
  lemma SplitPointUnique<P>(dev: Deviation, ps: seq<P>, m: nat)
    requires |ps| >= 2 && 0 < m < |ps| - 1 && DevAt(dev, ps, m) > 0.0
    requires forall i :: 0 <= i < |ps| - 1 ==> DevAt(dev, ps, i) <= DevAt(dev, ps, m)
    requires forall i :: 0 <= i < m ==> DevAt(dev, ps, i) < DevAt(dev, ps, m)
    ensures SplitPoint(dev, ps) == m
  {
  }

  /** A subsequence keeping the ends and the split vertex is split at that vertex. */
  lemma SubsequenceSplit<P(!new)>(dev: Deviation, ps: seq<P>, ks: seq<nat>, r: seq<P>, m: nat, cut: nat)
    requires Picks(ps, ks, r) && |ks| >= 2 && ks[0] == 0 && ks[|ks| - 1] == |ps| - 1
    requires 0 < cut < |ks| - 1 && ks[cut] == m && DevAt(dev, ps, m) > 0.0
    requires forall i :: 0 <= i < |ps| - 1 ==> DevAt(dev, ps, i) <= DevAt(dev, ps, m)
    requires forall i :: 0 <= i < m ==> DevAt(dev, ps, i) < DevAt(dev, ps, m)
    ensures SplitPoint(dev, r) == cut && DevAt(dev, r, cut) == DevAt(dev, ps, m)
  {
    hide SplitPoint;
    forall j | 0 <= j < |r| - 1
      ensures DevAt(dev, r, j) == DevAt(dev, ps, ks[j]) && ks[j] < |ps| - 1
      ensures DevAt(dev, r, j) <= DevAt(dev, r, cut)
      ensures j < cut ==> DevAt(dev, r, j) < DevAt(dev, r, cut)
    {
      assert ks[j] < ks[|ks| - 1];
      assert j > 0 ==> ks[0] < ks[j];
      assert j < cut ==> ks[j] < ks[cut];
    }
    SplitPointUnique(dev, r, cut);
  }

  lemma {:induction false} SimplifyTwice<P(!new)>(dev: Deviation, ps: seq<P>, eps: real)
    requires eps >= 0.0
    ensures Simplified(dev, Simplified(dev, ps, eps), eps) == Simplified(dev, ps, eps)
    decreases |ps|
  {
    hide *;
    var r := Simplified(dev, ps, eps);
    if |ps| < 3 {
      ShortPath(dev, ps, eps);
    } else {
      var m := Unfold(dev, ps, eps);
      if Splits(dev, ps, eps) {
        var left, right := Simplified(dev, ps[..m + 1], eps), Simplified(dev, ps[m..], eps);
        var cut := |left| - 1;
        SimplifyTwice(dev, ps[..m + 1], eps);
        SimplifyTwice(dev, ps[m..], eps);
        SplitsAgain(dev, ps, eps, m);
        var c := Unfold(dev, r, eps);
        JoinParts(left, right);
      } else {
        ShortPath(dev, r, eps);
      }
    }
  }

  lemma JoinParts<P>(left: seq<P>, right: seq<P>)
    requires left != [] && right != [] && left[|left| - 1] == right[0]
    ensures |Join(left, right)| == |left| - 1 + |right|
    ensures Join(left, right)[..|left|] == left && Join(left, right)[|left| - 1..] == right
  {
  }

  lemma SplitsAgain<P(!new)>(dev: Deviation, ps: seq<P>, eps: real, m: nat)
    requires eps >= 0.0 && Splits(dev, ps, eps) && |ps| >= 3 && m == SplitPoint(dev, ps)
    ensures var r := Simplified(dev, ps, eps);
            var cut := |Simplified(dev, ps[..m + 1], eps)| - 1;
            |r| >= 3 && 0 < cut < |r| - 1 && SplitPoint(dev, r) == cut && Splits(dev, r, eps)
  {
    hide *;
    var ks, r := Kept(dev, ps, eps), Simplified(dev, ps, eps);
    var m' := Unfold(dev, ps, eps);
    var left, right := Kept(dev, ps[..m + 1], eps), Kept(dev, ps[m..], eps);
    KeepsSubsequence(dev, ps, eps);
    KeepsSubsequence(dev, ps[..m + 1], eps);
    PicksLength(ps, ks, r);
    PicksLength(ps[..m + 1], left, Simplified(dev, ps[..m + 1], eps));
    JoinEmbeds(left, right, m);
    EmbedsAt(ks, left, 0, 0, |left| - 1);
    SubsequenceSplit(dev, ps, ks, r, m, |left| - 1);
    var c := Unfold(dev, r, eps);
  }

  lemma PicksLength<P(!new)>(ps: seq<P>, ks: seq<nat>, r: seq<P>)
    requires Picks(ps, ks, r)
    ensures |r| == |ks|
  {
  }

  // ----- Every tolerance: when the recursion ends, and with what -----

  /** The recursion cut off after `fuel` nested calls; None when it is cut off. */
  function Fuelled<P>(dev: Deviation, ps: seq<P>, eps: real, fuel: nat): (r: Option<seq<P>>)
    ensures r.Some? && ps != [] ==> r.value != []
  {
    if fuel == 0 then None
    else if |ps| < 3 then Some(ps)
    else
      var m := SplitPoint(dev, ps);
      if DevAt(dev, ps, m) > eps then
        var left := Fuelled(dev, ps[..m + 1], eps, fuel - 1);
        var right := Fuelled(dev, ps[m..], eps, fuel - 1);
        if left.Some? && right.Some? then Some(Join(left.value, right.value)) else None
      else Some([ps[0], ps[|ps| - 1]])
  }

  /** From zero up every split is at an inner vertex. */
  lemma {:induction false} EndsFromZeroUp<P>(dev: Deviation, ps: seq<P>, eps: real)
    requires eps >= 0.0
    ensures Ends(dev, ps, eps)
    decreases |ps|
  {
    if |ps| >= 3 && DevAt(dev, ps, SplitPoint(dev, ps)) > eps {
      var m := SplitPoint(dev, ps);
      EndsFromZeroUp(dev, ps[..m + 1], eps);
      EndsFromZeroUp(dev, ps[m..], eps);
    }
  }

  /** The answer where the recursion ends; below zero that is the whole path. */
  function Answer<P>(dev: Deviation, ps: seq<P>, eps: real): seq<P> {
    if eps >= 0.0 then Simplified(dev, ps, eps) else ps
  }

  lemma AnswerStep<P>(dev: Deviation, ps: seq<P>, eps: real)
    ensures |ps| < 3 ==> Answer(dev, ps, eps) == ps
    ensures |ps| >= 3 ==>
      var m := SplitPoint(dev, ps);
      && (DevAt(dev, ps, m) <= eps ==> Answer(dev, ps, eps) == [ps[0], ps[|ps| - 1]])
      && (DevAt(dev, ps, m) > eps && m > 0 ==>
            && Answer(dev, ps[..m + 1], eps) != []
            && Answer(dev, ps, eps) == Join(Answer(dev, ps[..m + 1], eps), Answer(dev, ps[m..], eps)))
  {
    if |ps| >= 3 {
      var m := SplitPoint(dev, ps);
      assert DevAt(dev, ps, m) >= 0.0;
      assert ps == Join(ps[..m + 1], ps[m..]);
    }
  }

  /** Fuel for one call per vertex and one more is always enough where the recursion ends. */
  lemma {:induction false} EndingIsFuelled<P>(dev: Deviation, ps: seq<P>, eps: real, fuel: nat)
    requires Ends(dev, ps, eps) && fuel > |ps|
    ensures Fuelled(dev, ps, eps, fuel) == Some(Answer(dev, ps, eps))
    decreases |ps|
  {
    hide Answer;
    AnswerStep(dev, ps, eps);
    if |ps| >= 3 && DevAt(dev, ps, SplitPoint(dev, ps)) > eps {
      var m := SplitPoint(dev, ps);
      EndingIsFuelled(dev, ps[..m + 1], eps, fuel - 1);
      EndingIsFuelled(dev, ps[m..], eps, fuel - 1);
    }
  }

  lemma {:induction false} FuelledEnds<P>(dev: Deviation, ps: seq<P>, eps: real, fuel: nat)
    requires Fuelled(dev, ps, eps, fuel).Some?
    ensures Ends(dev, ps, eps)
    decreases fuel
  {
    if |ps| >= 3 && DevAt(dev, ps, SplitPoint(dev, ps)) > eps {
      var m := SplitPoint(dev, ps);
      assert m == 0 ==> ps[m..] == ps;
      FuelledEnds(dev, ps[..m + 1], eps, fuel - 1);
      FuelledEnds(dev, ps[m..], eps, fuel - 1);
    }
  }

  /** For every tolerance: some depth of calls suffices iff `Ends`, and the result does not depend on it. */
  lemma ReturnsIffEnds<P>(dev: Deviation, ps: seq<P>, eps: real)
    ensures (exists fuel :: Fuelled(dev, ps, eps, fuel).Some?) <==> Ends(dev, ps, eps)
    ensures Ends(dev, ps, eps) ==> Fuelled(dev, ps, eps, |ps| + 1) == Some(Answer(dev, ps, eps))
  {
    if fuel :| Fuelled(dev, ps, eps, fuel).Some? {
      FuelledEnds(dev, ps, eps, fuel);
    }
    if Ends(dev, ps, eps) {
      EndingIsFuelled(dev, ps, eps, |ps| + 1);
    }
  }

  /** The stretch the recursion reaches by taking the left (false) or right (true) part again and again. */
  function Stretch<P>(dev: Deviation, ps: seq<P>, turns: seq<bool>): Option<seq<P>>
    decreases |turns|
  {
    if turns == [] then Some(ps)
    else if |ps| < 3 then None
    else
      var m := SplitPoint(dev, ps);
      Stretch(dev, if turns[0] then ps[m..] else ps[..m + 1], turns[1..])
  }

  /** Some inner vertex lies off the chord. */
  ghost predicate Bends<P(!new)>(dev: Deviation, ps: seq<P>) {
    exists i :: 0 < i < |ps| - 1 && DevAt(dev, ps, i) > 0.0
  }

  ghost predicate BendsAt<P(!new)>(dev: Deviation, ps: seq<P>, turns: seq<bool>) {
    var part := Stretch(dev, ps, turns);
    part.Some? && |part.value| >= 3 ==> Bends(dev, part.value)
  }

  ghost predicate BendsEverywhere<P(!new)>(dev: Deviation, ps: seq<P>) {
    forall turns :: BendsAt(dev, ps, turns)
  }

  lemma SplitsIffBends<P(!new)>(dev: Deviation, ps: seq<P>)
    requires |ps| >= 3
    ensures SplitPoint(dev, ps) > 0 <==> Bends(dev, ps)
  {
    var m := SplitPoint(dev, ps);
    if m > 0 {
      assert DevAt(dev, ps, m) > 0.0;
    }
  }

  lemma StretchOfPart<P>(dev: Deviation, ps: seq<P>, turn: bool, turns: seq<bool>)
    requires |ps| >= 3
    ensures var m := SplitPoint(dev, ps);
      Stretch(dev, ps, [turn] + turns) == Stretch(dev, if turn then ps[m..] else ps[..m + 1], turns)
  {
    assert ([turn] + turns)[1..] == turns;
  }

  lemma {:induction false} EndsImpliesBends<P(!new)>(dev: Deviation, ps: seq<P>, eps: real, turns: seq<bool>)
    requires eps < 0.0 && Ends(dev, ps, eps)
    ensures BendsAt(dev, ps, turns)
    decreases |turns|
  {
    if |ps| >= 3 {
      var m := SplitPoint(dev, ps);
      assert DevAt(dev, ps, m) >= 0.0;
      if turns == [] {
        SplitsIffBends(dev, ps);
      } else {
        EndsImpliesBends(dev, if turns[0] then ps[m..] else ps[..m + 1], eps, turns[1..]);
      }
    }
  }

  lemma {:induction false} BendsImpliesEnds<P(!new)>(dev: Deviation, ps: seq<P>, eps: real)
    requires BendsEverywhere(dev, ps)
    ensures Ends(dev, ps, eps)
    decreases |ps|
  {
    if |ps| >= 3 {
      var m := SplitPoint(dev, ps);
      var left, right := ps[..m + 1], ps[m..];
      assert BendsAt(dev, ps, []) && Stretch(dev, ps, []) == Some(ps);
      SplitsIffBends(dev, ps);
      forall turns
        ensures BendsAt(dev, left, turns)
      {
        StretchOfPart(dev, ps, false, turns);
        assert BendsAt(dev, ps, [false] + turns);
      }
      forall turns
        ensures BendsAt(dev, right, turns)
      {
        StretchOfPart(dev, ps, true, turns);
        assert BendsAt(dev, ps, [true] + turns);
      }
      BendsImpliesEnds(dev, ps[..m + 1], eps);
      BendsImpliesEnds(dev, ps[m..], eps);
    }
  }

  /** Below zero the recursion ends iff every stretch of three or more vertices it reaches bends. */
  lemma NegativeToleranceEndsIff<P(!new)>(dev: Deviation, ps: seq<P>, eps: real)
    requires eps < 0.0
    ensures Ends(dev, ps, eps) <==> BendsEverywhere(dev, ps)
  {
    if Ends(dev, ps, eps) {
      forall turns
        ensures BendsAt(dev, ps, turns)
      {
        EndsImpliesBends(dev, ps, eps, turns);
      }
    } else if BendsEverywhere(dev, ps) {
      BendsImpliesEnds(dev, ps, eps);
    }
  }

  /** It is not enough that the path itself bends: here the right part of the first split does not. */
  lemma LaterStretchLoops()
    ensures var dev := (p: int, a: int, b: int) => if p == 1 && a == 0 && b == 3 then 1.0 else 0.0;
      Bends(dev, [0, 1, 2, 3]) && !Ends(dev, [0, 1, 2, 3], -1.0)
  {
    var dev := (p: int, a: int, b: int) => if p == 1 && a == 0 && b == 3 then 1.0 else 0.0;
    var ps := [0, 1, 2, 3];
    assert DevAt(dev, ps, 1) == 1.0 && DevAt(dev, ps, 2) == 0.0;
    var m := SplitPoint(dev, ps);
    assert m == 1;
    var right := ps[1..];
    assert right == [1, 2, 3] && DevAt(dev, right, 1) == 0.0;
    assert SplitPoint(dev, right) == 0;
  }
}
