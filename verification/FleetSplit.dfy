/** Splitting a fleet into sub-problems under a qubit budget, and joining their solutions again. */
module FleetSplit {
  import opened Qubo
  import opened FleetAssignment

  type LatLon = (real, real)

  /** (drone indices, target indices) into the original lists. */
  type Sub = (seq<nat>, seq<nat>)

  function Range(n: nat): (r: seq<nat>)
    ensures |r| == n && forall i :: 0 <= i < n ==> r[i] == i
  {
    seq(n, i => i)
  }

  // ----- Stable sort by a key -----

  /** By key, and by index where keys are equal. */
  ghost predicate Ascending(key: nat -> real, xs: seq<nat>) {
    forall i, j :: 0 <= i < j < |xs| ==> Precedes(key, xs[i], xs[j])
  }

  ghost predicate Precedes(key: nat -> real, x: nat, y: nat) {
    key(x) < key(y) || (key(x) == key(y) && x < y)
  }

  ghost predicate Increasing(xs: seq<nat>) {
    forall i, j :: 0 <= i < j < |xs| ==> xs[i] < xs[j]
  }

  /** Insert before the first element that is not smaller. */
  function Insert(key: nat -> real, x: nat, xs: seq<nat>): (r: seq<nat>)
    ensures multiset(r) == multiset{x} + multiset(xs)
    ensures |r| == |xs| + 1
  {
    if xs == [] || key(x) <= key(xs[0]) then [x] + xs
    else
      assert xs == [xs[0]] + xs[1..];
      [xs[0]] + Insert(key, x, xs[1..])
  }

  function SortedBy(key: nat -> real, xs: seq<nat>): (r: seq<nat>)
    ensures multiset(r) == multiset(xs) && |r| == |xs|
  {
    if xs == [] then []
    else
      assert xs == [xs[0]] + xs[1..];
      Insert(key, xs[0], SortedBy(key, xs[1..]))
  }

  lemma ConsAscends(key: nat -> real, x: nat, xs: seq<nat>)
    requires Ascending(key, xs) && forall y :: y in xs ==> Precedes(key, x, y)
    ensures Ascending(key, [x] + xs)
  {
    hide Precedes;
    var all := [x] + xs;
    forall i, j | 0 <= i < j < |all|
      ensures Precedes(key, all[i], all[j])
    {
      assert all[j] == xs[j - 1];
      if i > 0 {
        assert all[i] == xs[i - 1];
      }
    }
  }

  lemma {:induction false} InsertAscends(key: nat -> real, x: nat, xs: seq<nat>)
    requires Ascending(key, xs) && forall y :: y in xs ==> x < y
    ensures Ascending(key, Insert(key, x, xs))
  {
    if xs == [] || key(x) <= key(xs[0]) {
      forall y | y in xs
        ensures Precedes(key, x, y)
      {
        var i :| 0 <= i < |xs| && xs[i] == y;
        assert i > 0 ==> Precedes(key, xs[0], xs[i]);
      }
      ConsAscends(key, x, xs);
    } else {
      assert forall y :: y in xs[1..] ==> y in xs;
      InsertAscends(key, x, xs[1..]);
      var rest := Insert(key, x, xs[1..]);
      forall y | y in rest
        ensures Precedes(key, xs[0], y)
      {
        assert y in multiset(rest);
        if y != x {
          var i :| 0 <= i < |xs[1..]| && xs[1..][i] == y;
          assert Precedes(key, xs[0], xs[i + 1]);
        }
      }
      ConsAscends(key, xs[0], rest);
    }
  }

  /** The sort is ascending by its key and stable. */
  lemma {:induction false} SortedAscends(key: nat -> real, xs: seq<nat>)
    requires Increasing(xs)
    ensures Ascending(key, SortedBy(key, xs))
  {
    if xs != [] {
      SortedAscends(key, xs[1..]);
      var rest := SortedBy(key, xs[1..]);
      forall y | y in rest
        ensures xs[0] < y
      {
        assert y in multiset(rest);
        assert y in xs[1..];
      }
      InsertAscends(key, xs[0], rest);
    }
  }

  // ----- The split -----

  function ISqrt(n: nat): (r: nat)
    ensures r * r <= n < (r + 1) * (r + 1)
  {
    if n == 0 then 0
    else
      var r := ISqrt(n - 1);
      if (r + 1) * (r + 1) <= n then r + 1 else r
  }

  function Mean(points: seq<LatLon>): LatLon
    requires points != []
  {
    (SumLat(points) / |points| as real, SumLon(points) / |points| as real)
  }

  function SumLat(points: seq<LatLon>): real {
    if points == [] then 0.0 else points[0].0 + SumLat(points[1..])
  }

  function SumLon(points: seq<LatLon>): real {
    if points == [] then 0.0 else points[0].1 + SumLon(points[1..])
  }

  /** The offsets of the points from c cancel out, in both coordinates. */
  ghost predicate IsCentre(points: seq<LatLon>, c: LatLon) {
    Offsets(points, c) == (0.0, 0.0)
  }

  ghost function Offsets(points: seq<LatLon>, c: LatLon): LatLon {
    if points == [] then (0.0, 0.0)
    else
      var rest := Offsets(points[1..], c);
      (points[0].0 - c.0 + rest.0, points[0].1 - c.1 + rest.1)
  }

  lemma {:induction false} OffsetsAreSums(points: seq<LatLon>, c: LatLon)
    ensures Offsets(points, c) == (SumLat(points) - Scaled(c.0, |points|), SumLon(points) - Scaled(c.1, |points|))
  {
    if points == [] {
      assert Scaled(c.0, 0) == 0.0 && Scaled(c.1, 0) == 0.0;
    } else {
      OffsetsAreSums(points[1..], c);
      OneMore(c.0, |points| - 1);
      OneMore(c.1, |points| - 1);
    }
  }

  function Scaled(x: real, n: nat): real {
    x * n as real
  }

  lemma OneMore(x: real, n: nat)
    ensures Scaled(x, n + 1) == Scaled(x, n) + x
  {
  }

  lemma ShareScaled(x: real, n: nat)
    requires n > 0
    ensures Scaled(x / n as real, n) == x
  {
  }

  lemma MeanIsCentre(points: seq<LatLon>)
    requires points != []
    ensures IsCentre(points, Mean(points))
  {
    ShareScaled(SumLat(points), |points|);
    ShareScaled(SumLon(points), |points|);
    hide Scaled, SumLat, SumLon;
    OffsetsAreSums(points, Mean(points));
  }

  function Pick<T>(items: seq<T>, idx: seq<nat>): (r: seq<T>)
    requires forall k :: 0 <= k < |idx| ==> idx[k] < |items|
    ensures |r| == |idx| && forall k :: 0 <= k < |idx| ==> r[k] == items[idx[k]]
  {
    seq(|idx|, k requires 0 <= k < |idx| => items[idx[k]])
  }

  ghost function AllTargets(subs: seq<Sub>): seq<nat> {
    if subs == [] then [] else AllTargets(subs[..|subs| - 1]) + subs[|subs| - 1].1
  }

  ghost predicate Distinct(xs: seq<nat>) {
    forall i, j :: 0 <= i < j < |xs| ==> xs[i] != xs[j]
  }

  /** The drones of a sub-problem: distinct, in order of their distance from the group's centre, none left out nearer. */
  ghost predicate NearestDrones(dist: (LatLon, LatLon) -> real, drones: seq<LatLon>, targets: seq<LatLon>, sub: Sub) {
    && Distinct(sub.0) && sub.0 != [] && sub.1 != []
    && (forall k :: 0 <= k < |sub.0| ==> sub.0[k] < |drones|)
    && (forall k :: 0 <= k < |sub.1| ==> sub.1[k] < |targets|)
    && exists c :: IsCentre(Pick(targets, sub.1), c) && NearestTo(dist, drones, sub.0, c)
  }

  ghost predicate NearestTo(dist: (LatLon, LatLon) -> real, drones: seq<LatLon>, dIdx: seq<nat>, c: LatLon)
    requires forall k :: 0 <= k < |dIdx| ==> dIdx[k] < |drones|
  {
    && (forall k, l :: 0 <= k < l < |dIdx| ==> dist(drones[dIdx[k]], c) <= dist(drones[dIdx[l]], c))
    && (forall k, o: nat :: 0 <= k < |dIdx| && o < |drones| && o !in dIdx ==>
          dist(drones[dIdx[k]], c) <= dist(drones[o], c))
  }

  /** The targets in order of their bearing from their common centre, equal bearings in order of index. */
  ghost predicate OrderedAround(targets: seq<LatLon>, atan2: (real, real) -> real, ordered: seq<nat>) {
    && (forall k :: 0 <= k < |ordered| ==> ordered[k] < |targets|)
    && exists c :: IsCentre(targets, c) && forall i, j :: 0 <= i < j < |ordered| ==>
         var p, q := targets[ordered[i]], targets[ordered[j]];
         var x, y := atan2(p.0 - c.0, p.1 - c.1), atan2(q.0 - c.0, q.1 - c.1);
         x < y || (x == y && ordered[i] < ordered[j])
  }

  /** Drones per group, and targets in every group but the last, for a budget that needs a split. */
  ghost predicate GroupShape(D: nat, budget: nat, root: nat, d: nat, w: nat) {
    && root * root <= budget < (root + 1) * (root + 1)
    && d == (if D < 2 then D else if root <= 2 then 2 else if D < root then D else root)
    && (if budget < d then w == 1 else d * w <= budget < d * (w + 1))
  }

  ghost predicate Sized(subs: seq<Sub>, d: nat, w: nat) {
    forall k :: 0 <= k < |subs| ==>
      |subs[k].0| == d && (if k < |subs| - 1 then |subs[k].1| == w else 1 <= |subs[k].1| <= w)
  }

  ghost predicate WithinBudget(subs: seq<Sub>, budget: int) {
    forall k :: 0 <= k < |subs| ==> |subs[k].0| * |subs[k].1| <= budget
  }

  lemma Factors(D: nat, W: nat)
    requires D * W > 0
    ensures D >= 1 && W >= 1
  {
  }

  /** The dSub drones nearest to the centre of a group of targets. */
  function GroupFor(dist: (LatLon, LatLon) -> real, drones: seq<LatLon>, targets: seq<LatLon>,
                    tIdx: seq<nat>, dSub: nat): (dIdx: seq<nat>)
    requires tIdx != [] && forall k :: 0 <= k < |tIdx| ==> tIdx[k] < |targets|
    requires 1 <= dSub <= |drones|
  {
    var g := Mean(Pick(targets, tIdx));
    SortedBy((i: nat) => if i < |drones| then dist(drones[i], g) else 0.0, Range(|drones|))[..dSub]
  }

  function BearingFrom(targets: seq<LatLon>, atan2: (real, real) -> real, c: LatLon): nat -> real {
    (j: nat) => if j < |targets| then atan2(targets[j].0 - c.0, targets[j].1 - c.1) else 0.0
  }

  /** Targets in order of their bearing from the common centre. */
  function ByBearing(targets: seq<LatLon>, atan2: (real, real) -> real): (ordered: seq<nat>)
    requires targets != []
    ensures multiset(ordered) == multiset(Range(|targets|))
  {
    SortedBy(BearingFrom(targets, atan2, Mean(targets)), Range(|targets|))
  }

  ghost predicate GroupsOk(dist: (LatLon, LatLon) -> real, drones: seq<LatLon>, targets: seq<LatLon>,
                           subs: seq<Sub>, dSub: nat, wSub: nat) {
    forall k :: 0 <= k < |subs| ==>
      NearestDrones(dist, drones, targets, subs[k]) && |subs[k].0| == dSub && 1 <= |subs[k].1| <= wSub
  }

  lemma AddGroup(dist: (LatLon, LatLon) -> real, drones: seq<LatLon>, targets: seq<LatLon>,
                 subs: seq<Sub>, dSub: nat, wSub: nat, tIdx: seq<nat>)
    requires GroupsOk(dist, drones, targets, subs, dSub, wSub)
    requires 1 <= |tIdx| <= wSub && forall k :: 0 <= k < |tIdx| ==> tIdx[k] < |targets|
    requires 1 <= dSub <= |drones|
    ensures var more := subs + [(GroupFor(dist, drones, targets, tIdx, dSub), tIdx)];
            && GroupsOk(dist, drones, targets, more, dSub, wSub)
            && AllTargets(more) == AllTargets(subs) + tIdx
  {
    var d := GroupFor(dist, drones, targets, tIdx, dSub);
    var more := subs + [(d, tIdx)];
    assert |d| == dSub && NearestDrones(dist, drones, targets, (d, tIdx)) by {
      var g := Mean(Pick(targets, tIdx));
      NearestAre(dist, drones, targets, tIdx, (i: nat) => if i < |drones| then dist(drones[i], g) else 0.0, dSub);
    }
    hide NearestDrones, GroupFor, Mean;
    assert more[..|subs|] == subs;
  }

  method Decompose(drones: seq<LatLon>, targets: seq<LatLon>, budget: int,
                   atan2: (real, real) -> real, dist: (LatLon, LatLon) -> real)
    returns (r: Result<seq<Sub>>)
    ensures r.ValueError? <==> budget < 0
    ensures r.Ok? ==> multiset(AllTargets(r.value)) == multiset(Range(|targets|))
    ensures r.Ok? && |drones| * |targets| <= budget ==> r.value == [(Range(|drones|), Range(|targets|))]
    ensures r.Ok? && |drones| * |targets| > budget ==>
              && (forall k :: 0 <= k < |r.value| ==> NearestDrones(dist, drones, targets, r.value[k]))
              && OrderedAround(targets, atan2, AllTargets(r.value))
              && (exists root, d, w :: GroupShape(|drones|, budget, root, d, w) && Sized(r.value, d, w))
    ensures r.Ok? ==> (WithinBudget(r.value, budget)
                       <==> |drones| * |targets| <= budget || budget >= 2 || (budget == 1 && |drones| == 1))
  {
    hide GroupDrones, GroupTargets, ISqrt, SortedBy, Mean, NearestDrones, GroupFor, AllTargets, ByBearing, OrderedAround, GroupShape;
    var D, W := |drones|, |targets|;
    if D * W <= budget {
      OneGroup(Range(D), Range(W), budget);
      return Ok([(Range(D), Range(W))]);
    }
    if budget < 0 {
      return ValueError;
    }
    Factors(D, W);
    SizesFit(D, budget);
    var dSub := GroupDrones(D, budget);
    var wSub := GroupTargets(dSub, budget);
    var ordered := ByBearing(targets, atan2);
    var subs := Groups(drones, targets, ordered, dist, dSub, wSub);
    BearingOrders(targets, atan2);
    ShapeOf(D, budget);
    BudgetMet(subs, D, budget, dSub, wSub);
    r := Ok(subs);
  }

  /** The loop over `ordered` in steps of wSub. */
  method Groups(drones: seq<LatLon>, targets: seq<LatLon>, ordered: seq<nat>,
                dist: (LatLon, LatLon) -> real, dSub: nat, wSub: nat)
    returns (subs: seq<Sub>)
    requires multiset(ordered) == multiset(Range(|targets|)) && targets != []
    requires 1 <= dSub <= |drones| && wSub >= 1
    ensures AllTargets(subs) == ordered && subs != []
    ensures GroupsOk(dist, drones, targets, subs, dSub, wSub) && Sized(subs, dSub, wSub)
  {
    hide NearestDrones, GroupFor, AllTargets, Mean;
    var W := |targets|;
    IndicesBelow(ordered, W);
    SameLength(ordered, W);
    subs := [];
    var start := 0;
    NoTargets();
    while start < W
      invariant 0 <= start <= W
      invariant AllTargets(subs) == ordered[..start]
      invariant GroupsOk(dist, drones, targets, subs, dSub, wSub)
      invariant start > 0 ==> subs != []
      invariant Sized(subs, dSub, wSub)
      invariant start < W ==> forall k :: 0 <= k < |subs| ==> |subs[k].1| == wSub
      decreases W - start
    {
      var stop := if start + wSub < W then start + wSub else W;
      var tIdx := ordered[start..stop];
      AddGroup(dist, drones, targets, subs, dSub, wSub, tIdx);
      subs := subs + [(GroupFor(dist, drones, targets, tIdx, dSub), tIdx)];
      assert ordered[..start] + tIdx == ordered[..stop];
      start := stop;
    }
    assert ordered[..W] == ordered;
  }

  lemma AroundCentre(targets: seq<LatLon>, atan2: (real, real) -> real, c: LatLon, ordered: seq<nat>)
    requires IsCentre(targets, c) && Ascending(BearingFrom(targets, atan2, c), ordered)
    requires forall k :: 0 <= k < |ordered| ==> ordered[k] < |targets|
    ensures OrderedAround(targets, atan2, ordered)
  {
    hide IsCentre;
    forall i, j | 0 <= i < j < |ordered|
      ensures var p, q := targets[ordered[i]], targets[ordered[j]];
              var x, y := atan2(p.0 - c.0, p.1 - c.1), atan2(q.0 - c.0, q.1 - c.1);
              x < y || (x == y && ordered[i] < ordered[j])
    {
      assert Precedes(BearingFrom(targets, atan2, c), ordered[i], ordered[j]);
    }
  }

  lemma BearingOrders(targets: seq<LatLon>, atan2: (real, real) -> real)
    requires targets != []
    ensures OrderedAround(targets, atan2, ByBearing(targets, atan2))
  {
    var c := Mean(targets);
    MeanIsCentre(targets);
    SortedAscends(BearingFrom(targets, atan2, c), Range(|targets|));
    hide SortedBy, Mean, IsCentre, Range, BearingFrom, OrderedAround, Ascending;
    IndicesBelow(ByBearing(targets, atan2), |targets|);
    AroundCentre(targets, atan2, c, ByBearing(targets, atan2));
  }

  lemma NoTargets()
    ensures AllTargets([]) == []
  {
  }

  lemma OneGroup(ds: seq<nat>, ts: seq<nat>, budget: int)
    requires |ds| * |ts| <= budget
    ensures AllTargets([(ds, ts)]) == ts && WithinBudget([(ds, ts)], budget)
  {
    var whole := [(ds, ts)];
    assert whole[..0] == [];
  }

  lemma SameLength(xs: seq<nat>, n: nat)
    requires multiset(xs) == multiset(Range(n))
    ensures |xs| == n
  {
    assert |multiset(xs)| == |xs| && |multiset(Range(n))| == n;
  }

  lemma QuotientFits(b: nat, d: nat)
    requires 1 <= d
    ensures d * (b / d) <= b && (b < d ==> b / d == 0) && (d <= b ==> b / d >= 1)
  {
    var q := b / d;
    assert b == d * q + b % d;
    if d <= b && q == 0 {
      assert false;
    }
  }

  lemma RootSmall(b: nat)
    ensures b >= 2 ==> ISqrt(b) <= b && (if ISqrt(b) > 2 then ISqrt(b) else 2) <= b
    ensures b < 2 ==> ISqrt(b) <= 1
  {
    hide ISqrt;
    var r := ISqrt(b);
    SquareAtLeast(r);
  }

  lemma SquareAtLeast(r: nat)
    ensures r <= r * r && (r >= 2 ==> r * r >= 4)
  {
    if r >= 2 {
      assert r * r >= 2 * r;
    }
  }

  function GroupDrones(D: nat, budget: nat): nat {
    var m := if ISqrt(budget) > 2 then ISqrt(budget) else 2;
    if D < m then D else m
  }

  function GroupTargets(d: nat, budget: nat): nat
    requires d >= 1
  {
    if budget / d > 1 then budget / d else 1
  }

  lemma ShapeOf(D: nat, budget: nat)
    requires D >= 1
    ensures var d := GroupDrones(D, budget);
            d >= 1 && GroupShape(D, budget, ISqrt(budget), d, GroupTargets(d, budget))
  {
    hide ISqrt;
    var d := GroupDrones(D, budget);
    QuotientFits(budget, d);
    QuotientTight(budget, d);
  }

  lemma QuotientTight(b: nat, d: nat)
    requires 1 <= d
    ensures b < d * (b / d + 1)
  {
    assert b == d * (b / d) + b % d;
  }

  /** The group sizes respect the budget exactly when it is at least 2, or 1 with a single drone. */
  lemma SizesFit(D: nat, budget: nat)
    requires D >= 1
    ensures var d := GroupDrones(D, budget);
            var w := GroupTargets(d, budget);
            && 1 <= d <= D && 1 <= w
            && (d * w <= budget <==> budget >= 2 || (budget == 1 && D == 1))
            && (!(d * w <= budget) ==> w == 1)
  {
    hide ISqrt;
    RootSmall(budget);
    var d := GroupDrones(D, budget);
    QuotientFits(budget, d);
  }

  lemma BudgetMet(subs: seq<Sub>, D: nat, budget: nat, dSub: nat, wSub: nat)
    requires subs != []
    requires forall k :: 0 <= k < |subs| ==> |subs[k].0| == dSub && 1 <= |subs[k].1| <= wSub
    requires dSub * wSub <= budget <==> budget >= 2 || (budget == 1 && D == 1)
    requires !(dSub * wSub <= budget) ==> wSub == 1
    ensures WithinBudget(subs, budget) <==> budget >= 2 || (budget == 1 && D == 1)
  {
    if dSub * wSub <= budget {
      forall k | 0 <= k < |subs|
        ensures |subs[k].0| * |subs[k].1| <= budget
      {
        MulMonotone(|subs[k].1|, wSub, dSub);
      }
    } else {
      assert |subs[0].0| * |subs[0].1| > budget;
    }
  }

  lemma IndicesBelow(xs: seq<nat>, n: nat)
    requires multiset(xs) == multiset(Range(n))
    ensures forall k :: 0 <= k < |xs| ==> xs[k] < n
    ensures Distinct(xs)
  {
    forall k | 0 <= k < |xs|
      ensures xs[k] < n
    {
      assert xs[k] in multiset(xs);
      assert xs[k] in Range(n);
    }
    forall i, j | 0 <= i < j < |xs|
      ensures xs[i] != xs[j]
    {
      if xs[i] == xs[j] {
        TwiceCounts(xs, i, j);
        RangeOnce(n, xs[i]);
        assert false;
      }
    }
  }

  lemma TwiceCounts(xs: seq<nat>, i: nat, j: nat)
    requires i < j < |xs| && xs[i] == xs[j]
    ensures multiset(xs)[xs[i]] >= 2
  {
    assert xs == xs[..i] + [xs[i]] + xs[i + 1..j] + [xs[j]] + xs[j + 1..];
  }

  lemma {:induction false} RangeOnce(n: nat, v: nat)
    ensures multiset(Range(n))[v] <= 1
  {
    if n > 0 {
      RangeOnce(n - 1, v);
      assert Range(n) == Range(n - 1) + [n - 1];
    }
  }

  /** Elements after a cut of an ascending sort are not smaller than those before it. */
  lemma CutAscends(key: nat -> real, sorted: seq<nat>, cut: nat, k: nat, o: nat)
    requires Ascending(key, sorted) && cut <= |sorted| && k < cut
    requires o in sorted && o !in sorted[..cut]
    ensures key(sorted[k]) <= key(o)
  {
    assert sorted == sorted[..cut] + sorted[cut..];
    var p :| 0 <= p < |sorted| - cut && sorted[cut..][p] == o;
    assert sorted[cut + p] == o;
  }

  lemma InSorted(key: nat -> real, n: nat, o: nat)
    requires o < n
    ensures o in SortedBy(key, Range(n))
  {
    hide SortedBy;
    assert Range(n)[o] in multiset(SortedBy(key, Range(n)));
  }

  /** The first dSub indices of the sort are distinct, in order and nearest. */
  lemma NearestAre(dist: (LatLon, LatLon) -> real, drones: seq<LatLon>, targets: seq<LatLon>,
                   tIdx: seq<nat>, key: nat -> real, dSub: nat)
    requires tIdx != [] && forall k :: 0 <= k < |tIdx| ==> tIdx[k] < |targets|
    requires 1 <= dSub <= |drones|
    requires forall i: nat :: i < |drones| ==> key(i) == dist(drones[i], Mean(Pick(targets, tIdx)))
    ensures NearestDrones(dist, drones, targets, (SortedBy(key, Range(|drones|))[..dSub], tIdx))
  {
    hide SortedBy, Mean, Pick, Range, IsCentre;
    var sorted := SortedBy(key, Range(|drones|));
    var c := Mean(Pick(targets, tIdx));
    MeanIsCentre(Pick(targets, tIdx));
    SortedAscends(key, Range(|drones|));
    IndicesBelow(sorted, |drones|);
    var dIdx := sorted[..dSub];
    forall k, l | 0 <= k < l < |dIdx|
      ensures dist(drones[dIdx[k]], c) <= dist(drones[dIdx[l]], c)
    {
      assert Precedes(key, sorted[k], sorted[l]);
    }
    hide Ascending;
    forall k, o: nat | 0 <= k < |dIdx| && o < |drones| && o !in dIdx
      ensures dist(drones[dIdx[k]], c) <= dist(drones[o], c)
    {
      InSorted(key, |drones|, o);
      CutAscends(key, sorted, dSub, k, o);
    }
    assert NearestTo(dist, drones, dIdx, c);
  }

  // ----- Joining the solutions -----

  /** The entries of one target: every drone its column names, mapped back to original indices. */
  function TargetEntries(locals: seq<nat>, sub: Sub, j: nat): (es: seq<(nat, nat)>)
    requires j < |sub.1| && forall k :: 0 <= k < |locals| ==> locals[k] < |sub.0|
    ensures |es| == |locals|
    ensures forall k :: 0 <= k < |es| ==> es[k] == (sub.0[locals[k]], sub.1[j])
  {
    seq(|locals|, k requires 0 <= k < |locals| => (sub.0[locals[k]], sub.1[j]))
  }

  lemma AssignedBelow(P: Problem, bits: seq<int>, j: nat)
    requires |bits| == P.n() && j < P.W
    ensures forall k :: 0 <= k < |P.Assigned(bits, j, 0)| ==> P.Assigned(bits, j, 0)[k] < P.D
  {
    var ds := P.Assigned(bits, j, 0);
    assert forall k :: 0 <= k < |ds| ==> ds[k] in ds;
  }

  /** One sub-problem's assignments, targets from j on. */
  function Entries(P: Problem, bits: seq<int>, sub: Sub, j: nat): seq<(nat, nat)>
    requires |bits| == P.n() && P.D == |sub.0| && P.W == |sub.1| && j <= P.W
    decreases P.W - j
  {
    if j == P.W then []
    else
      AssignedBelow(P, bits, j);
      TargetEntries(P.Decode(bits)[j], sub, j) + Entries(P, bits, sub, j + 1)
  }

  ghost function TargetsOf(es: seq<(nat, nat)>): (ts: seq<nat>)
    ensures |ts| == |es| && forall k :: 0 <= k < |es| ==> ts[k] == es[k].1
  {
    seq(|es|, k requires 0 <= k < |es| => es[k].1)
  }

  ghost predicate DronesFrom(es: seq<(nat, nat)>, ds: seq<nat>) {
    forall k :: 0 <= k < |es| ==> es[k].0 in ds
  }

  lemma OneEntry(P: Problem, bits: seq<int>, sub: Sub, j: nat) returns (d: nat)
    requires |bits| == P.n() && P.D == |sub.0| && P.W == |sub.1| && j < P.W && P.IsFeasible(bits)
    ensures d in sub.0 && Entries(P, bits, sub, j) == [(d, sub.1[j])] + Entries(P, bits, sub, j + 1)
  {
    AssignedBelow(P, bits, j);
    var ds := P.Decode(bits)[j];
    assert |ds| == 1;
    d := sub.0[ds[0]];
    assert TargetEntries(ds, sub, j) == [(d, sub.1[j])];
  }

  lemma ConsTargets(d: nat, t: nat, es: seq<(nat, nat)>, ds: seq<nat>)
    requires d in ds && DronesFrom(es, ds)
    ensures TargetsOf([(d, t)] + es) == [t] + TargetsOf(es) && DronesFrom([(d, t)] + es, ds)
  {
  }

  /** A feasible sub-solution names each of its targets once, in order. */
  lemma {:induction false} EntriesCover(P: Problem, bits: seq<int>, sub: Sub, j: nat)
    requires |bits| == P.n() && P.D == |sub.0| && P.W == |sub.1| && j <= P.W && P.IsFeasible(bits)
    ensures TargetsOf(Entries(P, bits, sub, j)) == sub.1[j..] && DronesFrom(Entries(P, bits, sub, j), sub.0)
    decreases P.W - j
  {
    if j < P.W {
      EntriesCover(P, bits, sub, j + 1);
      var d := OneEntry(P, bits, sub, j);
      ConsTargets(d, sub.1[j], Entries(P, bits, sub, j + 1), sub.0);
      hide *;
      assert sub.1[j..] == [sub.1[j]] + sub.1[j + 1..];
    } else {
      assert Entries(P, bits, sub, j) == [];
    }
  }

  datatype Solved = Solved(sub: Sub, problem: Problem, bits: seq<int>)

  ghost predicate Fits(s: Solved) {
    |s.bits| == s.problem.n() && s.problem.D == |s.sub.0| && s.problem.W == |s.sub.1|
  }

  ghost function Joined(ss: seq<Solved>): seq<(nat, nat)>
    requires forall k :: 0 <= k < |ss| ==> Fits(ss[k])
  {
    if ss == [] then []
    else
      var s := ss[|ss| - 1];
      assert Fits(s);
      Joined(ss[..|ss| - 1]) + Entries(s.problem, s.bits, s.sub, 0)
  }

  lemma AppendTargets(a: seq<(nat, nat)>, b: seq<(nat, nat)>)
    ensures TargetsOf(a + b) == TargetsOf(a) + TargetsOf(b)
  {
  }

  ghost predicate Solves(ss: seq<Solved>, subs: seq<Sub>) {
    |ss| == |subs| && forall k :: 0 <= k < |ss| ==>
      Fits(ss[k]) && ss[k].sub == subs[k] && ss[k].problem.IsFeasible(ss[k].bits)
  }

  ghost predicate DronesBelow(subs: seq<Sub>, D: nat) {
    forall k, i :: 0 <= k < |subs| && 0 <= i < |subs[k].0| ==> subs[k].0[i] < D
  }

  lemma {:induction false} JoinedTargets(ss: seq<Solved>, subs: seq<Sub>, D: nat)
    requires Solves(ss, subs) && DronesBelow(subs, D)
    ensures forall k :: 0 <= k < |ss| ==> Fits(ss[k])
    ensures TargetsOf(Joined(ss)) == AllTargets(subs)
    ensures forall k :: 0 <= k < |Joined(ss)| ==> Joined(ss)[k].0 < D
  {
    if ss != [] {
      var m := |ss| - 1;
      var s := ss[m];
      assert subs[..m] == subs[..|subs| - 1];
      JoinedTargets(ss[..m], subs[..m], D);
      EntriesCover(s.problem, s.bits, s.sub, 0);
      AppendTargets(Joined(ss[..m]), Entries(s.problem, s.bits, s.sub, 0));
      assert s.sub.1[0..] == s.sub.1;
      hide Problem.IsFeasible, Problem.Decode, Entries;
    } else {
      assert TargetsOf([]) == [];
    }
  }

  /**
   * Feasible solutions of all sub-problems join to a feasible assignment of the whole fleet:
   * every target is named by exactly one entry, and only existing drones are used.
   */
  lemma JoinedIsFeasible(ss: seq<Solved>, subs: seq<Sub>, D: nat, W: nat)
    requires Solves(ss, subs) && DronesBelow(subs, D)
    requires multiset(AllTargets(subs)) == multiset(Range(W))
    ensures forall k :: 0 <= k < |ss| ==> Fits(ss[k])
    ensures forall j: nat :: j < W ==> j in TargetsOf(Joined(ss))
    ensures forall k, l :: 0 <= k < l < |Joined(ss)| ==> Joined(ss)[k].1 != Joined(ss)[l].1
    ensures forall k :: 0 <= k < |Joined(ss)| ==> Joined(ss)[k].0 < D && Joined(ss)[k].1 < W
  {
    JoinedTargets(ss, subs, D);
    var es := Joined(ss);
    var ts := TargetsOf(es);
    IndicesBelow(ts, W);
    forall j: nat | j < W
      ensures j in ts
    {
      assert Range(W)[j] in multiset(ts);
    }
    assert forall k :: 0 <= k < |es| ==> es[k].1 == ts[k];
  }
}
