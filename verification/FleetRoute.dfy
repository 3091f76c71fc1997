/** The assignment request: split the fleet, solve every part, join the answers. */
module FleetRoute {
  import opened Qubo
  import opened FleetAssignment
  import opened AssignmentOptimum
  import opened FleetSplit

  datatype Outcome =
    | Rejected                                                               // no drones or no targets
    | Crashed                                                                // ValueError of the split
    | Planned(entries: seq<(nat, nat)>, metres: real, allFeasible: bool)     // (drone, target) pairs

  ghost predicate Usable(sub: Sub, D: nat, W: nat) {
    && sub.0 != [] && sub.1 != []
    && (forall k :: 0 <= k < |sub.0| ==> sub.0[k] < D)
    && (forall k :: 0 <= k < |sub.1| ==> sub.1[k] < W)
  }

  /** Every target is flown to by exactly one entry, and only existing drones fly. */
  ghost predicate Complete(es: seq<(nat, nat)>, D: nat, W: nat) {
    && (forall j: nat :: j < W ==> j in TargetsOf(es))
    && (forall k, l :: 0 <= k < l < |es| ==> es[k].1 != es[l].1)
    && (forall k :: 0 <= k < |es| ==> es[k].0 < D && es[k].1 < W)
  }

  /** The parts solved so far. */
  ghost predicate SolvedSoFar(ss: seq<Solved>, subs: seq<Sub>, i: nat) {
    |ss| == i <= |subs| && forall k :: 0 <= k < i ==> Fits(ss[k]) && ss[k].sub == subs[k]
  }

  ghost predicate AllFeasible(ss: seq<Solved>) {
    forall k :: 0 <= k < |ss| ==> Fits(ss[k]) && ss[k].problem.IsFeasible(ss[k].bits)
  }

  /** The solver is given any well-formed instance and answers with a vector of the right length. */
  ghost predicate Answers(solve: Problem -> seq<int>) {
    forall P: Problem :: P.Valid() ==> |solve(P)| == P.n()
  }

  /** The solver finds a feasible vector for every instance with a drone. */
  ghost predicate AlwaysFeasible(solve: Problem -> seq<int>)
    requires Answers(solve)
  {
    forall P: Problem :: P.Valid() && P.D >= 1 ==> P.IsFeasible(solve(P))
  }

  // ----- How often a target is named -----

  ghost function Named(es: seq<(nat, nat)>, t: nat): nat {
    multiset(TargetsOf(es))[t]
  }

  lemma NamedAppend(a: seq<(nat, nat)>, b: seq<(nat, nat)>, t: nat)
    ensures Named(a + b, t) == Named(a, t) + Named(b, t)
  {
    AppendTargets(a, b);
  }

  /** A column names its own target once per drone it flies. */
  lemma {:induction false} ColumnNames(locals: seq<nat>, sub: Sub, j: nat, t: nat)
    requires j < |sub.1| && forall k :: 0 <= k < |locals| ==> locals[k] < |sub.0|
    ensures Named(TargetEntries(locals, sub, j), t) == if t == sub.1[j] then |locals| else 0
  {
    var es := TargetEntries(locals, sub, j);
    if locals == [] {
      assert TargetsOf(es) == [];
    } else {
      var first := [(sub.0[locals[0]], sub.1[j])];
      assert es == first + TargetEntries(locals[1..], sub, j);
      assert TargetsOf(first) == [sub.1[j]];
      ColumnNames(locals[1..], sub, j, t);
      NamedAppend(first, TargetEntries(locals[1..], sub, j), t);
    }
  }

  lemma EntriesStep(P: Problem, bits: seq<int>, sub: Sub, j: nat, t: nat)
    requires |bits| == P.n() && P.D == |sub.0| && P.W == |sub.1| && j < P.W
    ensures Named(Entries(P, bits, sub, j), t)
            == (if t == sub.1[j] then |P.Decode(bits)[j]| else 0) + Named(Entries(P, bits, sub, j + 1), t)
  {
    AssignedBelow(P, bits, j);
    ColumnNames(P.Decode(bits)[j], sub, j, t);
    NamedAppend(TargetEntries(P.Decode(bits)[j], sub, j), Entries(P, bits, sub, j + 1), t);
  }

  lemma {:induction false} OthersUnnamed(P: Problem, bits: seq<int>, sub: Sub, j: nat, t: nat)
    requires |bits| == P.n() && P.D == |sub.0| && P.W == |sub.1| && j <= P.W
    requires forall k :: j <= k < P.W ==> sub.1[k] != t
    ensures Named(Entries(P, bits, sub, j), t) == 0
    decreases P.W - j
  {
    if j < P.W {
      EntriesStep(P, bits, sub, j, t);
      OthersUnnamed(P, bits, sub, j + 1, t);
    } else {
      assert TargetsOf(Entries(P, bits, sub, j)) == [];
    }
  }

  /** A part names its i-th target as often as its solution flies to it. */
  lemma {:induction false} PartNames(P: Problem, bits: seq<int>, sub: Sub, j: nat, i: nat)
    requires |bits| == P.n() && P.D == |sub.0| && P.W == |sub.1| && j <= i < P.W && Distinct(sub.1)
    ensures Named(Entries(P, bits, sub, j), sub.1[i]) == |P.Decode(bits)[i]|
    decreases P.W - j
  {
    hide Entries, Named, Problem.n, Problem.Decode;
    EntriesStep(P, bits, sub, j, sub.1[i]);
    if j < i {
      PartNames(P, bits, sub, j + 1, i);
    } else {
      OthersUnnamed(P, bits, sub, i + 1, sub.1[i]);
    }
  }

  lemma AllButLast(ss: seq<Solved>, subs: seq<Sub>)
    requires SolvedSoFar(ss, subs, |subs|) && subs != []
    ensures var m := |ss| - 1; SolvedSoFar(ss[..m], subs[..m], m) && Fits(ss[m])
  {
    hide Fits;
  }

  lemma LastTargets(subs: seq<Sub>)
    requires subs != []
    ensures AllTargets(subs) == AllTargets(subs[..|subs| - 1]) + subs[|subs| - 1].1
  {
  }

  lemma JoinedLast(ss: seq<Solved>)
    requires ss != [] && forall k :: 0 <= k < |ss| ==> Fits(ss[k])
    ensures var m := |ss| - 1;
            Joined(ss) == Joined(ss[..m]) + Entries(ss[m].problem, ss[m].bits, ss[m].sub, 0)
  {
    hide Entries, Fits;
    assert Fits(ss[|ss| - 1]);
  }

  lemma JoinedStep(ss: seq<Solved>, subs: seq<Sub>, t: nat)
    requires SolvedSoFar(ss, subs, |subs|) && subs != []
    ensures var m := |ss| - 1;
            && SolvedSoFar(ss[..m], subs[..m], m)
            && AllTargets(subs) == AllTargets(subs[..m]) + subs[m].1
            && Named(Joined(ss), t) == Named(Joined(ss[..m]), t) + Named(Entries(ss[m].problem, ss[m].bits, ss[m].sub, 0), t)
  {
    hide Entries, Joined, AllTargets, Named, Problem.n, Problem.Decode;
    AllButLast(ss, subs);
    LastTargets(subs);
    JoinedLast(ss);
    var s := ss[|ss| - 1];
    NamedAppend(Joined(ss[..|ss| - 1]), Entries(s.problem, s.bits, s.sub, 0), t);
  }

  lemma {:induction false} NotJoined(ss: seq<Solved>, subs: seq<Sub>, t: nat)
    requires SolvedSoFar(ss, subs, |subs|) && t !in AllTargets(subs)
    ensures Named(Joined(ss), t) == 0
    decreases |subs|
  {
    if subs == [] {
      assert TargetsOf(Joined(ss)) == [];
    } else {
      var m := |subs| - 1;
      JoinedStep(ss, subs, t);
      NotJoined(ss[..m], subs[..m], t);
      assert forall k :: 0 <= k < |subs[m].1| ==> subs[m].1[k] in AllTargets(subs);
      OthersUnnamed(ss[m].problem, ss[m].bits, ss[m].sub, 0, t);
    }
  }

  lemma DistinctParts(a: seq<nat>, b: seq<nat>)
    requires Distinct(a + b)
    ensures Distinct(a) && Distinct(b) && forall x :: x in a ==> x !in b
  {
    var all := a + b;
    assert forall k :: 0 <= k < |a| ==> a[k] == all[k];
    assert forall k :: 0 <= k < |b| ==> b[k] == all[|a| + k];
  }

  lemma {:induction false} InAllTargets(subs: seq<Sub>, k: nat, i: nat)
    requires k < |subs| && i < |subs[k].1|
    ensures subs[k].1[i] in AllTargets(subs)
  {
    var m := |subs| - 1;
    if k < m {
      InAllTargets(subs[..m], k, i);
    }
  }

  lemma NamedInLast(ss: seq<Solved>, subs: seq<Sub>, i: nat)
    requires SolvedSoFar(ss, subs, |subs|) && Distinct(AllTargets(subs)) && subs != [] && i < |subs[|subs| - 1].1|
    ensures var s := ss[|ss| - 1];
            Fits(s) && Named(Joined(ss), s.sub.1[i]) == |s.problem.Decode(s.bits)[i]|
  {
    hide Entries, Joined, Problem.Decode, AllTargets, Named;
    var m := |subs| - 1;
    var s := ss[m];
    JoinedStep(ss, subs, s.sub.1[i]);
    DistinctParts(AllTargets(subs[..m]), s.sub.1);
    PartNames(s.problem, s.bits, s.sub, 0, i);
    assert s.sub.1[i] in s.sub.1;
    NotJoined(ss[..m], subs[..m], s.sub.1[i]);
  }

  lemma NamedEarlier(ss: seq<Solved>, subs: seq<Sub>, t: nat)
    requires SolvedSoFar(ss, subs, |subs|) && Distinct(AllTargets(subs)) && subs != []
    requires t in AllTargets(subs[..|subs| - 1])
    ensures var m := |subs| - 1;
            && SolvedSoFar(ss[..m], subs[..m], m) && Distinct(AllTargets(subs[..m]))
            && Named(Joined(ss), t) == Named(Joined(ss[..m]), t)
  {
    hide Entries, Joined, AllTargets, Named;
    var m := |subs| - 1;
    JoinedStep(ss, subs, t);
    DistinctParts(AllTargets(subs[..m]), subs[m].1);
    assert forall l :: 0 <= l < |subs[m].1| ==> subs[m].1[l] in subs[m].1;
    OthersUnnamed(ss[m].problem, ss[m].bits, ss[m].sub, 0, t);
  }

  /** With every target in one part only, the joined answer names it as often as that part does. */
  lemma {:induction false} JoinedNames(ss: seq<Solved>, subs: seq<Sub>, k: nat, i: nat)
    requires SolvedSoFar(ss, subs, |subs|) && Distinct(AllTargets(subs)) && k < |subs| && i < |subs[k].1|
    ensures Fits(ss[k]) && Named(Joined(ss), subs[k].1[i]) == |ss[k].problem.Decode(ss[k].bits)[i]|
    decreases |subs|
  {
    hide Joined, Problem.Decode, AllTargets, Named;
    var m := |subs| - 1;
    if k < m {
      InAllTargets(subs[..m], k, i);
      NamedEarlier(ss, subs, subs[k].1[i]);
      JoinedNames(ss[..m], subs[..m], k, i);
    } else {
      NamedInLast(ss, subs, i);
    }
  }

  lemma {:induction false} DistinctOnce(xs: seq<nat>, t: nat)
    requires Distinct(xs)
    ensures multiset(xs)[t] <= 1
  {
    if xs != [] {
      assert xs == [xs[0]] + xs[1..];
      DistinctOnce(xs[1..], t);
      if t == xs[0] {
        assert t !in xs[1..];
      }
    }
  }

  /** A complete answer comes from feasible parts only. */
  lemma CompleteMeansFeasible(ss: seq<Solved>, subs: seq<Sub>, D: nat, W: nat)
    requires SolvedSoFar(ss, subs, |subs|) && multiset(AllTargets(subs)) == multiset(Range(W))
    requires Complete(Joined(ss), D, W)
    ensures AllFeasible(ss)
  {
    hide Joined, AllTargets, Range;
    IndicesBelow(AllTargets(subs), W);
    var ts := TargetsOf(Joined(ss));
    forall k, i: nat | 0 <= k < |ss| && i < ss[k].problem.W
      ensures Fits(ss[k]) && |ss[k].problem.Decode(ss[k].bits)[i]| == 1
    {
      InAllTargets(subs, k, i);
      JoinedNames(ss, subs, k, i);
      assert subs[k].1[i] in ts;
      DistinctOnce(ts, subs[k].1[i]);
    }
  }

  lemma JoinedComplete(ss: seq<Solved>, subs: seq<Sub>, D: nat, W: nat)
    requires SolvedSoFar(ss, subs, |subs|) && AllFeasible(ss)
    requires forall k :: 0 <= k < |subs| ==> Usable(subs[k], D, W)
    requires multiset(AllTargets(subs)) == multiset(Range(W))
    ensures Complete(Joined(ss), D, W)
  {
    hide Entries, Joined, AllTargets, Problem.IsFeasible;
    assert DronesBelow(subs, D);
    JoinedIsFeasible(ss, subs, D, W);
  }

  /** The joined answer is complete if and only if every part's solution is feasible. */
  lemma PartsSolve(ss: seq<Solved>, subs: seq<Sub>, D: nat, W: nat)
    requires SolvedSoFar(ss, subs, |subs|)
    requires forall k :: 0 <= k < |subs| ==> Usable(subs[k], D, W)
    requires multiset(AllTargets(subs)) == multiset(Range(W))
    ensures AllFeasible(ss) <==> Complete(Joined(ss), D, W)
  {
    hide Entries, Joined, AllTargets, Problem.IsFeasible, Complete;
    if AllFeasible(ss) {
      JoinedComplete(ss, subs, D, W);
    }
    if Complete(Joined(ss), D, W) {
      CompleteMeansFeasible(ss, subs, D, W);
    }
  }

  // ----- The distance flown -----

  function Leg(drones: seq<LatLon>, targets: seq<LatLon>, dist: (LatLon, LatLon) -> real, e: (nat, nat)): real {
    if e.0 < |drones| && e.1 < |targets| then dist(drones[e.0], targets[e.1]) else 0.0
  }

  /** Total length of the listed legs. */
  ghost function Flown(drones: seq<LatLon>, targets: seq<LatLon>, dist: (LatLon, LatLon) -> real, es: seq<(nat, nat)>): real {
    if es == [] then 0.0 else Leg(drones, targets, dist, es[0]) + Flown(drones, targets, dist, es[1..])
  }

  lemma {:induction false} FlownAppend(drones: seq<LatLon>, targets: seq<LatLon>, dist: (LatLon, LatLon) -> real,
                                       a: seq<(nat, nat)>, b: seq<(nat, nat)>)
    ensures Flown(drones, targets, dist, a + b) == Flown(drones, targets, dist, a) + Flown(drones, targets, dist, b)
  {
    if a == [] {
      assert a + b == b;
    } else {
      assert (a + b)[1..] == a[1..] + b;
      FlownAppend(drones, targets, dist, a[1..], b);
    }
  }

  /** The instance of a part has the distances between its own drones and targets. */
  ghost predicate CostsOf(drones: seq<LatLon>, targets: seq<LatLon>, dist: (LatLon, LatLon) -> real, s: Solved) {
    && Fits(s) && Usable(s.sub, |drones|, |targets|) && s.problem.Valid()
    && forall i, j :: 0 <= i < |s.sub.0| && 0 <= j < |s.sub.1| ==>
         s.problem.cost[i][j] == dist(drones[s.sub.0[i]], targets[s.sub.1[j]])
  }

  lemma CellFlown(drones: seq<LatLon>, targets: seq<LatLon>, dist: (LatLon, LatLon) -> real, s: Solved, j: nat, i: nat)
    requires CostsOf(drones, targets, dist, s) && j < s.problem.W && i < s.problem.D
    ensures s.problem.CellCost(s.bits, i, j)
            == if s.problem.Flies(s.bits, i, j) then Leg(drones, targets, dist, (s.sub.0[i], s.sub.1[j])) else 0.0
  {
  }

  ghost function Column(s: Solved, j: nat, i: nat): seq<(nat, nat)>
    requires Fits(s) && j < s.problem.W && i <= s.problem.D
  {
    var locals := s.problem.Assigned(s.bits, j, i);
    assert forall k :: 0 <= k < |locals| ==> locals[k] in locals;
    TargetEntries(locals, s.sub, j)
  }

  lemma LaterColumn(s: Solved, j: nat, i: nat)
    requires Fits(s) && j < s.problem.W && i < s.problem.D
    ensures Column(s, j, i) == (if s.problem.Flies(s.bits, i, j) then [(s.sub.0[i], s.sub.1[j])] else []) + Column(s, j, i + 1)
  {
    hide Problem.Flies;
    var rest := s.problem.Assigned(s.bits, j, i + 1);
    if s.problem.Flies(s.bits, i, j) {
      assert s.problem.Assigned(s.bits, j, i) == [i] + rest;
    } else {
      assert s.problem.Assigned(s.bits, j, i) == rest;
    }
  }

  /** One more drone of a column, in its entries and in its cost. */
  lemma ColumnStep(drones: seq<LatLon>, targets: seq<LatLon>, dist: (LatLon, LatLon) -> real, s: Solved, j: nat, i: nat)
    requires CostsOf(drones, targets, dist, s) && j < s.problem.W && i < s.problem.D
    ensures var leg := if s.problem.Flies(s.bits, i, j) then Leg(drones, targets, dist, (s.sub.0[i], s.sub.1[j])) else 0.0;
            && ColumnCost(s.problem, s.bits, j, i) == leg + ColumnCost(s.problem, s.bits, j, i + 1)
            && Flown(drones, targets, dist, Column(s, j, i)) == leg + Flown(drones, targets, dist, Column(s, j, i + 1))
  {
    hide Problem.Flies, Problem.CellCost, Leg, Column;
    CellFlown(drones, targets, dist, s, j, i);
    LaterColumn(s, j, i);
    if s.problem.Flies(s.bits, i, j) {
      assert Column(s, j, i)[1..] == Column(s, j, i + 1);
    } else {
      assert [] + Column(s, j, i + 1) == Column(s, j, i + 1);
    }
  }

  lemma EmptyColumn(drones: seq<LatLon>, targets: seq<LatLon>, dist: (LatLon, LatLon) -> real, s: Solved, j: nat)
    requires CostsOf(drones, targets, dist, s) && j < s.problem.W
    ensures ColumnCost(s.problem, s.bits, j, s.problem.D) == 0.0
    ensures Flown(drones, targets, dist, Column(s, j, s.problem.D)) == 0.0
  {
  }

  lemma {:induction false} ColumnFlown(drones: seq<LatLon>, targets: seq<LatLon>, dist: (LatLon, LatLon) -> real,
                                       s: Solved, j: nat, i: nat)
    requires CostsOf(drones, targets, dist, s) && j < s.problem.W && i <= s.problem.D
    ensures Flown(drones, targets, dist, Column(s, j, i)) == ColumnCost(s.problem, s.bits, j, i)
    decreases s.problem.D - i
  {
    hide Problem.Valid, Problem.Flies, Leg, Flown, Column, ColumnCost;
    if i < s.problem.D {
      ColumnFlown(drones, targets, dist, s, j, i + 1);
      ColumnStep(drones, targets, dist, s, j, i);
    } else {
      EmptyColumn(drones, targets, dist, s, j);
    }
  }

  lemma EntriesAreColumns(s: Solved, j: nat)
    requires Fits(s) && j < s.problem.W
    ensures Entries(s.problem, s.bits, s.sub, j) == Column(s, j, 0) + Entries(s.problem, s.bits, s.sub, j + 1)
  {
    assert s.problem.Decode(s.bits)[j] == s.problem.Assigned(s.bits, j, 0);
  }

  lemma EmptyPart(drones: seq<LatLon>, targets: seq<LatLon>, dist: (LatLon, LatLon) -> real, s: Solved)
    requires Fits(s)
    ensures Flown(drones, targets, dist, Entries(s.problem, s.bits, s.sub, s.problem.W)) == 0.0
  {
  }

  /** The legs of a part are as long as its solution costs. */
  lemma {:induction false} PartFlown(drones: seq<LatLon>, targets: seq<LatLon>, dist: (LatLon, LatLon) -> real,
                                     s: Solved, j: nat)
    requires CostsOf(drones, targets, dist, s) && j <= s.problem.W
    ensures Flown(drones, targets, dist, Entries(s.problem, s.bits, s.sub, j)) == ColumnsCost(s.problem, s.bits, j)
    decreases s.problem.W - j
  {
    hide Problem.Valid, Problem.n, Flown, ColumnCost, Column, Entries;
    if j == s.problem.W {
      EmptyPart(drones, targets, dist, s);
    } else {
      PartFlown(drones, targets, dist, s, j + 1);
      ColumnFlown(drones, targets, dist, s, j, 0);
      EntriesAreColumns(s, j);
      FlownAppend(drones, targets, dist, Column(s, j, 0), Entries(s.problem, s.bits, s.sub, j + 1));
    }
  }

  // ----- The request -----

  method Split(drones: seq<LatLon>, targets: seq<LatLon>, quantum: bool, budget: int,
               atan2: (real, real) -> real, dist: (LatLon, LatLon) -> real)
    returns (r: Result<seq<Sub>>)
    requires drones != [] && targets != []
    ensures r.ValueError? <==> quantum && budget < 0
    ensures r.Ok? ==> forall k :: 0 <= k < |r.value| ==> Usable(r.value[k], |drones|, |targets|)
    ensures r.Ok? ==> multiset(AllTargets(r.value)) == multiset(Range(|targets|))
    ensures !quantum ==> r == Ok([(Range(|drones|), Range(|targets|))])
  {
    if !quantum {
      r := Ok([(Range(|drones|), Range(|targets|))]);
      OnePart(|drones|, |targets|);
    } else {
      r := Decompose(drones, targets, budget, atan2, dist);
    }
  }

  lemma OnePart(D: nat, W: nat)
    ensures AllTargets([(Range(D), Range(W))]) == Range(W)
  {
    var subs := [(Range(D), Range(W))];
    assert subs[..0] == [] && AllTargets(subs[..0]) == [];
  }

  /** The first i parts solved, every one with the distances between its drones and targets. */
  ghost predicate Planning(drones: seq<LatLon>, targets: seq<LatLon>, dist: (LatLon, LatLon) -> real,
                           solve: Problem -> seq<int>, subs: seq<Sub>, ss: seq<Solved>, i: nat) {
    && SolvedSoFar(ss, subs, i)
    && forall k :: 0 <= k < i ==> CostsOf(drones, targets, dist, ss[k]) && ss[k].bits == solve(ss[k].problem)
  }

  lemma AddPart(drones: seq<LatLon>, targets: seq<LatLon>, dist: (LatLon, LatLon) -> real, solve: Problem -> seq<int>,
                subs: seq<Sub>, ss: seq<Solved>, i: nat, s: Solved)
    requires Planning(drones, targets, dist, solve, subs, ss, i) && i < |subs|
    requires CostsOf(drones, targets, dist, s) && s.sub == subs[i] && s.bits == solve(s.problem)
    ensures Planning(drones, targets, dist, solve, subs, ss + [s], i + 1)
    ensures Joined(ss + [s]) == Joined(ss) + Entries(s.problem, s.bits, s.sub, 0)
    ensures AllFeasible(ss + [s]) <==> AllFeasible(ss) && s.problem.IsFeasible(s.bits)
    ensures Flown(drones, targets, dist, Joined(ss + [s]))
            == Flown(drones, targets, dist, Joined(ss)) + s.problem.TotalCost(s.bits)
  {
    hide Entries, Problem.IsFeasible, Problem.Valid, Flown, ColumnsCost, Problem.RowsCost;
    assert Fits(s) && s.problem.Valid();
    assert (ss + [s])[..|ss|] == ss;
    assert (ss + [s])[|ss|] == s;
    FlownAppend(drones, targets, dist, Joined(ss), Entries(s.problem, s.bits, s.sub, 0));
    PartFlown(drones, targets, dist, s, 0);
    RowsAreColumns(s.problem, s.bits, 0);
  }

  lemma NothingJoined(drones: seq<LatLon>, targets: seq<LatLon>, dist: (LatLon, LatLon) -> real)
    ensures Joined([]) == [] && Flown(drones, targets, dist, []) == 0.0
  {
  }

  method SolvePart(drones: seq<LatLon>, targets: seq<LatLon>, sub: Sub, dist: (LatLon, LatLon) -> real,
                   solve: Problem -> seq<int>)
    returns (s: Solved)
    requires Answers(solve) && Usable(sub, |drones|, |targets|)
    requires forall p, q :: p in drones ==> dist(p, q) >= 0.0
    ensures CostsOf(drones, targets, dist, s) && s.sub == sub && s.bits == solve(s.problem)
  {
    var made := MakeProblem(Pick(drones, sub.0), Pick(targets, sub.1), dist);
    s := Solved(sub, made.value, solve(made.value));
  }

  /**
   * The answer is the joined solutions of the parts. It is flagged feasible if and only if it sends
   * some drone to every target exactly once, and the distance it gives is that of the listed legs.
   */
  method AssignFleet(drones: seq<LatLon>, targets: seq<LatLon>, quantum: bool, budget: int,
                     atan2: (real, real) -> real, dist: (LatLon, LatLon) -> real, solve: Problem -> seq<int>)
    returns (r: Outcome, ghost subs: seq<Sub>, ghost ss: seq<Solved>)
    requires Answers(solve)
    requires forall p, q :: p in drones ==> dist(p, q) >= 0.0
    ensures r.Rejected? <==> drones == [] || targets == []
    ensures r.Crashed? <==> drones != [] && targets != [] && quantum && budget < 0
    ensures r.Planned? ==> Planning(drones, targets, dist, solve, subs, ss, |subs|) && r.entries == Joined(ss)
    ensures r.Planned? ==> multiset(AllTargets(subs)) == multiset(Range(|targets|))
    ensures r.Planned? && !quantum ==> subs == [(Range(|drones|), Range(|targets|))]
    ensures r.Planned? ==> (r.allFeasible <==> Complete(r.entries, |drones|, |targets|))
    ensures r.Planned? && AlwaysFeasible(solve) ==> r.allFeasible
    ensures r.Planned? ==> r.metres == Flown(drones, targets, dist, r.entries)
  {
    hide Entries, Joined, AllTargets, Problem.IsFeasible, Problem.Valid, Complete, Flown, Problem.TotalCost;
    subs, ss := [], [];
    if drones == [] || targets == [] { r := Rejected; return; }
    var parts := Split(drones, targets, quantum, budget, atan2, dist);
    if parts.ValueError? { r := Crashed; return; }
    subs := parts.value;
    var entries: seq<(nat, nat)> := [];
    var metres := 0.0;
    var feasible := true;
    NothingJoined(drones, targets, dist);
    for i := 0 to |parts.value|
      invariant subs == parts.value && Planning(drones, targets, dist, solve, subs, ss, i)
      invariant entries == Joined(ss) && feasible == AllFeasible(ss)
      invariant metres == Flown(drones, targets, dist, entries)
      invariant AlwaysFeasible(solve) ==> feasible
    {
      var sub := parts.value[i];
      assert Usable(sub, |drones|, |targets|);
      var s := SolvePart(drones, targets, sub, dist, solve);
      AddPart(drones, targets, dist, solve, subs, ss, i, s);
      feasible := feasible && s.problem.IsFeasible(s.bits);
      metres := metres + s.problem.TotalCost(s.bits);
      entries := entries + Entries(s.problem, s.bits, sub, 0);
      ss := ss + [s];
    }
    PartsSolve(ss, subs, |drones|, |targets|);
    r := Planned(entries, metres, feasible);
  }
}
