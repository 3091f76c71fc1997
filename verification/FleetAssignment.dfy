/** Drone-to-target assignment as an unconstrained quadratic form over 0/1 variables. */
module FleetAssignment {
  import opened Qubo

  datatype Result<+T> = Ok(value: T) | ValueError

  /** Travel cost in metres, from each drone (row) to each target (column). */
  datatype Problem = Problem(D: nat, W: nat, cost: seq<seq<real>>, penalty: real) {

    ghost predicate Valid() {
      && |cost| == D
      && (forall i :: 0 <= i < D ==> |cost[i]| == W)
      && (forall i, j :: 0 <= i < D && 0 <= j < W ==> cost[i][j] >= 0.0)
      && (D > 0 ==> W > 0)
      && (forall i :: 0 <= i < D ==> cost[i] != [])
      && penalty == PenaltyFor(cost, W)
    }

    function n(): nat { D * W }

    /** Variable (i, j): drone i flies to target j. */
    function Var(i: nat, j: nat): (v: nat)
      requires i < D && j < W
      ensures v < n()
    {
      VarBelow(D, W, i, j);
      i * W + j
    }

    predicate Flies(bits: seq<int>, i: nat, j: nat)
      requires |bits| == n() && i < D && j < W
    {
      bits[Var(i, j)] == 1
    }

    /** The drones from i on that a bit vector sends to target j, in order. */
    function Assigned(bits: seq<int>, j: nat, i: nat): (ds: seq<nat>)
      requires |bits| == n() && j < W && i <= D
      ensures forall d: nat :: d in ds <==> i <= d < D && Flies(bits, d, j)
      ensures forall k, l :: 0 <= k < l < |ds| ==> ds[k] < ds[l]
      decreases D - i
    {
      if i == D then []
      else
        var rest := Assigned(bits, j, i + 1);
        assert forall k :: 0 <= k < |rest| ==> rest[k] in rest;
        if Flies(bits, i, j) then [i] + rest else rest
    }

    function Decode(bits: seq<int>): map<nat, seq<nat>>
      requires |bits| == n()
    {
      map j: nat | j < W :: Assigned(bits, j, 0)
    }

    predicate IsFeasible(bits: seq<int>)
      requires |bits| == n()
    {
      forall j: nat | j < W :: |Decode(bits)[j]| == 1
    }

    function CellCost(bits: seq<int>, i: nat, j: nat): real
      requires Valid() && |bits| == n() && i < D && j < W
    {
      if Flies(bits, i, j) then cost[i][j] else 0.0
    }

    /** Row i from column j on. */
    function RowCost(bits: seq<int>, i: nat, j: nat): real
      requires Valid() && |bits| == n() && i < D && j <= W
      decreases W - j
    {
      if j == W then 0.0 else CellCost(bits, i, j) + RowCost(bits, i, j + 1)
    }

    /** Rows from i on, each from column j on. */
    function RowsCost(bits: seq<int>, i: nat, j: nat): real
      requires Valid() && |bits| == n() && i <= D && j <= W
      decreases D - i
    {
      if i == D then 0.0 else RowCost(bits, i, j) + RowsCost(bits, i + 1, j)
    }

    function TotalCost(bits: seq<int>): real
      requires Valid() && |bits| == n()
    {
      RowsCost(bits, 0, 0)
    }
  }

  lemma VarBelow(D: nat, W: nat, i: nat, j: nat)
    requires i < D && j < W
    ensures i * W + j < D * W
  {
    assert (i + 1) * W <= D * W by { MulMonotone(i + 1, D, W); }
  }

  lemma MulMonotone(a: nat, b: nat, c: nat)
    requires a <= b
    ensures a * c <= b * c
  {
    assert (b - a) * c >= 0;
  }

  // ----- Penalty -----

  function MaxOf(row: seq<real>): (m: real)
    requires row != []
    ensures m in row && forall k :: 0 <= k < |row| ==> row[k] <= m
  {
    if |row| == 1 then row[0]
    else
      var m := MaxOf(row[1..]);
      if row[0] > m then row[0] else m
  }

  /** Largest entry; 0 when there is no row. */
  function CostMax(cost: seq<seq<real>>): (m: real)
    requires forall i :: 0 <= i < |cost| ==> cost[i] != []
    ensures cost == [] ==> m == 0.0
    ensures cost != [] ==> exists i :: 0 <= i < |cost| && m in cost[i]
    ensures forall i, j :: 0 <= i < |cost| && 0 <= j < |cost[i]| ==> cost[i][j] <= m
  {
    if cost == [] then 0.0
    else if |cost| == 1 then MaxOf(cost[0])
    else
      var m := CostMax(cost[1..]);
      var h := MaxOf(cost[0]);
      assert forall i :: 1 <= i < |cost| ==> cost[i] == cost[1..][i - 1];
      assert exists i :: 0 <= i < |cost[1..]| && m in cost[1..][i];
      assert forall j :: 0 <= j < |cost[0]| ==> cost[0][j] in cost[0];
      if h > m then h else m
  }

  function PenaltyFor(cost: seq<seq<real>>, W: nat): real
    requires forall i :: 0 <= i < |cost| ==> cost[i] != []
  {
    var cmax := CostMax(cost);
    if cmax != 0.0 then 2.0 * cmax * W as real else 1.0
  }

  /** Instance construction: fails, as max() of an empty row does, for drones without targets. */
  method MakeProblem<P>(drones: seq<P>, targets: seq<P>, distance: (P, P) -> real)
    returns (r: Result<Problem>)
    requires forall i, j :: 0 <= i < |drones| && 0 <= j < |targets| ==> distance(drones[i], targets[j]) >= 0.0
    ensures r.ValueError? <==> drones != [] && targets == []
    ensures r.Ok? ==> r.value.Valid() && r.value.D == |drones| && r.value.W == |targets|
    ensures r.Ok? ==> forall i, j :: 0 <= i < |drones| && 0 <= j < |targets| ==>
                        r.value.cost[i][j] == distance(drones[i], targets[j])
  {
    if drones != [] && targets == [] {
      return ValueError;
    }
    var cost := seq(|drones|, i requires 0 <= i < |drones| =>
      seq(|targets|, j requires 0 <= j < |targets| => distance(drones[i], targets[j])));
    r := Ok(Problem(|drones|, |targets|, cost, PenaltyFor(cost, |targets|)));
  }

  // ----- Counting the drones of a target -----

  /** Drones from i on that go to target j. */
  ghost function Count(P: Problem, bits: seq<int>, j: nat, i: nat): int
    requires |bits| == P.n() && j < P.W && i <= P.D
    decreases P.D - i
  {
    if i == P.D then 0 else bits[P.Var(i, j)] + Count(P, bits, j, i + 1)
  }

  /** Pairs of drones (i', k), i <= i' < k, that both go to target j. */
  ghost function Pairs(P: Problem, bits: seq<int>, j: nat, i: nat): int
    requires |bits| == P.n() && j < P.W && i <= P.D
    decreases P.D - i
  {
    if i == P.D then 0
    else (if bits[P.Var(i, j)] == 1 then Count(P, bits, j, i + 1) else 0) + Pairs(P, bits, j, i + 1)
  }

  /** Sum over the targets from j on of (count - 1)^2. */
  ghost function Excess(P: Problem, bits: seq<int>, j: nat): int
    requires |bits| == P.n() && j <= P.W
    decreases P.W - j
  {
    if j == P.W then 0
    else
      var c := Count(P, bits, j, 0);
      (c - 1) * (c - 1) + Excess(P, bits, j + 1)
  }

  lemma {:induction false} PairsIdentity(P: Problem, bits: seq<int>, j: nat, i: nat)
    requires IsBits(bits, P.n()) && j < P.W && i <= P.D
    ensures var c := Count(P, bits, j, i); 2 * Pairs(P, bits, j, i) == c * c - c
    decreases P.D - i
  {
    if i < P.D {
      PairsIdentity(P, bits, j, i + 1);
      var c := Count(P, bits, j, i + 1);
      assert (1 + c) * (1 + c) == 1 + 2 * c + c * c;
    }
  }

  lemma {:induction false} CountIsLength(P: Problem, bits: seq<int>, j: nat, i: nat)
    requires IsBits(bits, P.n()) && j < P.W && i <= P.D
    ensures Count(P, bits, j, i) == |P.Assigned(bits, j, i)|
    decreases P.D - i
  {
    if i < P.D {
      CountIsLength(P, bits, j, i + 1);
    }
  }

  ghost predicate OneEach(P: Problem, bits: seq<int>, j: nat)
    requires |bits| == P.n() && j <= P.W
  {
    forall k: nat :: j <= k < P.W ==> |P.Assigned(bits, k, 0)| == 1
  }

  lemma ExcessZeroIffFeasible(P: Problem, bits: seq<int>)
    requires IsBits(bits, P.n())
    ensures P.IsFeasible(bits) <==> Excess(P, bits, 0) == 0
    ensures Excess(P, bits, 0) >= 0
  {
    ExcessZero(P, bits, 0);
    assert P.IsFeasible(bits) <==> OneEach(P, bits, 0) by {
      assert forall k: nat :: k < P.W ==> P.Decode(bits)[k] == P.Assigned(bits, k, 0);
    }
  }

  lemma SquareZero(c: int)
    ensures (c - 1) * (c - 1) >= 0
    ensures (c - 1) * (c - 1) == 0 <==> c == 1
  {
    if c > 1 {
      assert (c - 1) * (c - 1) >= c - 1;
    } else if c < 1 {
      assert (c - 1) * (c - 1) == (1 - c) * (1 - c) >= 1 - c;
    }
  }

  lemma {:induction false} ExcessZero(P: Problem, bits: seq<int>, j: nat)
    requires IsBits(bits, P.n()) && j <= P.W
    ensures Excess(P, bits, j) >= 0
    ensures Excess(P, bits, j) == 0 <==> OneEach(P, bits, j)
    decreases P.W - j
  {
    if j < P.W {
      ExcessZero(P, bits, j + 1);
      SquareZero(Count(P, bits, j, 0));
      CountIsLength(P, bits, j, 0);
      hide Count;
      assert OneEach(P, bits, j) <==> |P.Assigned(bits, j, 0)| == 1 && OneEach(P, bits, j + 1);
    }
  }

  // ----- Building the form -----

  /** The meaning of the form: cost, plus penalty for every target not flown to exactly once. */
  ghost predicate Encodes(P: Problem, Q: Form) {
    && P.Valid() && KeysBelow(Q, P.n())
    && forall bits | IsBits(bits, P.n()) ::
         Value(Q, bits) == P.TotalCost(bits) + P.penalty * (Excess(P, bits, 0) - P.W) as real
  }

  /** Value of a partly built form: `cost` so far plus penalty times the integer `acc`. */
  ghost predicate At(P: Problem, Q: Form, bits: seq<int>, cost: real, acc: int) {
    KeysBelow(Q, |bits|) && Value(Q, bits) == cost + P.penalty * acc as real
  }

  lemma AddLinear(P: Problem, Q: Form, p: nat, bits: seq<int>, cost: real, acc: int, v: real)
    requires At(P, Q, bits, cost, acc) && p < |bits| && (bits[p] == 0 || bits[p] == 1)
    ensures At(P, Add(Q, p, p, v), bits, cost + if bits[p] == 1 then v else 0.0, acc)
  {
    AddValue(Q, p, p, v, bits);
  }

  lemma AddPenalty(P: Problem, Q: Form, p: nat, q: nat, bits: seq<int>, cost: real, acc: int, w: int)
    requires At(P, Q, bits, cost, acc) && p < |bits| && q < |bits|
    requires (bits[p] == 0 || bits[p] == 1) && (bits[q] == 0 || bits[q] == 1)
    ensures At(P, Add(Q, p, q, P.penalty * w as real), bits, cost,
               acc + if bits[p] == 1 && bits[q] == 1 then w else 0)
  {
    var v := P.penalty * w as real;
    AddValue(Q, p, q, v, bits);
    var m := Monomial(p, q, bits);
    if bits[p] == 1 && bits[q] == 1 {
      assert m == 1.0;
      assert P.penalty * (acc + w) as real == P.penalty * acc as real + P.penalty * w as real;
    } else {
      assert m == 0.0;
    }
  }

  /** First loop: everything before cell (i, j) has been added. */
  ghost predicate CostsDone(P: Problem, Q: Form, i: nat, j: nat)
    requires P.Valid() && i < P.D && j <= P.W
  {
    forall bits | IsBits(bits, P.n()) ::
      At(P, Q, bits, P.TotalCost(bits) - P.RowCost(bits, i, j) - P.RowsCost(bits, i + 1, 0), 0)
  }

  ghost predicate RowsDone(P: Problem, Q: Form, i: nat)
    requires P.Valid() && i <= P.D
  {
    forall bits | IsBits(bits, P.n()) :: At(P, Q, bits, P.TotalCost(bits) - P.RowsCost(bits, i, 0), 0)
  }

  lemma RowStarts(P: Problem, Q: Form, i: nat)
    requires P.Valid() && i < P.D && RowsDone(P, Q, i)
    ensures CostsDone(P, Q, i, 0)
  {
    forall bits | IsBits(bits, P.n())
      ensures At(P, Q, bits, P.TotalCost(bits) - P.RowCost(bits, i, 0) - P.RowsCost(bits, i + 1, 0), 0)
    {
      hide At;
      assert P.RowsCost(bits, i, 0) == P.RowCost(bits, i, 0) + P.RowsCost(bits, i + 1, 0);
    }
  }

  lemma RowEnds(P: Problem, Q: Form, i: nat)
    requires P.Valid() && i < P.D && CostsDone(P, Q, i, P.W)
    ensures RowsDone(P, Q, i + 1)
  {
    hide At;
  }

  lemma CostStep(P: Problem, Q: Form, i: nat, j: nat)
    requires P.Valid() && i < P.D && j < P.W && CostsDone(P, Q, i, j)
    ensures CostsDone(P, Add(Q, P.Var(i, j), P.Var(i, j), P.cost[i][j]), i, j + 1)
  {
    forall bits | IsBits(bits, P.n())
      ensures At(P, Add(Q, P.Var(i, j), P.Var(i, j), P.cost[i][j]), bits,
                 P.TotalCost(bits) - P.RowCost(bits, i, j + 1) - P.RowsCost(bits, i + 1, 0), 0)
    {
      hide At;
      AddLinear(P, Q, P.Var(i, j), bits,
                P.TotalCost(bits) - P.RowCost(bits, i, j) - P.RowsCost(bits, i + 1, 0), 0, P.cost[i][j]);
    }
  }

  /** Second loop: the targets before j have been penalised. */
  ghost predicate TargetsDone(P: Problem, Q: Form, j: nat)
    requires P.Valid() && j <= P.W
  {
    forall bits | IsBits(bits, P.n()) :: At(P, Q, bits, P.TotalCost(bits), Done(P, bits, j))
  }

  /** Penalty units collected by the targets before j. */
  ghost function Done(P: Problem, bits: seq<int>, j: nat): int
    requires |bits| == P.n() && j <= P.W
  {
    Excess(P, bits, 0) - Excess(P, bits, j) - j
  }

  ghost predicate SinglesDone(P: Problem, Q: Form, j: nat, i: nat)
    requires P.Valid() && j < P.W && i <= P.D
  {
    forall bits | IsBits(bits, P.n()) ::
      At(P, Q, bits, P.TotalCost(bits), Done(P, bits, j) - (Count(P, bits, j, 0) - Count(P, bits, j, i)))
  }

  /** Penalty units of target j after the pairs up to (i, k), k excluded. */
  ghost function PairUnits(P: Problem, bits: seq<int>, j: nat, i: nat, k: nat): int
    requires |bits| == P.n() && j < P.W && i < k <= P.D
  {
    Done(P, bits, j) - Count(P, bits, j, 0) + 2 * (Pairs(P, bits, j, 0) - Pairs(P, bits, j, i))
    + if bits[P.Var(i, j)] == 1 then 2 * (Count(P, bits, j, i + 1) - Count(P, bits, j, k)) else 0
  }

  ghost predicate PairsDone(P: Problem, Q: Form, j: nat, i: nat, k: nat)
    requires P.Valid() && j < P.W && i < k <= P.D
  {
    forall bits | IsBits(bits, P.n()) :: At(P, Q, bits, P.TotalCost(bits), PairUnits(P, bits, j, i, k))
  }

  ghost predicate PairRowsDone(P: Problem, Q: Form, j: nat, i: nat)
    requires P.Valid() && j < P.W && i <= P.D
  {
    forall bits | IsBits(bits, P.n()) ::
      At(P, Q, bits, P.TotalCost(bits),
         Done(P, bits, j) - Count(P, bits, j, 0) + 2 * (Pairs(P, bits, j, 0) - Pairs(P, bits, j, i)))
  }

  lemma SingleStep(P: Problem, Q: Form, j: nat, i: nat)
    requires P.Valid() && j < P.W && i < P.D && SinglesDone(P, Q, j, i)
    ensures SinglesDone(P, Add(Q, P.Var(i, j), P.Var(i, j), P.penalty * (1.0 - 2.0)), j, i + 1)
  {
    var p := P.Var(i, j);
    forall bits | IsBits(bits, P.n())
      ensures At(P, Add(Q, p, p, P.penalty * (1.0 - 2.0)), bits, P.TotalCost(bits),
                 Done(P, bits, j) - (Count(P, bits, j, 0) - Count(P, bits, j, i + 1)))
    {
      hide At;
      assert P.penalty * (-1 as real) == P.penalty * (1.0 - 2.0);
      AddPenalty(P, Q, p, p, bits, P.TotalCost(bits),
                 Done(P, bits, j) - (Count(P, bits, j, 0) - Count(P, bits, j, i)), -1);
    }
  }

  lemma PairStep(P: Problem, Q: Form, j: nat, i: nat, k: nat)
    requires P.Valid() && j < P.W && i < k < P.D && PairsDone(P, Q, j, i, k)
    ensures PairsDone(P, Add(Q, P.Var(i, j), P.Var(k, j), P.penalty * 2.0), j, i, k + 1)
  {
    forall bits | IsBits(bits, P.n())
      ensures At(P, Add(Q, P.Var(i, j), P.Var(k, j), P.penalty * 2.0), bits, P.TotalCost(bits),
                 PairUnits(P, bits, j, i, k + 1))
    {
      hide At;
      AddPenalty(P, Q, P.Var(i, j), P.Var(k, j), bits, P.TotalCost(bits), PairUnits(P, bits, j, i, k), 2);
    }
  }

  lemma PairRowStarts(P: Problem, Q: Form, j: nat, i: nat)
    requires P.Valid() && j < P.W && i < P.D && PairRowsDone(P, Q, j, i)
    ensures PairsDone(P, Q, j, i, i + 1)
  {
    hide At;
  }

  lemma PairRowEnds(P: Problem, Q: Form, j: nat, i: nat)
    requires P.Valid() && j < P.W && i < P.D && PairsDone(P, Q, j, i, P.D)
    ensures PairRowsDone(P, Q, j, i + 1)
  {
    hide At;
  }

  lemma PairsStart(P: Problem, Q: Form, j: nat)
    requires P.Valid() && j < P.W && SinglesDone(P, Q, j, P.D)
    ensures PairRowsDone(P, Q, j, 0)
  {
    hide At;
  }

  lemma TargetStarts(P: Problem, Q: Form, j: nat)
    requires P.Valid() && j < P.W && TargetsDone(P, Q, j)
    ensures SinglesDone(P, Q, j, 0)
  {
    hide At;
  }

  lemma TargetUnits(P: Problem, bits: seq<int>, j: nat)
    requires IsBits(bits, P.n()) && j < P.W
    ensures Done(P, bits, j) - Count(P, bits, j, 0) + 2 * Pairs(P, bits, j, 0) == Done(P, bits, j + 1)
  {
    hide Count, Pairs;
    PairsIdentity(P, bits, j, 0);
    var c := Count(P, bits, j, 0);
    assert (c - 1) * (c - 1) == c * c - 2 * c + 1;
  }

  lemma TargetEnds(P: Problem, Q: Form, j: nat)
    requires P.Valid() && j < P.W && PairRowsDone(P, Q, j, P.D)
    ensures TargetsDone(P, Q, j + 1)
  {
    hide At, Done;
    forall bits | IsBits(bits, P.n())
      ensures At(P, Q, bits, P.TotalCost(bits), Done(P, bits, j + 1))
    {
      TargetUnits(P, bits, j);
      assert Pairs(P, bits, j, P.D) == 0;
    }
  }

  lemma EmptyForm(P: Problem)
    requires P.Valid()
    ensures RowsDone(P, map[], 0)
  {
    forall bits | IsBits(bits, P.n())
      ensures At(P, map[], bits, P.TotalCost(bits) - P.RowsCost(bits, 0, 0), 0)
    {
    }
  }

  lemma TargetsDoneAt(P: Problem, Q: Form, j: nat, bits: seq<int>)
    requires P.Valid() && j <= P.W && TargetsDone(P, Q, j) && IsBits(bits, P.n())
    ensures |bits| == P.n() && At(P, Q, bits, P.TotalCost(bits), Done(P, bits, j))
  {
    hide At, Done;
  }

  lemma EncodesAt(P: Problem, Q: Form, bits: seq<int>)
    requires P.Valid() && TargetsDone(P, Q, P.W) && IsBits(bits, P.n())
    ensures |bits| == P.n() && KeysBelow(Q, P.n())
    ensures Value(Q, bits) == P.TotalCost(bits) + P.penalty * (Excess(P, bits, 0) - P.W) as real
  {
    hide *;
    TargetsDoneAt(P, Q, P.W, bits);
    AtMeans(P, Q, bits, P.TotalCost(bits), Done(P, bits, P.W));
    NoneLeft(P, bits);
  }

  lemma AllTargetsDone(P: Problem, Q: Form)
    requires P.Valid() && TargetsDone(P, Q, P.W)
    ensures Encodes(P, Q)
  {
    hide Excess, At, TargetsDone;
    EncodesAt(P, Q, seq(P.n(), _ => 0));
    forall bits | IsBits(bits, P.n())
      ensures Value(Q, bits) == P.TotalCost(bits) + P.penalty * (Excess(P, bits, 0) - P.W) as real
    {
      EncodesAt(P, Q, bits);
    }
  }

  lemma AtMeans(P: Problem, Q: Form, bits: seq<int>, cost: real, acc: int)
    requires At(P, Q, bits, cost, acc)
    ensures KeysBelow(Q, |bits|) && Value(Q, bits) == cost + P.penalty * acc as real
  {
  }

  lemma NoneLeft(P: Problem, bits: seq<int>)
    requires |bits| == P.n()
    ensures Done(P, bits, P.W) == Excess(P, bits, 0) - P.W
  {
  }

  lemma AllRowsDone(P: Problem, Q: Form)
    requires P.Valid() && RowsDone(P, Q, P.D)
    ensures TargetsDone(P, Q, 0)
  {
    hide At;
  }

  method BuildQubo(P: Problem) returns (Q: Form)
    requires P.Valid()
    ensures Encodes(P, Q)
  {
    hide At, RowsDone, CostsDone, TargetsDone, SinglesDone, PairsDone, PairRowsDone, Encodes, Add, PenaltyFor;
    Q := map[];
    EmptyForm(P);
    for i := 0 to P.D
      invariant RowsDone(P, Q, i)
    {
      RowStarts(P, Q, i);
      for j := 0 to P.W
        invariant CostsDone(P, Q, i, j)
      {
        CostStep(P, Q, i, j);
        Q := Add(Q, P.Var(i, j), P.Var(i, j), P.cost[i][j]);
      }
      RowEnds(P, Q, i);
    }
    AllRowsDone(P, Q);
    for j := 0 to P.W
      invariant TargetsDone(P, Q, j)
    {
      TargetStarts(P, Q, j);
      for i := 0 to P.D
        invariant SinglesDone(P, Q, j, i)
      {
        SingleStep(P, Q, j, i);
        var p := P.Var(i, j);
        Q := Add(Q, p, p, P.penalty * (1.0 - 2.0));
      }
      PairsStart(P, Q, j);
      for i := 0 to P.D
        invariant PairRowsDone(P, Q, j, i)
      {
        PairRowStarts(P, Q, j, i);
        for k := i + 1 to P.D
          invariant PairsDone(P, Q, j, i, k)
        {
          PairStep(P, Q, j, i, k);
          Q := Add(Q, P.Var(i, j), P.Var(k, j), P.penalty * 2.0);
        }
        PairRowEnds(P, Q, j, i);
      }
      TargetEnds(P, Q, j);
    }
    AllTargetsDone(P, Q);
  }
}
