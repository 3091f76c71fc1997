/** The minima of the assignment form are exactly the cheapest one-drone-per-target assignments. */
module AssignmentOptimum {
  import opened Qubo
  import opened FleetAssignment

  // ----- Total cost by columns -----

  ghost function ColumnCost(P: Problem, bits: seq<int>, j: nat, i: nat): real
    requires P.Valid() && |bits| == P.n() && j < P.W && i <= P.D
    decreases P.D - i
  {
    if i == P.D then 0.0 else P.CellCost(bits, i, j) + ColumnCost(P, bits, j, i + 1)
  }

  ghost function ColumnsCost(P: Problem, bits: seq<int>, j: nat): real
    requires P.Valid() && |bits| == P.n() && j <= P.W
    decreases P.W - j
  {
    if j == P.W then 0.0 else ColumnCost(P, bits, j, 0) + ColumnsCost(P, bits, j + 1)
  }

  lemma {:induction false} SplitColumn(P: Problem, bits: seq<int>, i: nat, j: nat)
    requires P.Valid() && |bits| == P.n() && i <= P.D && j < P.W
    ensures P.RowsCost(bits, i, j) == ColumnCost(P, bits, j, i) + P.RowsCost(bits, i, j + 1)
    decreases P.D - i
  {
    if i < P.D {
      SplitColumn(P, bits, i + 1, j);
    }
  }

  lemma {:induction false} NoColumns(P: Problem, bits: seq<int>, i: nat)
    requires P.Valid() && |bits| == P.n() && i <= P.D
    ensures P.RowsCost(bits, i, P.W) == 0.0
    decreases P.D - i
  {
    if i < P.D {
      NoColumns(P, bits, i + 1);
    }
  }

  lemma {:induction false} RowsAreColumns(P: Problem, bits: seq<int>, j: nat)
    requires P.Valid() && |bits| == P.n() && j <= P.W
    ensures P.RowsCost(bits, 0, j) == ColumnsCost(P, bits, j)
    decreases P.W - j
  {
    if j == P.W {
      NoColumns(P, bits, 0);
    } else {
      SplitColumn(P, bits, 0, j);
      RowsAreColumns(P, bits, j + 1);
    }
  }

  // ----- The cheapest drone of each target -----

  /** First drone among the first k that is cheapest for target j. */
  function Nearest(P: Problem, j: nat, k: nat): (i: nat)
    requires |P.cost| == P.D && 1 <= k <= P.D && forall r :: 0 <= r < P.D ==> j < |P.cost[r]|
    ensures i < k && forall r :: 0 <= r < k ==> P.cost[i][j] <= P.cost[r][j]
  {
    if k == 1 then 0
    else
      var m := Nearest(P, j, k - 1);
      if P.cost[k - 1][j] < P.cost[m][j] then k - 1 else m
  }

  ghost function Cheapest(P: Problem, j: nat): real
    requires P.Valid() && P.D >= 1 && j < P.W
  {
    P.cost[Nearest(P, j, P.D)][j]
  }

  /** Sum over the targets from j on of the cheapest drone's cost. */
  ghost function CheapestTotal(P: Problem, j: nat): real
    requires P.Valid() && P.D >= 1 && j <= P.W
    decreases P.W - j
  {
    if j == P.W then 0.0 else Cheapest(P, j) + CheapestTotal(P, j + 1)
  }

  /** Cost of sending every target its cheapest drone. */
  ghost function Optimum(P: Problem): real
    requires P.Valid() && P.D >= 1
  {
    CheapestTotal(P, 0)
  }

  /** A target flown to by somebody costs at least its cheapest drone. */
  lemma {:induction false} ColumnAtLeast(P: Problem, bits: seq<int>, j: nat, i: nat)
    requires P.Valid() && P.D >= 1 && |bits| == P.n() && j < P.W && i <= P.D
    ensures ColumnCost(P, bits, j, i) >= 0.0
    ensures P.Assigned(bits, j, i) != [] ==> ColumnCost(P, bits, j, i) >= Cheapest(P, j)
    decreases P.D - i
  {
    if i < P.D {
      ColumnAtLeast(P, bits, j, i + 1);
    }
  }

  lemma {:induction false} ColumnsAtLeast(P: Problem, bits: seq<int>, j: nat)
    requires P.Valid() && P.D >= 1 && |bits| == P.n() && j <= P.W
    ensures ColumnsCost(P, bits, j) >= 0.0
    ensures P.IsFeasible(bits) ==> ColumnsCost(P, bits, j) >= CheapestTotal(P, j)
    decreases P.W - j
  {
    if j < P.W {
      ColumnsAtLeast(P, bits, j + 1);
      ColumnAtLeast(P, bits, j, 0);
      if P.IsFeasible(bits) {
        assert P.Decode(bits)[j] == P.Assigned(bits, j, 0);
      }
    }
  }

  // ----- Sending every target its cheapest drone -----

  /** The vector that sends to each target its cheapest drone. */
  ghost predicate IsGreedy(P: Problem, bits: seq<int>)
    requires P.Valid() && P.D >= 1
  {
    IsBits(bits, P.n()) &&
    forall i: nat, j: nat :: i < P.D && j < P.W ==> (P.Flies(bits, i, j) <==> i == Nearest(P, j, P.D))
  }

  lemma SameQuotient(W: nat, i: nat, j: nat, d: nat, m: nat)
    requires j < W && m < W && i * W + j == d * W + m
    ensures i == d && j == m
  {
    if i < d {
      MulMonotone(i + 1, d, W);
    } else if d < i {
      MulMonotone(d + 1, i, W);
    }
  }

  lemma DivOfVar(W: nat, i: nat, j: nat)
    requires j < W
    ensures (i * W + j) / W == i && (i * W + j) % W == j
  {
    var v := i * W + j;
    assert v >= 0;
    SameQuotient(W, i, j, v / W, v % W);
  }

  ghost function Greedy(P: Problem): (bits: seq<int>)
    requires P.Valid() && P.D >= 1
    ensures |bits| == P.n()
  {
    seq(P.n(), v requires 0 <= v < P.n() => if v / P.W == Nearest(P, v % P.W, P.D) then 1 else 0)
  }

  lemma GreedyIsGreedy(P: Problem)
    requires P.Valid() && P.D >= 1
    ensures IsGreedy(P, Greedy(P))
  {
    forall i: nat, j: nat | i < P.D && j < P.W
      ensures P.Flies(Greedy(P), i, j) <==> i == Nearest(P, j, P.D)
    {
      DivOfVar(P.W, i, j);
    }
  }

  lemma {:induction false} GreedyColumn(P: Problem, bits: seq<int>, j: nat, i: nat)
    requires P.Valid() && P.D >= 1 && IsGreedy(P, bits) && |bits| == P.n() && j < P.W && i <= P.D
    ensures var m := Nearest(P, j, P.D);
            && P.Assigned(bits, j, i) == (if i <= m then [m] else [])
            && ColumnCost(P, bits, j, i) == (if i <= m then Cheapest(P, j) else 0.0)
    decreases P.D - i
  {
    if i < P.D {
      GreedyColumn(P, bits, j, i + 1);
    }
  }

  lemma {:induction false} GreedyColumns(P: Problem, bits: seq<int>, j: nat)
    requires P.Valid() && P.D >= 1 && IsGreedy(P, bits) && |bits| == P.n() && j <= P.W
    ensures ColumnsCost(P, bits, j) == CheapestTotal(P, j)
    decreases P.W - j
  {
    if j < P.W {
      GreedyColumn(P, bits, j, 0);
      GreedyColumns(P, bits, j + 1);
    }
  }

  lemma GreedyFeasible(P: Problem, bits: seq<int>)
    requires P.Valid() && P.D >= 1 && IsGreedy(P, bits) && |bits| == P.n()
    ensures P.IsFeasible(bits)
  {
    forall j: nat | j < P.W
      ensures |P.Decode(bits)[j]| == 1
    {
      GreedyColumn(P, bits, j, 0);
    }
  }

  // ----- The penalty outweighs every cost -----

  lemma OneMore(x: real, w: int)
    ensures x * (w + 1) as real == x * w as real + x
  {
  }

  lemma CheapestBound(P: Problem, cmax: real, j: nat)
    requires P.Valid() && P.D >= 1 && j < P.W
    requires forall i, k :: 0 <= i < P.D && 0 <= k < P.W ==> P.cost[i][k] <= cmax
    ensures Cheapest(P, j) <= cmax
  {
    hide PenaltyFor;
  }

  lemma {:induction false} CheapestTotalBound(P: Problem, cmax: real, j: nat)
    requires P.Valid() && P.D >= 1 && j <= P.W
    requires forall i, k :: 0 <= i < P.D && 0 <= k < P.W ==> P.cost[i][k] <= cmax
    ensures CheapestTotal(P, j) <= cmax * (P.W - j) as real
    decreases P.W - j
  {
    hide PenaltyFor, Cheapest, Problem.Valid;
    if j < P.W {
      CheapestBound(P, cmax, j);
      CheapestTotalBound(P, cmax, j + 1);
      OneMore(cmax, P.W - (j + 1));
    }
  }

  lemma Scaled(x: real, w: nat)
    requires x > 0.0 && w >= 1
    ensures 2.0 * x * w as real > x * w as real
  {
    assert x * w as real > 0.0;
  }

  lemma ZeroOrScaled(cmax: real, w: nat, opt: real, penalty: real)
    requires cmax >= 0.0 && w >= 1 && opt <= cmax * (w - 0) as real
    requires penalty == if cmax != 0.0 then 2.0 * cmax * w as real else 1.0
    ensures penalty > opt
  {
    if cmax > 0.0 {
      Scaled(cmax, w);
    } else {
      assert cmax * w as real == 0.0;
    }
  }

  /** The penalty is twice the largest cost per target, or 1 when nothing costs anything. */
  lemma PenaltyIs(P: Problem) returns (cmax: real)
    requires P.Valid() && P.D >= 1
    ensures cmax >= 0.0 && forall i, k :: 0 <= i < P.D && 0 <= k < P.W ==> P.cost[i][k] <= cmax
    ensures exists i, k :: 0 <= i < P.D && 0 <= k < P.W && P.cost[i][k] == cmax
    ensures P.W >= 1 && P.penalty == if cmax != 0.0 then 2.0 * cmax * P.W as real else 1.0
  {
    hide Problem.n, Problem.Var, CostMax;
    cmax := CostMax(P.cost);
    assert P.cost[0][0] <= cmax;
    var i :| 0 <= i < |P.cost| && cmax in P.cost[i];
    var k :| 0 <= k < |P.cost[i]| && P.cost[i][k] == cmax;
  }

  lemma PenaltyDominates(P: Problem)
    requires P.Valid() && P.D >= 1
    ensures P.penalty > Optimum(P)
  {
    hide PenaltyFor;
    var cmax := PenaltyIs(P);
    CheapestTotalBound(P, cmax, 0);
    ZeroOrScaled(cmax, P.W, Optimum(P), P.penalty);
  }

  // ----- Minima -----

  ghost predicate IsMinimum(Q: Form, n: nat, bits: seq<int>)
    requires KeysBelow(Q, n)
  {
    IsBits(bits, n) && forall other | IsBits(other, n) :: Value(Q, bits) <= Value(Q, other)
  }

  /** A vector that pays at least one penalty lies above every optimum that pays none. */
  lemma PenaltyPaid(v: real, cost: real, p: real, e: int, w: nat, opt: real)
    requires v == cost + p * (e - w) as real
    requires cost >= 0.0 && p > opt >= 0.0 && e >= 1
    ensures v > opt - p * w as real
  {
    var x, y := e as real, w as real;
    var u := (e - w) as real;
    assert u == x - y;
    assert p * u == p * x - p * y by { Distribute(p, x, y); }
    assert p * x >= p by { ScalePenalty(p, e); }
    assert v == cost + p * u;
    assert v == cost + p * x - p * y;
    assert p * y == p * w as real;
  }

  lemma Distribute(p: real, x: real, y: real)
    ensures p * (x - y) == p * x - p * y
  {
  }

  lemma NoPenalty(p: real, e: int, w: nat)
    requires e == 0
    ensures p * (e - w) as real == -(p * w as real)
  {
  }

  lemma CostBounds(P: Problem, bits: seq<int>)
    requires P.Valid() && P.D >= 1 && |bits| == P.n()
    ensures P.TotalCost(bits) >= 0.0
    ensures P.IsFeasible(bits) ==> P.TotalCost(bits) >= Optimum(P)
  {
    hide PenaltyFor;
    RowsAreColumns(P, bits, 0);
    ColumnsAtLeast(P, bits, 0);
  }

  /** Everything the minimum theorem needs to know about one vector. */
  lemma ValueBounds(P: Problem, Q: Form, bits: seq<int>)
    requires P.Valid() && P.D >= 1 && Encodes(P, Q) && IsBits(bits, P.n())
    ensures |bits| == P.n() && KeysBelow(Q, |bits|)
    ensures var base := P.penalty * P.W as real;
            && (P.IsFeasible(bits) ==> Value(Q, bits) == P.TotalCost(bits) - base
                                       && P.TotalCost(bits) >= Optimum(P))
            && (!P.IsFeasible(bits) ==> Value(Q, bits) > Optimum(P) - base)
  {
    hide *;
    EncodesAtBits(P, Q, bits);
    ExcessZeroIffFeasible(P, bits);
    CostBounds(P, bits);
    PenaltyDominates(P);
    OptimumNonNegative(P);
    var e := Excess(P, bits, 0);
    if e == 0 {
      NoPenalty(P.penalty, e, P.W);
    } else {
      PenaltyPaid(Value(Q, bits), P.TotalCost(bits), P.penalty, e, P.W, Optimum(P));
    }
  }

  lemma OptimumNonNegative(P: Problem)
    requires P.Valid() && P.D >= 1
    ensures Optimum(P) >= 0.0
  {
    hide PenaltyFor;
    CheapestNonNegative(P, 0);
  }

  lemma {:induction false} CheapestNonNegative(P: Problem, j: nat)
    requires P.Valid() && P.D >= 1 && j <= P.W
    ensures CheapestTotal(P, j) >= 0.0
    decreases P.W - j
  {
    if j < P.W {
      CheapestNonNegative(P, j + 1);
    }
  }

  lemma EncodesAtBits(P: Problem, Q: Form, bits: seq<int>)
    requires P.Valid() && Encodes(P, Q) && IsBits(bits, P.n())
    ensures |bits| == P.n() && KeysBelow(Q, |bits|)
    ensures Value(Q, bits) == P.TotalCost(bits) + P.penalty * (Excess(P, bits, 0) - P.W) as real
  {
    hide PenaltyFor, Value, Excess;
  }

  lemma ScalePenalty(p: real, e: int)
    requires p > 0.0 && e >= 1
    ensures p * e as real >= p
  {
    assert p * (e - 1) as real >= 0.0;
    assert p * e as real == p * (e - 1) as real + p;
  }

  lemma GreedyFacts(P: Problem)
    requires P.Valid() && P.D >= 1
    ensures IsBits(Greedy(P), P.n()) && P.IsFeasible(Greedy(P))
    ensures P.TotalCost(Greedy(P)) == Optimum(P)
  {
    hide PenaltyFor;
    var g := Greedy(P);
    GreedyIsGreedy(P);
    GreedyFeasible(P, g);
    GreedyColumns(P, g, 0);
    RowsAreColumns(P, g, 0);
  }

  /**
   * Minimising the unconstrained form solves the constrained assignment: a bit vector has least
   * value exactly when it is feasible and costs what the cheapest drones cost together.
   */
  lemma MinimumIsOptimalAssignment(P: Problem, Q: Form, bits: seq<int>)
    requires P.Valid() && P.D >= 1 && Encodes(P, Q) && IsBits(bits, P.n())
    ensures IsMinimum(Q, P.n(), bits)
       <==> P.IsFeasible(bits) && P.TotalCost(bits) == Optimum(P)
  {
    hide Greedy, Value, Optimum, PenaltyFor, KeysBelow;
    ValueBounds(P, Q, bits);
    GreedyFacts(P);
    ValueBounds(P, Q, Greedy(P));
    if P.IsFeasible(bits) && P.TotalCost(bits) == Optimum(P) {
      forall other | IsBits(other, P.n())
        ensures Value(Q, bits) <= Value(Q, other)
      {
        ValueBounds(P, Q, other);
      }
    }
  }

  /** `energy` of the instance: builds the form and evaluates it. */
  method Energy(P: Problem, bits: seq<int>) returns (e: real)
    requires P.Valid() && IsBits(bits, P.n())
    ensures e == P.TotalCost(bits) + P.penalty * (Excess(P, bits, 0) - P.W) as real
    ensures P.IsFeasible(bits) <==> Excess(P, bits, 0) == 0
  {
    var Q := BuildQubo(P);
    EncodesAtBits(P, Q, bits);
    e := Evaluate(Q, bits);
    ExcessZeroIffFeasible(P, bits);
  }
}
