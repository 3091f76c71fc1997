/** Change of variables from 0/1 to spins (x = (1 - z) / 2), and the Pauli strings of the result. */
module IsingMap {
  import opened Qubo

  /** Spin of qubit i: +1 for bit 0, -1 for bit 1. */
  function Spin(bits: seq<int>, i: nat): real
    requires i < |bits|
  {
    1.0 - 2.0 * bits[i] as real
  }

  function Abs(x: real): real {
    if x < 0.0 then -x else x
  }

  const TOL := 0.000000000001

  // ----- Ising values -----

  /** Field terms from i on. */
  ghost function Linear(h: seq<real>, bits: seq<int>, i: nat): real
    requires |h| == |bits| && i <= |h|
    decreases |h| - i
  {
    if i == |h| then 0.0 else h[i] * Spin(bits, i) + Linear(h, bits, i + 1)
  }

  /** Couplings (i, j), (i, j + 1), ... of row i. */
  ghost function Row(r: seq<real>, bits: seq<int>, i: nat, j: nat): real
    requires |r| == |bits| && i < |r| && j <= |r|
    decreases |r| - j
  {
    if j == |r| then 0.0 else r[j] * (Spin(bits, i) * Spin(bits, j)) + Row(r, bits, i, j + 1)
  }

  ghost predicate Square(J: seq<seq<real>>, n: nat) {
    |J| == n && forall i :: 0 <= i < n ==> |J[i]| == n
  }

  /** Couplings above the diagonal, rows from i on. */
  ghost function Quadratic(J: seq<seq<real>>, bits: seq<int>, i: nat): real
    requires Square(J, |bits|) && i <= |J|
    decreases |J| - i
  {
    if i == |J| then 0.0 else Row(J[i], bits, i, i + 1) + Quadratic(J, bits, i + 1)
  }

  ghost function IsingValue(h: seq<real>, J: seq<seq<real>>, bits: seq<int>): real
    requires |h| == |bits| && Square(J, |bits|)
  {
    Linear(h, bits, 0) + Quadratic(J, bits, 0)
  }

  lemma {:induction false} LinearUpdate(h: seq<real>, bits: seq<int>, p: nat, d: real, i: nat)
    requires |h| == |bits| && p < |h| && i <= |h|
    ensures Linear(h[p := h[p] + d], bits, i)
         == Linear(h, bits, i) + if i <= p then d * Spin(bits, p) else 0.0
    decreases |h| - i
  {
    if i < |h| {
      LinearUpdate(h, bits, p, d, i + 1);
      assert (h[p] + d) * Spin(bits, p) == h[p] * Spin(bits, p) + d * Spin(bits, p);
    }
  }

  lemma {:induction false} RowUpdate(r: seq<real>, bits: seq<int>, i: nat, q: nat, d: real, j: nat)
    requires |r| == |bits| && i < |r| && q < |r| && j <= |r|
    ensures Row(r[q := r[q] + d], bits, i, j)
         == Row(r, bits, i, j) + if j <= q then d * (Spin(bits, i) * Spin(bits, q)) else 0.0
    decreases |r| - j
  {
    if j < |r| {
      RowUpdate(r, bits, i, q, d, j + 1);
      var m := Spin(bits, i) * Spin(bits, q);
      assert (r[q] + d) * m == r[q] * m + d * m;
    }
  }

  ghost function WithCoupling(J: seq<seq<real>>, p: nat, q: nat, d: real): seq<seq<real>>
    requires p < |J| && q < |J[p]|
  {
    J[p := J[p][q := J[p][q] + d]]
  }

  lemma {:induction false} QuadraticUpdate(J: seq<seq<real>>, bits: seq<int>, p: nat, q: nat, d: real, i: nat)
    requires Square(J, |bits|) && p < q < |J| && i <= |J|
    ensures Quadratic(WithCoupling(J, p, q, d), bits, i)
         == Quadratic(J, bits, i) + if i <= p then d * (Spin(bits, p) * Spin(bits, q)) else 0.0
    decreases |J| - i
  {
    if i < |J| {
      QuadraticUpdate(J, bits, p, q, d, i + 1);
      if i == p {
        RowUpdate(J[p], bits, p, q, d, p + 1);
      }
    }
  }

  // ----- The constant of the change of variables -----

  /** Share of one entry: the form's mean over all vectors. */
  function Share(k: (nat, nat), v: real): real {
    if k.0 == k.1 then v / 2.0 else v / 4.0
  }

  ghost function MeanOver(Q: Form, keys: set<(nat, nat)>): real
    requires keys <= Q.Keys
  {
    if keys == {} then 0.0
    else
      var k :| k in keys;
      Share(k, Q[k]) + MeanOver(Q, keys - {k})
  }

  /** The part of the form's value that no spin term carries. */
  ghost function Constant(Q: Form): real {
    MeanOver(Q, Q.Keys)
  }

  lemma {:induction false} MeanSplitOff(Q: Form, keys: set<(nat, nat)>, k: (nat, nat))
    requires keys <= Q.Keys && k in keys
    ensures MeanOver(Q, keys) == Share(k, Q[k]) + MeanOver(Q, keys - {k})
    decreases keys
  {
    var c :| c in keys && MeanOver(Q, keys) == Share(c, Q[c]) + MeanOver(Q, keys - {c});
    if c != k {
      MeanSplitOff(Q, keys - {c}, k);
      MeanSplitOff(Q, keys - {k}, c);
      assert keys - {c} - {k} == keys - {k} - {c};
    }
  }

  /** The fields and coupling one entry turns into carry its value up to its share of the constant. */
  lemma EntryShares(k: (nat, nat), v: real, bits: seq<int>)
    requires k.0 < |bits| && k.1 < |bits|
    requires bits[k.0] in {0, 1} && bits[k.1] in {0, 1}
    ensures k.0 == k.1 ==>
              Term(k, v, bits) == Share(k, v) + (-v / 2.0) * Spin(bits, k.0)
    ensures k.0 != k.1 ==>
              Term(k, v, bits) == Share(k, v) + (-v / 4.0) * Spin(bits, k.0) + (-v / 4.0) * Spin(bits, k.1)
                                  + v / 4.0 * (Spin(bits, k.0) * Spin(bits, k.1))
  {
  }

  // ----- Pauli strings -----

  function Reverse(s: string): (r: string)
    ensures |r| == |s|
    ensures forall k :: 0 <= k < |s| ==> r[k] == s[|s| - 1 - k]
  {
    seq(|s|, k requires 0 <= k < |s| => s[|s| - 1 - k])
  }

  /** Positions from i on that hold a Z, in order. */
  function ZFrom(s: string, i: nat): (zs: seq<nat>)
    requires i <= |s|
    ensures forall z: nat :: z in zs <==> i <= z < |s| && s[z] == 'Z'
    ensures forall k, l :: 0 <= k < l < |zs| ==> zs[k] < zs[l]
    decreases |s| - i
  {
    if i == |s| then []
    else
      var rest := ZFrom(s, i + 1);
      assert forall k :: 0 <= k < |rest| ==> rest[k] in rest;
      if s[i] == 'Z' then [i] + rest else rest
  }

  /** Qubits a Pauli string acts on; qubit 0 is the last character. */
  function ZPositions(pauli: string): (zs: seq<nat>)
    ensures forall k :: 0 <= k < |zs| ==> zs[k] < |pauli|
  {
    var zs := ZFrom(Reverse(pauli), 0);
    assert forall k :: 0 <= k < |zs| ==> zs[k] in zs;
    zs
  }

  ghost predicate Increasing(zs: seq<nat>, n: nat) {
    (forall i, j :: 0 <= i < j < |zs| ==> zs[i] < zs[j]) && forall i :: 0 <= i < |zs| ==> zs[i] < n
  }

  function PauliString(n: nat, zs: seq<nat>): (s: string)
    ensures |s| == n
  {
    Reverse(seq(n, k requires 0 <= k < n => if k in zs then 'Z' else 'I'))
  }

  /** Two increasing lists with the same elements are the same list. */
  lemma {:induction false} SameElements(a: seq<nat>, b: seq<nat>, n: nat)
    requires Increasing(a, n) && Increasing(b, n)
    requires forall z :: z in a <==> z in b
    ensures a == b
  {
    assert a != [] ==> a[0] in a;
    assert b != [] ==> b[0] in b;
    if a != [] && b != [] {
      assert a[0] in b && b[0] in a;
      assert a[0] == b[0];
      assert a == [a[0]] + a[1..] && b == [b[0]] + b[1..];
      forall z
        ensures z in a[1..] <==> z in b[1..]
      {
        assert z in a[1..] <==> z in a && z != a[0];
        assert z in b[1..] <==> z in b && z != b[0];
      }
      SameElements(a[1..], b[1..], n);
    }
  }

  /** Decoding a string gives back exactly the qubits it was built from. */
  lemma PauliRoundTrip(n: nat, zs: seq<nat>)
    requires Increasing(zs, n)
    ensures ZPositions(PauliString(n, zs)) == zs
  {
    var plain := seq(n, k requires 0 <= k < n => if k in zs then 'Z' else 'I');
    assert Reverse(Reverse(plain)) == plain;
    var found := ZFrom(plain, 0);
    forall k | 0 <= k < |found|
      ensures found[k] < n
    {
      assert found[k] in found;
    }
    forall z
      ensures z in found <==> z in zs
    {
      assert z in zs ==> z < n;
    }
    SameElements(found, zs, n);
  }

  type PauliTerm = (string, real)

  ghost function SpinProduct(zs: seq<nat>, bits: seq<int>): real
    requires forall k :: 0 <= k < |zs| ==> zs[k] < |bits|
  {
    if zs == [] then 1.0 else Spin(bits, zs[0]) * SpinProduct(zs[1..], bits)
  }

  /** Value of an emitted term, read off its own string. */
  ghost function TermValue(t: PauliTerm, bits: seq<int>): real
    requires |t.0| == |bits|
  {
    t.1 * SpinProduct(ZPositions(t.0), bits)
  }

  ghost predicate Strings(terms: seq<PauliTerm>, n: nat) {
    forall k :: 0 <= k < |terms| ==> |terms[k].0| == n
  }

  ghost function TermsValue(terms: seq<PauliTerm>, bits: seq<int>): real
    requires Strings(terms, |bits|)
  {
    if terms == [] then 0.0
    else TermsValue(terms[..|terms| - 1], bits) + TermValue(terms[|terms| - 1], bits)
  }

  lemma SpinProductOne(bits: seq<int>, i: nat)
    requires i < |bits|
    ensures SpinProduct([i], bits) == Spin(bits, i)
  {
    assert [i][1..] == [];
  }

  lemma SpinProductTwo(bits: seq<int>, i: nat, j: nat)
    requires i < |bits| && j < |bits|
    ensures SpinProduct([i, j], bits) == Spin(bits, i) * Spin(bits, j)
  {
    SpinProductOne(bits, j);
    assert [i, j][1..] == [j];
  }

  lemma TermValueIs(n: nat, zs: seq<nat>, c: real, bits: seq<int>)
    requires |bits| == n && Increasing(zs, n)
    ensures TermValue((PauliString(n, zs), c), bits) == c * SpinProduct(zs, bits)
  {
    hide PauliString, ZPositions, Increasing;
    PauliRoundTrip(n, zs);
  }

  lemma FieldTerm(n: nat, i: nat, c: real, bits: seq<int>)
    requires |bits| == n && i < n
    ensures TermValue((PauliString(n, [i]), c), bits) == c * Spin(bits, i)
  {
    hide Spin, PauliString, ZPositions, SpinProduct, TermValue;
    SpinProductOne(bits, i);
    TermValueIs(n, [i], c, bits);
  }

  lemma CouplingTerm(n: nat, i: nat, j: nat, c: real, bits: seq<int>)
    requires |bits| == n && i < j < n
    ensures TermValue((PauliString(n, [i, j]), c), bits) == c * (Spin(bits, i) * Spin(bits, j))
  {
    hide Spin, PauliString, ZPositions, SpinProduct, TermValue;
    SpinProductTwo(bits, i, j);
    TermValueIs(n, [i, j], c, bits);
  }

  // ----- The conversion -----

  /** Number of pairs below k. */
  function Triangle(k: nat): nat {
    if k == 0 then 0 else k - 1 + Triangle(k - 1)
  }

  lemma {:induction false} TriangleIs(k: nat)
    ensures 2 * Triangle(k) == k * (k - 1)
  {
    if k > 0 {
      TriangleIs(k - 1);
      assert k * (k - 1) == (k - 1) * (k - 2) + 2 * (k - 1);
    }
  }

  /** Spin form plus constant reproduces the entries already converted. */
  ghost predicate Converted(Q: Form, done: set<(nat, nat)>, h: seq<real>, J: seq<seq<real>>, n: nat) {
    && |h| == n && Square(J, n) && KeysBelow(Q, n) && done <= Q.Keys
    && forall bits | IsBits(bits, n) ::
         ValueOver(Q, bits, done) == IsingValue(h, J, bits) + MeanOver(Q, done)
  }

  lemma ConvertDiagonal(Q: Form, done: set<(nat, nat)>, h: seq<real>, J: seq<seq<real>>, n: nat, k: (nat, nat))
    requires Converted(Q, done, h, J, n) && k in Q.Keys - done && k.0 == k.1
    ensures Converted(Q, done + {k}, h[k.0 := h[k.0] + -Q[k] / 2.0], J, n)
  {
    var h' := h[k.0 := h[k.0] + -Q[k] / 2.0];
    assert done + {k} - {k} == done;
    MeanSplitOff(Q, done + {k}, k);
    forall bits | IsBits(bits, n)
      ensures ValueOver(Q, bits, done + {k}) == IsingValue(h', J, bits) + MeanOver(Q, done + {k})
    {
      SplitOff(Q, bits, done + {k}, k);
      LinearUpdate(h, bits, k.0, -Q[k] / 2.0, 0);
      EntryShares(k, Q[k], bits);
    }
  }

  lemma IsingDelta(h: seq<real>, J: seq<seq<real>>, bits: seq<int>, p: nat, q: nat, a: real, b: real)
    requires |h| == |bits| && Square(J, |bits|) && p < q < |bits|
    ensures var h1 := h[p := h[p] + a];
            var h2 := h1[q := h1[q] + a];
            var J' := WithCoupling(J, p, q, b);
            && |h2| == |bits| && Square(J', |bits|)
            && IsingValue(h2, J', bits)
               == IsingValue(h, J, bits) + a * Spin(bits, p) + a * Spin(bits, q) + b * (Spin(bits, p) * Spin(bits, q))
  {
    hide Spin;
    var h1 := h[p := h[p] + a];
    LinearUpdate(h, bits, p, a, 0);
    LinearUpdate(h1, bits, q, a, 0);
    QuadraticUpdate(J, bits, p, q, b, 0);
  }

  lemma ConvertPairAt(Q: Form, done: set<(nat, nat)>, h: seq<real>, J: seq<seq<real>>, bits: seq<int>, k: (nat, nat))
    requires |h| == |bits| && Square(J, |bits|) && KeysBelow(Q, |bits|) && done <= Q.Keys
    requires k in Q.Keys - done && k.0 < k.1 && IsBits(bits, |bits|)
    requires ValueOver(Q, bits, done) == IsingValue(h, J, bits) + MeanOver(Q, done)
    ensures var h1 := h[k.0 := h[k.0] + -Q[k] / 4.0];
            var h2 := h1[k.1 := h1[k.1] + -Q[k] / 4.0];
            var J' := WithCoupling(J, k.0, k.1, Q[k] / 4.0);
            && |h2| == |bits| && Square(J', |bits|)
            && ValueOver(Q, bits, done + {k}) == IsingValue(h2, J', bits) + MeanOver(Q, done + {k})
  {
    hide Spin, Term, Share, IsingValue, WithCoupling, Square;
    assert done + {k} - {k} == done;
    MeanSplitOff(Q, done + {k}, k);
    SplitOff(Q, bits, done + {k}, k);
    IsingDelta(h, J, bits, k.0, k.1, -Q[k] / 4.0, Q[k] / 4.0);
    EntryShares(k, Q[k], bits);
  }

  lemma ConvertPair(Q: Form, done: set<(nat, nat)>, h: seq<real>, J: seq<seq<real>>, n: nat, k: (nat, nat))
    requires Converted(Q, done, h, J, n) && k in Q.Keys - done && k.0 != k.1
    ensures k.0 < k.1 < n
    ensures var h1 := h[k.0 := h[k.0] + -Q[k] / 4.0];
            var h2 := h1[k.1 := h1[k.1] + -Q[k] / 4.0];
            Converted(Q, done + {k}, h2, WithCoupling(J, k.0, k.1, Q[k] / 4.0), n)
  {
    var h1 := h[k.0 := h[k.0] + -Q[k] / 4.0];
    var h2 := h1[k.1 := h1[k.1] + -Q[k] / 4.0];
    var J' := WithCoupling(J, k.0, k.1, Q[k] / 4.0);
    assert Square(J', n);
    hide WithCoupling, IsingValue;
    forall bits | IsBits(bits, n)
      ensures ValueOver(Q, bits, done + {k}) == IsingValue(h2, J', bits) + MeanOver(Q, done + {k})
    {
      ConvertPairAt(Q, done, h, J, bits, k);
    }
  }

  /** Emitted so far: `left` is what is still to come, each omitted candidate cost at most TOL. */
  ghost predicate Emitted(terms: seq<PauliTerm>, seen: int, bits: seq<int>, full: real, left: real) {
    && Strings(terms, |bits|)
    && Abs(TermsValue(terms, bits) + left - full) <= TOL * (seen - |terms|) as real
  }

  lemma Append(terms: seq<PauliTerm>, t: PauliTerm, seen: int, bits: seq<int>, full: real, left: real)
    requires Emitted(terms, seen, bits, full, left) && |t.0| == |bits|
    ensures Emitted(terms + [t], seen + 1, bits, full, left - TermValue(t, bits))
  {
    assert (terms + [t])[..|terms|] == terms;
  }

  lemma Omit(terms: seq<PauliTerm>, seen: int, bits: seq<int>, full: real, left: real, c: real, s: real)
    requires Emitted(terms, seen, bits, full, left)
    requires Abs(c) <= TOL && (s == 1.0 || s == -1.0)
    ensures Emitted(terms, seen + 1, bits, full, left - c * s)
  {
    assert TOL * (seen + 1 - |terms|) as real == TOL * (seen - |terms|) as real + TOL;
  }

  lemma SpinIsUnit(bits: seq<int>, i: nat)
    requires i < |bits| && bits[i] in {0, 1}
    ensures Spin(bits, i) == 1.0 || Spin(bits, i) == -1.0
  {
  }

  lemma EmitField(terms: seq<PauliTerm>, seen: int, bits: seq<int>, full: real,
                  h: seq<real>, J: seq<seq<real>>, i: nat)
    requires |h| == |bits| && Square(J, |bits|) && i < |bits| && IsBits(bits, |bits|)
    requires Emitted(terms, seen, bits, full, Linear(h, bits, i) + Quadratic(J, bits, 0))
    ensures Emitted(terms + [(PauliString(|bits|, [i]), h[i])], seen + 1, bits, full,
                    Linear(h, bits, i + 1) + Quadratic(J, bits, 0))
    ensures Abs(h[i]) <= TOL ==>
              Emitted(terms, seen + 1, bits, full, Linear(h, bits, i + 1) + Quadratic(J, bits, 0))
  {
    hide Emitted, Quadratic, PauliString, TermValue, Spin;
    var left := Linear(h, bits, i) + Quadratic(J, bits, 0);
    FieldTerm(|bits|, i, h[i], bits);
    SpinIsUnit(bits, i);
    Append(terms, (PauliString(|bits|, [i]), h[i]), seen, bits, full, left);
    if Abs(h[i]) <= TOL {
      Omit(terms, seen, bits, full, left, h[i], Spin(bits, i));
    }
  }

  lemma EmitCoupling(terms: seq<PauliTerm>, seen: int, bits: seq<int>, full: real,
                     J: seq<seq<real>>, i: nat, j: nat)
    requires Square(J, |bits|) && i < j < |bits| && IsBits(bits, |bits|)
    requires Emitted(terms, seen, bits, full, Row(J[i], bits, i, j) + Quadratic(J, bits, i + 1))
    ensures Emitted(terms + [(PauliString(|bits|, [i, j]), J[i][j])], seen + 1, bits, full,
                    Row(J[i], bits, i, j + 1) + Quadratic(J, bits, i + 1))
    ensures Abs(J[i][j]) <= TOL ==>
              Emitted(terms, seen + 1, bits, full, Row(J[i], bits, i, j + 1) + Quadratic(J, bits, i + 1))
  {
    hide Emitted, Quadratic, PauliString, TermValue, Spin;
    var left := Row(J[i], bits, i, j) + Quadratic(J, bits, i + 1);
    var c := J[i][j];
    var s := Spin(bits, i) * Spin(bits, j);
    CouplingTerm(|bits|, i, j, c, bits);
    SpinIsUnit(bits, i);
    SpinIsUnit(bits, j);
    Append(terms, (PauliString(|bits|, [i, j]), c), seen, bits, full, left);
    if Abs(c) <= TOL {
      Omit(terms, seen, bits, full, left, c, s);
    }
  }

  /** All vectors at once, while the fields are being emitted. */
  ghost predicate FieldsEmitted(terms: seq<PauliTerm>, h: seq<real>, J: seq<seq<real>>, n: nat, i: nat)
    requires |h| == n && Square(J, n) && i <= n
  {
    forall bits | IsBits(bits, n) ::
      Emitted(terms, i, bits, IsingValue(h, J, bits), Linear(h, bits, i) + Quadratic(J, bits, 0))
  }

  ghost predicate RowEmitted(terms: seq<PauliTerm>, h: seq<real>, J: seq<seq<real>>, n: nat, seen: int, i: nat, j: nat)
    requires |h| == n && Square(J, n) && i < n && j <= n
  {
    forall bits | IsBits(bits, n) ::
      Emitted(terms, seen, bits, IsingValue(h, J, bits), Row(J[i], bits, i, j) + Quadratic(J, bits, i + 1))
  }

  ghost predicate RowsEmitted(terms: seq<PauliTerm>, h: seq<real>, J: seq<seq<real>>, n: nat, seen: int, i: nat)
    requires |h| == n && Square(J, n) && i <= n
  {
    forall bits | IsBits(bits, n) ::
      Emitted(terms, seen, bits, IsingValue(h, J, bits), Quadratic(J, bits, i))
  }

  lemma NothingEmitted(h: seq<real>, J: seq<seq<real>>, n: nat)
    requires |h| == n && Square(J, n)
    ensures FieldsEmitted([], h, J, n, 0)
  {
  }

  lemma FieldStep(terms: seq<PauliTerm>, h: seq<real>, J: seq<seq<real>>, n: nat, i: nat)
    requires |h| == n && Square(J, n) && i < n && FieldsEmitted(terms, h, J, n, i)
    ensures FieldsEmitted(terms + [(PauliString(n, [i]), h[i])], h, J, n, i + 1)
    ensures Abs(h[i]) <= TOL ==> FieldsEmitted(terms, h, J, n, i + 1)
  {
    hide Emitted, PauliString, IsingValue, Linear, Quadratic;
    forall bits | IsBits(bits, n)
      ensures Emitted(terms + [(PauliString(n, [i]), h[i])], i + 1, bits, IsingValue(h, J, bits),
                      Linear(h, bits, i + 1) + Quadratic(J, bits, 0))
      ensures Abs(h[i]) <= TOL ==>
                Emitted(terms, i + 1, bits, IsingValue(h, J, bits), Linear(h, bits, i + 1) + Quadratic(J, bits, 0))
    {
      EmitField(terms, i, bits, IsingValue(h, J, bits), h, J, i);
    }
  }

  lemma FieldsEnd(terms: seq<PauliTerm>, h: seq<real>, J: seq<seq<real>>, n: nat)
    requires |h| == n && Square(J, n) && FieldsEmitted(terms, h, J, n, n)
    ensures RowsEmitted(terms, h, J, n, n, 0)
  {
    hide Emitted, IsingValue;
  }

  lemma RowBegins(terms: seq<PauliTerm>, h: seq<real>, J: seq<seq<real>>, n: nat, seen: int, i: nat)
    requires |h| == n && Square(J, n) && i < n && RowsEmitted(terms, h, J, n, seen, i)
    ensures RowEmitted(terms, h, J, n, seen, i, i + 1)
  {
    hide Emitted, IsingValue;
  }

  lemma CouplingStep(terms: seq<PauliTerm>, h: seq<real>, J: seq<seq<real>>, n: nat, seen: int, i: nat, j: nat)
    requires |h| == n && Square(J, n) && i < j < n && RowEmitted(terms, h, J, n, seen, i, j)
    ensures RowEmitted(terms + [(PauliString(n, [i, j]), J[i][j])], h, J, n, seen + 1, i, j + 1)
    ensures Abs(J[i][j]) <= TOL ==> RowEmitted(terms, h, J, n, seen + 1, i, j + 1)
  {
    hide Emitted, PauliString, IsingValue, Quadratic;
    forall bits | IsBits(bits, n)
      ensures Emitted(terms + [(PauliString(n, [i, j]), J[i][j])], seen + 1, bits, IsingValue(h, J, bits),
                      Row(J[i], bits, i, j + 1) + Quadratic(J, bits, i + 1))
      ensures Abs(J[i][j]) <= TOL ==>
                Emitted(terms, seen + 1, bits, IsingValue(h, J, bits), Row(J[i], bits, i, j + 1) + Quadratic(J, bits, i + 1))
    {
      EmitCoupling(terms, seen, bits, IsingValue(h, J, bits), J, i, j);
    }
  }

  lemma RowFinishes(terms: seq<PauliTerm>, h: seq<real>, J: seq<seq<real>>, n: nat, seen: int, i: nat)
    requires |h| == n && Square(J, n) && i < n && RowEmitted(terms, h, J, n, seen, i, n)
    ensures RowsEmitted(terms, h, J, n, seen, i + 1)
  {
    hide Emitted, IsingValue;
  }

  /** The emitted terms plus the constant give the form's value, up to 1e-12 per omitted term. */
  ghost predicate Represents(terms: seq<PauliTerm>, Q: Form, n: nat) {
    && Strings(terms, n) && KeysBelow(Q, n)
    && forall bits | IsBits(bits, n) ::
         Abs(TermsValue(terms, bits) + Constant(Q) - Value(Q, bits)) <= 0.000000000001 * (n + Triangle(n) - |terms|) as real
  }

  lemma AllEmitted(terms: seq<PauliTerm>, Q: Form, h: seq<real>, J: seq<seq<real>>, n: nat)
    requires Converted(Q, Q.Keys, h, J, n) && RowsEmitted(terms, h, J, n, n + Triangle(n), n)
    ensures Represents(terms, Q, n)
  {
    hide IsingValue;
    var zeros := seq(n, _ => 0);
    assert Emitted(terms, n + Triangle(n), zeros, IsingValue(h, J, zeros), Quadratic(J, zeros, n));
  }

  lemma NothingConverted(Q: Form, n: nat, h: seq<real>, J: seq<seq<real>>)
    requires KeysBelow(Q, n) && |h| == n && Square(J, n)
    requires forall i :: 0 <= i < n ==> h[i] == 0.0
    requires forall i, j :: 0 <= i < n && 0 <= j < n ==> J[i][j] == 0.0
    ensures Converted(Q, {}, h, J, n)
  {
    forall bits | IsBits(bits, n)
      ensures IsingValue(h, J, bits) == 0.0
    {
      ZeroFields(h, bits, 0);
      ZeroCouplings(J, bits, 0);
    }
  }

  lemma {:induction false} ZeroFields(h: seq<real>, bits: seq<int>, i: nat)
    requires |h| == |bits| && i <= |h| && forall k :: 0 <= k < |h| ==> h[k] == 0.0
    ensures Linear(h, bits, i) == 0.0
    decreases |h| - i
  {
    if i < |h| {
      ZeroFields(h, bits, i + 1);
    }
  }

  lemma {:induction false} ZeroRow(r: seq<real>, bits: seq<int>, i: nat, j: nat)
    requires |r| == |bits| && i < |r| && j <= |r| && forall k :: 0 <= k < |r| ==> r[k] == 0.0
    ensures Row(r, bits, i, j) == 0.0
    decreases |r| - j
  {
    if j < |r| {
      ZeroRow(r, bits, i, j + 1);
    }
  }

  lemma {:induction false} ZeroCouplings(J: seq<seq<real>>, bits: seq<int>, i: nat)
    requires Square(J, |bits|) && i <= |J|
    requires forall k, l :: 0 <= k < |J| && 0 <= l < |J| ==> J[k][l] == 0.0
    ensures Quadratic(J, bits, i) == 0.0
    decreases |J| - i
  {
    if i < |J| {
      ZeroRow(J[i], bits, i, i + 1);
      ZeroCouplings(J, bits, i + 1);
    }
  }

  /** The two-dimensional array holds the matrix js. */
  ghost predicate Holds(J: array2<real>, js: seq<seq<real>>, n: nat)
    reads J
  {
    && Square(js, n) && J.Length0 == n && J.Length1 == n
    && forall i, j :: 0 <= i < n && 0 <= j < n ==> J[i, j] == js[i][j]
  }

  method QuboToIsing(Q: Form, n: nat) returns (terms: seq<PauliTerm>, offset: real)
    requires KeysBelow(Q, n)
    ensures Represents(terms, Q, n) && offset == 0.0
    ensures forall k :: 0 <= k < |terms| ==> Abs(terms[k].1) > 0.000000000001
  {
    hide Represents, Converted, FieldsEmitted, RowEmitted, RowsEmitted, PauliString, Abs;
    var h := new real[n](_ => 0.0);
    var J := new real[n, n]((_, _) => 0.0);
    ghost var js: seq<seq<real>> := seq(n, _ => seq(n, _ => 0.0));
    NothingConverted(Q, n, h[..], js);
    var todo := Q.Keys;
    assert Q.Keys - todo == {};
    while todo != {}
      invariant todo <= Q.Keys && h.Length == n && Holds(J, js, n)
      invariant Converted(Q, Q.Keys - todo, h[..], js, n)
    {
      var k :| k in todo;
      var v := Q[k];
      assert Q.Keys - todo + {k} == Q.Keys - (todo - {k});
      ghost var hs := h[..];
      if k.0 == k.1 {
        ConvertDiagonal(Q, Q.Keys - todo, hs, js, n, k);
        h[k.0] := h[k.0] + -v / 2.0;
        assert h[..] == hs[k.0 := hs[k.0] + -v / 2.0];
      } else {
        ConvertPair(Q, Q.Keys - todo, hs, js, n, k);
        h[k.0] := h[k.0] + -v / 4.0;
        assert h[..] == hs[k.0 := hs[k.0] + -v / 4.0];
        ghost var hs1 := h[..];
        h[k.1] := h[k.1] + -v / 4.0;
        assert h[..] == hs1[k.1 := hs1[k.1] + -v / 4.0];
        J[k.0, k.1] := J[k.0, k.1] + v / 4.0;
        js := WithCoupling(js, k.0, k.1, v / 4.0);
      }
      todo := todo - {k};
    }
    ghost var hs := h[..];
    assert Q.Keys - todo == Q.Keys;
    terms := EmitTerms(n, h, J, hs, js);
    AllEmitted(terms, Q, hs, js, n);
    offset := 0.0;
  }

  /** The second half: one string per coefficient that is not negligible. */
  method EmitTerms(n: nat, h: array<real>, J: array2<real>, ghost hs: seq<real>, ghost js: seq<seq<real>>)
    returns (terms: seq<PauliTerm>)
    requires h.Length == n && h[..] == hs && Holds(J, js, n)
    ensures RowsEmitted(terms, hs, js, n, n + Triangle(n), n)
    ensures forall k :: 0 <= k < |terms| ==> Abs(terms[k].1) > 0.000000000001
  {
    hide FieldsEmitted, RowEmitted, RowsEmitted, PauliString, Abs;
    terms := [];
    NothingEmitted(hs, js, n);
    for i := 0 to n
      invariant FieldsEmitted(terms, hs, js, n, i)
      invariant forall k :: 0 <= k < |terms| ==> Abs(terms[k].1) > 0.000000000001
    {
      FieldStep(terms, hs, js, n, i);
      if Abs(h[i]) > TOL {
        terms := terms + [(PauliString(n, [i]), h[i])];
      }
    }
    FieldsEnd(terms, hs, js, n);
    ghost var seen := n;
    for i := 0 to n
      invariant seen + Triangle(n - i) == n + Triangle(n)
      invariant RowsEmitted(terms, hs, js, n, seen, i)
      invariant forall k :: 0 <= k < |terms| ==> Abs(terms[k].1) > 0.000000000001
    {
      RowBegins(terms, hs, js, n, seen, i);
      for j := i + 1 to n
        invariant seen + (n - j) + Triangle(n - (i + 1)) == n + Triangle(n)
        invariant RowEmitted(terms, hs, js, n, seen, i, j)
        invariant forall k :: 0 <= k < |terms| ==> Abs(terms[k].1) > 0.000000000001
      {
        CouplingStep(terms, hs, js, n, seen, i, j);
        if Abs(J[i, j]) > TOL {
          terms := terms + [(PauliString(n, [i, j]), J[i, j])];
        }
        seen := seen + 1;
      }
      RowFinishes(terms, hs, js, n, seen, i);
    }
  }
}
