/** Quadratic forms over 0/1 vectors, kept as a dictionary from index pairs to coefficients. */
module Qubo {

  type Form = map<(nat, nat), real>

  ghost predicate IsBits(bits: seq<int>, n: nat) {
    |bits| == n && forall p :: 0 <= p < n ==> bits[p] == 0 || bits[p] == 1
  }

  /** Every key is an ordered pair of indices below n. */
  ghost predicate KeysBelow(Q: Form, n: nat) {
    forall k :: k in Q ==> k.0 <= k.1 < n
  }

  function Monomial(p: nat, q: nat, bits: seq<int>): real
    requires p < |bits| && q < |bits|
  {
    if p == q then bits[p] as real else bits[p] as real * bits[q] as real
  }

  function Term(k: (nat, nat), v: real, bits: seq<int>): real
    requires k.0 < |bits| && k.1 < |bits|
  {
    if k.0 == k.1 then v * bits[k.0] as real else v * bits[k.0] as real * bits[k.1] as real
  }

  lemma TermIsMonomial(k: (nat, nat), v: real, bits: seq<int>)
    requires k.0 < |bits| && k.1 < |bits|
    ensures Term(k, v, bits) == v * Monomial(k.0, k.1, bits)
  {
    var x, y := bits[k.0] as real, bits[k.1] as real;
    assert v * x * y == v * (x * y);
  }

  /** Sum of the terms whose keys are in `keys`, in some order. */
  ghost function ValueOver(Q: Form, bits: seq<int>, keys: set<(nat, nat)>): real
    requires keys <= Q.Keys && KeysBelow(Q, |bits|)
  {
    if keys == {} then 0.0
    else
      var k :| k in keys;
      Term(k, Q[k], bits) + ValueOver(Q, bits, keys - {k})
  }

  ghost function Value(Q: Form, bits: seq<int>): real
    requires KeysBelow(Q, |bits|)
  {
    ValueOver(Q, bits, Q.Keys)
  }

  /** The order does not matter: any key may be split off first. */
  lemma {:induction false} SplitOff(Q: Form, bits: seq<int>, keys: set<(nat, nat)>, k: (nat, nat))
    requires keys <= Q.Keys && KeysBelow(Q, |bits|) && k in keys
    ensures ValueOver(Q, bits, keys) == Term(k, Q[k], bits) + ValueOver(Q, bits, keys - {k})
    decreases keys
  {
    var c :| c in keys && ValueOver(Q, bits, keys) == Term(c, Q[c], bits) + ValueOver(Q, bits, keys - {c});
    if c != k {
      SplitOff(Q, bits, keys - {c}, k);
      SplitOff(Q, bits, keys - {k}, c);
      assert keys - {c} - {k} == keys - {k} - {c};
    }
  }

  lemma {:induction false} SameOutside(Q: Form, R: Form, bits: seq<int>, keys: set<(nat, nat)>)
    requires keys <= Q.Keys && keys <= R.Keys && KeysBelow(Q, |bits|) && KeysBelow(R, |bits|)
    requires forall k :: k in keys ==> Q[k] == R[k]
    ensures ValueOver(Q, bits, keys) == ValueOver(R, bits, keys)
    decreases keys
  {
    if keys != {} {
      var k :| k in keys;
      SplitOff(Q, bits, keys, k);
      SplitOff(R, bits, keys, k);
      SameOutside(Q, R, bits, keys - {k});
    }
  }

  /** The inner helper of build_qubo: accumulate v on the unordered pair {p, q}. */
  function Add(Q: Form, p: nat, q: nat, v: real): Form {
    Q[Key(p, q) := Get(Q, Key(p, q)) + v]
  }

  function Key(p: nat, q: nat): (nat, nat) {
    if p <= q then (p, q) else (q, p)
  }

  function Get(Q: Form, k: (nat, nat)): real {
    if k in Q then Q[k] else 0.0
  }

  lemma AddTerm(key: (nat, nat), u: real, v: real, bits: seq<int>)
    requires key.0 < |bits| && key.1 < |bits|
    ensures Term(key, u + v, bits) == Term(key, u, bits) + v * Monomial(key.0, key.1, bits)
    ensures Term(key, 0.0, bits) == 0.0
  {
    var m := Monomial(key.0, key.1, bits);
    TermIsMonomial(key, u, bits);
    TermIsMonomial(key, u + v, bits);
    assert (u + v) * m == u * m + v * m;
  }

  /** Adding changes one entry and keeps the keys below n. */
  lemma AddShape(Q: Form, p: nat, q: nat, v: real, n: nat)
    requires KeysBelow(Q, n) && p < n && q < n
    ensures var R, key := Add(Q, p, q, v), Key(p, q);
            && KeysBelow(R, n) && key in R && R[key] == Get(Q, key) + v
            && R.Keys - {key} == Q.Keys - {key}
            && forall k :: k in Q.Keys - {key} ==> R[k] == Q[k]
  {
  }

  /** A form's value, with the entry at k, absent or not, split off. */
  lemma ValueAt(Q: Form, bits: seq<int>, k: (nat, nat))
    requires KeysBelow(Q, |bits|) && k.0 < |bits| && k.1 < |bits|
    ensures Value(Q, bits) == Term(k, Get(Q, k), bits) + ValueOver(Q, bits, Q.Keys - {k})
  {
    if k in Q {
      SplitOff(Q, bits, Q.Keys, k);
    } else {
      assert Q.Keys - {k} == Q.Keys;
      AddTerm(k, 0.0, 0.0, bits);
    }
  }

  lemma AddValue(Q: Form, p: nat, q: nat, v: real, bits: seq<int>)
    requires KeysBelow(Q, |bits|) && p < |bits| && q < |bits|
    ensures KeysBelow(Add(Q, p, q, v), |bits|)
    ensures Value(Add(Q, p, q, v), bits) == Value(Q, bits) + v * Monomial(p, q, bits)
  {
    hide Term, Monomial, Add, Key, Get, Value, KeysBelow;
    var key, R := Key(p, q), Add(Q, p, q, v);
    KeyMonomial(p, q, bits);
    AddShape(Q, p, q, v, |bits|);
    ValueAt(Q, bits, key);
    ValueAt(R, bits, key);
    PresentIs(R, key);
    SameOutside(Q, R, bits, Q.Keys - {key});
    AddTerm(key, Get(Q, key), v, bits);
    assert Value(R, bits) == Term(key, Get(Q, key) + v, bits) + ValueOver(Q, bits, Q.Keys - {key});
    assert v * Monomial(key.0, key.1, bits) == v * Monomial(p, q, bits);
  }

  lemma PresentIs(Q: Form, k: (nat, nat))
    requires k in Q
    ensures Get(Q, k) == Q[k]
  {
  }

  lemma KeyMonomial(p: nat, q: nat, bits: seq<int>)
    requires p < |bits| && q < |bits|
    ensures Key(p, q).0 < |bits| && Key(p, q).1 < |bits|
    ensures Monomial(Key(p, q).0, Key(p, q).1, bits) == Monomial(p, q, bits)
  {
    MonomialCommutes(p, q, bits);
  }

  lemma MonomialCommutes(p: nat, q: nat, bits: seq<int>)
    requires p < |bits| && q < |bits|
    ensures Monomial(p, q, bits) == Monomial(q, p, bits)
  {
  }

  /** The loop of `energy`: visit the dictionary's entries in any order. */
  method Evaluate(Q: Form, bits: seq<int>) returns (e: real)
    requires KeysBelow(Q, |bits|)
    ensures e == Value(Q, bits)
  {
    e := 0.0;
    var todo := Q.Keys;
    while todo != {}
      invariant todo <= Q.Keys
      invariant e + ValueOver(Q, bits, todo) == Value(Q, bits)
    {
      var k :| k in todo;
      SplitOff(Q, bits, todo, k);
      if k.0 == k.1 {
        e := e + Q[k] * bits[k.0] as real;
      } else {
        e := e + Q[k] * bits[k.0] as real * bits[k.1] as real;
      }
      todo := todo - {k};
    }
  }
}
