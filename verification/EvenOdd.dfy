/** Parity of marked edges around a cycle, for any edge test on any kind of vertex. */
module EvenOdd {

  function Prev(n: nat, i: nat): nat
    requires i < n
  {
    if i == 0 then n - 1 else i - 1
  }

  /** The first k vertices whose edge to their cyclic predecessor is marked. */
  function MarkedBelow<T>(edge: (T, T) -> bool, ring: seq<T>, k: nat): set<nat>
    requires k <= |ring|
  {
    set i: nat | i < k && edge(ring[i], ring[Prev(|ring|, i)])
  }

  predicate OddCycle<T>(edge: (T, T) -> bool, ring: seq<T>) {
    |MarkedBelow(edge, ring, |ring|)| % 2 == 1
  }

  lemma MarkedStep<T>(edge: (T, T) -> bool, ring: seq<T>, k: nat)
    requires k < |ring|
    ensures |MarkedBelow(edge, ring, k + 1)|
         == |MarkedBelow(edge, ring, k)| + if edge(ring[k], ring[Prev(|ring|, k)]) then 1 else 0
  {
    var before, after := MarkedBelow(edge, ring, k), MarkedBelow(edge, ring, k + 1);
    if edge(ring[k], ring[Prev(|ring|, k)]) {
      assert after == before + {k};
    } else {
      assert after == before;
    }
  }

  /** Parity of the marked edges between consecutive vertices of an open path. */
  ghost predicate PathOdd<T>(edge: (T, T) -> bool, path: seq<T>) {
    |path| >= 2 && (edge(path[1], path[0]) != PathOdd(edge, path[1..]))
  }

  lemma PathOfTwo<T>(edge: (T, T) -> bool, a: T, b: T)
    ensures PathOdd(edge, [a] + [b]) == edge(b, a)
  {
    assert |([a] + [b])[1..]| == 1;
  }

  lemma {:induction false} PathJoin<T>(edge: (T, T) -> bool, a: seq<T>, v: T, b: seq<T>)
    ensures PathOdd(edge, a + [v] + b) == (PathOdd(edge, a + [v]) != PathOdd(edge, [v] + b))
  {
    if a == [] {
      assert [] + [v] + b == [v] + b;
    } else {
      PathJoin(edge, a[1..], v, b);
      assert (a + [v] + b)[1..] == a[1..] + [v] + b;
      assert (a + [v])[1..] == a[1..] + [v];
    }
  }

  lemma PathSnoc<T>(edge: (T, T) -> bool, path: seq<T>, v: T)
    requires path != []
    ensures PathOdd(edge, path + [v]) == (PathOdd(edge, path) != edge(v, path[|path| - 1]))
  {
    var m := |path| - 1;
    PathJoin(edge, path[..m], path[m], [v]);
    assert path[..m] + [path[m]] == path;
    PathOfTwo(edge, path[m], v);
  }

  /** The cycle is its closing edge and the open path through all its vertices. */
  lemma {:induction false} CycleByPath<T>(edge: (T, T) -> bool, ring: seq<T>, k: nat)
    requires 1 <= k <= |ring|
    ensures (|MarkedBelow(edge, ring, k)| % 2 == 1)
         == (edge(ring[0], ring[|ring| - 1]) != PathOdd(edge, ring[..k]))
  {
    MarkedStep(edge, ring, k - 1);
    if k == 1 {
      assert MarkedBelow(edge, ring, 0) == {};
    } else {
      CycleByPath(edge, ring, k - 1);
      PathSnoc(edge, ring[..k - 1], ring[k - 1]);
      assert ring[..k - 1] + [ring[k - 1]] == ring[..k];
    }
  }

  lemma InsideByPath<T>(edge: (T, T) -> bool, ring: seq<T>)
    requires ring != []
    ensures OddCycle(edge, ring) == (edge(ring[0], ring[|ring| - 1]) != PathOdd(edge, ring))
  {
    CycleByPath(edge, ring, |ring|);
    assert ring[..|ring|] == ring;
  }

  ghost predicate Symmetric<T(!new)>(edge: (T, T) -> bool) {
    forall a, b :: edge(a, b) == edge(b, a)
  }

  lemma CloseCycle<T>(edge: (T, T) -> bool, ring: seq<T>)
    requires ring != [] && !edge(ring[0], ring[0])
    ensures OddCycle(edge, ring + [ring[0]]) == OddCycle(edge, ring)
  {
    InsideByPath(edge, ring);
    InsideByPath(edge, ring + [ring[0]]);
    PathSnoc(edge, ring, ring[0]);
  }

  lemma SplitPath<T>(edge: (T, T) -> bool, path: seq<T>, k: nat)
    requires k < |path|
    ensures PathOdd(edge, path) == (PathOdd(edge, path[..k + 1]) != PathOdd(edge, path[k..]))
  {
    PathJoin(edge, path[..k], path[k], path[k + 1..]);
    assert path[..k] + [path[k]] == path[..k + 1];
    assert [path[k]] + path[k + 1..] == path[k..];
    assert path[..k] + [path[k]] + path[k + 1..] == path;
  }

  /** Two paths glued by one edge. */
  lemma GluePaths<T>(edge: (T, T) -> bool, a: seq<T>, b: seq<T>)
    requires a != [] && b != []
    ensures PathOdd(edge, a + b)
         == ((PathOdd(edge, a) != edge(b[0], a[|a| - 1])) != PathOdd(edge, b))
  {
    SplitPath(edge, a + b, |a|);
    assert (a + b)[..|a| + 1] == a + [b[0]];
    assert (a + b)[|a|..] == b;
    PathSnoc(edge, a, b[0]);
  }

  /** A chord between two vertices cuts a cycle into two whose parities add up to the whole's. */
  lemma SplitCycle<T(!new)>(edge: (T, T) -> bool, ring: seq<T>, a: nat, b: nat)
    requires a <= b < |ring| && Symmetric(edge)
    ensures OddCycle(edge, ring)
         == (OddCycle(edge, ring[a..b + 1]) != OddCycle(edge, ring[b..] + ring[..a + 1]))
  {
    var part, tail, head := ring[a..b + 1], ring[b..], ring[..a + 1];
    InsideByPath(edge, ring);
    InsideByPath(edge, part);
    InsideByPath(edge, tail + head);
    SplitPath(edge, ring, b);
    SplitPath(edge, ring[..b + 1], a);
    assert ring[..b + 1][..a + 1] == head;
    assert ring[..b + 1][a..] == part;
    GluePaths(edge, tail, head);
  }

  ghost function Reversed<T>(s: seq<T>): (r: seq<T>)
    ensures |r| == |s|
    ensures forall i :: 0 <= i < |s| ==> r[i] == s[|s| - 1 - i]
  {
    if s == [] then [] else Reversed(s[1..]) + [s[0]]
  }

  lemma {:induction false} PathReversed<T(!new)>(edge: (T, T) -> bool, path: seq<T>)
    requires Symmetric(edge)
    ensures PathOdd(edge, Reversed(path)) == PathOdd(edge, path)
  {
    if |path| >= 2 {
      PathReversed(edge, path[1..]);
      PathSnoc(edge, Reversed(path[1..]), path[0]);
    }
  }

  lemma ReverseCycle<T(!new)>(edge: (T, T) -> bool, ring: seq<T>)
    requires Symmetric(edge)
    ensures OddCycle(edge, Reversed(ring)) == OddCycle(edge, ring)
  {
    if ring == [] {
      assert Reversed(ring) == ring;
    } else {
      InsideByPath(edge, ring);
      InsideByPath(edge, Reversed(ring));
      PathReversed(edge, ring);
    }
  }

  /** Edges marked exactly where a property of the vertices changes: evenly many in a cycle. */
  lemma {:induction false} ChangesAlongPath<T>(edge: (T, T) -> bool, side: T -> bool, path: seq<T>)
    requires path != []
    requires forall i, j :: 0 <= i < |path| && 0 <= j < |path| ==>
               edge(path[i], path[j]) == (side(path[i]) != side(path[j]))
    ensures PathOdd(edge, path) == (side(path[0]) != side(path[|path| - 1]))
  {
    if |path| >= 2 {
      var rest := path[1..];
      forall i, j | 0 <= i < |rest| && 0 <= j < |rest|
        ensures edge(rest[i], rest[j]) == (side(rest[i]) != side(rest[j]))
      {
        assert rest[i] == path[i + 1] && rest[j] == path[j + 1];
      }
      ChangesAlongPath(edge, side, rest);
    }
  }

  lemma ChangesAreEven<T>(edge: (T, T) -> bool, side: T -> bool, ring: seq<T>)
    requires forall i, j :: 0 <= i < |ring| && 0 <= j < |ring| ==>
               edge(ring[i], ring[j]) == (side(ring[i]) != side(ring[j]))
    ensures !OddCycle(edge, ring)
  {
    if ring == [] {
      assert MarkedBelow(edge, ring, 0) == {};
    } else {
      InsideByPath(edge, ring);
      ChangesAlongPath(edge, side, ring);
    }
  }

  lemma NoneMarked<T>(edge: (T, T) -> bool, ring: seq<T>)
    requires forall i, j :: 0 <= i < |ring| && 0 <= j < |ring| ==> !edge(ring[i], ring[j])
    ensures !OddCycle(edge, ring)
  {
    assert MarkedBelow(edge, ring, |ring|) == {};
  }
}
