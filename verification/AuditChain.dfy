/**
 * The tamper-evident audit log. Records are abstract; `canon` stands for their canonical JSON
 * and `hash` for SHA-256 in hexadecimal, of which only the shape of a digest is used.
 */
module AuditChain {

  datatype Option<+T> = None | Some(value: T)

  /** A stored row; rows written before chaining have no hash. */
  datatype Row<+R> = Row(id: int, record: R, prevHash: string, rowHash: Option<string>)

  datatype Scheme<!R> = Scheme(canon: R -> string, hash: string -> string)

  const GENESIS := "GENESIS"

  /** Digests are 64 characters, none of them the separator. */
  ghost predicate Hexadecimal(hash: string -> string) {
    forall s :: |hash(s)| == 64 && '|' !in hash(s)
  }

  /** Two different strings with the same digest. */
  ghost predicate Collision(hash: string -> string, a: string, b: string) {
    a != b && hash(a) == hash(b)
  }

  function Preimage(prev: string, canonical: string): string {
    prev + "|" + canonical
  }

  /** What is hashed for a row. */
  function Input<R>(s: Scheme<R>, r: Row<R>): string {
    Preimage(r.prevHash, s.canon(r.record))
  }

  /** x is what was hashed for some chained row of the log. */
  ghost predicate Hashed<R>(s: Scheme<R>, rows: seq<Row<R>>, x: string) {
    exists k :: 0 <= k < |rows| && rows[k].rowHash.Some? && x == Input(s, rows[k])
  }

  /** Two chained rows, one of each log, were hashed from different strings to the same digest. */
  ghost predicate RowsCollide<R>(s: Scheme<R>, a: seq<Row<R>>, b: seq<Row<R>>, x: string, y: string) {
    Collision(s.hash, x, y) && Hashed(s, a, x) && Hashed(s, b, y)
  }

  function RowHash<R>(s: Scheme<R>, prev: string, record: R): string {
    s.hash(Preimage(prev, s.canon(record)))
  }

  // ----- Verification -----

  /** Id of the first row that fails, given the hash the next chained row must point to. */
  function FirstBad<R>(s: Scheme<R>, rows: seq<Row<R>>, expected: Option<string>): Option<int> {
    if rows == [] then None
    else
      var r := rows[0];
      if r.rowHash.None? then FirstBad(s, rows[1..], expected)
      else if expected.Some? && r.prevHash != expected.value then Some(r.id)
      else if RowHash(s, r.prevHash, r.record) != r.rowHash.value then Some(r.id)
      else FirstBad(s, rows[1..], r.rowHash)
  }

  method VerifyAuditChain<R>(s: Scheme<R>, rows: seq<Row<R>>) returns (bad: Option<int>)
    ensures bad == FirstBad(s, rows, None)
  {
    var expected: Option<string> := None;
    for i := 0 to |rows|
      invariant FirstBad(s, rows[i..], expected) == FirstBad(s, rows, None)
    {
      var r := rows[i];
      assert rows[i..][0] == r && rows[i..][1..] == rows[i + 1..];
      if r.rowHash.None? {
        continue;
      }
      if expected.Some? && r.prevHash != expected.value {
        return Some(r.id);
      }
      if RowHash(s, r.prevHash, r.record) != r.rowHash.value {
        return Some(r.id);
      }
      expected := r.rowHash;
    }
    bad := None;
  }

  /** Hash carried out of a run of rows. */
  ghost function Carried<R>(rows: seq<Row<R>>, expected: Option<string>): Option<string> {
    if rows == [] then expected
    else Carried(rows[1..], if rows[0].rowHash.Some? then rows[0].rowHash else expected)
  }

  lemma {:induction false} FirstBadAppend<R>(s: Scheme<R>, a: seq<Row<R>>, b: seq<Row<R>>, expected: Option<string>)
    ensures FirstBad(s, a, expected).Some? ==> FirstBad(s, a + b, expected) == FirstBad(s, a, expected)
    ensures FirstBad(s, a, expected).None? ==> FirstBad(s, a + b, expected) == FirstBad(s, b, Carried(a, expected))
  {
    if a == [] {
      assert a + b == b;
    } else {
      assert (a + b)[1..] == a[1..] + b;
      FirstBadAppend(s, a[1..], b, if a[0].rowHash.Some? then a[0].rowHash else expected);
      if a[0].rowHash.None? {
        FirstBadAppend(s, a[1..], b, expected);
      }
    }
  }

  lemma {:induction false} CarriedAppend<R>(a: seq<Row<R>>, b: seq<Row<R>>, expected: Option<string>)
    ensures Carried(a + b, expected) == Carried(b, Carried(a, expected))
  {
    if a == [] {
      assert a + b == b;
    } else {
      assert (a + b)[1..] == a[1..] + b;
      CarriedAppend(a[1..], b, if a[0].rowHash.Some? then a[0].rowHash else expected);
    }
  }

  // ----- Appending -----

  ghost predicate HasChained<R>(rows: seq<Row<R>>) {
    exists k :: 0 <= k < |rows| && rows[k].rowHash.Some?
  }

  /** Hash of the newest chained row, or the genesis marker. */
  function LastHash<R>(rows: seq<Row<R>>): string {
    if rows == [] then GENESIS
    else if rows[|rows| - 1].rowHash.Some? then rows[|rows| - 1].rowHash.value
    else LastHash(rows[..|rows| - 1])
  }

  function NewRow<R>(s: Scheme<R>, rows: seq<Row<R>>, id: int, record: R): Row<R> {
    var prev := LastHash(rows);
    Row(id, record, prev, Some(RowHash(s, prev, record)))
  }

  /** Every chained row was appended by the logger; unhashed rows may stand anywhere. */
  ghost predicate Appended<R>(s: Scheme<R>, rows: seq<Row<R>>) {
    rows == [] ||
    (var init, r := rows[..|rows| - 1], rows[|rows| - 1];
     Appended(s, init) &&
     (r.rowHash.Some? ==> r.prevHash == LastHash(init) && r.rowHash.value == RowHash(s, r.prevHash, r.record)))
  }

  ghost predicate IdsAscend<R>(rows: seq<Row<R>>) {
    (forall i, j :: 0 <= i < j < |rows| ==> rows[i].id < rows[j].id) &&
    forall i :: 0 <= i < |rows| ==> rows[i].id > 0
  }

  class AuditLogger<R(0)> {
    const scheme: Scheme<R>
    var table: seq<Row<R>>
    var nextId: int

    ghost predicate Valid()
      reads this
    {
      Appended(scheme, table) && IdsAscend(table) && nextId > 0 &&
      forall i :: 0 <= i < |table| ==> table[i].id < nextId
    }

    constructor (scheme: Scheme<R>)
      ensures Valid() && table == []
    {
      this.scheme := scheme;
      table := [];
      nextId := 1;
    }

    /** Appends one record and leaves every earlier row alone. */
    method Log(record: R)
      requires Valid()
      modifies this
      ensures Valid()
      ensures table == old(table) + [NewRow(scheme, old(table), old(nextId), record)]
      ensures FirstBad(scheme, table, None).None?
    {
      var prev := LastHash(table);
      var rowHash := RowHash(scheme, prev, record);
      ghost var before := table;
      table := table + [Row(nextId, record, prev, Some(rowHash))];
      nextId := nextId + 1;
      assert table[..|table| - 1] == before;
      AppendedVerifies(scheme, table);
    }
  }

  lemma {:induction false} CarriedIsLastHash<R>(rows: seq<Row<R>>)
    ensures Carried(rows, None) == if HasChained(rows) then Some(LastHash(rows)) else None
    ensures !HasChained(rows) ==> LastHash(rows) == GENESIS
  {
    if rows != [] {
      var m := |rows| - 1;
      CarriedIsLastHash(rows[..m]);
      CarriedAppend(rows[..m], [rows[m]], None);
      assert rows[..m] + [rows[m]] == rows;
      assert HasChained(rows[..m]) ==> HasChained(rows) by {
        if HasChained(rows[..m]) {
          var k :| 0 <= k < m && rows[..m][k].rowHash.Some?;
          assert rows[k].rowHash.Some?;
        }
      }
      if HasChained(rows) && rows[m].rowHash.None? {
        var k :| 0 <= k < |rows| && rows[k].rowHash.Some?;
        assert rows[..m][k].rowHash.Some?;
      }
    }
  }

  /** Every log made of appends passes verification. */
  lemma {:induction false} AppendedVerifies<R>(s: Scheme<R>, rows: seq<Row<R>>)
    requires Appended(s, rows)
    ensures FirstBad(s, rows, None).None?
  {
    if rows != [] {
      var m := |rows| - 1;
      AppendedVerifies(s, rows[..m]);
      FirstBadAppend(s, rows[..m], [rows[m]], None);
      CarriedIsLastHash(rows[..m]);
      assert rows[..m] + [rows[m]] == rows;
      assert [rows[m]][1..] == [];
    }
  }

  // ----- Injectivity of the preimage -----

  lemma SplitAtBar(p: string, c: string, p': string, c': string)
    requires '|' !in p && '|' !in p'
    requires Preimage(p, c) == Preimage(p', c')
    ensures p == p' && c == c'
  {
    var s := Preimage(p, c);
    assert s[|p|] == '|' && s[|p'|] == '|';
    assert forall i :: 0 <= i < |p| ==> s[i] == p[i] && p[i] in p;
    assert forall i :: 0 <= i < |p'| ==> s[i] == p'[i] && p'[i] in p';
    assert |p| == |p'|;
    assert s[..|p|] == p && s[..|p'|] == p';
    assert s[|p| + 1..] == c && s[|p'| + 1..] == c';
  }

  lemma {:induction false} LastHashShape<R>(s: Scheme<R>, rows: seq<Row<R>>)
    requires Hexadecimal(s.hash) && Appended(s, rows)
    ensures '|' !in LastHash(rows)
    ensures |LastHash(rows)| == if HasChained(rows) then 64 else 7
  {
    if rows != [] {
      var m := |rows| - 1;
      LastHashShape(s, rows[..m]);
      if rows[m].rowHash.None? {
        assert HasChained(rows) <==> HasChained(rows[..m]) by {
          ChainedPrefix(rows);
        }
      }
    }
  }

  lemma ChainedPrefix<R>(rows: seq<Row<R>>)
    requires rows != [] && rows[|rows| - 1].rowHash.None?
    ensures HasChained(rows) <==> HasChained(rows[..|rows| - 1])
  {
    var init := rows[..|rows| - 1];
    if k :| 0 <= k < |rows| && rows[k].rowHash.Some? {
      assert init[k].rowHash.Some?;
    }
    if k :| 0 <= k < |init| && init[k].rowHash.Some? {
      assert rows[k].rowHash.Some?;
    }
  }

  ghost function CountChained<R>(rows: seq<Row<R>>): nat {
    if rows == [] then 0
    else CountChained(rows[..|rows| - 1]) + if rows[|rows| - 1].rowHash.Some? then 1 else 0
  }

  lemma {:induction false} CountPositive<R>(rows: seq<Row<R>>)
    ensures CountChained(rows) > 0 <==> HasChained(rows)
  {
    if rows != [] && rows[|rows| - 1].rowHash.None? {
      CountPositive(rows[..|rows| - 1]);
      ChainedPrefix(rows);
    }
  }

  lemma HashedInPart<R>(s: Scheme<R>, rows: seq<Row<R>>, from: nat, to: nat, x: string)
    requires from <= to <= |rows| && Hashed(s, rows[from..to], x)
    ensures Hashed(s, rows, x)
  {
    var k :| 0 <= k < to - from && rows[from..to][k].rowHash.Some? && x == Input(s, rows[from..to][k]);
    assert rows[from + k] == rows[from..to][k];
  }

  /** A collision between parts of two logs is one between the logs. */
  lemma PrefixesCollide<R>(s: Scheme<R>, a: seq<Row<R>>, b: seq<Row<R>>, m: nat, k: nat, x: string, y: string)
    requires m <= |a| && k <= |b| && RowsCollide(s, a[..m], b[..k], x, y)
    ensures RowsCollide(s, a, b, x, y)
  {
    assert a[..m] == a[0..m] && b[..k] == b[0..k];
    HashedInPart(s, a, 0, m, x);
    HashedInPart(s, b, 0, k, y);
  }

  /**
   * A hash chain cannot come back to a hash it already produced: two appended logs of different
   * chained length that end in the same hash hold two rows that collide.
   */
  lemma {:induction false} RepeatedHash<R>(s: Scheme<R>, a: seq<Row<R>>, b: seq<Row<R>>)
    returns (x: string, y: string)
    requires Hexadecimal(s.hash) && Appended(s, a) && Appended(s, b)
    requires LastHash(a) == LastHash(b) && CountChained(a) < CountChained(b)
    ensures RowsCollide(s, a, b, x, y)
    decreases |a| + |b|
  {
    LastHashShape(s, a);
    LastHashShape(s, b);
    CountPositive(a);
    CountPositive(b);
    var m, k := |a| - 1, |b| - 1;
    if a[m].rowHash.None? {
      x, y := RepeatedHash(s, a[..m], b);
      assert b[..|b|] == b;
      PrefixesCollide(s, a, b, m, |b|, x, y);
    } else if b[k].rowHash.None? {
      x, y := RepeatedHash(s, a, b[..k]);
      assert a[..|a|] == a;
      PrefixesCollide(s, a, b, |a|, k, x, y);
    } else {
      x, y := Input(s, a[m]), Input(s, b[k]);
      if x == y {
        LastHashShape(s, a[..m]);
        LastHashShape(s, b[..k]);
        SplitAtBar(a[m].prevHash, s.canon(a[m].record), b[k].prevHash, s.canon(b[k].record));
        x, y := RepeatedHash(s, a[..m], b[..k]);
        PrefixesCollide(s, a, b, m, k, x, y);
      }
    }
  }

  // ----- Deleting a run -----

  ghost function FirstChained<R>(rows: seq<Row<R>>): (id: int)
    requires HasChained(rows)
  {
    if rows[0].rowHash.Some? then rows[0].id
    else
      var k :| 0 <= k < |rows| && rows[k].rowHash.Some?;
      assert rows[1..][k - 1].rowHash.Some?;
      FirstChained(rows[1..])
  }

  lemma {:induction false} AppendedPrefix<R>(s: Scheme<R>, a: seq<Row<R>>, b: seq<Row<R>>)
    requires Appended(s, a + b)
    ensures Appended(s, a)
    decreases |b|
  {
    if b == [] {
      assert a + b == a;
    } else {
      assert (a + b)[..|a + b| - 1] == a + b[..|b| - 1];
      AppendedPrefix(s, a, b[..|b| - 1]);
    }
  }

  /** What follows an appended prefix: its first chained row points at the prefix's last hash. */
  lemma {:induction false} SuffixVerdict<R>(s: Scheme<R>, a: seq<Row<R>>, c: seq<Row<R>>, expected: Option<string>)
    requires Appended(s, a + c)
    ensures expected.None? || expected.value == LastHash(a) ==> FirstBad(s, c, expected).None?
    ensures expected.Some? && expected.value != LastHash(a) && HasChained(c) ==>
              FirstBad(s, c, expected) == Some(FirstChained(c))
    ensures !HasChained(c) ==> FirstBad(s, c, expected).None?
    decreases |c|
  {
    if c != [] {
      var a' := a + [c[0]];
      assert a' + c[1..] == a + c;
      AppendedPrefix(s, a', c[1..]);
      assert a'[..|a|] == a;
      if c[0].rowHash.Some? {
        SuffixVerdict(s, a', c[1..], c[0].rowHash);
      } else {
        SuffixVerdict(s, a', c[1..], expected);
        assert forall k :: 0 <= k < |c[1..]| ==> c[1..][k] == c[k + 1];
        if k :| 0 <= k < |c| && c[k].rowHash.Some? {
          assert c[1..][k - 1].rowHash.Some?;
        }
      }
    }
  }

  /**
   * Removing a run from an appended log. It is noticed, at the first chained row after the gap,
   * exactly when chained rows were removed and chained rows remain on both sides; otherwise the
   * shorter log verifies. The alternative to being noticed is that two rows of the log collide.
   */
  lemma DeletedRun<R>(s: Scheme<R>, a: seq<Row<R>>, b: seq<Row<R>>, c: seq<Row<R>>) returns (x: string, y: string)
    requires Hexadecimal(s.hash) && Appended(s, a + b + c)
    ensures HasChained(a) && HasChained(b) && HasChained(c) ==>
              RowsCollide(s, a, a + b, x, y) || FirstBad(s, a + c, None) == Some(FirstChained(c))
    ensures !(HasChained(a) && HasChained(b) && HasChained(c)) ==> FirstBad(s, a + c, None).None?
  {
    x, y := "", "";
    AppendedPrefix(s, a + b, c);
    AppendedPrefix(s, a, b);
    AppendedVerifies(s, a);
    FirstBadAppend(s, a, c, None);
    CarriedIsLastHash(a);
    SuffixVerdict(s, a + b, c, Carried(a, None));
    CountAppend(a, b);
    CountPositive(b);
    if HasChained(a) && HasChained(b) && LastHash(a) == LastHash(a + b) {
      x, y := RepeatedHash(s, a, a + b);
    }
    if !HasChained(b) {
      SameLastHash(a, b);
    }
  }

  lemma {:induction false} CountAppend<R>(a: seq<Row<R>>, b: seq<Row<R>>)
    ensures CountChained(a + b) == CountChained(a) + CountChained(b)
  {
    if b == [] {
      assert a + b == a;
    } else {
      assert (a + b)[..|a + b| - 1] == a + b[..|b| - 1];
      CountAppend(a, b[..|b| - 1]);
    }
  }

  lemma {:induction false} SameLastHash<R>(a: seq<Row<R>>, b: seq<Row<R>>)
    requires !HasChained(b)
    ensures LastHash(a + b) == LastHash(a)
  {
    if b == [] {
      assert a + b == a;
    } else {
      assert b[|b| - 1].rowHash.None?;
      assert (a + b)[..|a + b| - 1] == a + b[..|b| - 1];
      ChainedPrefix(b);
      SameLastHash(a, b[..|b| - 1]);
    }
  }

  // ----- The ends of a log -----

  ghost predicate AllChained<R>(rows: seq<Row<R>>) {
    forall k :: 0 <= k < |rows| ==> rows[k].rowHash.Some?
  }

  /** In a verifying log of chained rows every link and every hash is right. */
  lemma {:induction false} VerifiedLinks<R>(s: Scheme<R>, rows: seq<Row<R>>, expected: Option<string>)
    requires AllChained(rows) && FirstBad(s, rows, expected).None?
    ensures forall k :: 0 <= k < |rows| ==> rows[k].rowHash.value == RowHash(s, rows[k].prevHash, rows[k].record)
    ensures forall k :: 1 <= k < |rows| ==> rows[k].prevHash == rows[k - 1].rowHash.value
    ensures rows != [] && expected.Some? ==> rows[0].prevHash == expected.value
  {
    if rows != [] {
      VerifiedLinks(s, rows[1..], rows[0].rowHash);
      forall k | 1 <= k < |rows|
        ensures rows[k].rowHash.value == RowHash(s, rows[k].prevHash, rows[k].record)
        ensures rows[k].prevHash == rows[k - 1].rowHash.value
      {
        assert rows[k] == rows[1..][k - 1];
        if k > 1 { assert rows[k - 1] == rows[1..][k - 2]; }
      }
    }
  }

  lemma {:induction false} ChainedEndpoints<R>(s: Scheme<R>, a: seq<Row<R>>, b: seq<Row<R>>)
    returns (x: string, y: string)
    requires Hexadecimal(s.hash) && a != [] && b != [] && AllChained(a) && AllChained(b)
    requires FirstBad(s, a, None).None? && FirstBad(s, b, None).None?
    requires a[0].prevHash == b[0].prevHash && a[|a| - 1].rowHash == b[|b| - 1].rowHash
    requires |a| == |b| || a[0].prevHash == GENESIS
    ensures RowsCollide(s, a, b, x, y) || SameRecords(s, a, b)
    decreases |a|
  {
    var m, k := |a| - 1, |b| - 1;
    VerifiedLinks(s, a, None);
    VerifiedLinks(s, b, None);
    x, y := Input(s, a[m]), Input(s, b[k]);
    if x == y {
      if m == 0 && k == 0 {
        SamePrefix(a[0].prevHash, s.canon(a[0].record), s.canon(b[0].record));
      } else {
        assert m > 0 ==> a[m].prevHash == RowHash(s, a[m - 1].prevHash, a[m - 1].record);
        assert k > 0 ==> b[k].prevHash == RowHash(s, b[k - 1].prevHash, b[k - 1].record);
        SplitAtBar(a[m].prevHash, s.canon(a[m].record), b[k].prevHash, s.canon(b[k].record));
        assert |GENESIS| == 7;
        x, y := ShorterLogs(s, a, b);
      }
    }
  }

  lemma ShorterLogs<R>(s: Scheme<R>, a: seq<Row<R>>, b: seq<Row<R>>)
    returns (x: string, y: string)
    requires Hexadecimal(s.hash) && |a| > 1 && |b| > 1 && AllChained(a) && AllChained(b)
    requires FirstBad(s, a, None).None? && FirstBad(s, b, None).None?
    requires a[0].prevHash == b[0].prevHash && (|a| == |b| || a[0].prevHash == GENESIS)
    requires a[|a| - 2].rowHash == b[|b| - 2].rowHash
    requires s.canon(a[|a| - 1].record) == s.canon(b[|b| - 1].record)
    ensures RowsCollide(s, a, b, x, y) || SameRecords(s, a, b)
    decreases |a|, 0
  {
    var m, k := |a| - 1, |b| - 1;
    FirstBadAppend(s, a[..m], [a[m]], None);
    FirstBadAppend(s, b[..k], [b[k]], None);
    assert a[..m] + [a[m]] == a && b[..k] + [b[k]] == b;
    x, y := ChainedEndpoints(s, a[..m], b[..k]);
    if RowsCollide(s, a[..m], b[..k], x, y) {
      PrefixesCollide(s, a, b, m, k, x, y);
    }
  }

  ghost predicate SameRecords<R>(s: Scheme<R>, a: seq<Row<R>>, b: seq<Row<R>>) {
    |a| == |b| && forall k :: 0 <= k < |a| ==> s.canon(a[k].record) == s.canon(b[k].record)
  }

  lemma SamePrefix(p: string, c: string, c': string)
    requires Preimage(p, c) == Preimage(p, c')
    ensures c == c'
  {
    assert Preimage(p, c)[|p| + 1..] == c;
    assert Preimage(p, c')[|p| + 1..] == c';
  }

  /** The chained rows of a log, in order. */
  ghost function Chained<R>(rows: seq<Row<R>>): (r: seq<Row<R>>)
    ensures AllChained(r) && forall k :: 0 <= k < |r| ==> r[k] in rows
  {
    if rows == [] then []
    else
      assert forall r :: r in rows[1..] ==> r in rows;
      (if rows[0].rowHash.Some? then [rows[0]] else []) + Chained(rows[1..])
  }

  /** Verification reads the chained rows only. */
  lemma {:induction false} ChainedVerdict<R>(s: Scheme<R>, rows: seq<Row<R>>, expected: Option<string>)
    ensures FirstBad(s, Chained(rows), expected) == FirstBad(s, rows, expected)
  {
    if rows != [] {
      ChainedVerdict(s, rows[1..], if rows[0].rowHash.Some? then rows[0].rowHash else expected);
      if rows[0].rowHash.Some? {
        assert Chained(rows)[1..] == Chained(rows[1..]);
      } else {
        assert Chained(rows) == Chained(rows[1..]);
      }
    }
  }

  lemma ChainedHashed<R>(s: Scheme<R>, rows: seq<Row<R>>, x: string)
    requires Hashed(s, Chained(rows), x)
    ensures Hashed(s, rows, x)
  {
    var k :| 0 <= k < |Chained(rows)| && x == Input(s, Chained(rows)[k]);
    var i :| 0 <= i < |rows| && rows[i] == Chained(rows)[k];
  }

  /**
   * The first prev_hash and the last row_hash pin down the whole log: two verifying logs that
   * agree on both, with as many chained rows or starting at genesis, hold the same canonical
   * records in their chained rows, or a row of one collides with a row of the other.
   */
  lemma EndpointsDetermineLog<R>(s: Scheme<R>, a: seq<Row<R>>, b: seq<Row<R>>)
    returns (x: string, y: string)
    requires Hexadecimal(s.hash) && FirstBad(s, a, None).None? && FirstBad(s, b, None).None?
    requires var ca, cb := Chained(a), Chained(b);
             && ca != [] && cb != []
             && ca[0].prevHash == cb[0].prevHash && ca[|ca| - 1].rowHash == cb[|cb| - 1].rowHash
             && (|ca| == |cb| || ca[0].prevHash == GENESIS)
    ensures RowsCollide(s, a, b, x, y) || SameRecords(s, Chained(a), Chained(b))
  {
    ChainedVerdict(s, a, None);
    ChainedVerdict(s, b, None);
    x, y := ChainedEndpoints(s, Chained(a), Chained(b));
    if RowsCollide(s, Chained(a), Chained(b), x, y) {
      ChainedHashed(s, a, x);
      ChainedHashed(s, b, y);
    }
  }

  // ----- Editing -----

  /**
   * Rewriting one chained record, its stored hashes kept, is reported at that very row, unless the
   * old and the new row hash to the same digest; then the edited log verifies.
   */
  lemma EditedRecord<R>(s: Scheme<R>, a: seq<Row<R>>, r: Row<R>, c: seq<Row<R>>, record: R)
    requires Appended(s, a + [r] + c) && r.rowHash.Some?
    ensures var r' := r.(record := record);
            && FirstBad(s, a + [r'] + c, None)
               == (if s.hash(Input(s, r)) == s.hash(Input(s, r')) then None else Some(r.id))
            && (s.canon(record) != s.canon(r.record) ==> Input(s, r) != Input(s, r'))
  {
    var r' := r.(record := record);
    if Input(s, r) == Input(s, r') {
      SamePrefix(r.prevHash, s.canon(r.record), s.canon(record));
    }
    AppendedPrefix(s, a + [r], c);
    AppendedPrefix(s, a, [r]);
    AppendedVerifies(s, a);
    assert (a + [r])[..|a + [r]| - 1] == a;
    assert a + [r'] + c == a + ([r'] + c);
    FirstBadAppend(s, a, [r'] + c, None);
    CarriedIsLastHash(a);
    assert ([r'] + c)[1..] == c;
    SuffixVerdict(s, a + [r], c, r.rowHash);
  }

  // ----- Re-ordered rows -----

  lemma {:induction false} CountAll<R>(rows: seq<Row<R>>)
    requires AllChained(rows)
    ensures CountChained(rows) == |rows|
  {
    if rows != [] {
      CountAll(rows[..|rows| - 1]);
    }
  }

  lemma AppendedLinks<R>(s: Scheme<R>, a: seq<Row<R>>)
    requires Appended(s, a) && AllChained(a) && a != []
    ensures a[0].prevHash == GENESIS
    ensures forall k :: 1 <= k < |a| ==> a[k].prevHash == a[k - 1].rowHash.value
  {
    AppendedVerifies(s, a);
    VerifiedLinks(s, a, None);
    assert a[..1] + a[1..] == a;
    AppendedPrefix(s, a[..1], a[1..]);
    assert a[..1][..0] == [];
  }

  /** The log as it was when row i had just been appended. */
  lemma UpTo<R>(s: Scheme<R>, a: seq<Row<R>>, i: nat)
    requires Appended(s, a) && AllChained(a) && i < |a|
    ensures Appended(s, a[..i + 1]) && CountChained(a[..i + 1]) == i + 1 && LastHash(a[..i + 1]) == a[i].rowHash.value
  {
    hide Appended;
    assert a[..i + 1] + a[i + 1..] == a;
    AppendedPrefix(s, a[..i + 1], a[i + 1..]);
    CountAll(a[..i + 1]);
  }

  /** Two rows of an appended log with the same stored hash: two of its rows collide. */
  lemma TwoRowsOneHash<R>(s: Scheme<R>, a: seq<Row<R>>, i: nat, k: nat) returns (x: string, y: string)
    requires Hexadecimal(s.hash) && Appended(s, a) && AllChained(a) && i < k < |a| && a[i].rowHash == a[k].rowHash
    ensures RowsCollide(s, a, a, x, y)
  {
    hide Appended, LastHash, CountChained, RowsCollide;
    UpTo(s, a, i);
    UpTo(s, a, k);
    x, y := RepeatedHash(s, a[..i + 1], a[..k + 1]);
    PrefixesCollide(s, a, a, i + 1, k + 1, x, y);
  }

  /** The first n rows of a verifying re-ordering stand where they stood. */
  lemma {:induction false} PrefixStays<R>(s: Scheme<R>, a: seq<Row<R>>, b: seq<Row<R>>, n: nat) returns (x: string, y: string)
    requires Hexadecimal(s.hash) && Appended(s, a) && AllChained(a) && multiset(b) == multiset(a)
    requires FirstBad(s, b, None).None? && n <= |a| == |b|
    ensures RowsCollide(s, a, a, x, y) || forall i :: 0 <= i < n ==> b[i] == a[i]
  {
    hide RowsCollide;
    x, y := "", "";
    if n > 0 {
      x, y := PrefixStays(s, a, b, n - 1);
      if !RowsCollide(s, a, a, x, y) {
        ReorderedIsChained(a, b);
        VerifiedLinks(s, b, None);
        AppendedLinks(s, a);
        if n == 1 {
          var j := IndexIn(a[0], a, b);
          assert j > 0 ==> b[j].prevHash == RowHash(s, b[j - 1].prevHash, b[j - 1].record);
        } else {
          var m := IndexIn(b[n - 1], b, a);
          assert b[n - 1].prevHash == a[n - 2].rowHash.value == RowHash(s, b[n - 2].prevHash, b[n - 2].record);
          if m > 0 && m - 1 != n - 2 {
            if m - 1 < n - 2 {
              x, y := TwoRowsOneHash(s, a, m - 1, n - 2);
            } else {
              x, y := TwoRowsOneHash(s, a, n - 2, m - 1);
            }
          }
        }
      }
    }
  }

  lemma ReorderedIsChained<R>(a: seq<Row<R>>, b: seq<Row<R>>)
    requires AllChained(a) && multiset(b) == multiset(a)
    ensures AllChained(b)
  {
    forall k | 0 <= k < |b|
      ensures b[k].rowHash.Some?
    {
      assert b[k] in multiset(b);
      assert b[k] in multiset(a);
    }
  }

  /** Where a row of `from` stands in its re-ordering `to`. */
  lemma IndexIn<R>(r: Row<R>, from: seq<Row<R>>, to: seq<Row<R>>) returns (j: nat)
    requires r in from && multiset(from) == multiset(to)
    ensures j < |to| && to[j] == r
  {
    assert r in multiset(from);
    assert r in multiset(to);
    j :| j < |to| && to[j] == r;
  }

  lemma ChainedReordering<R>(s: Scheme<R>, a: seq<Row<R>>, b: seq<Row<R>>) returns (x: string, y: string)
    requires Hexadecimal(s.hash) && Appended(s, a) && AllChained(a) && multiset(b) == multiset(a)
    ensures RowsCollide(s, a, a, x, y) || (FirstBad(s, b, None).None? <==> b == a)
  {
    x, y := "", "";
    AppendedVerifies(s, a);
    assert |multiset(a)| == |a| && |multiset(b)| == |b|;
    if FirstBad(s, b, None).None? {
      x, y := PrefixStays(s, a, b, |a|);
    }
  }

  lemma ChainedCons<R>(first: Row<R>, rest: seq<Row<R>>)
    ensures Chained([first] + rest) == (if first.rowHash.Some? then [first] else []) + Chained(rest)
  {
    assert ([first] + rest)[1..] == rest;
  }

  lemma {:induction false} ChainedAppend<R>(a: seq<Row<R>>, r: Row<R>)
    ensures Chained(a + [r]) == Chained(a) + if r.rowHash.Some? then [r] else []
  {
    if a == [] {
      assert a + [r] == [r] + [];
      ChainedCons(r, []);
    } else {
      hide Chained;
      assert a == [a[0]] + a[1..] && a + [r] == [a[0]] + (a[1..] + [r]);
      ChainedAppend(a[1..], r);
      ChainedCons(a[0], a[1..]);
      ChainedCons(a[0], a[1..] + [r]);
    }
  }

  lemma AppendedStep<R>(s: Scheme<R>, init: seq<Row<R>>, r: Row<R>)
    ensures Appended(s, init + [r]) <==>
              Appended(s, init) && (r.rowHash.Some? ==> r.prevHash == LastHash(init) && r.rowHash.value == RowHash(s, r.prevHash, r.record))
    ensures LastHash(init + [r]) == if r.rowHash.Some? then r.rowHash.value else LastHash(init)
  {
    assert (init + [r])[..|init|] == init;
  }

  lemma KeepsAppended<R>(s: Scheme<R>, init: seq<Row<R>>, r: Row<R>, kept: seq<Row<R>>)
    requires Appended(s, init + [r]) && Appended(s, kept) && LastHash(kept) == LastHash(init)
    ensures var next := kept + if r.rowHash.Some? then [r] else [];
            Appended(s, next) && LastHash(next) == LastHash(init + [r])
  {
    hide Appended, LastHash;
    AppendedStep(s, init, r);
    AppendedStep(s, kept, r);
    assert kept + [] == kept;
  }

  lemma {:induction false} ChainedAppended<R>(s: Scheme<R>, rows: seq<Row<R>>)
    requires Appended(s, rows)
    ensures Appended(s, Chained(rows)) && LastHash(Chained(rows)) == LastHash(rows)
  {
    if rows != [] {
      var init, r := rows[..|rows| - 1], rows[|rows| - 1];
      assert Appended(s, init) && init + [r] == rows;
      hide *;
      ChainedAppended(s, init);
      ChainedAppend(init, r);
      KeepsAppended(s, init, r, Chained(init));
    }
  }

  lemma {:induction false} ChainedCounts<R>(rows: seq<Row<R>>, r: Row<R>)
    ensures multiset(Chained(rows))[r] == if r.rowHash.Some? then multiset(rows)[r] else 0
  {
    if rows != [] {
      ChainedCounts(rows[1..], r);
      assert rows == [rows[0]] + rows[1..];
    }
  }

  /**
   * A re-ordering of an appended log verifies if and only if its chained rows stand in their old
   * order; unhashed rows may move freely. Otherwise two rows of the log collide.
   */
  lemma ReorderedRows<R>(s: Scheme<R>, a: seq<Row<R>>, b: seq<Row<R>>) returns (x: string, y: string)
    requires Hexadecimal(s.hash) && Appended(s, a) && multiset(b) == multiset(a)
    ensures RowsCollide(s, a, a, x, y) || (FirstBad(s, b, None).None? <==> Chained(b) == Chained(a))
  {
    hide Appended;
    forall r: Row<R>
      ensures multiset(Chained(b))[r] == multiset(Chained(a))[r]
    {
      ChainedCounts(a, r);
      ChainedCounts(b, r);
    }
    ChainedAppended(s, a);
    x, y := ChainedReordering(s, Chained(a), Chained(b));
    ChainedVerdict(s, b, None);
    if RowsCollide(s, Chained(a), Chained(a), x, y) {
      ChainedHashed(s, a, x);
      ChainedHashed(s, a, y);
    }
  }

  // ----- Verification in pages -----

  /** SELECT ... WHERE id > last ORDER BY id LIMIT n, over a table listed in id order. */
  function Page<R>(table: seq<Row<R>>, last: int, n: nat): seq<Row<R>> {
    if table == [] || n == 0 then []
    else if table[0].id <= last then Page(table[1..], last, n)
    else [table[0]] + Page(table[1..], last, n - 1)
  }

  lemma TailSlice<T>(xs: seq<T>, i: nat, j: nat)
    requires 1 <= i <= j <= |xs|
    ensures xs[1..][i - 1..j - 1] == xs[i..j]
  {
  }

  lemma HeadSlice<T>(xs: seq<T>, j: nat)
    requires 1 <= j <= |xs|
    ensures [xs[0]] + xs[1..][0..j - 1] == xs[0..j]
  {
  }

  lemma {:induction false} PageIsSlice<R>(table: seq<Row<R>>, pos: nat, last: int, n: nat)
    requires pos <= |table|
    requires forall i :: 0 <= i < pos ==> table[i].id <= last
    requires forall i :: pos <= i < |table| ==> table[i].id > last
    ensures Page(table, last, n) == table[pos..if pos + n < |table| then pos + n else |table|]
  {
    if table != [] && n > 0 {
      var stop := if pos + n < |table| then pos + n else |table|;
      assert forall i :: 0 <= i < |table[1..]| ==> table[1..][i] == table[i + 1];
      if pos > 0 {
        PageIsSlice(table[1..], pos - 1, last, n);
        TailSlice(table, pos, stop);
      } else {
        PageIsSlice(table[1..], 0, last, n - 1);
        HeadSlice(table, stop);
      }
    }
  }

  function LastChained<R>(rows: seq<Row<R>>, carry: Option<Row<R>>): Option<Row<R>> {
    if rows == [] then carry
    else LastChained(rows[1..], if rows[0].rowHash.Some? then Some(rows[0]) else carry)
  }

  ghost predicate GoodCarry<R>(s: Scheme<R>, carry: Option<Row<R>>) {
    carry.Some? ==> carry.value.rowHash.Some?
                    && carry.value.rowHash.value == RowHash(s, carry.value.prevHash, carry.value.record)
  }

  function HashOf<R>(carry: Option<Row<R>>): Option<string> {
    if carry.Some? then carry.value.rowHash else None
  }

  lemma {:induction false} CarryIsRight<R>(s: Scheme<R>, rows: seq<Row<R>>, carry: Option<Row<R>>)
    requires GoodCarry(s, carry) && FirstBad(s, rows, HashOf(carry)).None?
    ensures GoodCarry(s, LastChained(rows, carry))
    ensures HashOf(LastChained(rows, carry)) == Carried(rows, HashOf(carry))
  {
    if rows != [] {
      CarryIsRight(s, rows[1..], if rows[0].rowHash.Some? then Some(rows[0]) else carry);
    }
  }

  /** Putting the carried row in front of a page gives the verdict of continuing the chain. */
  lemma CarryContinues<R>(s: Scheme<R>, rows: seq<Row<R>>, carry: Option<Row<R>>)
    requires GoodCarry(s, carry)
    ensures FirstBad(s, (if carry.Some? then [carry.value] else []) + rows, None) == FirstBad(s, rows, HashOf(carry))
  {
    if carry.Some? {
      assert ([carry.value] + rows)[1..] == rows;
    } else {
      assert [] + rows == rows;
    }
  }

  /** Where the paging loop stands: a verified prefix, its last id and its last chained row. */
  ghost predicate PagedTo<R>(s: Scheme<R>, table: seq<Row<R>>, checked: nat, last: int, carry: Option<Row<R>>) {
    && checked <= |table| && IdsAscend(table)
    && (forall i :: 0 <= i < checked ==> table[i].id <= last)
    && (forall i :: checked <= i < |table| ==> table[i].id > last)
    && GoodCarry(s, carry)
    && FirstBad(s, table, None) == FirstBad(s, table[checked..], HashOf(carry))
  }

  lemma NothingPaged<R>(s: Scheme<R>, table: seq<Row<R>>)
    requires IdsAscend(table)
    ensures PagedTo(s, table, 0, 0, None)
  {
    assert table[0..] == table;
  }

  lemma LastPage<R>(s: Scheme<R>, table: seq<Row<R>>, checked: nat, last: int, carry: Option<Row<R>>, batch: nat)
    requires PagedTo(s, table, checked, last, carry) && batch >= 1 && Page(table, last, batch) == []
    ensures checked == |table| && FirstBad(s, table, None).None?
  {
    PageIsSlice(table, checked, last, batch);
  }

  /** One page's verdict: the table's if it fails, and otherwise the chain goes on after it. */
  lemma PageVerdict<R>(s: Scheme<R>, rows: seq<Row<R>>, rest: seq<Row<R>>, carry: Option<Row<R>>)
    requires GoodCarry(s, carry)
    ensures var verdict := FirstBad(s, (if carry.Some? then [carry.value] else []) + rows, None);
            var next := LastChained(rows, carry);
            && (verdict.Some? ==> verdict == FirstBad(s, rows + rest, HashOf(carry)))
            && (verdict.None? ==> GoodCarry(s, next)
                                  && FirstBad(s, rows + rest, HashOf(carry)) == FirstBad(s, rest, HashOf(next)))
  {
    FirstBadAppend(s, rows, rest, HashOf(carry));
    CarryContinues(s, rows, carry);
    if FirstBad(s, rows, HashOf(carry)).None? {
      CarryIsRight(s, rows, carry);
    }
  }

  lemma PageStep<R>(s: Scheme<R>, table: seq<Row<R>>, checked: nat, last: int, carry: Option<Row<R>>, batch: nat)
    requires PagedTo(s, table, checked, last, carry) && batch >= 1 && Page(table, last, batch) != []
    ensures var rows := Page(table, last, batch);
            var verdict := FirstBad(s, (if carry.Some? then [carry.value] else []) + rows, None);
            && (verdict.Some? ==> verdict == FirstBad(s, table, None))
            && (verdict.None? ==> PagedTo(s, table, checked + |rows|, rows[|rows| - 1].id, LastChained(rows, carry)))
  {
    hide FirstBad, LastChained, HashOf, GoodCarry;
    PageIsSlice(table, checked, last, batch);
    var rows := Page(table, last, batch);
    var rest := table[checked + |rows|..];
    assert table[checked..] == rows + rest;
    PageVerdict(s, rows, rest, carry);
    assert rows[|rows| - 1] == table[checked + |rows| - 1];
  }

  /** Paged verification gives the verdict of one pass over the whole table, whatever the page size. */
  method VerifyPaged<R>(s: Scheme<R>, table: seq<Row<R>>, batch: nat) returns (bad: Option<int>, checked: nat)
    requires IdsAscend(table) && batch >= 1
    ensures bad == FirstBad(s, table, None)
    ensures bad.None? ==> checked == |table|
  {
    hide PagedTo, FirstBad, Page;
    checked := 0;
    var last := 0;
    var carry: Option<Row<R>> := None;
    NothingPaged(s, table);
    while true
      invariant checked <= |table| && PagedTo(s, table, checked, last, carry)
      decreases |table| - checked
    {
      var rows := Page(table, last, batch);
      if rows == [] {
        LastPage(s, table, checked, last, carry, batch);
        break;
      }
      PageStep(s, table, checked, last, carry, batch);
      bad := VerifyAuditChain(s, (if carry.Some? then [carry.value] else []) + rows);
      if bad.Some? {
        return;
      }
      checked := checked + |rows|;
      last := rows[|rows| - 1].id;
      carry := LastChained(rows, carry);
      PagedWithin(s, table, checked, last, carry);
    }
    bad := None;
  }

  lemma PagedWithin<R>(s: Scheme<R>, table: seq<Row<R>>, checked: nat, last: int, carry: Option<Row<R>>)
    requires PagedTo(s, table, checked, last, carry)
    ensures checked <= |table|
  {
  }
}
