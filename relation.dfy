/**
 * Binary relations over tokens, as an insertion-ordered dictionary from a
 * token to the insertion-ordered set of tokens it is related to: transitive
 * closure, propagation of one relation along the closure of another, and the
 * search for a cycle.
 */
module Relations {
  import opened Wrappers
  import opened Tokens

  /** The value of a relation: its keys in insertion order and each key's related tokens. */
  datatype Graph = Graph(keys: seq<Token>, succ: map<Token, seq<Token>>)
  {
    ghost predicate Valid() {
      Distinct(keys) && (forall k :: k in succ <==> k in keys)
      && forall k :: k in succ ==> Distinct(succ[k])
    }
  }

  /** An edge a -> b. */
  predicate Edge(g: Graph, a: Token, b: Token) {
    a in g.succ && b in g.succ[a]
  }

  /** Every token that is a key or a target. */
  function Nodes(g: Graph): set<Token> {
    g.succ.Keys + set k, x | k in g.succ && x in g.succ[k] :: x
  }

  /** Consecutive tokens of `p` are related. */
  ghost predicate Chain(g: Graph, p: seq<Token>) {
    forall m :: 0 <= m < |p| - 1 ==> Edge(g, p[m], p[m + 1])
  }

  /** A walk along one or more edges. */
  ghost predicate IsPath(g: Graph, p: seq<Token>) {
    |p| >= 2 && Chain(g, p)
  }

  /** `j` is reachable from `i` by one or more edges. */
  ghost predicate Reaches(g: Graph, i: Token, j: Token) {
    exists p :: IsPath(g, p) && p[0] == i && p[|p| - 1] == j
  }

  /** The inner tokens of the walk all belong to `ks`. */
  ghost predicate InnerIn(p: seq<Token>, ks: seq<Token>) {
    forall m :: 0 < m < |p| - 1 ==> p[m] in ks
  }

  /**
   * The Floyd–Warshall recurrence: `j` is reachable from `i` through inner
   * tokens drawn from `ks` only.
   */
  ghost function Via(g: Graph, ks: seq<Token>, i: Token, j: Token): bool
    decreases |ks|
  {
    if ks == [] then Edge(g, i, j)
    else
      var k := ks[|ks| - 1];
      var pre := ks[..|ks| - 1];
      Via(g, pre, i, j) || (Via(g, pre, i, k) && Via(g, pre, k, j))
  }

  lemma ViaStep(g: Graph, ks: seq<Token>, k: Token, i: Token, j: Token)
    ensures Via(g, ks + [k], i, j) == (Via(g, ks, i, j) || (Via(g, ks, i, k) && Via(g, ks, k, j)))
  {
    assert (ks + [k])[..|ks|] == ks;
  }

  /** Round k of Floyd–Warshall does not change the row or the column of k. */
  lemma ViaPivot(g: Graph, ks: seq<Token>, k: Token, i: Token)
    ensures Via(g, ks + [k], i, k) == Via(g, ks, i, k)
    ensures Via(g, ks + [k], k, i) == Via(g, ks, k, i)
  {
    ViaStep(g, ks, k, i, k);
    ViaStep(g, ks, k, k, i);
  }

  lemma SplitChain(g: Graph, p: seq<Token>, m: nat)
    requires Chain(g, p) && m < |p|
    ensures Chain(g, p[..m + 1]) && Chain(g, p[m..])
  {
    var a, b := p[..m + 1], p[m..];
    forall n | 0 <= n < |a| - 1 ensures Edge(g, a[n], a[n + 1]) {
      assert a[n] == p[n] && a[n + 1] == p[n + 1];
    }
    forall n | 0 <= n < |b| - 1 ensures Edge(g, b[n], b[n + 1]) {
      assert b[n] == p[m + n] && b[n + 1] == p[m + n + 1];
    }
  }

  lemma JoinChain(g: Graph, p: seq<Token>, q: seq<Token>)
    requires Chain(g, p) && Chain(g, q) && |p| >= 1 && |q| >= 1 && p[|p| - 1] == q[0]
    ensures Chain(g, p + q[1..])
  {
    var r := p + q[1..];
    forall m | 0 <= m < |r| - 1 ensures Edge(g, r[m], r[m + 1]) {
      if m < |p| - 1 {
        assert r[m] == p[m] && r[m + 1] == p[m + 1];
      } else {
        var n := m - (|p| - 1);
        assert r[m] == q[n] && r[m + 1] == q[n + 1];
      }
    }
  }

  /** Every pair the recurrence admits is joined by a walk with inner tokens from `ks`. */
  lemma {:induction false} ViaSound(g: Graph, ks: seq<Token>, i: Token, j: Token)
    requires Via(g, ks, i, j)
    ensures exists p :: IsPath(g, p) && p[0] == i && p[|p| - 1] == j && InnerIn(p, ks)
    decreases |ks|
  {
    if ks == [] {
      var p := [i, j];
      assert IsPath(g, p) && InnerIn(p, ks);
    } else {
      var k := ks[|ks| - 1];
      var pre := ks[..|ks| - 1];
      assert ks == pre + [k];
      if Via(g, pre, i, j) {
        ViaSound(g, pre, i, j);
        var p :| IsPath(g, p) && p[0] == i && p[|p| - 1] == j && InnerIn(p, pre);
        assert InnerIn(p, ks);
      } else {
        ViaSound(g, pre, i, k);
        ViaSound(g, pre, k, j);
        var p :| IsPath(g, p) && p[0] == i && p[|p| - 1] == k && InnerIn(p, pre);
        var q :| IsPath(g, q) && q[0] == k && q[|q| - 1] == j && InnerIn(q, pre);
        JoinChain(g, p, q);
        var r := p + q[1..];
        forall m | 0 < m < |r| - 1 ensures r[m] in ks {
          if m < |p| - 1 { assert r[m] == p[m]; }
          else if m == |p| - 1 { assert r[m] == k; }
          else { assert r[m] == q[m - |p| + 1]; }
        }
      }
    }
  }

  /** Every walk with inner tokens from `ks` is admitted by the recurrence. */
  lemma {:induction false} ViaComplete(g: Graph, ks: seq<Token>, p: seq<Token>)
    requires IsPath(g, p) && InnerIn(p, ks)
    ensures Via(g, ks, p[0], p[|p| - 1])
    decreases |ks|, |p|
  {
    if ks == [] {
      var second := p[1];
      assert |p| == 2 || second in ks;
      assert Edge(g, p[0], p[1]);
    } else {
      var k := ks[|ks| - 1];
      var pre := ks[..|ks| - 1];
      assert ks == pre + [k];
      ViaStep(g, pre, k, p[0], p[|p| - 1]);
      if m :| 0 < m < |p| - 1 && p[m] == k {
        SplitChain(g, p, m);
        var a, b := p[..m + 1], p[m..];
        assert InnerIn(a, ks) by {
          forall n | 0 < n < |a| - 1 ensures a[n] in ks { assert a[n] == p[n]; }
        }
        assert InnerIn(b, ks) by {
          forall n | 0 < n < |b| - 1 ensures b[n] in ks { assert b[n] == p[m + n]; }
        }
        ViaComplete(g, ks, a);
        ViaComplete(g, ks, b);
        ViaPivot(g, pre, k, p[0]);
        ViaPivot(g, pre, k, p[|p| - 1]);
      } else {
        assert InnerIn(p, pre) by {
          forall n | 0 < n < |p| - 1 ensures p[n] in pre {
            assert p[n] in ks && p[n] != k;
          }
        }
        ViaComplete(g, pre, p);
      }
    }
  }

  /** With every token available as an inner token, the recurrence is reachability. */
  lemma ViaAllIsReaches(g: Graph, ks: seq<Token>, i: Token, j: Token)
    requires forall x :: x in g.succ ==> x in ks
    ensures Via(g, ks, i, j) <==> Reaches(g, i, j)
  {
    if Via(g, ks, i, j) {
      ViaSound(g, ks, i, j);
    }
    if Reaches(g, i, j) {
      var p :| IsPath(g, p) && p[0] == i && p[|p| - 1] == j;
      assert InnerIn(p, ks) by {
        forall m | 0 < m < |p| - 1 ensures p[m] in ks { assert Edge(g, p[m], p[m + 1]); }
      }
      ViaComplete(g, ks, p);
    }
  }

  lemma ReachesEndsAreNodes(g: Graph, i: Token, j: Token)
    requires Reaches(g, i, j)
    ensures i in g.succ && j in Nodes(g)
  {
    var p :| IsPath(g, p) && p[0] == i && p[|p| - 1] == j;
    assert Edge(g, p[0], p[1]);
    assert Edge(g, p[|p| - 2], p[|p| - 1]);
  }

  /** `now` is `before` with `a` related to the first n tokens of `us`. */
  ghost predicate AddedUpTo(before: Graph, now: Graph, a: Token, us: seq<Token>, n: int)
    requires 0 <= n <= |us|
  {
    forall x, y :: Edge(now, x, y) <==> Edge(before, x, y) || (x == a && y in us[..n])
  }

  lemma AddedStep(before: Graph, now: Graph, next: Graph, a: Token, us: seq<Token>, n: int)
    requires 0 <= n < |us| && AddedUpTo(before, now, a, us, n)
    requires forall x, y :: Edge(next, x, y) <==> Edge(now, x, y) || (x == a && y == us[n])
    ensures AddedUpTo(before, next, a, us, n + 1)
  {
    assert us[..n + 1] == us[..n] + [us[n]];
  }

  // ------------------------------------------------------------------
  // The mutable relation

  class Relation {
    var keys: seq<Token>
    var relations: map<Token, seq<Token>>

    function Value(): Graph reads this { Graph(keys, relations) }

    /** A valid relation only has keys that carry at least one related token. */
    ghost predicate Valid() reads this {
      Value().Valid() && forall k :: k in relations ==> |relations[k]| > 0
    }

    constructor ()
      ensures Valid() && keys == [] && relations == map[]
    {
      keys := [];
      relations := map[];
    }

    /** Relates `left` to `right`, creating the entry of `left` when it is absent. */
    method AddRelation(left: Token, right: Token)
      requires Valid()
      modifies this
      ensures Valid()
      ensures keys == if left in old(relations) then old(keys) else old(keys) + [left]
      ensures relations == old(relations)[left := AddUnique(if left in old(relations) then old(relations)[left] else [], right)]
      ensures forall a, b :: Edge(Value(), a, b) <==> Edge(old(Value()), a, b) || (a == left && b == right)
    {
      var related: seq<Token> := [];
      if left in relations {
        related := relations[left];
      } else {
        keys := keys + [left];
      }
      relations := relations[left := AddUnique(related, right)];
    }
  }

  // ------------------------------------------------------------------
  // Closure

  /** The tokens of a sequence, as a set. */
  function Elems(s: seq<Token>): set<Token> { set x | x in s }

  /**
   * Transitive closure by Floyd–Warshall. The result has an entry for every
   * token of the relation, and relates i to j exactly when j is reachable from
   * i by one or more edges.
   */
  method Closure(r: Graph) returns (c: Graph)
    requires r.Valid()
    ensures c.Valid()
    ensures forall x :: x in c.succ <==> x in Nodes(r)
    ensures forall i, j :: i in c.succ ==> (j in c.succ[i] <==> Reaches(r, i, j))
  {
    var keys, order, copy := CopyRelation(r);
    var result := FloydRounds(r, keys, copy);
    ClosureDone(r, keys, result);
    c := Graph(order, result);
  }

  /** The rounds of the closure, one per key, in key order. */
  method FloydRounds(r: Graph, keys: seq<Token>, result0: map<Token, seq<Token>>) returns (result: map<Token, seq<Token>>)
    requires ClosedVia(r, keys, result0, 0)
    ensures ClosedVia(r, keys, result, |keys|)
  {
    result := result0;
    var kk := 0;
    while kk < |keys|
      invariant ClosedVia(r, keys, result, kk)
    {
      result := FloydRound(r, keys, kk, result);
      kk := kk + 1;
    }
  }

  /** After round kk of the closure, row i holds the j with Via(keys[..kk], i, j). */
  ghost predicate ClosedVia(r: Graph, keys: seq<Token>, result: map<Token, seq<Token>>, kk: int) {
    0 <= kk <= |keys| && Distinct(keys) &&
    (forall x :: x in result <==> x in keys) &&
    (forall x :: x in result ==> Distinct(result[x]) && forall y :: y in result[x] ==> y in keys) &&
    forall i, j :: i in keys && j in keys ==> (j in result[i] <==> Via(r, keys[..kk], i, j))
  }

  /** After the last round the rows are the reachability sets. */
  lemma ClosureDone(r: Graph, keys: seq<Token>, result: map<Token, seq<Token>>)
    requires r.Valid() && ClosedVia(r, keys, result, |keys|) && forall x :: x in keys <==> x in Nodes(r)
    ensures forall i, j :: i in result ==> (j in result[i] <==> Reaches(r, i, j))
  {
    assert keys[..|keys|] == keys;
    forall i, j | i in result
      ensures j in result[i] <==> Reaches(r, i, j)
    {
      ViaAllIsReaches(r, keys, i, j);
      if Reaches(r, i, j) { ReachesEndsAreNodes(r, i, j); }
    }
  }

  /**
   * The first part of the closure: a copy of every row, `keys` the tokens of
   * the relation in the order met, and an empty row for every token that is
   * only a target; `order` is the key order of the copy.
   */
  method CopyRelation(r: Graph) returns (keys: seq<Token>, order: seq<Token>, result: map<Token, seq<Token>>)
    requires r.Valid()
    ensures Distinct(keys) && Distinct(order)
    ensures forall x :: x in keys <==> x in Nodes(r)
    ensures forall x :: x in result <==> x in keys
    ensures forall x :: x in result <==> x in order
    ensures forall x :: x in result ==> result[x] == if x in r.succ then r.succ[x] else []
    ensures forall x :: x in result ==> Distinct(result[x]) && forall y :: y in result[x] ==> y in keys
    ensures forall i, j :: i in keys && j in keys ==> (j in result[i] <==> Via(r, keys[..0], i, j))
  {
    keys, result := CopyRows(r);
    order := r.keys;
    ghost var nodes := Nodes(r);
    assert forall x :: x in keys <==> x in nodes by {
      forall x ensures x in keys <==> x in nodes {
        TargetsOf(r, r.keys, x);
      }
    }
    order, result := AddEmptyRows(r, keys, order, result);
    forall x, y | x in result && y in result[x] ensures y in keys {
      assert y in nodes;
    }
  }

  /** The targets of the rows of `ks`. */
  ghost function Targets(g: Graph, ks: seq<Token>): set<Token>
    requires forall k :: k in ks ==> k in g.succ
  {
    if ks == [] then {} else Targets(g, ks[..|ks| - 1]) + Elems(g.succ[ks[|ks| - 1]])
  }

  lemma {:induction false} TargetsOf(g: Graph, ks: seq<Token>, x: Token)
    requires forall k :: k in ks ==> k in g.succ
    ensures x in Targets(g, ks) <==> exists k :: k in ks && x in g.succ[k]
    decreases |ks|
  {
    if ks != [] {
      var pre := ks[..|ks| - 1];
      assert ks == pre + [ks[|ks| - 1]];
      TargetsOf(g, pre, x);
    }
  }

  /** The first a rows of r copied, and their tokens collected without repeats. */
  ghost predicate CopiedUpTo(r: Graph, a: nat, keys: seq<Token>, result: map<Token, seq<Token>>)
    requires r.Valid() && a <= |r.keys|
  {
    Distinct(keys) &&
    (forall x :: x in result <==> x in r.keys[..a]) &&
    (forall x :: x in result ==> result[x] == r.succ[x]) &&
    (forall x :: x in keys <==> x in r.keys[..a] || x in Targets(r, r.keys[..a]))
  }

  lemma CopyStep(r: Graph, a: nat, keys: seq<Token>, result: map<Token, seq<Token>>, keys': seq<Token>)
    requires r.Valid() && a < |r.keys| && CopiedUpTo(r, a, keys, result)
    requires Distinct(keys') && forall x :: x in keys' <==> x in keys || x == r.keys[a] || x in r.succ[r.keys[a]]
    ensures CopiedUpTo(r, a + 1, keys', result[r.keys[a] := r.succ[r.keys[a]]])
  {
    var i := r.keys[a];
    assert r.keys[..a + 1] == r.keys[..a] + [i];
    assert r.keys[..a + 1][..a] == r.keys[..a];
    assert Targets(r, r.keys[..a + 1]) == Targets(r, r.keys[..a]) + Elems(r.succ[i]);
  }

  /** Every row of the relation copied, and its tokens, sources and targets, collected in order. */
  method CopyRows(r: Graph) returns (keys: seq<Token>, result: map<Token, seq<Token>>)
    requires r.Valid()
    ensures Distinct(keys)
    ensures forall x :: x in result <==> x in r.succ
    ensures forall x :: x in result ==> result[x] == r.succ[x]
    ensures forall x :: x in keys <==> x in r.keys || x in Targets(r, r.keys)
  {
    keys := [];
    result := map[];
    var a := 0;
    while a < |r.keys|
      invariant 0 <= a <= |r.keys| && CopiedUpTo(r, a, keys, result)
    {
      var i := r.keys[a];
      var keys' := AddUnique(keys, i);
      DistinctAddUnique(keys, i);
      // Every token of the row is a key of the closure; the row itself is copied as it is.
      keys' := AddAll(keys', r.succ[i]);
      CopyStep(r, a, keys, result, keys');
      keys := keys';
      result := result[i := r.succ[i]];
      a := a + 1;
    }
    CopiedAll(r, keys, result);
  }

  lemma CopiedAll(r: Graph, keys: seq<Token>, result: map<Token, seq<Token>>)
    requires r.Valid() && CopiedUpTo(r, |r.keys|, keys, result)
    ensures Distinct(keys)
    ensures forall x :: x in result <==> x in r.succ
    ensures forall x :: x in result ==> result[x] == r.succ[x]
    ensures forall x :: x in keys <==> x in r.keys || x in Targets(r, r.keys)
  {
    assert r.keys[..|r.keys|] == r.keys;
  }

  /** An empty row, appended to the key order, for every token of `keys` without one. */
  method AddEmptyRows(ghost r: Graph, keys: seq<Token>, order0: seq<Token>, result0: map<Token, seq<Token>>)
    returns (order: seq<Token>, result: map<Token, seq<Token>>)
    requires Distinct(order0)
    requires forall x :: x in result0 <==> x in order0
    requires forall x :: x in result0 ==> x in keys
    requires forall x :: x in r.succ ==> x in result0
    requires forall x :: x in result0 ==> result0[x] == if x in r.succ then r.succ[x] else []
    ensures Distinct(order)
    ensures forall x :: x in result <==> x in order
    ensures forall x :: x in result <==> x in keys
    ensures forall x :: x in result ==> result[x] == if x in r.succ then r.succ[x] else []
  {
    order, result := order0, result0;
    var a := 0;
    while a < |keys|
      invariant 0 <= a <= |keys| && Distinct(order)
      invariant forall x :: x in result <==> x in order
      invariant forall x :: x in result ==> x in keys
      invariant forall x :: x in keys[..a] ==> x in result
      invariant forall x :: x in r.succ ==> x in result
      invariant forall x :: x in result ==> result[x] == if x in r.succ then r.succ[x] else []
    {
      if keys[a] !in result {
        result := result[keys[a] := []];
        order := order + [keys[a]];
      }
      assert keys[..a + 1] == keys[..a] + [keys[a]];
      a := a + 1;
    }
    assert keys[..a] == keys;
  }

  /** `row0` with the tokens of `xs` appended, in order, where they are not already present. */
  method AddAll(row0: seq<Token>, xs: seq<Token>) returns (row: seq<Token>)
    requires Distinct(row0)
    ensures Distinct(row) && |row| >= |row0| && row[..|row0|] == row0
    ensures forall x :: x in row <==> x in row0 || x in xs
  {
    row := row0;
    var b := 0;
    while b < |xs|
      invariant 0 <= b <= |xs| && Distinct(row) && |row| >= |row0| && row[..|row0|] == row0
      invariant forall x :: x in row <==> x in row0 || x in xs[..b]
    {
      row := AddUnique(row, xs[b]);
      assert xs[..b + 1] == xs[..b] + [xs[b]];
      b := b + 1;
    }
    assert xs[..b] == xs;
  }

  /** Rows hold keys only, without repeats. */
  ghost predicate RowsWithin(keys: seq<Token>, result: map<Token, seq<Token>>) {
    (forall x :: x in result <==> x in keys) &&
    forall x :: x in result ==> Distinct(result[x]) && forall y :: y in result[x] ==> y in keys
  }

  /** A Floyd–Warshall round pivoting on k after the rows of keys[..ii]: those rows are updated, the others are as before. */
  ghost predicate RoundUpTo(r: Graph, keys: seq<Token>, pre: seq<Token>, k: Token, ii: nat,
                            result0: map<Token, seq<Token>>, result: map<Token, seq<Token>>)
    requires ii <= |keys|
  {
    RowsWithin(keys, result) &&
    (forall x :: x in keys && x !in keys[..ii] ==> x in result0 && result[x] == result0[x]) &&
    forall i, j :: i in keys[..ii] && j in keys ==> (j in result[i] <==> Via(r, pre + [k], i, j))
  }

  lemma RoundStep(r: Graph, keys: seq<Token>, pre: seq<Token>, k: Token, ii: nat,
                  result0: map<Token, seq<Token>>, result: map<Token, seq<Token>>, row: seq<Token>)
    requires ii < |keys| && Distinct(keys) && RoundUpTo(r, keys, pre, k, ii, result0, result)
    requires Distinct(row) && (forall y :: y in row ==> y in keys)
    requires forall j :: j in keys ==> (j in row <==> Via(r, pre + [k], keys[ii], j))
    ensures RoundUpTo(r, keys, pre, k, ii + 1, result0, result[keys[ii] := row])
  {
    var i := keys[ii];
    assert keys[..ii + 1] == keys[..ii] + [i];
    assert i !in keys[..ii];
  }

  /** Round kk of Floyd–Warshall, pivoting on keys[kk]; rows are updated in place, in key order. */
  method FloydRound(r: Graph, keys: seq<Token>, kk: nat, result0: map<Token, seq<Token>>)
    returns (result: map<Token, seq<Token>>)
    requires kk < |keys| && ClosedVia(r, keys, result0, kk)
    ensures ClosedVia(r, keys, result, kk + 1)
  {
    var k := keys[kk];
    assert keys[..kk + 1] == keys[..kk] + [k];
    ghost var pre := keys[..kk];
    result := result0;
    var ii := 0;
    while ii < |keys|
      invariant 0 <= ii <= |keys| && RoundUpTo(r, keys, pre, k, ii, result0, result)
    {
      var i := keys[ii];
      var rowK := result[k];
      RoundPivotRow(r, keys, pre, k, ii, result0, result);
      var row := FloydRow(r, keys, pre, k, i, result[i], rowK);
      RoundStep(r, keys, pre, k, ii, result0, result, row);
      result := result[i := row];
      ii := ii + 1;
    }
    assert keys[..ii] == keys;
  }

  /** During the round the pivot row still holds what k reaches before the round, and row keys[ii] is as before the round. */
  lemma RoundPivotRow(r: Graph, keys: seq<Token>, pre: seq<Token>, k: Token, ii: nat,
                      result0: map<Token, seq<Token>>, result: map<Token, seq<Token>>)
    requires ii < |keys| && Distinct(keys) && k in keys && RoundUpTo(r, keys, pre, k, ii, result0, result)
    requires forall x :: x in result0 <==> x in keys
    requires forall i, j :: i in keys && j in keys ==> (j in result0[i] <==> Via(r, pre, i, j))
    ensures keys[ii] in result && k in result
    ensures forall j :: j in keys ==> (j in result[keys[ii]] <==> Via(r, pre, keys[ii], j))
    ensures forall j :: j in keys ==> (j in result[k] <==> Via(r, pre, k, j))
  {
    var i := keys[ii];
    assert i !in keys[..ii];
    assert result[i] == result0[i];
    forall j | j in keys ensures j in result[k] <==> Via(r, pre, k, j) {
      ViaPivot(r, pre, k, j);
      if k !in keys[..ii] {
        assert result[k] == result0[k];
      }
    }
  }

  /**
   * Row i of a Floyd–Warshall round: j joins the row when i reaches k and k
   * reaches j. `rowK` is the row of the pivot k; when i is k itself, the row
   * being updated is the pivot row and is read as it changes.
   */
  method FloydRow(r: Graph, keys: seq<Token>, ghost pre: seq<Token>, k: Token, i: Token, row0: seq<Token>, rowK: seq<Token>)
    returns (row: seq<Token>)
    requires Distinct(row0) && (forall y :: y in row0 ==> y in keys) && k in keys
    requires forall j :: j in keys ==> (j in row0 <==> Via(r, pre, i, j))
    requires forall j :: j in keys ==> (j in rowK <==> Via(r, pre, k, j))
    ensures Distinct(row) && forall y :: y in row ==> y in keys
    ensures forall j :: j in keys ==> (j in row <==> Via(r, pre + [k], i, j))
  {
    row := row0;
    var jj := 0;
    while jj < |keys|
      invariant 0 <= jj <= |keys| && Distinct(row) && forall y :: y in row ==> y in keys
      invariant forall j :: j in keys[..jj] ==> (j in row <==> Via(r, pre + [k], i, j))
      invariant forall j :: j in keys && j !in keys[..jj] ==> (j in row <==> j in row0)
    {
      var j := keys[jj];
      ViaPivot(r, pre, k, i);
      ViaPivot(r, pre, k, j);
      ViaStep(r, pre, k, i, j);
      var ik := k in row;
      var kj := if k == i then j in row else j in rowK;
      assert ik == Via(r, pre, i, k);
      assert kj == Via(r, pre, k, j);
      if j in row || (ik && kj) {
        row := AddUnique(row, j);
      }
      assert keys[..jj + 1] == keys[..jj] + [j];
      jj := jj + 1;
    }
    assert keys[..jj] == keys;
  }

  // ------------------------------------------------------------------
  // Propagation

  /**
   * `u` is propagated to `s`: it is related to `s` directly, or to a token
   * that `s` reaches through the propagation relation.
   */
  ghost predicate Propagated(imm: Graph, prop: Graph, s: Token, u: Token) {
    Edge(imm, s, u) || exists t :: Reaches(prop, s, t) && Edge(imm, t, u)
  }

  /** Whatever is propagated to b is propagated to every a with a propagation edge a -> b. */
  lemma PropagatedAlongEdge(imm: Graph, prop: Graph, a: Token, b: Token, u: Token)
    requires Edge(prop, a, b) && Propagated(imm, prop, b, u)
    ensures Propagated(imm, prop, a, u)
  {
    var ab := [a, b];
    assert IsPath(prop, ab);
    if Edge(imm, b, u) {
      assert Reaches(prop, a, b);
    } else {
      var t :| Reaches(prop, b, t) && Edge(imm, t, u);
      var p :| IsPath(prop, p) && p[0] == b && p[|p| - 1] == t;
      JoinChain(prop, ab, p);
      var q := ab + p[1..];
      assert q[0] == a && q[|q| - 1] == t && IsPath(prop, q);
    }
  }

  /** `s` has an entry in the propagated relation. */
  ghost predicate PropagatedKey(imm: Graph, prop: Graph, s: Token) {
    s in imm.succ || exists t :: Reaches(prop, s, t) && t in imm.succ
  }

  /** `res` is the immediate relation propagated along the closure of the propagation relation. */
  ghost predicate PropagationOf(imm: Graph, prop: Graph, res: Graph) {
    res.Valid()
    && (forall s :: s in res.succ <==> PropagatedKey(imm, prop, s))
    && (forall s, u :: s in res.succ ==> (u in res.succ[s] <==> Propagated(imm, prop, s, u)))
  }

  /**
   * The immediate relation extended along the closure of the propagation
   * relation: s relates to u when s reaches, by propagation, a token t that
   * is immediately related to u.
   */
  method Propagate(imm: Graph, prop: Graph) returns (res: Graph)
    requires imm.Valid() && prop.Valid()
    ensures res.Valid()
    ensures forall s :: s in res.succ <==> PropagatedKey(imm, prop, s)
    ensures forall s, u :: s in res.succ ==> (u in res.succ[s] <==> Propagated(imm, prop, s, u))
  {
    var closed := Closure(prop);
    res := PropagateRows(imm, closed);
    forall x ensures x in res.succ <==> PropagatedKey(imm, prop, x) {
      if x !in imm.succ && PropagatedKey(imm, prop, x) {
        var t :| Reaches(prop, x, t) && t in imm.succ;
        ReachesEndsAreNodes(prop, x, t);
      }
    }
    forall x, u | x in res.succ ensures u in res.succ[x] <==> Propagated(imm, prop, x, u) {
      if Propagated(imm, prop, x, u) && !Edge(imm, x, u) {
        var t :| Reaches(prop, x, t) && Edge(imm, t, u);
        ReachesEndsAreNodes(prop, x, t);
      }
    }
  }

  /**
   * The merge step of the propagation: the immediate relation, and for every
   * row s of the closed relation that touches an immediate entry, the tokens
   * immediately related to the row's tokens.
   */
  method PropagateRows(imm: Graph, closed: Graph) returns (res: Graph)
    requires imm.Valid() && closed.Valid()
    ensures res.Valid()
    ensures forall x :: x in res.succ <==> x in imm.succ || (x in closed.succ && Touches(imm, closed.succ[x]))
    ensures forall x, u :: x in res.succ ==>
      (u in res.succ[x] <==> Edge(imm, x, u) || (x in closed.succ && Image(imm, closed.succ[x], u)))
  {
    var order := imm.keys;
    var result := imm.succ;
    var a := 0;
    assert closed.keys[..0] == [];
    while a < |closed.keys|
      invariant 0 <= a <= |closed.keys| && PropagatedUpTo(imm, closed, a, order, result)
    {
      var s := closed.keys[a];
      var has := s in result;
      var row := if has then result[s] else [];
      assert Distinct(row);
      has, row := PropagateRow(imm, closed.succ[s], has, row);
      if has {
        PropagateAdd(imm, closed, a, order, result, row);
        if s !in result {
          order := order + [s];
        }
        result := result[s := row];
      } else {
        PropagateKeep(imm, closed, a, order, result);
      }
      a := a + 1;
    }
    PropagatedAll(imm, closed, order, result);
    res := Graph(order, result);
  }

  /** The merge step after the rows of closed.keys[..a]. */
  ghost predicate PropagatedUpTo(imm: Graph, closed: Graph, a: nat, order: seq<Token>, result: map<Token, seq<Token>>)
    requires closed.Valid() && a <= |closed.keys|
  {
    Distinct(order) &&
    (forall x :: x in result <==> x in order) &&
    (forall x :: x in result ==> Distinct(result[x])) &&
    (forall x :: x in result <==> x in imm.succ || (x in closed.keys[..a] && Touches(imm, closed.succ[x]))) &&
    forall x, u :: x in result ==>
      (u in result[x] <==> Edge(imm, x, u) || (x in closed.keys[..a] && Image(imm, closed.succ[x], u)))
  }

  /** Row s touches no immediate entry and had no row: nothing changes. */
  lemma PropagateKeep(imm: Graph, closed: Graph, a: nat, order: seq<Token>, result: map<Token, seq<Token>>)
    requires imm.Valid() && closed.Valid() && a < |closed.keys| && PropagatedUpTo(imm, closed, a, order, result)
    requires closed.keys[a] !in result && !Touches(imm, closed.succ[closed.keys[a]])
    ensures PropagatedUpTo(imm, closed, a + 1, order, result)
  {
    var s := closed.keys[a];
    assert closed.keys[..a + 1] == closed.keys[..a] + [s];
  }

  /** Row s gets the tokens immediately related to the tokens s reaches. */
  lemma PropagateAdd(imm: Graph, closed: Graph, a: nat, order0: seq<Token>, result0: map<Token, seq<Token>>, row: seq<Token>)
    requires imm.Valid() && closed.Valid() && a < |closed.keys| && PropagatedUpTo(imm, closed, a, order0, result0)
    requires var s := closed.keys[a];
      Distinct(row) && (s in result0 || Touches(imm, closed.succ[s])) &&
      (forall u :: u in row <==> (s in result0 && u in result0[s]) || Image(imm, closed.succ[s], u))
    ensures var s := closed.keys[a];
      PropagatedUpTo(imm, closed, a + 1, if s in result0 then order0 else order0 + [s], result0[s := row])
  {
    var s := closed.keys[a];
    var result := result0[s := row];
    assert s !in closed.keys[..a];
    assert closed.keys[..a + 1] == closed.keys[..a] + [s];
    PropagateAddKeys(imm, closed, a, order0, result0, row);
    forall x, u | x in result
      ensures u in result[x] <==> Edge(imm, x, u) || (x in closed.keys[..a + 1] && Image(imm, closed.succ[x], u))
    {
      assert x in closed.keys[..a + 1] <==> x in closed.keys[..a] || x == s;
      if x != s {
        assert result[x] == result0[x];
      } else {
        PropagateOwnRow(imm, closed, a, result0, row, u);
      }
    }
  }

  /** The new row of s: what s already held, which is its immediate row, and the image of the tokens s reaches. */
  lemma PropagateOwnRow(imm: Graph, closed: Graph, a: nat, result0: map<Token, seq<Token>>, row: seq<Token>, u: Token)
    requires closed.Valid() && a < |closed.keys|
    requires var s := closed.keys[a];
      (s in result0 <==> s in imm.succ) &&
      (s in result0 ==> (u in result0[s] <==> Edge(imm, s, u))) &&
      (u in row <==> (s in result0 && u in result0[s]) || Image(imm, closed.succ[s], u))
    ensures var s := closed.keys[a]; u in row <==> Edge(imm, s, u) || Image(imm, closed.succ[s], u)
  {
  }

  lemma PropagateAddKeys(imm: Graph, closed: Graph, a: nat, order0: seq<Token>, result0: map<Token, seq<Token>>, row: seq<Token>)
    requires imm.Valid() && closed.Valid() && a < |closed.keys| && PropagatedUpTo(imm, closed, a, order0, result0)
    requires var s := closed.keys[a]; Distinct(row) && (s in result0 || Touches(imm, closed.succ[s]))
    ensures var s := closed.keys[a]; var order := if s in result0 then order0 else order0 + [s]; var result := result0[s := row];
      Distinct(order) && (forall x :: x in result <==> x in order) && (forall x :: x in result ==> Distinct(result[x])) &&
      (forall x :: x in result <==> x in imm.succ || (x in closed.keys[..a + 1] && Touches(imm, closed.succ[x])))
  {
    var s := closed.keys[a];
    assert closed.keys[..a + 1] == closed.keys[..a] + [s];
  }

  lemma PropagatedAll(imm: Graph, closed: Graph, order: seq<Token>, result: map<Token, seq<Token>>)
    requires imm.Valid() && closed.Valid() && PropagatedUpTo(imm, closed, |closed.keys|, order, result)
    ensures Graph(order, result).Valid()
    ensures forall x :: x in result <==> x in imm.succ || (x in closed.succ && Touches(imm, closed.succ[x]))
    ensures forall x, u :: x in result ==>
      (u in result[x] <==> Edge(imm, x, u) || (x in closed.succ && Image(imm, closed.succ[x], u)))
  {
    assert closed.keys[..|closed.keys|] == closed.keys;
  }

  /** `u` is immediately related to some token of `ts`. */
  ghost predicate Image(imm: Graph, ts: seq<Token>, u: Token) {
    exists t :: t in ts && Edge(imm, t, u)
  }

  lemma ImageSnoc(imm: Graph, ts: seq<Token>, t: Token, u: Token)
    ensures Image(imm, ts + [t], u) <==> Image(imm, ts, u) || Edge(imm, t, u)
  {
    if Image(imm, ts + [t], u) && !Edge(imm, t, u) {
      var t' :| t' in ts + [t] && Edge(imm, t', u);
      assert t' in ts;
    }
  }

  /** Some token of `ts` has an entry in the immediate relation. */
  predicate Touches(imm: Graph, ts: seq<Token>) {
    exists t :: t in ts && t in imm.succ
  }

  /**
   * One row of the propagation: for every token t of the closed row that has
   * an immediate entry, the row gains t's immediately related tokens; `has`
   * says whether the row exists.
   */
  method PropagateRow(imm: Graph, ts: seq<Token>, has0: bool, row0: seq<Token>) returns (has: bool, row: seq<Token>)
    requires imm.Valid() && Distinct(row0)
    ensures Distinct(row)
    ensures has <==> has0 || Touches(imm, ts)
    ensures forall u :: u in row <==> u in row0 || Image(imm, ts, u)
  {
    has, row := has0, row0;
    var b := 0;
    while b < |ts|
      invariant 0 <= b <= |ts| && Distinct(row)
      invariant has <==> has0 || Touches(imm, ts[..b])
      invariant forall u :: u in row <==> u in row0 || Image(imm, ts[..b], u)
    {
      var t := ts[b];
      assert ts[..b + 1] == ts[..b] + [t];
      forall u ensures Image(imm, ts[..b + 1], u) <==> Image(imm, ts[..b], u) || Edge(imm, t, u) {
        ImageSnoc(imm, ts[..b], t, u);
      }
      if t in imm.succ {
        has := true;
        row := AddAll(row, imm.succ[t]);
      }
      b := b + 1;
    }
    assert ts[..b] == ts;
  }

  // ------------------------------------------------------------------
  // Cycle search

  /** The depth-first search strictly grows its path or leaves the start token; this bounds it. */
  function SearchMeasure(g: Graph, k: Token, v: seq<Token>): nat {
    2 * |Nodes(g) - (Elems(v) + {k})| + if k in v then 0 else 1
  }

  lemma SearchMeasureDrops(g: Graph, k: Token, v: seq<Token>, l: Token)
    requires k in Nodes(g) && l in Nodes(g) && Elems(v) <= Nodes(g) && l !in v
    ensures SearchMeasure(g, l, v + [k]) < SearchMeasure(g, k, v)
  {
    var n := Nodes(g);
    var old_ := Elems(v) + {k};
    var new_ := Elems(v + [k]) + {l};
    assert Elems(v + [k]) == old_;
    if l == k {
      assert new_ == old_;
    } else {
      assert new_ == old_ + {l} && l !in old_;
      assert n - new_ == (n - old_) - {l};
    }
  }

  /**
   * The search from `k`, whose path so far is `v`: the first cycle found by
   * following the relations of `k` in order, or [] when there is none.
   */
  function Dfs(g: Graph, k: Token, v: seq<Token>): seq<Token>
    requires k in Nodes(g) && Elems(v) <= Nodes(g)
    decreases SearchMeasure(g, k, v), 1, 0
  {
    if k !in g.succ then [] else DfsEach(g, k, v, g.succ[k])
  }

  /** The search over the relations `ls` of `k`, a suffix of its row. */
  function DfsEach(g: Graph, k: Token, v: seq<Token>, ls: seq<Token>): seq<Token>
    requires k in g.succ && Elems(v) <= Nodes(g) && Elems(ls) <= Elems(g.succ[k])
    decreases SearchMeasure(g, k, v), 0, |ls|
  {
    if ls == [] then []
    else
      var l := ls[0];
      assert l in Elems(g.succ[k]);
      if l in v then
        if l == k then v + [k] else v + [k, l]
      else
        assert l in Nodes(g) && k in Nodes(g);
        SearchMeasureDrops(g, k, v, l);
        var w := Dfs(g, l, v + [k]);
        if w != [] then w else DfsEach(g, k, v, ls[1..])
  }

  /** The first cycle found from the keys of `ks`, in order. */
  function CycleFrom(g: Graph, ks: seq<Token>): seq<Token>
    requires forall k :: k in ks ==> k in g.succ
  {
    if ks == [] then []
    else
      var w := Dfs(g, ks[0], []);
      if w != [] then w else CycleFrom(g, ks[1..])
  }

  /** The first cycle of the relation, or [] when it has none. */
  function Cycle(g: Graph): seq<Token>
    requires g.Valid()
  {
    CycleFrom(g, g.keys)
  }

  /** A reported cycle: a walk whose last token occurs earlier in it. */
  ghost predicate CycleWitness(g: Graph, w: seq<Token>) {
    |w| >= 2 && Chain(g, w) && w[|w| - 1] in w[..|w| - 1]
  }

  /** Some token reaches itself. */
  ghost predicate Cyclic(g: Graph) {
    exists x :: Reaches(g, x, x)
  }

  lemma {:induction false} DfsSound(g: Graph, k: Token, v: seq<Token>)
    requires k in Nodes(g) && Elems(v) <= Nodes(g) && Chain(g, v + [k])
    ensures Dfs(g, k, v) != [] ==> CycleWitness(g, Dfs(g, k, v))
    decreases SearchMeasure(g, k, v), 1, 0
  {
    if k in g.succ {
      DfsEachSound(g, k, v, g.succ[k]);
    }
  }

  lemma {:induction false} DfsEachSound(g: Graph, k: Token, v: seq<Token>, ls: seq<Token>)
    requires k in g.succ && Elems(v) <= Nodes(g) && Elems(ls) <= Elems(g.succ[k]) && Chain(g, v + [k])
    ensures DfsEach(g, k, v, ls) != [] ==> CycleWitness(g, DfsEach(g, k, v, ls))
    decreases SearchMeasure(g, k, v), 0, |ls|
  {
    if ls != [] {
      var l := ls[0];
      assert l in Elems(g.succ[k]);
      var p := v + [k, l];
      assert Edge(g, k, l);
      assert p == (v + [k]) + [l];
      assert Chain(g, p) by {
        forall m | 0 <= m < |p| - 1 ensures Edge(g, p[m], p[m + 1]) {
          if m < |p| - 2 { assert p[m] == (v + [k])[m] && p[m + 1] == (v + [k])[m + 1]; }
        }
      }
      if l in v {
        if l == k {
          assert (v + [k])[..|v|] == v;
        } else {
          assert p[..|p| - 1] == v + [k];
        }
      } else {
        assert l in Nodes(g) && k in Nodes(g);
        SearchMeasureDrops(g, k, v, l);
        assert Elems(v + [k]) <= Nodes(g);
        DfsSound(g, l, v + [k]);
        if Dfs(g, l, v + [k]) == [] {
          assert Elems(ls[1..]) <= Elems(g.succ[k]);
          DfsEachSound(g, k, v, ls[1..]);
        }
      }
    }
  }

  /** A search that finds nothing saw no walk from `k` back into its path or to `k` itself. */
  lemma {:induction false} DfsComplete(g: Graph, k: Token, v: seq<Token>, p: seq<Token>)
    requires k in Nodes(g) && Elems(v) <= Nodes(g) && Dfs(g, k, v) == []
    requires IsPath(g, p) && p[0] == k
    ensures p[|p| - 1] !in v + [k]
    decreases SearchMeasure(g, k, v)
  {
    assert Edge(g, p[0], p[1]);
    var l := p[1];
    assert k in g.succ && l in g.succ[k];
    assert DfsEach(g, k, v, g.succ[k]) == [];
    DfsEachEmpty(g, k, v, g.succ[k], l);
    assert Elems(v + [k]) <= Nodes(g);
    if |p| == 2 {
      if l == k {
        DfsComplete(g, l, v + [k], [l, l]);
      }
    } else {
      PathTail(g, p);
      DfsComplete(g, l, v + [k], p[1..]);
    }
  }

  lemma PathTail(g: Graph, p: seq<Token>)
    requires IsPath(g, p) && |p| > 2
    ensures IsPath(g, p[1..])
  {
    var q := p[1..];
    forall m | 0 <= m < |q| - 1 ensures Edge(g, q[m], q[m + 1]) {
      assert q[m] == p[m + 1] && q[m + 1] == p[m + 2];
    }
  }

  /** When the search over `ls` finds nothing, every token of `ls` is off the path and its own search finds nothing. */
  lemma {:induction false} DfsEachEmpty(g: Graph, k: Token, v: seq<Token>, ls: seq<Token>, l: Token)
    requires k in g.succ && Elems(v) <= Nodes(g) && Elems(ls) <= Elems(g.succ[k])
    requires DfsEach(g, k, v, ls) == [] && l in ls
    ensures l in Nodes(g) && l !in v && SearchMeasure(g, l, v + [k]) < SearchMeasure(g, k, v)
    ensures Dfs(g, l, v + [k]) == []
    decreases |ls|
  {
    var h := ls[0];
    assert h in Elems(g.succ[k]);
    assert h in Nodes(g) && k in Nodes(g);
    if h != l {
      assert Elems(ls[1..]) <= Elems(g.succ[k]);
      DfsEachEmpty(g, k, v, ls[1..], l);
    } else {
      SearchMeasureDrops(g, k, v, l);
    }
  }

  /** A cycle is reported exactly when some token reaches itself, and a reported cycle is a walk that revisits its last token. */
  lemma CycleCorrect(g: Graph)
    requires g.Valid()
    ensures Cycle(g) == [] <==> !Cyclic(g)
    ensures Cycle(g) != [] ==> CycleWitness(g, Cycle(g))
  {
    CycleFromCorrect(g, g.keys);
    if Cycle(g) != [] {
      var w := Cycle(g);
      var i :| 0 <= i < |w| - 1 && w[i] == w[|w| - 1];
      var p := w[i..];
      assert IsPath(g, p) by {
        forall m | 0 <= m < |p| - 1 ensures Edge(g, p[m], p[m + 1]) {
          assert p[m] == w[i + m] && p[m + 1] == w[i + m + 1];
        }
      }
      assert Reaches(g, w[i], w[i]);
    } else if Cyclic(g) {
      var x :| Reaches(g, x, x);
      ReachesEndsAreNodes(g, x, x);
      var p :| IsPath(g, p) && p[0] == x && p[|p| - 1] == x;
      assert Dfs(g, x, []) == [];
      DfsComplete(g, x, [], p);
    }
  }

  lemma {:induction false} CycleFromCorrect(g: Graph, ks: seq<Token>)
    requires forall k :: k in ks ==> k in g.succ
    ensures CycleFrom(g, ks) == [] <==> forall k :: k in ks ==> Dfs(g, k, []) == []
    ensures CycleFrom(g, ks) != [] ==> CycleWitness(g, CycleFrom(g, ks))
    decreases |ks|
  {
    if ks != [] {
      assert Chain(g, [] + [ks[0]]);
      DfsSound(g, ks[0], []);
      CycleFromCorrect(g, ks[1..]);
      assert forall k :: k in ks ==> k == ks[0] || k in ks[1..];
    }
  }
}
