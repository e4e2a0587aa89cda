/**
 * The LALR(1) automaton (`LALR1Parsing.CreateAutomaton`): the LR(1)
 * automaton over LALR(1) items, with each kernel and closure collapsed onto
 * LR(0) cores, its states grouped by core-equal kernels, one merged state per
 * group whose lookaheads are the union over the group, and the transitions of
 * each group's first state redirected to groups.
 *
 * Items are values here: every kernel item the merge builds is a fresh copy,
 * so no input state is changed.
 */
module Lalr {
  import opened Wrappers
  import opened Tokens
  import opened Productions
  import opened Relations
  import opened Items
  import opened States
  import opened Closures
  import opened Automata

  /** The lookahead tokens the items of `k` with core `key` carry, together. */
  function LookAheadsAt(k: seq<Item>, key: ItemKey): set<Token> {
    set i, t | 0 <= i < |k| && KeyOf(Core, k[i]) == key && t in k[i].lookAheads :: t
  }

  /** The position of the first item of `k` with core `key`, or `|k|`. */
  function FirstWithCore(k: seq<Item>, key: ItemKey): (p: nat)
    ensures p <= |k|
    ensures p < |k| ==> KeyOf(Core, k[p]) == key
    ensures forall q | 0 <= q < p :: KeyOf(Core, k[q]) != key
    decreases |k|
  {
    if k == [] then 0
    else if KeyOf(Core, k[0]) == key then 0
    else 1 + FirstWithCore(k[1..], key)
  }

  lemma LookAheadsAtSnoc(k: seq<Item>, x: Item, key: ItemKey)
    ensures LookAheadsAt(k + [x], key) == LookAheadsAt(k, key) + (if KeyOf(Core, x) == key then Elems(x.lookAheads) else {})
  {
    var r := k + [x];
    assert forall i | 0 <= i < |k| :: r[i] == k[i];
    assert r[|k|] == x;
  }

  /** A core that no item carries has no lookaheads. */
  lemma LookAheadsAtAbsent(k: seq<Item>, key: ItemKey)
    requires key !in KeySet(Core, k)
    ensures LookAheadsAt(k, key) == {}
  {
    forall i | 0 <= i < |k| ensures KeyOf(Core, k[i]) != key {
      assert k[i] in k;
    }
  }

  /** In a core-distinct kernel the lookaheads at an item's core are its own. */
  lemma LookAheadsAtDistinct(k: seq<Item>, i: int)
    requires KeyDistinct(Core, k) && 0 <= i < |k|
    ensures LookAheadsAt(k, KeyOf(Core, k[i])) == Elems(k[i].lookAheads)
  {
    forall j | 0 <= j < |k| && KeyOf(Core, k[j]) == KeyOf(Core, k[i]) ensures j == i {
    }
  }

  /** The position `Contains` finds for `x` in `k` under the LR(0) core comparison, or `|k|`. */
  method FindCore(k: seq<Item>, x: Item) returns (p: nat)
    ensures p == FirstWithCore(k, KeyOf(Core, x))
  {
    p := 0;
    while p < |k| && KeyOf(Core, k[p]) != KeyOf(Core, x)
      invariant p <= |k|
      invariant forall q | 0 <= q < p :: KeyOf(Core, k[q]) != KeyOf(Core, x)
    {
      p := p + 1;
    }
    FirstIsLeast(k, KeyOf(Core, x), p);
  }

  lemma FirstIsLeast(k: seq<Item>, key: ItemKey, p: nat)
    requires p <= |k| && (p < |k| ==> KeyOf(Core, k[p]) == key)
    requires forall q | 0 <= q < p :: KeyOf(Core, k[q]) != key
    ensures p == FirstWithCore(k, key)
  {
  }

  /** `AddLookAhead` for each token in turn: the set grows by the tokens, in order, without repeats. */
  method AddLookAheads(ls: seq<Token>, ts: seq<Token>) returns (r: seq<Token>)
    ensures Elems(r) == Elems(ls) + Elems(ts)
    ensures |ls| <= |r| && r[..|ls|] == ls
    ensures Distinct(ls) ==> Distinct(r)
  {
    r := ls;
    var n := 0;
    while n < |ts|
      invariant n <= |ts|
      invariant Elems(r) == Elems(ls) + Elems(ts[..n])
      invariant |ls| <= |r| && r[..|ls|] == ls
      invariant Distinct(ls) ==> Distinct(r)
    {
      assert ts[..n + 1] == ts[..n] + [ts[n]];
      assert Elems(ts[..n] + [ts[n]]) == Elems(ts[..n]) + {ts[n]};
      assert Elems(AddUnique(r, ts[n])) == Elems(r) + {ts[n]};
      if Distinct(r) { DistinctAddUnique(r, ts[n]); }
      r := AddUnique(r, ts[n]);
      n := n + 1;
    }
    assert ts[..n] == ts;
  }

  /** Replacing item p by one with the same core keeps the core set. */
  lemma CoreKeptOnUpdate(k: seq<Item>, p: int, y: Item)
    requires 0 <= p < |k| && KeyOf(Core, y) == KeyOf(Core, k[p])
    ensures KeySet(Core, k[p := y]) == KeySet(Core, k)
    ensures KeyDistinct(Core, k) ==> KeyDistinct(Core, k[p := y])
  {
    var r := k[p := y];
    forall z | z in KeySet(Core, r) ensures z in KeySet(Core, k) {
      var x :| x in r && z == KeyOf(Core, x);
      var i :| 0 <= i < |r| && r[i] == x;
      assert k[i] in k;
    }
    forall z | z in KeySet(Core, k) ensures z in KeySet(Core, r) {
      var x :| x in k && z == KeyOf(Core, x);
      var i :| 0 <= i < |k| && k[i] == x;
      assert r[i] in r;
    }
  }

  // ------------------------------------------------------------------
  // CollapseLookaheads

  /** What `CollapseLookaheads` has built after the first n items. */
  predicate Collapsed(items: seq<Item>, n: nat, result: seq<Item>)
    requires n <= |items|
  {
    KeyDistinct(Core, result) && KeySet(Core, result) == KeySet(Core, items[..n]) &&
    (forall i | 0 <= i < |result| :: result[i].flavour == LALR1Item && Distinct(result[i].lookAheads)) &&
    (forall i | 0 <= i < |result| :: Elems(result[i].lookAheads) == LookAheadsAt(items[..n], KeyOf(Core, result[i]))) &&
    (forall i | 0 <= i < |result| ::
       FirstWithCore(items, KeyOf(Core, result[i])) < n &&
       result[i].production == items[FirstWithCore(items, KeyOf(Core, result[i]))].production &&
       result[i].index == items[FirstWithCore(items, KeyOf(Core, result[i]))].index) &&
    forall i, j | 0 <= i < j < |result| ::
      FirstWithCore(items, KeyOf(Core, result[i])) < FirstWithCore(items, KeyOf(Core, result[j]))
  }

  lemma CollapseFoundLookAheads(items: seq<Item>, n: nat, result: seq<Item>, p: nat, ls: seq<Token>)
    requires n < |items| && KeyDistinct(Core, result)
    requires forall i | 0 <= i < |result| :: Elems(result[i].lookAheads) == LookAheadsAt(items[..n], KeyOf(Core, result[i]))
    requires p < |result| && KeyOf(Core, result[p]) == KeyOf(Core, items[n])
    requires Elems(ls) == Elems(result[p].lookAheads) + Elems(items[n].lookAheads)
    ensures var r := result[p := result[p].(lookAheads := ls)];
      forall i | 0 <= i < |r| :: Elems(r[i].lookAheads) == LookAheadsAt(items[..n + 1], KeyOf(Core, r[i]))
  {
    var r := result[p := result[p].(lookAheads := ls)];
    assert items[..n + 1] == items[..n] + [items[n]];
    forall i | 0 <= i < |r| ensures Elems(r[i].lookAheads) == LookAheadsAt(items[..n + 1], KeyOf(Core, r[i])) {
      LookAheadsAtSnoc(items[..n], items[n], KeyOf(Core, r[i]));
    }
  }

  lemma CollapseFoundFirsts(items: seq<Item>, n: nat, result: seq<Item>, p: nat, y: Item)
    requires n < |items| && p < |result|
    requires forall i | 0 <= i < |result| ::
       FirstWithCore(items, KeyOf(Core, result[i])) < n &&
       result[i].production == items[FirstWithCore(items, KeyOf(Core, result[i]))].production &&
       result[i].index == items[FirstWithCore(items, KeyOf(Core, result[i]))].index
    requires forall i, j | 0 <= i < j < |result| ::
      FirstWithCore(items, KeyOf(Core, result[i])) < FirstWithCore(items, KeyOf(Core, result[j]))
    requires y.production == result[p].production && y.index == result[p].index
    ensures var r := result[p := y];
      (forall i | 0 <= i < |r| ::
       FirstWithCore(items, KeyOf(Core, r[i])) < n + 1 &&
       r[i].production == items[FirstWithCore(items, KeyOf(Core, r[i]))].production &&
       r[i].index == items[FirstWithCore(items, KeyOf(Core, r[i]))].index) &&
      forall i, j | 0 <= i < j < |r| ::
        FirstWithCore(items, KeyOf(Core, r[i])) < FirstWithCore(items, KeyOf(Core, r[j]))
  {
    assert KeyOf(Core, y) == KeyOf(Core, result[p]);
  }

  /** Item n's core is present at p: its lookaheads join that item's. */
  lemma CollapseFound(items: seq<Item>, n: nat, result: seq<Item>, p: nat, ls: seq<Token>)
    requires n < |items| && Collapsed(items, n, result)
    requires p < |result| && KeyOf(Core, result[p]) == KeyOf(Core, items[n])
    requires Elems(ls) == Elems(result[p].lookAheads) + Elems(items[n].lookAheads) && Distinct(ls)
    ensures Collapsed(items, n + 1, result[p := result[p].(lookAheads := ls)])
  {
    var x := items[n];
    var r := result[p := result[p].(lookAheads := ls)];
    assert items[..n + 1] == items[..n] + [x];
    KeySetSnoc(Core, items[..n], x);
    assert KeyOf(Core, x) in KeySet(Core, result) by { assert result[p] in result; }
    CoreKeptOnUpdate(result, p, r[p]);
    CollapseFoundLookAheads(items, n, result, p, ls);
    CollapseFoundFirsts(items, n, result, p, r[p]);
  }

  lemma CollapseNewKeys(items: seq<Item>, n: nat, result: seq<Item>, y: Item)
    requires n < |items| && KeyDistinct(Core, result) && KeySet(Core, result) == KeySet(Core, items[..n])
    requires forall i | 0 <= i < |result| :: KeyOf(Core, result[i]) != KeyOf(Core, items[n])
    requires KeyOf(Core, y) == KeyOf(Core, items[n])
    ensures KeyOf(Core, items[n]) !in KeySet(Core, items[..n])
    ensures KeyDistinct(Core, result + [y]) && KeySet(Core, result + [y]) == KeySet(Core, items[..n + 1])
    ensures FirstWithCore(items, KeyOf(Core, items[n])) == n
  {
    var key := KeyOf(Core, items[n]);
    assert items[..n + 1] == items[..n] + [items[n]];
    KeySetSnoc(Core, items[..n], items[n]);
    KeySetSnoc(Core, result, y);
    assert key !in KeySet(Core, result) by {
      forall z | z in result ensures KeyOf(Core, z) != key {
        var i :| 0 <= i < |result| && result[i] == z;
      }
    }
    KeyDistinctSnoc(Core, result, y);
    FirstOfNew(items, n, key);
  }

  lemma CollapseNewLookAheads(items: seq<Item>, n: nat, result: seq<Item>, y: Item)
    requires n < |items| && KeyOf(Core, items[n]) !in KeySet(Core, items[..n])
    requires forall i | 0 <= i < |result| :: Elems(result[i].lookAheads) == LookAheadsAt(items[..n], KeyOf(Core, result[i]))
    requires forall i | 0 <= i < |result| :: KeyOf(Core, result[i]) != KeyOf(Core, items[n])
    requires KeyOf(Core, y) == KeyOf(Core, items[n]) && Elems(y.lookAheads) == Elems(items[n].lookAheads)
    ensures forall i | 0 <= i < |result| + 1 ::
              Elems((result + [y])[i].lookAheads) == LookAheadsAt(items[..n + 1], KeyOf(Core, (result + [y])[i]))
  {
    var r := result + [y];
    assert items[..n + 1] == items[..n] + [items[n]];
    LookAheadsAtAbsent(items[..n], KeyOf(Core, items[n]));
    forall i | 0 <= i < |r| ensures Elems(r[i].lookAheads) == LookAheadsAt(items[..n + 1], KeyOf(Core, r[i])) {
      LookAheadsAtSnoc(items[..n], items[n], KeyOf(Core, r[i]));
      if i < |result| { assert r[i] == result[i]; }
    }
  }

  /** Item n's core is new: an item for it is appended, with the item's lookaheads. */
  lemma CollapseNew(items: seq<Item>, n: nat, result: seq<Item>, ls: seq<Token>)
    requires n < |items| && Collapsed(items, n, result)
    requires forall i | 0 <= i < |result| :: KeyOf(Core, result[i]) != KeyOf(Core, items[n])
    requires Elems(ls) == Elems(items[n].lookAheads) && Distinct(ls)
    ensures Collapsed(items, n + 1, result + [Item(LALR1Item, items[n].production, items[n].index, ls)])
  {
    var x := items[n];
    var y := Item(LALR1Item, x.production, x.index, ls);
    var r := result + [y];
    CollapseNewKeys(items, n, result, y);
    CollapseNewLookAheads(items, n, result, y);
    assert forall i | 0 <= i < |result| :: r[i] == result[i];
  }

  /**
   * What `CollapseLookaheads` makes of `items`: one item per core, in order of the core's first
   * occurrence, built from that first item with an empty lookahead set, and
   * carrying the union of the lookaheads of all items with that core.
   */
  predicate CollapseOf(items: seq<Item>, result: seq<Item>) {
    KeyDistinct(Core, result) && KeySet(Core, result) == KeySet(Core, items) &&
    (forall i | 0 <= i < |result| :: result[i].flavour == LALR1Item && Distinct(result[i].lookAheads)) &&
    (forall i | 0 <= i < |result| :: Elems(result[i].lookAheads) == LookAheadsAt(items, KeyOf(Core, result[i]))) &&
    (forall i | 0 <= i < |result| ::
       FirstWithCore(items, KeyOf(Core, result[i])) < |items| &&
       result[i].production == items[FirstWithCore(items, KeyOf(Core, result[i]))].production &&
       result[i].index == items[FirstWithCore(items, KeyOf(Core, result[i]))].index) &&
    forall i, j | 0 <= i < j < |result| ::
      FirstWithCore(items, KeyOf(Core, result[i])) < FirstWithCore(items, KeyOf(Core, result[j]))
  }

  lemma CollapseDone(items: seq<Item>, result: seq<Item>)
    requires Collapsed(items, |items|, result)
    ensures CollapseOf(items, result)
  {
    assert items[..|items|] == items;
  }

  /** `CollapseLookaheads` over the items in order. */
  method CollapseLookAheads(items: seq<Item>) returns (result: seq<Item>)
    ensures CollapseOf(items, result)
  {
    result := [];
    var n := 0;
    while n < |items|
      invariant n <= |items| && Collapsed(items, n, result)
    {
      var x := items[n];
      var p := FindCore(result, x);
      if p == |result| {
        var ls := AddLookAheads([], x.lookAheads);
        CollapseNew(items, n, result, ls);
        result := result + [Item(LALR1Item, x.production, x.index, ls)];
      } else {
        var ls := AddLookAheads(result[p].lookAheads, x.lookAheads);
        CollapseFound(items, n, result, p, ls);
        result := result[p := result[p].(lookAheads := ls)];
      }
      n := n + 1;
    }
    CollapseDone(items, result);
  }

  /** Every lookahead, at every core, survives the collapse, and no other joins it. */
  lemma CollapseKeepsLookAheads(items: seq<Item>, result: seq<Item>, key: ItemKey)
    requires CollapseOf(items, result)
    ensures LookAheadsAt(result, key) == LookAheadsAt(items, key)
  {
    if key in KeySet(Core, result) {
      var x :| x in result && KeyOf(Core, x) == key;
      var i :| 0 <= i < |result| && result[i] == x;
      LookAheadsAtDistinct(result, i);
    } else {
      LookAheadsAtAbsent(result, key);
      LookAheadsAtAbsent(items, key);
    }
  }

  // ------------------------------------------------------------------
  // MergeItems

  /** The first |a| items are a's, with their lookaheads possibly grown. */
  predicate KeepsPrefix(a: seq<Item>, result: seq<Item>) {
    |a| <= |result| && forall i | 0 <= i < |a| :: result[i] == a[i].(lookAheads := result[i].lookAheads)
  }

  /** The items after position `from` are built from the first item of b with the same core, below n. */
  predicate FromFirstOf(b: seq<Item>, n: nat, result: seq<Item>, from: nat) {
    forall i | from <= i < |result| ::
      FirstWithCore(b, KeyOf(Core, result[i])) < n && n <= |b| &&
      result[i].production == b[FirstWithCore(b, KeyOf(Core, result[i]))].production &&
      result[i].index == b[FirstWithCore(b, KeyOf(Core, result[i]))].index &&
      result[i].flavour == b[FirstWithCore(b, KeyOf(Core, result[i]))].flavour
  }

  /** The items from position `from` on appear in the order in which b first shows their cores. */
  predicate InFirstOrder(b: seq<Item>, result: seq<Item>, from: nat) {
    forall i, j | from <= i < j < |result| :: FirstWithCore(b, KeyOf(Core, result[i])) < FirstWithCore(b, KeyOf(Core, result[j]))
  }

  /** Each item's lookaheads are the union, over a and b, of those at its core. */
  predicate UnitedLookAheads(a: seq<Item>, b: seq<Item>, result: seq<Item>) {
    forall i | 0 <= i < |result| ::
      Elems(result[i].lookAheads) == LookAheadsAt(a, KeyOf(Core, result[i])) + LookAheadsAt(b, KeyOf(Core, result[i]))
  }

  /** What the second loop of `MergeItems` has built after the first n items of b. */
  predicate MergedSoFar(a: seq<Item>, b: seq<Item>, n: nat, result: seq<Item>)
    requires n <= |b|
  {
    KeepsPrefix(a, result) &&
    KeySet(Core, result) == KeySet(Core, a) + KeySet(Core, b[..n]) &&
    FromFirstOf(b, n, result, |a|) && InFirstOrder(b, result, |a|) &&
    (KernelOf(LALR1Item, a) && KernelOf(LALR1Item, b) ==> KernelOf(LALR1Item, result)) &&
    (KeyDistinct(Core, a) ==> KeyDistinct(Core, result) && UnitedLookAheads(a, b[..n], result))
  }

  lemma MergeStart(a: seq<Item>, b: seq<Item>)
    ensures MergedSoFar(a, b, 0, a)
  {
    assert b[..0] == [];
    assert KeySet(Core, []) == {};
    forall i | 0 <= i < |a| && KeyDistinct(Core, a) ensures Elems(a[i].lookAheads) == LookAheadsAt(a, KeyOf(Core, a[i])) + LookAheadsAt(b[..0], KeyOf(Core, a[i])) {
      LookAheadsAtDistinct(a, i);
      LookAheadsAtAbsent(b[..0], KeyOf(Core, a[i]));
    }
  }

  lemma KeyDistinctSnoc(c: Comparison, k: seq<Item>, x: Item)
    requires KeyDistinct(c, k) && KeyOf(c, x) !in KeySet(c, k)
    ensures KeyDistinct(c, k + [x])
  {
    var r := k + [x];
    forall i, j | 0 <= i < j < |r| ensures KeyOf(c, r[i]) != KeyOf(c, r[j]) {
      if j == |k| { assert r[i] == k[i] && k[i] in k; }
      else { assert r[i] == k[i] && r[j] == k[j]; }
    }
  }

  lemma UnitedFound(a: seq<Item>, b: seq<Item>, n: nat, result: seq<Item>, p: nat, ls: seq<Token>)
    requires n < |b| && UnitedLookAheads(a, b[..n], result) && KeyDistinct(Core, result)
    requires p < |result| && KeyOf(Core, result[p]) == KeyOf(Core, b[n])
    requires Elems(ls) == Elems(result[p].lookAheads) + Elems(b[n].lookAheads)
    ensures UnitedLookAheads(a, b[..n + 1], result[p := result[p].(lookAheads := ls)])
  {
    var r := result[p := result[p].(lookAheads := ls)];
    assert b[..n + 1] == b[..n] + [b[n]];
    forall i | 0 <= i < |r|
      ensures Elems(r[i].lookAheads) == LookAheadsAt(a, KeyOf(Core, r[i])) + LookAheadsAt(b[..n + 1], KeyOf(Core, r[i]))
    {
      LookAheadsAtSnoc(b[..n], b[n], KeyOf(Core, r[i]));
      if i != p { assert KeyOf(Core, r[i]) != KeyOf(Core, b[n]); }
    }
  }

  lemma UnitedNew(a: seq<Item>, b: seq<Item>, n: nat, result: seq<Item>)
    requires n < |b| && UnitedLookAheads(a, b[..n], result)
    requires KeyOf(Core, b[n]) !in KeySet(Core, a) && KeyOf(Core, b[n]) !in KeySet(Core, b[..n])
    requires forall i | 0 <= i < |result| :: KeyOf(Core, result[i]) != KeyOf(Core, b[n])
    ensures UnitedLookAheads(a, b[..n + 1], result + [b[n]])
  {
    var key := KeyOf(Core, b[n]);
    var r := result + [b[n]];
    assert b[..n + 1] == b[..n] + [b[n]];
    LookAheadsAtAbsent(a, key);
    LookAheadsAtAbsent(b[..n], key);
    forall i | 0 <= i < |r|
      ensures Elems(r[i].lookAheads) == LookAheadsAt(a, KeyOf(Core, r[i])) + LookAheadsAt(b[..n + 1], KeyOf(Core, r[i]))
    {
      LookAheadsAtSnoc(b[..n], b[n], KeyOf(Core, r[i]));
      if i < |result| { assert r[i] == result[i]; }
    }
  }

  lemma FirstOfNew(b: seq<Item>, n: nat, key: ItemKey)
    requires n < |b| && KeyOf(Core, b[n]) == key && key !in KeySet(Core, b[..n])
    ensures FirstWithCore(b, key) == n
  {
    forall q | 0 <= q < n ensures KeyOf(Core, b[q]) != key {
      assert b[..n][q] == b[q];
      assert b[q] in b[..n];
    }
    FirstIsLeast(b, key, n);
  }

  lemma FoundKeySet(a: seq<Item>, b: seq<Item>, n: nat, result: seq<Item>, p: nat, y: Item)
    requires n < |b| && KeySet(Core, result) == KeySet(Core, a) + KeySet(Core, b[..n])
    requires p < |result| && KeyOf(Core, result[p]) == KeyOf(Core, b[n]) && KeyOf(Core, y) == KeyOf(Core, b[n])
    ensures KeySet(Core, result[p := y]) == KeySet(Core, a) + KeySet(Core, b[..n + 1])
    ensures KeyDistinct(Core, result) ==> KeyDistinct(Core, result[p := y])
  {
    assert b[..n + 1] == b[..n] + [b[n]];
    KeySetSnoc(Core, b[..n], b[n]);
    assert KeyOf(Core, b[n]) in KeySet(Core, result) by { assert result[p] in result; }
    CoreKeptOnUpdate(result, p, y);
  }

  lemma FoundFromFirst(a: seq<Item>, b: seq<Item>, n: nat, result: seq<Item>, p: nat, y: Item)
    requires n < |b| && FromFirstOf(b, n, result, |a|)
    requires p < |result| && KeyOf(Core, y) == KeyOf(Core, result[p])
    requires y.production == result[p].production && y.index == result[p].index && y.flavour == result[p].flavour
    ensures FromFirstOf(b, n + 1, result[p := y], |a|)
  {
    var r := result[p := y];
    forall i | |a| <= i < |r|
      ensures FirstWithCore(b, KeyOf(Core, r[i])) < n + 1 && n + 1 <= |b| &&
        r[i].production == b[FirstWithCore(b, KeyOf(Core, r[i]))].production &&
        r[i].index == b[FirstWithCore(b, KeyOf(Core, r[i]))].index &&
        r[i].flavour == b[FirstWithCore(b, KeyOf(Core, r[i]))].flavour
    {
      assert KeyOf(Core, r[i]) == KeyOf(Core, result[i]);
    }
  }

  lemma FoundKernel(b: seq<Item>, n: nat, result: seq<Item>, p: nat, ls: seq<Token>)
    requires n < |b| && KernelOf(LALR1Item, b) && KernelOf(LALR1Item, result)
    requires p < |result| && KeyOf(Core, result[p]) == KeyOf(Core, b[n])
    requires Distinct(result[p].lookAheads) && Distinct(b[n].lookAheads) ==> Distinct(ls)
    ensures KernelOf(LALR1Item, result[p := result[p].(lookAheads := ls)])
  {
    assert WellFormedItem(LALR1Item, b[n]);
    assert WellFormedItem(LALR1Item, result[p]);
  }

  /** Item n of b has its core at p: its lookaheads join that item's. */
  lemma MergeFound(a: seq<Item>, b: seq<Item>, n: nat, result: seq<Item>, p: nat, ls: seq<Token>)
    requires n < |b| && MergedSoFar(a, b, n, result)
    requires p < |result| && KeyOf(Core, result[p]) == KeyOf(Core, b[n])
    requires Elems(ls) == Elems(result[p].lookAheads) + Elems(b[n].lookAheads)
    requires Distinct(result[p].lookAheads) && Distinct(b[n].lookAheads) ==> Distinct(ls)
    ensures MergedSoFar(a, b, n + 1, result[p := result[p].(lookAheads := ls)])
  {
    var y := result[p].(lookAheads := ls);
    var r := result[p := y];
    assert KeepsPrefix(a, r);
    FoundKeySet(a, b, n, result, p, y);
    FoundFromFirst(a, b, n, result, p, y);
    FoundOrder(b, result, |a|, p, y);
    if KernelOf(LALR1Item, a) && KernelOf(LALR1Item, b) {
      FoundKernel(b, n, result, p, ls);
    }
    if KeyDistinct(Core, a) {
      UnitedFound(a, b, n, result, p, ls);
    }
  }

  lemma NewKeySet(a: seq<Item>, b: seq<Item>, n: nat, result: seq<Item>)
    requires n < |b| && KeySet(Core, result) == KeySet(Core, a) + KeySet(Core, b[..n])
    requires forall i | 0 <= i < |result| :: KeyOf(Core, result[i]) != KeyOf(Core, b[n])
    ensures KeyOf(Core, b[n]) !in KeySet(Core, result)
    ensures KeySet(Core, result + [b[n]]) == KeySet(Core, a) + KeySet(Core, b[..n + 1])
  {
    var key := KeyOf(Core, b[n]);
    forall z | z in result ensures KeyOf(Core, z) != key {
      var i :| 0 <= i < |result| && result[i] == z;
    }
    assert b[..n + 1] == b[..n] + [b[n]];
    KeySetSnoc(Core, b[..n], b[n]);
    KeySetSnoc(Core, result, b[n]);
  }

  lemma NewFromFirst(a: seq<Item>, b: seq<Item>, n: nat, result: seq<Item>)
    requires n < |b| && FromFirstOf(b, n, result, |a|) && |a| <= |result|
    requires KeyOf(Core, b[n]) !in KeySet(Core, b[..n])
    ensures FromFirstOf(b, n + 1, result + [b[n]], |a|)
  {
    var r := result + [b[n]];
    FirstOfNew(b, n, KeyOf(Core, b[n]));
    forall i | |a| <= i < |r|
      ensures FirstWithCore(b, KeyOf(Core, r[i])) < n + 1 && n + 1 <= |b| &&
        r[i].production == b[FirstWithCore(b, KeyOf(Core, r[i]))].production &&
        r[i].index == b[FirstWithCore(b, KeyOf(Core, r[i]))].index &&
        r[i].flavour == b[FirstWithCore(b, KeyOf(Core, r[i]))].flavour
    {
      if i < |result| { assert r[i] == result[i]; }
    }
  }

  /** Growing the lookaheads of one item keeps every core, so the order of first appearance stays. */
  lemma FoundOrder(b: seq<Item>, result: seq<Item>, from: nat, p: nat, y: Item)
    requires InFirstOrder(b, result, from) && p < |result| && KeyOf(Core, y) == KeyOf(Core, result[p])
    ensures InFirstOrder(b, result[p := y], from)
  {
    var r := result[p := y];
    assert forall i | 0 <= i < |r| :: KeyOf(Core, r[i]) == KeyOf(Core, result[i]);
  }

  /** The appended item is the first of b with its core, later than every core appended before. */
  lemma NewOrder(a: seq<Item>, b: seq<Item>, n: nat, result: seq<Item>)
    requires n < |b| && FromFirstOf(b, n, result, |a|) && InFirstOrder(b, result, |a|)
    requires KeyOf(Core, b[n]) !in KeySet(Core, b[..n])
    ensures InFirstOrder(b, result + [b[n]], |a|)
  {
    var r := result + [b[n]];
    FirstOfNew(b, n, KeyOf(Core, b[n]));
    forall i, j | |a| <= i < j < |r| ensures FirstWithCore(b, KeyOf(Core, r[i])) < FirstWithCore(b, KeyOf(Core, r[j])) {
      assert r[i] == result[i];
      if j < |result| { assert r[j] == result[j]; }
    }
  }

  lemma NewPrefix(a: seq<Item>, b: seq<Item>, n: nat, result: seq<Item>)
    requires n < |b| && KeepsPrefix(a, result)
    ensures KeepsPrefix(a, result + [b[n]])
  {
    var r := result + [b[n]];
    assert forall i | 0 <= i < |result| :: r[i] == result[i];
  }

  lemma NewKernel(b: seq<Item>, n: nat, result: seq<Item>)
    requires n < |b| && KernelOf(LALR1Item, b) && KernelOf(LALR1Item, result)
    ensures KernelOf(LALR1Item, result + [b[n]])
  {
    var r := result + [b[n]];
    assert forall i | 0 <= i < |result| :: r[i] == result[i];
    assert WellFormedItem(LALR1Item, b[n]);
  }

  /** Item n of b has a core not yet present: a copy of it is appended. */
  lemma MergeNew(a: seq<Item>, b: seq<Item>, n: nat, result: seq<Item>)
    requires n < |b| && MergedSoFar(a, b, n, result)
    requires forall i | 0 <= i < |result| :: KeyOf(Core, result[i]) != KeyOf(Core, b[n])
    ensures MergedSoFar(a, b, n + 1, result + [b[n]])
  {
    var x := b[n];
    NewPrefix(a, b, n, result);
    NewKeySet(a, b, n, result);
    assert KeyOf(Core, x) !in KeySet(Core, b[..n]);
    NewFromFirst(a, b, n, result);
    NewOrder(a, b, n, result);
    if KernelOf(LALR1Item, a) && KernelOf(LALR1Item, b) {
      NewKernel(b, n, result);
    }
    if KeyDistinct(Core, a) {
      KeyDistinctSnoc(Core, result, x);
      UnitedNew(a, b, n, result);
    }
  }

  /**
   * What `MergeItems(a, b)` makes of two kernels: a's items first, with their lookaheads possibly grown, then
   * one item per core of b that a lacks, built from the first item of b with that core and in the order
   * in which b first shows those cores; together they have the cores of both, and (when a is
   * core-distinct) each carries the lookaheads of both at its core.
   */
  predicate MergeOf(a: seq<Item>, b: seq<Item>, result: seq<Item>) {
    (|a| <= |result| && forall i | 0 <= i < |a| :: result[i] == a[i].(lookAheads := result[i].lookAheads)) &&
    KeySet(Core, result) == KeySet(Core, a) + KeySet(Core, b) && InFirstOrder(b, result, |a|) &&
    (forall i | |a| <= i < |result| ::
       FirstWithCore(b, KeyOf(Core, result[i])) < |b| &&
       result[i].production == b[FirstWithCore(b, KeyOf(Core, result[i]))].production &&
       result[i].index == b[FirstWithCore(b, KeyOf(Core, result[i]))].index) &&
    (KernelOf(LALR1Item, a) && KernelOf(LALR1Item, b) ==> KernelOf(LALR1Item, result)) &&
    (KeyDistinct(Core, a) ==> KeyDistinct(Core, result)) &&
    (KeyDistinct(Core, a) ==> forall i | 0 <= i < |result| ::
       Elems(result[i].lookAheads) == LookAheadsAt(a, KeyOf(Core, result[i])) + LookAheadsAt(b, KeyOf(Core, result[i])))
  }

  lemma MergeDone(a: seq<Item>, b: seq<Item>, result: seq<Item>)
    requires MergedSoFar(a, b, |b|, result)
    ensures MergeOf(a, b, result)
  {
    assert b[..|b|] == b;
  }

  /**
   * `MergeItems(a, b)`: without b, copies of a's items; otherwise copies of
   * a's items followed by copies of b's items whose core a lacks, the
   * lookaheads of b's items joining those of the item with the same core.
   * Every item is a copy, so neither input changes.
   */
  method MergeItems(a: seq<Item>, b: Option<seq<Item>>) returns (result: seq<Item>)
    ensures b.None? ==> result == a
    ensures b.Some? ==> MergeOf(a, b.value, result)
  {
    if b.None? {
      return a;
    }
    var bs := b.value;
    result := a;
    MergeStart(a, bs);
    var n := 0;
    while n < |bs|
      invariant n <= |bs| && MergedSoFar(a, bs, n, result)
    {
      var y := bs[n];
      var p := FindCore(result, y);
      if p == |result| {
        MergeNew(a, bs, n, result);
        result := result + [y];
      } else {
        var ls := AddLookAheads(result[p].lookAheads, y.lookAheads);
        MergeFound(a, bs, n, result, p, ls);
        result := result[p := result[p].(lookAheads := ls)];
      }
      n := n + 1;
    }
    MergeDone(a, bs, result);
  }

  // ------------------------------------------------------------------
  // Merge groups

  /** The state positions the groups hold. */
  function Members(groups: seq<seq<nat>>): set<nat> {
    set g, k | 0 <= g < |groups| && 0 <= k < |groups[g]| :: groups[g][k]
  }

  predicate Ascending(s: seq<nat>) {
    forall a, b | 0 <= a < b < |s| :: s[a] < s[b]
  }

  /**
   * The merge groups as the nested scan builds them: every state is in some
   * group; each group is non-empty and in state order; a group starts at the
   * first state no earlier group holds, and holds exactly the states no
   * earlier group holds whose kernel its first state's kernel equals under
   * the LR(0) core comparison.
   */
  predicate GroupsOf(kernels: seq<seq<Item>>, groups: seq<seq<nat>>) {
    |groups| <= |kernels| &&
    (forall g, k | 0 <= g < |groups| && 0 <= k < |groups[g]| :: groups[g][k] < |kernels|) &&
    (forall i: nat | i < |kernels| :: i in Members(groups)) &&
    (forall g | 0 <= g < |groups| :: groups[g] != [] && Ascending(groups[g])) &&
    (forall g | 0 <= g < |groups| ::
       groups[g][0] !in Members(groups[..g]) && forall i: nat | i < groups[g][0] :: i in Members(groups[..g])) &&
    forall g, i | 0 <= g < |groups| && 0 <= i < |kernels| ::
      i in groups[g] <==> i !in Members(groups[..g]) && OrderlessEqual(Core, kernels[groups[g][0]], kernels[i])
  }

  lemma OrderlessEqualReflexive(c: Comparison, k: seq<Item>)
    ensures OrderlessEqual(c, k, k)
  {
    forall i | 0 <= i < |k| ensures Matched(c, k[i], k) {
      EqualIsKeyEquality(c, k[i], k[i]);
    }
  }

  lemma MembersSnoc(groups: seq<seq<nat>>, m: seq<nat>)
    ensures Members(groups + [m]) == Members(groups) + set x | x in m
    ensures (groups + [m])[..|groups|] == groups
  {
    var gs := groups + [m];
    forall x | x in Members(gs) ensures x in Members(groups) + set x | x in m {
      var g, k :| 0 <= g < |gs| && 0 <= k < |gs[g]| && x == gs[g][k];
      if g < |groups| { assert gs[g] == groups[g]; }
    }
    forall x | x in Members(groups) ensures x in Members(gs) {
      var g, k :| 0 <= g < |groups| && 0 <= k < |groups[g]| && x == groups[g][k];
      assert gs[g] == groups[g];
    }
    forall k | 0 <= k < |m| ensures m[k] in Members(gs) {
      assert gs[|groups|] == m;
    }
  }

  /** The inner scan: the states not yet used whose kernel the outer state's kernel equals, in order. */
  method ScanGroup(kernels: seq<seq<Item>>, o: nat, used: set<nat>) returns (m: seq<nat>, used': set<nat>)
    requires o < |kernels|
    ensures Ascending(m) && used' == used + set x | x in m
    ensures forall i | 0 <= i < |kernels| :: i in m <==> i !in used && OrderlessEqual(Core, kernels[o], kernels[i])
    ensures forall k | 0 <= k < |m| :: m[k] < |kernels|
  {
    m, used' := [], used;
    var j := 0;
    while j < |kernels|
      invariant j <= |kernels|
      invariant Ascending(m) && used' == used + set x | x in m
      invariant forall k | 0 <= k < |m| :: m[k] < j
      invariant forall i | 0 <= i < |kernels| :: i in m <==> i < j && i !in used && OrderlessEqual(Core, kernels[o], kernels[i])
    {
      var eq := OrderlessSequenceEqual(Core, kernels[o], kernels[j]);
      if j !in used' && eq {
        assert j !in used;
        assert (set x | x in m + [j]) == (set x | x in m) + {j} by {
          assert forall x :: x in m + [j] <==> x in m || x == j;
        }
        m, used' := m + [j], used' + {j};
      } else if j !in used {
        assert !eq;
      }
      j := j + 1;
    }
  }

  /** The groups the outer scan has built after o states. */
  predicate GroupsUpTo(kernels: seq<seq<Item>>, groups: seq<seq<nat>>, o: nat) {
    o <= |kernels| && |groups| <= o &&
    (forall g, k | 0 <= g < |groups| && 0 <= k < |groups[g]| :: groups[g][k] < |kernels|) &&
    (forall i: nat | i < o :: i in Members(groups)) &&
    (forall g | 0 <= g < |groups| :: groups[g] != [] && Ascending(groups[g]) && groups[g][0] < o) &&
    (forall g | 0 <= g < |groups| ::
       groups[g][0] !in Members(groups[..g]) && forall i: nat | i < groups[g][0] :: i in Members(groups[..g])) &&
    forall g, i | 0 <= g < |groups| && 0 <= i < |kernels| ::
      i in groups[g] <==> i !in Members(groups[..g]) && OrderlessEqual(Core, kernels[groups[g][0]], kernels[i])
  }

  /** What the inner scan promises about the group it returns for the outer state o. */
  predicate ScannedGroup(kernels: seq<seq<Item>>, groups: seq<seq<nat>>, o: nat, m: seq<nat>)
    requires o < |kernels|
  {
    Ascending(m) && (forall k | 0 <= k < |m| :: m[k] < |kernels|) &&
    forall i | 0 <= i < |kernels| :: i in m <==> i !in Members(groups) && OrderlessEqual(Core, kernels[o], kernels[i])
  }

  lemma ScannedStartsAt(kernels: seq<seq<Item>>, groups: seq<seq<nat>>, o: nat, m: seq<nat>)
    requires GroupsUpTo(kernels, groups, o) && o < |kernels| && o !in Members(groups)
    requires ScannedGroup(kernels, groups, o, m)
    ensures m != [] && m[0] == o
  {
    OrderlessEqualReflexive(Core, kernels[o]);
    assert o in m;
    assert m[0] in m && m[0] < |kernels|;
    var k :| 0 <= k < |m| && m[k] == o;
  }

  lemma StepFirsts(kernels: seq<seq<Item>>, groups: seq<seq<nat>>, o: nat, m: seq<nat>)
    requires GroupsUpTo(kernels, groups, o) && o < |kernels| && o !in Members(groups)
    requires ScannedGroup(kernels, groups, o, m) && m != [] && m[0] == o
    ensures var gs := groups + [m];
      forall g | 0 <= g < |gs| :: gs[g][0] !in Members(gs[..g]) && forall i: nat | i < gs[g][0] :: i in Members(gs[..g])
  {
    var gs := groups + [m];
    assert forall g | 0 <= g < |groups| :: gs[g] == groups[g] && gs[..g] == groups[..g];
    assert gs[|groups|] == m && gs[..|groups|] == groups;
  }

  lemma StepClasses(kernels: seq<seq<Item>>, groups: seq<seq<nat>>, o: nat, m: seq<nat>)
    requires GroupsUpTo(kernels, groups, o) && o < |kernels| && o !in Members(groups)
    requires ScannedGroup(kernels, groups, o, m) && m != [] && m[0] == o
    ensures var gs := groups + [m];
      forall g, i | 0 <= g < |gs| && 0 <= i < |kernels| ::
        i in gs[g] <==> i !in Members(gs[..g]) && OrderlessEqual(Core, kernels[gs[g][0]], kernels[i])
  {
    var gs := groups + [m];
    assert forall g | 0 <= g < |groups| :: gs[g] == groups[g] && gs[..g] == groups[..g];
    assert gs[|groups|] == m && gs[..|groups|] == groups;
  }

  lemma StepShape(kernels: seq<seq<Item>>, groups: seq<seq<nat>>, o: nat, m: seq<nat>)
    requires GroupsUpTo(kernels, groups, o) && o < |kernels|
    requires ScannedGroup(kernels, groups, o, m) && m != [] && m[0] == o
    ensures var gs := groups + [m];
      (forall g, k | 0 <= g < |gs| && 0 <= k < |gs[g]| :: gs[g][k] < |kernels|) &&
      forall g | 0 <= g < |gs| :: gs[g] != [] && Ascending(gs[g]) && gs[g][0] < o + 1
  {
    var gs := groups + [m];
    assert forall g | 0 <= g < |groups| :: gs[g] == groups[g];
    assert gs[|groups|] == m;
  }

  lemma StepCovers(kernels: seq<seq<Item>>, groups: seq<seq<nat>>, o: nat, m: seq<nat>)
    requires GroupsUpTo(kernels, groups, o) && o < |kernels|
    requires m != [] && m[0] == o
    ensures forall i: nat | i < o + 1 :: i in Members(groups + [m])
  {
    MembersSnoc(groups, m);
    assert o in m;
  }

  lemma GroupStep(kernels: seq<seq<Item>>, groups: seq<seq<nat>>, o: nat, m: seq<nat>)
    requires GroupsUpTo(kernels, groups, o) && o < |kernels| && o !in Members(groups)
    requires ScannedGroup(kernels, groups, o, m)
    ensures GroupsUpTo(kernels, groups + [m], o + 1)
  {
    ScannedStartsAt(kernels, groups, o, m);
    StepShape(kernels, groups, o, m);
    StepCovers(kernels, groups, o, m);
    StepFirsts(kernels, groups, o, m);
    StepClasses(kernels, groups, o, m);
  }

  /** The outer scan of the merge: one group per state that no earlier group holds. */
  method MergeGroups(kernels: seq<seq<Item>>) returns (groups: seq<seq<nat>>)
    ensures GroupsOf(kernels, groups)
  {
    var used: set<nat> := {};
    groups := [];
    var o := 0;
    while o < |kernels|
      invariant used == Members(groups) && GroupsUpTo(kernels, groups, o)
    {
      if o !in used {
        var m, used' := ScanGroup(kernels, o, used);
        GroupStep(kernels, groups, o, m);
        MembersSnoc(groups, m);
        groups, used := groups + [m], used';
      }
      o := o + 1;
    }
  }

  lemma MembersPrefix(groups: seq<seq<nat>>, h: int, g: int)
    requires 0 <= h <= g <= |groups|
    ensures Members(groups[..h]) <= Members(groups[..g])
  {
    forall x | x in Members(groups[..h]) ensures x in Members(groups[..g]) {
      var e, k :| 0 <= e < h && 0 <= k < |groups[..h][e]| && groups[..h][e][k] == x;
      assert groups[..g][e] == groups[..h][e];
    }
  }

  /** A state that no group before g holds is in none of them. */
  lemma NotInEarlierGroup(groups: seq<seq<nat>>, h: int, g: int, x: nat)
    requires 0 <= h < g <= |groups| && x !in Members(groups[..g])
    ensures x !in groups[h]
  {
    forall k | 0 <= k < |groups[h]| ensures groups[h][k] != x {
      assert groups[..g][h] == groups[h];
      assert groups[..g][h][k] in Members(groups[..g]);
    }
  }

  /** Each state is in one group at most. */
  lemma GroupUnique(kernels: seq<seq<Item>>, groups: seq<seq<nat>>, g: int, h: int, i: nat)
    requires GroupsOf(kernels, groups) && 0 <= g < h < |groups| && i in groups[g]
    ensures i !in groups[h]
  {
    var k :| 0 <= k < |groups[g]| && groups[g][k] == i;
    assert groups[..h][g] == groups[g];
    assert groups[..h][g][k] in Members(groups[..h]);
  }

  /** The groups appear in the order of their first states. */
  lemma FirstsAscend(kernels: seq<seq<Item>>, groups: seq<seq<nat>>, g: int, h: int)
    requires GroupsOf(kernels, groups) && 0 <= g < h < |groups|
    ensures groups[g][0] < groups[h][0]
  {
    assert groups[..h][g] == groups[g];
    assert groups[..h][g][0] in Members(groups[..h]);
    MembersPrefix(groups, g, h);
  }

  /** For core-distinct kernels, the first states of two groups have different cores. */
  lemma DistinctFirstCores(kernels: seq<seq<Item>>, groups: seq<seq<nat>>, h: int, g: int)
    requires GroupsOf(kernels, groups) && forall j | 0 <= j < |kernels| :: KeyDistinct(Core, kernels[j])
    requires 0 <= h < g < |groups|
    ensures KeySet(Core, kernels[groups[h][0]]) != KeySet(Core, kernels[groups[g][0]])
  {
    var e, f := groups[h][0], groups[g][0];
    MembersPrefix(groups, h, g);
    NotInEarlierGroup(groups, h, g, f);
    OrderlessEqualIsSetEquality(Core, kernels[e], kernels[f]);
  }

  /**
   * For core-distinct kernels the groups are the classes of equal core sets:
   * a state is in a group exactly when its kernel has the cores of the
   * group's first state.
   */
  lemma GroupsAreCoreClasses(kernels: seq<seq<Item>>, groups: seq<seq<nat>>, g: int, i: int)
    requires GroupsOf(kernels, groups) && forall j | 0 <= j < |kernels| :: KeyDistinct(Core, kernels[j])
    requires 0 <= g < |groups| && 0 <= i < |kernels|
    ensures i in groups[g] <==> KeySet(Core, kernels[i]) == KeySet(Core, kernels[groups[g][0]])
  {
    var f := groups[g][0];
    OrderlessEqualIsSetEquality(Core, kernels[f], kernels[i]);
    if KeySet(Core, kernels[i]) == KeySet(Core, kernels[f]) {
      assert i in Members(groups);
      var h, k :| 0 <= h < |groups| && 0 <= k < |groups[h]| && groups[h][k] == i;
      var e := groups[h][0];
      assert i in groups[h];
      assert OrderlessEqual(Core, kernels[e], kernels[i]);
      OrderlessEqualIsSetEquality(Core, kernels[e], kernels[i]);
      assert KeySet(Core, kernels[e]) == KeySet(Core, kernels[f]);
      if h < g { DistinctFirstCores(kernels, groups, h, g); }
      else if g < h { DistinctFirstCores(kernels, groups, g, h); }
      assert h == g;
    }
  }

  // ------------------------------------------------------------------
  // Merged states

  /** The lookaheads the item lists of a group's members carry at a core, together. */
  function GroupLookAheads(ks: seq<seq<Item>>, grp: seq<nat>, key: ItemKey): set<Token> {
    set m, t | 0 <= m < |grp| && grp[m] < |ks| && t in LookAheadsAt(ks[grp[m]], key) :: t
  }

  /** The cores of the item lists of a group's members, together. */
  function GroupCores(ks: seq<seq<Item>>, grp: seq<nat>): set<ItemKey> {
    set m, key | 0 <= m < |grp| && grp[m] < |ks| && key in KeySet(Core, ks[grp[m]]) :: key
  }

  lemma GroupSnoc(ks: seq<seq<Item>>, grp: seq<nat>, n: nat)
    requires n < |grp| && grp[n] < |ks|
    ensures GroupCores(ks, grp[..n + 1]) == GroupCores(ks, grp[..n]) + KeySet(Core, ks[grp[n]])
    ensures forall key :: GroupLookAheads(ks, grp[..n + 1], key) == GroupLookAheads(ks, grp[..n], key) + LookAheadsAt(ks[grp[n]], key)
  {
    var p, q := grp[..n], grp[..n + 1];
    assert forall m | 0 <= m < n :: q[m] == p[m];
    assert q[n] == grp[n];
  }

  /** The key form of `MergeItems`' promise: at every core, the lookaheads of a and b together. */
  lemma UnitedAtEveryCore(a: seq<Item>, b: seq<Item>, result: seq<Item>, key: ItemKey)
    requires KeyDistinct(Core, result) && KeySet(Core, result) == KeySet(Core, a) + KeySet(Core, b)
    requires forall i | 0 <= i < |result| ::
               Elems(result[i].lookAheads) == LookAheadsAt(a, KeyOf(Core, result[i])) + LookAheadsAt(b, KeyOf(Core, result[i]))
    ensures LookAheadsAt(result, key) == LookAheadsAt(a, key) + LookAheadsAt(b, key)
  {
    if key in KeySet(Core, result) {
      var x :| x in result && KeyOf(Core, x) == key;
      var i :| 0 <= i < |result| && result[i] == x;
      LookAheadsAtDistinct(result, i);
    } else {
      LookAheadsAtAbsent(result, key);
      LookAheadsAtAbsent(a, key);
      LookAheadsAtAbsent(b, key);
    }
  }

  /** What folding `MergeItems` over the first n members of a group has built. */
  ghost predicate FoldedSoFar(ks: seq<seq<Item>>, grp: seq<nat>, n: nat, acc: Option<seq<Item>>)
    requires n <= |grp|
  {
    (n == 0 <==> acc.None?) &&
    (acc.Some? ==> KeyDistinct(Core, acc.value) && KeySet(Core, acc.value) == GroupCores(ks, grp[..n])) &&
    (acc.Some? ==> forall key :: LookAheadsAt(acc.value, key) == GroupLookAheads(ks, grp[..n], key))
  }

  lemma FoldStep(ks: seq<seq<Item>>, grp: seq<nat>, n: nat, acc: Option<seq<Item>>, r: seq<Item>)
    requires n < |grp| && grp[n] < |ks| && KeyDistinct(Core, ks[grp[n]]) && FoldedSoFar(ks, grp, n, acc)
    requires acc.None? ==> r == ks[grp[n]]
    requires acc.Some? ==> KeyDistinct(Core, r) && KeySet(Core, r) == KeySet(Core, ks[grp[n]]) + KeySet(Core, acc.value)
    requires acc.Some? ==> forall i | 0 <= i < |r| ::
               Elems(r[i].lookAheads) == LookAheadsAt(ks[grp[n]], KeyOf(Core, r[i])) + LookAheadsAt(acc.value, KeyOf(Core, r[i]))
    ensures FoldedSoFar(ks, grp, n + 1, Some(r))
  {
    GroupSnoc(ks, grp, n);
    if acc.None? {
      assert grp[..n] == [];
      forall key ensures LookAheadsAt(r, key) == GroupLookAheads(ks, grp[..n + 1], key) {
        assert GroupLookAheads(ks, grp[..n], key) == {};
      }
    } else {
      forall key ensures LookAheadsAt(r, key) == GroupLookAheads(ks, grp[..n + 1], key) {
        UnitedAtEveryCore(ks[grp[n]], acc.value, r, key);
      }
    }
  }

  /**
   * The inner loop of the merge, for the kernels or for the closures: the
   * first member's items are copied, and each further member's items are
   * merged with what is built so far. The result has one item per core that
   * any member has, carrying all the lookaheads the members carry there.
   */
  method FoldMerge(ks: seq<seq<Item>>, grp: seq<nat>) returns (acc: seq<Item>)
    requires grp != [] && forall k | 0 <= k < |grp| :: grp[k] < |ks| && KeyDistinct(Core, ks[grp[k]])
    ensures KeyDistinct(Core, acc) && KeySet(Core, acc) == GroupCores(ks, grp)
    ensures forall key :: LookAheadsAt(acc, key) == GroupLookAheads(ks, grp, key)
    ensures (forall k | 0 <= k < |grp| :: KernelOf(LALR1Item, ks[grp[k]])) ==> KernelOf(LALR1Item, acc)
  {
    var opt: Option<seq<Item>> := None;
    var n := 0;
    while n < |grp|
      invariant n <= |grp| && FoldedSoFar(ks, grp, n, opt)
      invariant opt.Some? && (forall k | 0 <= k < |grp| :: KernelOf(LALR1Item, ks[grp[k]])) ==> KernelOf(LALR1Item, opt.value)
    {
      var r := MergeItems(ks[grp[n]], opt);
      FoldStep(ks, grp, n, opt, r);
      opt := Some(r);
      n := n + 1;
    }
    assert grp[..n] == grp;
    acc := opt.value;
  }

  /** The kernels of the states, in order. */
  function Kernels(states: seq<State>): (ks: seq<seq<Item>>)
    ensures |ks| == |states| && forall i | 0 <= i < |states| :: ks[i] == states[i].kernel
  {
    seq(|states|, i requires 0 <= i < |states| => states[i].kernel)
  }

  /** The closures of the states, in order. */
  function ItemLists(states: seq<State>): (ks: seq<seq<Item>>)
    ensures |ks| == |states| && forall i | 0 <= i < |states| :: ks[i] == states[i].items
  {
    seq(|states|, i requires 0 <= i < |states| => states[i].items)
  }

  /** The first g merged states: state h has index h, and its kernel and closure fold those of group h. */
  ghost predicate MergedUpTo(inter: seq<State>, groups: seq<seq<nat>>, merged: seq<State>, g: int) {
    0 <= g <= |groups| && |merged| == g &&
    (forall h | 0 <= h < g ::
       merged[h].flavour == LALR1Item && merged[h].index == h && merged[h].transitions == map[] &&
       KeyDistinct(Core, merged[h].kernel) && KeySet(Core, merged[h].kernel) == GroupCores(Kernels(inter), groups[h]) &&
       KeyDistinct(Core, merged[h].items) && KeySet(Core, merged[h].items) == GroupCores(ItemLists(inter), groups[h])) &&
    (forall h, key | 0 <= h < g ::
       LookAheadsAt(merged[h].kernel, key) == GroupLookAheads(Kernels(inter), groups[h], key) &&
       LookAheadsAt(merged[h].items, key) == GroupLookAheads(ItemLists(inter), groups[h], key)) &&
    ((forall j | 0 <= j < |inter| :: KernelOf(LALR1Item, inter[j].items)) ==>
       forall h | 0 <= h < g :: KernelOf(LALR1Item, merged[h].items))
  }

  /** Every member of group g is a state whose kernel and closure are core-distinct. */
  lemma GroupFoldable(inter: seq<State>, groups: seq<seq<nat>>, g: int)
    requires GroupsOf(Kernels(inter), groups) && 0 <= g < |groups|
    requires forall j | 0 <= j < |inter| :: KeyDistinct(Core, inter[j].kernel) && KeyDistinct(Core, inter[j].items)
    ensures groups[g] != []
    ensures forall k | 0 <= k < |groups[g]| :: groups[g][k] < |Kernels(inter)| && KeyDistinct(Core, Kernels(inter)[groups[g][k]])
    ensures forall k | 0 <= k < |groups[g]| :: groups[g][k] < |ItemLists(inter)| && KeyDistinct(Core, ItemLists(inter)[groups[g][k]])
    ensures (forall j | 0 <= j < |inter| :: KernelOf(LALR1Item, inter[j].items)) ==>
              forall k | 0 <= k < |groups[g]| :: KernelOf(LALR1Item, ItemLists(inter)[groups[g][k]])
  {
  }

  lemma MergedStep(inter: seq<State>, groups: seq<seq<nat>>, merged: seq<State>, g: int, kernel: seq<Item>, items: seq<Item>)
    requires MergedUpTo(inter, groups, merged, g) && g < |groups|
    requires KeyDistinct(Core, kernel) && KeySet(Core, kernel) == GroupCores(Kernels(inter), groups[g])
    requires forall key :: LookAheadsAt(kernel, key) == GroupLookAheads(Kernels(inter), groups[g], key)
    requires KeyDistinct(Core, items) && KeySet(Core, items) == GroupCores(ItemLists(inter), groups[g])
    requires forall key :: LookAheadsAt(items, key) == GroupLookAheads(ItemLists(inter), groups[g], key)
    requires (forall j | 0 <= j < |inter| :: KernelOf(LALR1Item, inter[j].items)) ==> KernelOf(LALR1Item, items)
    ensures MergedUpTo(inter, groups, merged + [State(LALR1Item, g, kernel, items, map[])], g + 1)
  {
    var m := merged + [State(LALR1Item, g, kernel, items, map[])];
    assert forall h | 0 <= h < g :: m[h] == merged[h];
  }

  /**
   * The merged states, before their transitions: state g has index g, and
   * its kernel and closure fold the kernels and closures of group g.
   */
  method MergeStates(inter: seq<State>, groups: seq<seq<nat>>) returns (merged: seq<State>)
    requires GroupsOf(Kernels(inter), groups)
    requires forall j | 0 <= j < |inter| :: KeyDistinct(Core, inter[j].kernel) && KeyDistinct(Core, inter[j].items)
    ensures |merged| == |groups|
    ensures forall g | 0 <= g < |groups| ::
              merged[g].flavour == LALR1Item && merged[g].index == g && merged[g].transitions == map[] &&
              KeyDistinct(Core, merged[g].kernel) && KeySet(Core, merged[g].kernel) == GroupCores(Kernels(inter), groups[g]) &&
              KeyDistinct(Core, merged[g].items) && KeySet(Core, merged[g].items) == GroupCores(ItemLists(inter), groups[g])
    ensures forall g, key | 0 <= g < |groups| ::
              LookAheadsAt(merged[g].kernel, key) == GroupLookAheads(Kernels(inter), groups[g], key) &&
              LookAheadsAt(merged[g].items, key) == GroupLookAheads(ItemLists(inter), groups[g], key)
    ensures (forall j | 0 <= j < |inter| :: KernelOf(LALR1Item, inter[j].items)) ==>
              forall g | 0 <= g < |groups| :: KernelOf(LALR1Item, merged[g].items)
  {
    merged := [];
    var g := 0;
    while g < |groups|
      invariant MergedUpTo(inter, groups, merged, g)
    {
      GroupFoldable(inter, groups, g);
      var kernel := FoldMerge(Kernels(inter), groups[g]);
      var items := FoldMerge(ItemLists(inter), groups[g]);
      MergedStep(inter, groups, merged, g, kernel, items);
      merged := merged + [State(LALR1Item, g, kernel, items, map[])];
      g := g + 1;
    }
  }

  /** What `GroupIndex` has recorded after group g, up to member k. */
  predicate IndexedUpTo(groups: seq<seq<nat>>, groupOf: map<nat, nat>, g: int, k: int)
    requires 0 <= g < |groups| && 0 <= k <= |groups[g]|
  {
    (forall j | j in groupOf :: (groupOf[j] < g && j in groups[groupOf[j]]) || (groupOf[j] == g && j in groups[g][..k])) &&
    (forall h, e | 0 <= h < g && 0 <= e < |groups[h]| :: groups[h][e] in groupOf) &&
    forall e | 0 <= e < k :: groups[g][e] in groupOf
  }

  lemma IndexFresh(kernels: seq<seq<Item>>, groups: seq<seq<nat>>, groupOf: map<nat, nat>, g: int, k: int)
    requires GroupsOf(kernels, groups) && 0 <= g < |groups| && 0 <= k < |groups[g]| && IndexedUpTo(groups, groupOf, g, k)
    ensures groups[g][k] !in groupOf
  {
    var x := groups[g][k];
    forall j | j in groupOf ensures j != x {
      if groupOf[j] < g {
        GroupUnique(kernels, groups, groupOf[j], g, j);
      } else {
        var e :| 0 <= e < k && groups[g][..k][e] == j;
        assert groups[g][e] < groups[g][k];
      }
    }
  }

  lemma IndexAdd(groups: seq<seq<nat>>, groupOf: map<nat, nat>, g: int, k: int)
    requires 0 <= g < |groups| && 0 <= k < |groups[g]| && IndexedUpTo(groups, groupOf, g, k)
    ensures IndexedUpTo(groups, groupOf[groups[g][k] := g], g, k + 1)
  {
    assert groups[g][..k + 1] == groups[g][..k] + [groups[g][k]];
  }

  /** Records group g for each of its members. */
  method IndexGroup(kernels: seq<seq<Item>>, groups: seq<seq<nat>>, groupOf: map<nat, nat>, g: int)
    returns (groupOf': map<nat, nat>)
    requires GroupsOf(kernels, groups) && 0 <= g < |groups| && IndexedUpTo(groups, groupOf, g, 0)
    ensures forall j | j in groupOf' :: groupOf'[j] <= g && j in groups[groupOf'[j]]
    ensures forall h, e | 0 <= h <= g && 0 <= e < |groups[h]| :: groups[h][e] in groupOf'
  {
    groupOf' := groupOf;
    var k := 0;
    while k < |groups[g]|
      invariant k <= |groups[g]| && IndexedUpTo(groups, groupOf', g, k)
    {
      IndexFresh(kernels, groups, groupOf', g, k);
      IndexAdd(groups, groupOf', g, k);
      groupOf' := groupOf'[groups[g][k] := g];
      k := k + 1;
    }
    assert groups[g][..k] == groups[g];
  }

  /** The dictionary from each state to the index of its group. */
  method GroupIndex(kernels: seq<seq<Item>>, groups: seq<seq<nat>>) returns (groupOf: map<nat, nat>)
    requires GroupsOf(kernels, groups)
    ensures forall j: nat | j < |kernels| :: j in groupOf
    ensures forall j | j in groupOf :: groupOf[j] < |groups| && j in groups[groupOf[j]]
  {
    groupOf := map[];
    var g := 0;
    while g < |groups|
      invariant g <= |groups|
      invariant forall j | j in groupOf :: groupOf[j] < g && j in groups[groupOf[j]]
      invariant forall h, e | 0 <= h < g && 0 <= e < |groups[h]| :: groups[h][e] in groupOf
    {
      groupOf := IndexGroup(kernels, groups, groupOf, g);
      g := g + 1;
    }
    forall j: nat | j < |kernels| ensures j in groupOf {
      assert j in Members(groups);
    }
  }

  // ------------------------------------------------------------------
  // The LALR(1) automaton

  /** Every transition names a state of the list, so the translation lookups find their key. */
  predicate TargetsInRange(states: seq<State>) {
    forall j, t | 0 <= j < |states| && t in states[j].transitions :: states[j].transitions[t] < |states|
  }

  /**
   * The intermediate automaton: each LR(1) state with its kernel and its
   * closure collapsed, keeping its index and its transitions (a target is
   * translated to the intermediate state at the same position).
   */
  method CollapseStates(lr1: seq<State>) returns (inter: seq<State>)
    ensures |inter| == |lr1|
    ensures forall j | 0 <= j < |lr1| ::
              inter[j].flavour == LALR1Item && inter[j].index == lr1[j].index && inter[j].transitions == lr1[j].transitions &&
              CollapseOf(lr1[j].kernel, inter[j].kernel) && CollapseOf(lr1[j].items, inter[j].items)
  {
    inter := [];
    var j := 0;
    while j < |lr1|
      invariant j <= |lr1| && |inter| == j
      invariant forall i | 0 <= i < j ::
                  inter[i].flavour == LALR1Item && inter[i].index == lr1[i].index && inter[i].transitions == lr1[i].transitions &&
                  CollapseOf(lr1[i].kernel, inter[i].kernel) && CollapseOf(lr1[i].items, inter[i].items)
    {
      var kernel := CollapseLookAheads(lr1[j].kernel);
      var items := CollapseLookAheads(lr1[j].items);
      inter := inter + [State(LALR1Item, lr1[j].index, kernel, items, lr1[j].transitions)];
      j := j + 1;
    }
  }

  /** The first g merged states with their transitions redirected to the merged states of the targets' groups. */
  ghost predicate RewiredUpTo(inter: seq<State>, merged: seq<State>, groups: seq<seq<nat>>, states: seq<State>, g: int)
    requires |merged| == |groups| && GroupsOf(Kernels(inter), groups)
  {
    0 <= g <= |groups| && |states| == g &&
    (forall h | 0 <= h < g :: states[h] == merged[h].(transitions := states[h].transitions)) &&
    (forall h | 0 <= h < g :: states[h].transitions.Keys == inter[groups[h][0]].transitions.Keys) &&
    forall h, t | 0 <= h < g && t in states[h].transitions ::
      states[h].transitions[t] < |groups| && inter[groups[h][0]].transitions[t] in groups[states[h].transitions[t]]
  }

  lemma RewireStep(inter: seq<State>, merged: seq<State>, groups: seq<seq<nat>>, groupOf: map<nat, nat>, states: seq<State>, g: int,
                   transitions: map<Token, nat>)
    requires |merged| == |groups| && GroupsOf(Kernels(inter), groups) && TargetsInRange(inter)
    requires forall j | j in groupOf :: groupOf[j] < |groups| && j in groups[groupOf[j]]
    requires RewiredUpTo(inter, merged, groups, states, g) && g < |groups|
    requires transitions.Keys == inter[groups[g][0]].transitions.Keys
    requires forall t | t in transitions ::
               inter[groups[g][0]].transitions[t] in groupOf && transitions[t] == groupOf[inter[groups[g][0]].transitions[t]]
    ensures RewiredUpTo(inter, merged, groups, states + [merged[g].(transitions := transitions)], g + 1)
  {
    var states' := states + [merged[g].(transitions := transitions)];
    forall h | 0 <= h < g + 1 ensures states'[h] == merged[h].(transitions := states'[h].transitions) {
      if h < g { assert states'[h] == states[h]; }
    }
    forall h, t | 0 <= h < g + 1 && t in states'[h].transitions
      ensures states'[h].transitions[t] < |groups| && inter[groups[h][0]].transitions[t] in groups[states'[h].transitions[t]]
    {
      if h < g { assert states'[h] == states[h]; }
    }
  }

  /**
   * The transitions of merged state g are those of the first state of its
   * group, each redirected to the merged state of the target's group.
   */
  method Rewire(inter: seq<State>, merged: seq<State>, groups: seq<seq<nat>>, groupOf: map<nat, nat>) returns (states: seq<State>)
    requires |merged| == |groups| && GroupsOf(Kernels(inter), groups) && TargetsInRange(inter)
    requires forall j: nat | j < |inter| :: j in groupOf
    requires forall j | j in groupOf :: groupOf[j] < |groups| && j in groups[groupOf[j]]
    ensures |states| == |merged|
    ensures forall g | 0 <= g < |groups| :: states[g] == merged[g].(transitions := states[g].transitions)
    ensures forall g | 0 <= g < |groups| :: states[g].transitions.Keys == inter[groups[g][0]].transitions.Keys
    ensures forall g, t | 0 <= g < |groups| && t in states[g].transitions ::
              states[g].transitions[t] < |groups| && inter[groups[g][0]].transitions[t] in groups[states[g].transitions[t]]
  {
    states := [];
    var g := 0;
    while g < |groups|
      invariant RewiredUpTo(inter, merged, groups, states, g)
    {
      var original := inter[groups[g][0]].transitions;
      var transitions := map t | t in original :: groupOf[original[t]];
      RewireStep(inter, merged, groups, groupOf, states, g, transitions);
      states := states + [merged[g].(transitions := transitions)];
      g := g + 1;
    }
  }

  /**
   * The merge groups, in terms of the LR(1) automaton: they partition its
   * states into the classes of kernels with the same LR(0) cores; each group
   * is in state order, the groups are in the order of their first states,
   * and no two groups share their cores.
   */
  ghost predicate CoreGroups(lr1: seq<State>, groups: seq<seq<nat>>) {
    |groups| <= |lr1| &&
    (forall g, k | 0 <= g < |groups| && 0 <= k < |groups[g]| :: groups[g][k] < |lr1|) &&
    (forall g | 0 <= g < |groups| :: groups[g] != [] && Ascending(groups[g])) &&
    (forall j: nat | j < |lr1| :: j in Members(groups)) &&
    (forall g, h | 0 <= g < h < |groups| ::
       groups[g][0] < groups[h][0] && KeySet(Core, lr1[groups[g][0]].kernel) != KeySet(Core, lr1[groups[h][0]].kernel)) &&
    forall g, i | 0 <= g < |groups| && 0 <= i < |lr1| ::
      i in groups[g] <==> KeySet(Core, lr1[i].kernel) == KeySet(Core, lr1[groups[g][0]].kernel)
  }

  /**
   * The merged states: state g has index g; its kernel has one item per core
   * of the group, and its closure one item per core any member's closure
   * has, each carrying all the lookaheads the members carry at that core;
   * its transitions are those of the group's first state, each leading to
   * the merged state of the target's group.
   */
  ghost predicate MergedStates(lr1: seq<State>, groups: seq<seq<nat>>, states: seq<State>)
    requires CoreGroups(lr1, groups)
  {
    |states| == |groups| &&
    (forall g | 0 <= g < |groups| ::
       states[g].flavour == LALR1Item && states[g].index == g &&
       KeyDistinct(Core, states[g].kernel) && KeySet(Core, states[g].kernel) == KeySet(Core, lr1[groups[g][0]].kernel) &&
       KeyDistinct(Core, states[g].items) && KeySet(Core, states[g].items) == GroupCores(ItemLists(lr1), groups[g])) &&
    (forall g, key | 0 <= g < |groups| ::
       LookAheadsAt(states[g].kernel, key) == GroupLookAheads(Kernels(lr1), groups[g], key) &&
       LookAheadsAt(states[g].items, key) == GroupLookAheads(ItemLists(lr1), groups[g], key)) &&
    (forall g | 0 <= g < |groups| :: states[g].transitions.Keys == lr1[groups[g][0]].transitions.Keys) &&
    forall g, t | 0 <= g < |groups| && t in states[g].transitions ::
      states[g].transitions[t] < |groups| && lr1[groups[g][0]].transitions[t] in groups[states[g].transitions[t]]
  }

  lemma GroupCoresUniform(ks: seq<seq<Item>>, grp: seq<nat>, cores: set<ItemKey>)
    requires grp != [] && forall m | 0 <= m < |grp| :: grp[m] < |ks| && KeySet(Core, ks[grp[m]]) == cores
    ensures GroupCores(ks, grp) == cores
  {
    forall key | key in cores ensures key in GroupCores(ks, grp) {
      assert key in KeySet(Core, ks[grp[0]]);
    }
  }

  lemma GroupCoresAgree(ks: seq<seq<Item>>, ls: seq<seq<Item>>, grp: seq<nat>)
    requires |ks| == |ls| && forall j | 0 <= j < |ks| :: KeySet(Core, ks[j]) == KeySet(Core, ls[j])
    ensures GroupCores(ks, grp) == GroupCores(ls, grp)
  {
  }

  lemma GroupLookAheadsAgree(ks: seq<seq<Item>>, ls: seq<seq<Item>>, grp: seq<nat>, key: ItemKey)
    requires |ks| == |ls| && forall j | 0 <= j < |ks| :: LookAheadsAt(ks[j], key) == LookAheadsAt(ls[j], key)
    ensures GroupLookAheads(ks, grp, key) == GroupLookAheads(ls, grp, key)
  {
  }

  /** What collapsing each state keeps: its cores, one item per core, and every lookahead at every core. */
  lemma CollapsedStates(lr1: seq<State>, inter: seq<State>)
    requires |inter| == |lr1|
    requires forall j | 0 <= j < |lr1| :: CollapseOf(lr1[j].kernel, inter[j].kernel) && CollapseOf(lr1[j].items, inter[j].items)
    ensures forall j | 0 <= j < |lr1| ::
              KeyDistinct(Core, inter[j].kernel) && KeySet(Core, inter[j].kernel) == KeySet(Core, lr1[j].kernel) &&
              KeyDistinct(Core, inter[j].items) && KeySet(Core, inter[j].items) == KeySet(Core, lr1[j].items)
    ensures forall j, key | 0 <= j < |lr1| ::
              LookAheadsAt(inter[j].kernel, key) == LookAheadsAt(lr1[j].kernel, key) &&
              LookAheadsAt(inter[j].items, key) == LookAheadsAt(lr1[j].items, key)
  {
    forall j, key | 0 <= j < |lr1|
      ensures LookAheadsAt(inter[j].kernel, key) == LookAheadsAt(lr1[j].kernel, key)
      ensures LookAheadsAt(inter[j].items, key) == LookAheadsAt(lr1[j].items, key)
    {
      CollapseKeepsLookAheads(lr1[j].kernel, inter[j].kernel, key);
      CollapseKeepsLookAheads(lr1[j].items, inter[j].items, key);
    }
  }

  /** The groups of the collapsed kernels are the core classes of the LR(1) kernels. */
  lemma CoreGroupsOfCollapsed(lr1: seq<State>, inter: seq<State>, groups: seq<seq<nat>>)
    requires |inter| == |lr1|
    requires forall j | 0 <= j < |lr1| ::
               KeyDistinct(Core, inter[j].kernel) && KeySet(Core, inter[j].kernel) == KeySet(Core, lr1[j].kernel)
    requires GroupsOf(Kernels(inter), groups)
    ensures CoreGroups(lr1, groups)
  {
    var ks := Kernels(inter);
    forall g, i | 0 <= g < |groups| && 0 <= i < |lr1|
      ensures i in groups[g] <==> KeySet(Core, lr1[i].kernel) == KeySet(Core, lr1[groups[g][0]].kernel)
    {
      GroupsAreCoreClasses(ks, groups, g, i);
    }
    forall g, h | 0 <= g < h < |groups|
      ensures groups[g][0] < groups[h][0] && KeySet(Core, lr1[groups[g][0]].kernel) != KeySet(Core, lr1[groups[h][0]].kernel)
    {
      FirstsAscend(ks, groups, g, h);
      DistinctFirstCores(ks, groups, g, h);
    }
  }

  lemma MergedCores(lr1: seq<State>, inter: seq<State>, groups: seq<seq<nat>>, states: seq<State>)
    requires |inter| == |lr1| && CoreGroups(lr1, groups) && |states| == |groups|
    requires forall j | 0 <= j < |lr1| ::
               KeySet(Core, inter[j].kernel) == KeySet(Core, lr1[j].kernel) && KeySet(Core, inter[j].items) == KeySet(Core, lr1[j].items)
    requires forall g | 0 <= g < |groups| ::
               KeySet(Core, states[g].kernel) == GroupCores(Kernels(inter), groups[g]) &&
               KeySet(Core, states[g].items) == GroupCores(ItemLists(inter), groups[g])
    ensures forall g | 0 <= g < |groups| ::
              KeySet(Core, states[g].kernel) == KeySet(Core, lr1[groups[g][0]].kernel) &&
              KeySet(Core, states[g].items) == GroupCores(ItemLists(lr1), groups[g])
  {
    forall g | 0 <= g < |groups|
      ensures KeySet(Core, states[g].kernel) == KeySet(Core, lr1[groups[g][0]].kernel)
      ensures KeySet(Core, states[g].items) == GroupCores(ItemLists(lr1), groups[g])
    {
      var grp := groups[g];
      forall m | 0 <= m < |grp| ensures grp[m] < |Kernels(inter)| && KeySet(Core, Kernels(inter)[grp[m]]) == KeySet(Core, lr1[grp[0]].kernel) {
        assert grp[m] in groups[g];
      }
      GroupCoresUniform(Kernels(inter), grp, KeySet(Core, lr1[grp[0]].kernel));
      GroupCoresAgree(ItemLists(inter), ItemLists(lr1), grp);
    }
  }

  lemma MergedLookAheads(lr1: seq<State>, inter: seq<State>, groups: seq<seq<nat>>, states: seq<State>)
    requires |inter| == |lr1| && |states| == |groups|
    requires forall j, key | 0 <= j < |lr1| ::
               LookAheadsAt(inter[j].kernel, key) == LookAheadsAt(lr1[j].kernel, key) &&
               LookAheadsAt(inter[j].items, key) == LookAheadsAt(lr1[j].items, key)
    requires forall g, key | 0 <= g < |groups| ::
               LookAheadsAt(states[g].kernel, key) == GroupLookAheads(Kernels(inter), groups[g], key) &&
               LookAheadsAt(states[g].items, key) == GroupLookAheads(ItemLists(inter), groups[g], key)
    ensures forall g, key | 0 <= g < |groups| ::
              LookAheadsAt(states[g].kernel, key) == GroupLookAheads(Kernels(lr1), groups[g], key) &&
              LookAheadsAt(states[g].items, key) == GroupLookAheads(ItemLists(lr1), groups[g], key)
  {
    forall g, key | 0 <= g < |groups|
      ensures LookAheadsAt(states[g].kernel, key) == GroupLookAheads(Kernels(lr1), groups[g], key)
      ensures LookAheadsAt(states[g].items, key) == GroupLookAheads(ItemLists(lr1), groups[g], key)
    {
      GroupLookAheadsAgree(Kernels(inter), Kernels(lr1), groups[g], key);
      GroupLookAheadsAgree(ItemLists(inter), ItemLists(lr1), groups[g], key);
    }
  }

  /**
   * `LALR1Parsing.CreateAutomaton`, after the LR(1) automaton over LALR(1)
   * items is built: collapse every state, group the states by kernel cores,
   * build one merged state per group and redirect the first member's
   * transitions. A transition to a state outside the automaton fails the
   * translation lookup.
   */
  method MergeAutomaton(lr1: seq<State>) returns (r: Result<seq<State>>, ghost groups: seq<seq<nat>>)
    ensures r.Err? <==> !TargetsInRange(lr1)
    ensures r.Err? ==> r.error == KeyNotFound
    ensures r.Ok? ==> CoreGroups(lr1, groups) && MergedStates(lr1, groups, r.value)
    ensures r.Ok? ==> forall g | 0 <= g < |r.value| :: KernelOf(LALR1Item, r.value[g].items)
  {
    if !TargetsInRange(lr1) {
      return Err(KeyNotFound), [];
    }
    var inter := CollapseStates(lr1);
    var merge := MergeGroups(Kernels(inter));
    groups := merge;
    assert forall j | 0 <= j < |inter| :: KernelOf(LALR1Item, inter[j].items);
    var merged := MergeStates(inter, merge);
    var groupOf := GroupIndex(Kernels(inter), merge);
    var states := Rewire(inter, merged, merge, groupOf);
    MergeMeaning(lr1, inter, merge, merged, states);
    r := Ok(states);
  }

  /** What the steps of the merge establish, restated in terms of the LR(1) automaton. */
  lemma MergeMeaning(lr1: seq<State>, inter: seq<State>, groups: seq<seq<nat>>, merged: seq<State>, states: seq<State>)
    requires |inter| == |lr1|
    requires forall j | 0 <= j < |lr1| ::
               inter[j].transitions == lr1[j].transitions &&
               CollapseOf(lr1[j].kernel, inter[j].kernel) && CollapseOf(lr1[j].items, inter[j].items)
    requires GroupsOf(Kernels(inter), groups) && |merged| == |groups| && |states| == |merged|
    requires forall g | 0 <= g < |groups| ::
               merged[g].flavour == LALR1Item && merged[g].index == g &&
               KeyDistinct(Core, merged[g].kernel) && KeySet(Core, merged[g].kernel) == GroupCores(Kernels(inter), groups[g]) &&
               KeyDistinct(Core, merged[g].items) && KeySet(Core, merged[g].items) == GroupCores(ItemLists(inter), groups[g])
    requires forall g, key | 0 <= g < |groups| ::
               LookAheadsAt(merged[g].kernel, key) == GroupLookAheads(Kernels(inter), groups[g], key) &&
               LookAheadsAt(merged[g].items, key) == GroupLookAheads(ItemLists(inter), groups[g], key)
    requires forall g | 0 <= g < |groups| :: states[g] == merged[g].(transitions := states[g].transitions)
    requires forall g | 0 <= g < |groups| :: states[g].transitions.Keys == inter[groups[g][0]].transitions.Keys
    requires forall g, t | 0 <= g < |groups| && t in states[g].transitions ::
               states[g].transitions[t] < |groups| && inter[groups[g][0]].transitions[t] in groups[states[g].transitions[t]]
    ensures CoreGroups(lr1, groups) && MergedStates(lr1, groups, states)
  {
    CollapsedStates(lr1, inter);
    CoreGroupsOfCollapsed(lr1, inter, groups);
    MergedCores(lr1, inter, groups, states);
    MergedLookAheads(lr1, inter, groups, states);
  }

  /** In a canonical collection every transition names one of its states. */
  lemma CanonicalTargets(f: Flavour, g: GrammarView, states: seq<State>)
    requires CanonicalCollection(f, g, states)
    ensures TargetsInRange(states)
  {
    forall j, t | 0 <= j < |states| && t in states[j].transitions ensures states[j].transitions[t] < |states| {
      assert Processed(f, g, states, j);
    }
  }

  /**
   * The LALR(1) automaton: the canonical LR(1) collection over LALR(1) items
   * (which fails as `CreateAutomaton` fails), merged by cores; the merge
   * itself never fails on it.
   */
  method CreateLALRAutomaton(g: GrammarView) returns (r: Result<seq<State>>, ghost lr1: seq<State>, ghost groups: seq<seq<nat>>)
    ensures |g.ps| == 0 ==> r == Err(EmptyGrammar)
    ensures r.Err? && r.error == DuplicateProduction <==> !DistinctProductions(g.ps)
    ensures r.Err? ==> r.error == DuplicateProduction || r.error == UnexpectedSymbol || (|g.ps| == 0 && r.error == EmptyGrammar)
    ensures r.Err? && r.error == UnexpectedSymbol ==> exists t | t in LookAheadUniverse(g) :: !Known(g, t)
    ensures r.Ok? ==> CanonicalCollection(LALR1Item, g, lr1) && CoreGroups(lr1, groups) && MergedStates(lr1, groups, r.value)
    ensures r.Ok? ==> forall s | 0 <= s < |r.value| :: KernelOf(LALR1Item, r.value[s].items)
  {
    var a := CreateAutomaton(LALR1Item, g);
    if a.Err? {
      return Err(a.error), [], [];
    }
    var states := a.value;
    lr1 := states;
    CanonicalTargets(LALR1Item, g, states);
    r, groups := MergeAutomaton(states);
  }
}
