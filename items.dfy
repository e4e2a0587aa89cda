/**
 * LR kernel items and kernels. An item is a production with a position (the
 * dot) in its body. LR(1) and LALR(1) items also carry lookahead tokens; the
 * source keeps them in a HashSet, modelled as a duplicate-free sequence in
 * insertion order, and compares them as sets.
 *
 * Which equality a kernel comparison uses depends on the static item type it
 * goes through: LR(0) items, and any item compared as a `BaseLR0KernelItem`,
 * compare production and dot only (the LR(0) core); LR(1) and LALR(1) items
 * compared as themselves also compare their lookahead sets.
 */
module Items {
  import opened Wrappers
  import opened Tokens
  import opened Productions
  import opened Relations

  /** The three item classes; an item of one class is never an item of another. */
  datatype Flavour = LR0Item | LR1Item | LALR1Item

  datatype Item = Item(flavour: Flavour, production: Production, index: nat, lookAheads: seq<Token>)

  /** The two equalities: on the LR(0) core, or on the core and the lookahead set. */
  datatype Comparison = Core | WithLookAheads

  /** The equality an item class uses when items are compared through their own type. */
  function ComparisonOf(f: Flavour): Comparison {
    if f == LR0Item then Core else WithLookAheads
  }

  /** `BaseLR0KernelItem.Equals`: equal productions and equal dots. */
  predicate CoreEqual(a: Item, b: Item) {
    Productions.Equals(a.production, b.production) && a.index == b.index
  }

  /** `BaseLR1KernelItem.Equals`: the core and set-equal lookaheads. */
  predicate LookAheadEqual(a: Item, b: Item) {
    CoreEqual(a, b) && Elems(a.lookAheads) == Elems(b.lookAheads)
  }

  predicate Equal(c: Comparison, a: Item, b: Item) {
    match c
    case Core => CoreEqual(a, b)
    case WithLookAheads => LookAheadEqual(a, b)
  }

  /** Everything an equality looks at: the production key, the dot and (for lookahead equality) the lookahead set. */
  datatype ItemKey = ItemKey(production: ProductionKey, index: nat, lookAheads: set<Token>)

  function KeyOf(c: Comparison, a: Item): ItemKey {
    ItemKey(Key(a.production), a.index, if c == Core then {} else Elems(a.lookAheads))
  }

  /** Item equality is agreement of keys; hence it is reflexive, symmetric and transitive. */
  lemma EqualIsKeyEquality(c: Comparison, a: Item, b: Item)
    ensures Equal(c, a, b) <==> KeyOf(c, a) == KeyOf(c, b)
  {
    EqualsIsKeyEquality(a.production, b.production);
  }

  /** LR(1)-equal items are LR(0)-equal; the production's own index plays no part. */
  lemma LookAheadEqualIsCoreEqual(a: Item, b: Item)
    ensures LookAheadEqual(a, b) ==> CoreEqual(a, b)
    ensures (a.production.Rule? && b.production.Rule? && a.production.head == b.production.head &&
             a.production.body == b.production.body && a.index == b.index) ==> CoreEqual(a, b)
  {
  }

  /**
   * Lookahead order and repetition do not matter to lookahead equality:
   * replacing the lookaheads keeps the item equal iff the new ones hold the same
   * tokens, so in particular under every rearrangement.
   */
  lemma LookAheadOrderIgnored(a: Item, ls: seq<Token>)
    ensures LookAheadEqual(a, a.(lookAheads := ls)) <==> Elems(ls) == Elems(a.lookAheads)
    ensures multiset(ls) == multiset(a.lookAheads) ==> LookAheadEqual(a, a.(lookAheads := ls))
  {
    EqualsIsKeyEquality(a.production, a.production);
    if multiset(ls) == multiset(a.lookAheads) {
      forall x ensures x in ls <==> x in a.lookAheads {
        assert x in ls <==> x in multiset(ls);
        assert x in a.lookAheads <==> x in multiset(a.lookAheads);
      }
    }
  }

  /**
   * An item as the source can build it: of the given class, with a
   * duplicate-free lookahead sequence (it enumerates a HashSet), and with no
   * lookaheads at all for an LR(0) item.
   */
  predicate WellFormedItem(f: Flavour, x: Item) {
    x.flavour == f && Distinct(x.lookAheads) && (f == LR0Item ==> x.lookAheads == [])
  }

  /** A `Kernel<TKernelItem>`: every item belongs to the one item class. */
  predicate KernelOf(f: Flavour, k: seq<Item>) {
    forall i | 0 <= i < |k| :: WellFormedItem(f, k[i])
  }

  // ------------------------------------------------------------------
  // Kernels as item sequences

  /**
   * `OrderlessSequenceEqual`: equal counts, and every left item equals some
   * right item. Order is ignored and multiplicity is not compared.
   */
  predicate OrderlessEqual(c: Comparison, left: seq<Item>, right: seq<Item>) {
    |left| == |right| && forall i | 0 <= i < |left| :: Matched(c, left[i], right)
  }

  /** Some item of `right` equals `x`. */
  predicate Matched(c: Comparison, x: Item, right: seq<Item>) {
    exists j | 0 <= j < |right| :: Equal(c, x, right[j])
  }

  /** The nested enumerator scan of `OrderlessSequenceEqual`. */
  method OrderlessSequenceEqual(c: Comparison, left: seq<Item>, right: seq<Item>) returns (r: bool)
    ensures r == OrderlessEqual(c, left, right)
  {
    if |left| != |right| {
      return false;
    }
    var i := 0;
    while i < |left|
      invariant 0 <= i <= |left|
      invariant forall i' | 0 <= i' < i :: Matched(c, left[i'], right)
    {
      var current := left[i];
      var j := 0;
      while j < |right| && !Equal(c, current, right[j])
        invariant 0 <= j <= |right|
        invariant forall j' | 0 <= j' < j :: !Equal(c, current, right[j'])
      {
        j := j + 1;
      }
      if j == |right| {
        // the right enumerator ran past its end, where Current equals nothing
        return false;
      }
      assert Equal(c, left[i], right[j]);
      i := i + 1;
    }
    return true;
  }

  /** The items' keys, as a set. */
  function KeySet(c: Comparison, k: seq<Item>): set<ItemKey> {
    set x | x in k :: KeyOf(c, x)
  }

  /** No two items of the kernel are equal. */
  predicate KeyDistinct(c: Comparison, k: seq<Item>) {
    forall i, j | 0 <= i < j < |k| :: KeyOf(c, k[i]) != KeyOf(c, k[j])
  }

  lemma {:induction false} KeySetSize(c: Comparison, k: seq<Item>)
    requires KeyDistinct(c, k)
    ensures |KeySet(c, k)| == |k|
    decreases |k|
  {
    if k != [] {
      var last := k[|k| - 1];
      var init := k[..|k| - 1];
      assert forall i | 0 <= i < |init| :: init[i] == k[i];
      assert KeyDistinct(c, init);
      KeySetSize(c, init);
      assert k == init + [last];
      KeySetSnoc(c, init, last);
      forall x | x in init ensures KeyOf(c, x) != KeyOf(c, last) {
        var i :| 0 <= i < |init| && init[i] == x;
        assert k[i] == x && i < |k| - 1;
      }
      assert KeyOf(c, last) !in KeySet(c, init);
    }
  }

  lemma KeySetSnoc(c: Comparison, k: seq<Item>, a: Item)
    ensures KeySet(c, k + [a]) == KeySet(c, k) + {KeyOf(c, a)}
  {
    assert forall x :: x in k + [a] <==> x in k || x == a;
  }

  /**
   * On duplicate-free kernels the orderless comparison is exactly equality of
   * the item sets; in particular it is symmetric and ignores order.
   */
  lemma OrderlessEqualIsSetEquality(c: Comparison, left: seq<Item>, right: seq<Item>)
    requires KeyDistinct(c, left) && KeyDistinct(c, right)
    ensures OrderlessEqual(c, left, right) <==> KeySet(c, left) == KeySet(c, right)
  {
    KeySetSize(c, left);
    KeySetSize(c, right);
    var l, r := KeySet(c, left), KeySet(c, right);
    if OrderlessEqual(c, left, right) {
      assert l <= r by {
        forall x | x in l ensures x in r {
          var y :| y in left && x == KeyOf(c, y);
          var i :| 0 <= i < |left| && left[i] == y;
          var j :| 0 <= j < |right| && Equal(c, left[i], right[j]);
          EqualIsKeyEquality(c, left[i], right[j]);
        }
      }
      assert r == l + (r - l);
    }
    if l == r {
      forall i | 0 <= i < |left| ensures Matched(c, left[i], right) {
        assert KeyOf(c, left[i]) in r;
        var y :| y in right && KeyOf(c, left[i]) == KeyOf(c, y);
        var j :| 0 <= j < |right| && right[j] == y;
        EqualIsKeyEquality(c, left[i], right[j]);
      }
    }
  }

  /** Without distinctness the comparison is not symmetric: multiplicity is not compared. */
  lemma OrderlessEqualIgnoresMultiplicity(c: Comparison, a: Item, b: Item)
    requires !Equal(c, a, b) && !Equal(c, b, a)
    ensures OrderlessEqual(c, [a, a], [a, b])
    ensures !OrderlessEqual(c, [a, b], [a, a])
  {
    EqualIsKeyEquality(c, a, a);
    assert Equal(c, [a, a][1], [a, b][0]);
    assert !Matched(c, [a, b][1], [a, a]);
  }

  /** No item before position `j` equals `item`. */
  predicate NoneEqualBefore(c: Comparison, kernel: seq<Item>, item: Item, j: int) {
    forall k | 0 <= k < j && k < |kernel| :: !Equal(c, item, kernel[k])
  }

  /**
   * `Contains`: true with the first enumerated item that `item` equals, or
   * false when there is none.
   */
  method Contains(c: Comparison, kernel: seq<Item>, item: Item) returns (r: bool, found: Option<Item>)
    ensures r <==> found.Some?
    ensures r <==> exists j | 0 <= j < |kernel| :: Equal(c, item, kernel[j])
    ensures found.Some? ==> exists j | 0 <= j < |kernel| :: kernel[j] == found.value && Equal(c, item, kernel[j]) && NoneEqualBefore(c, kernel, item, j)
  {
    var j := 0;
    while j < |kernel|
      invariant 0 <= j <= |kernel|
      invariant NoneEqualBefore(c, kernel, item, j)
    {
      if Equal(c, item, kernel[j]) {
        return true, Some(kernel[j]);
      }
      j := j + 1;
    }
    return false, None;
  }

  // ------------------------------------------------------------------
  // The mutable kernel

  /** `Kernel<TKernelItem>`: an item list of one item class. */
  class Kernel {
    const flavour: Flavour
    var items: seq<Item>

    constructor (flavour: Flavour)
      ensures this.flavour == flavour && items == []
    {
      this.flavour := flavour;
      items := [];
    }

    /** `Add`: appends; earlier items are untouched. */
    method Add(item: Item)
      requires item.flavour == flavour
      modifies this
      ensures items == old(items) + [item]
    {
      items := items + [item];
    }

    /** `Equals`: false for null and for a kernel of another item class, otherwise the orderless comparison. */
    predicate Equals(other: Kernel?)
      reads this, other
    {
      other != null && other.flavour == flavour && OrderlessEqual(ComparisonOf(flavour), items, other.items)
    }
  }

  /** Kernel equality after `Add`: both kernels grow by equal items, and duplicate-free kernels stay equal. */
  lemma KernelEqualsAfterAdd(c: Comparison, left: seq<Item>, right: seq<Item>, a: Item, b: Item)
    requires KeyDistinct(c, left + [a]) && KeyDistinct(c, right + [b])
    requires OrderlessEqual(c, left, right) && Equal(c, a, b)
    ensures OrderlessEqual(c, left + [a], right + [b])
  {
    assert KeyDistinct(c, left) by { assert forall i | 0 <= i < |left| :: left[i] == (left + [a])[i]; }
    assert KeyDistinct(c, right) by { assert forall i | 0 <= i < |right| :: right[i] == (right + [b])[i]; }
    OrderlessEqualIsSetEquality(c, left, right);
    EqualIsKeyEquality(c, a, b);
    KeySetSnoc(c, left, a);
    KeySetSnoc(c, right, b);
    OrderlessEqualIsSetEquality(c, left + [a], right + [b]);
  }
}
