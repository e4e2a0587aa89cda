/**
 * The LALR(1) kernel item with its mutable lookahead set. The set is an object
 * of its own, so two items can share one set: the constructors that take a
 * `HashSet<Token>` adopt it, the others start from a fresh set.
 */
module LookAheadItems {
  import opened Wrappers
  import opened Tokens
  import opened Productions
  import opened Relations
  import opened Items

  /** A `HashSet<Token>`, enumerated in insertion order. */
  class TokenSet {
    var elems: seq<Token>

    ghost predicate Valid() reads this {
      Distinct(elems)
    }

    constructor ()
      ensures Valid() && elems == []
    {
      elems := [];
    }

    /** `HashSet.Add`: true iff the token was absent; afterwards it is present and nothing else changes. */
    method Add(t: Token) returns (added: bool)
      requires Valid()
      modifies this
      ensures Valid()
      ensures added <==> t !in old(elems)
      ensures elems == AddUnique(old(elems), t)
    {
      added := t !in elems;
      elems := AddUnique(elems, t);
    }
  }

  class LALR1KernelItem {
    const production: Production
    const index: nat
    const lookAheads: TokenSet

    /** `(production, index)` and `(BaseLR0KernelItem)`: a fresh, empty lookahead set. */
    constructor Empty(production: Production, index: nat)
      ensures this.production == production && this.index == index
      ensures fresh(lookAheads) && lookAheads.Valid() && lookAheads.elems == []
    {
      this.production := production;
      this.index := index;
      lookAheads := new TokenSet();
    }

    /** `(production, index, IEnumerable<Token>)`: the lookaheads are copied, in order and without repeats, into a fresh set. */
    constructor Copying(production: Production, index: nat, ts: seq<Token>)
      ensures this.production == production && this.index == index
      ensures fresh(lookAheads) && lookAheads.Valid()
      ensures Elems(lookAheads.elems) == Elems(ts)
      ensures Distinct(ts) ==> lookAheads.elems == ts
    {
      this.production := production;
      this.index := index;
      var target := new TokenSet();
      var i := 0;
      while i < |ts|
        invariant 0 <= i <= |ts|
        invariant fresh(target) && target.Valid()
        invariant Elems(target.elems) == Elems(ts[..i])
        invariant Distinct(ts) ==> target.elems == ts[..i]
      {
        var _ := target.Add(ts[i]);
        assert ts[..i + 1] == ts[..i] + [ts[i]];
        assert Elems(ts[..i] + [ts[i]]) == Elems(ts[..i]) + {ts[i]};
        assert Distinct(ts) ==> ts[i] !in ts[..i];
        i := i + 1;
      }
      assert ts[..i] == ts;
      lookAheads := target;
    }

    /** `(production, index, HashSet<Token>)`: the given set is adopted, not copied. */
    constructor Adopting(production: Production, index: nat, s: TokenSet)
      ensures this.production == production && this.index == index && lookAheads == s
    {
      this.production := production;
      this.index := index;
      lookAheads := s;
    }

    /** The copy constructor: a fresh set with the same lookaheads. */
    constructor Copy(other: LALR1KernelItem)
      requires other.lookAheads.Valid()
      ensures production == other.production && index == other.index
      ensures fresh(lookAheads) && lookAheads.Valid() && lookAheads.elems == other.lookAheads.elems
    {
      production := other.production;
      index := other.index;
      var s := new TokenSet();
      s.elems := other.lookAheads.elems;
      lookAheads := s;
    }

    /** `AddLookAhead`: `HashSet.Add` on the (possibly shared) lookahead set. */
    method AddLookAhead(t: Token) returns (added: bool)
      requires lookAheads.Valid()
      modifies lookAheads
      ensures lookAheads.Valid()
      ensures added <==> t !in old(lookAheads.elems)
      ensures lookAheads.elems == AddUnique(old(lookAheads.elems), t)
    {
      added := lookAheads.Add(t);
    }

    /** The item value this object stands for. */
    function Value(): Item
      reads this, lookAheads
    {
      Item(LALR1Item, production, index, lookAheads.elems)
    }

    /** `Equals`: forwards to the LR(1) equality, so lookahead sets take part. */
    predicate Equals(other: LALR1KernelItem?)
      reads this, lookAheads, other
      reads if other == null then {} else {other.lookAheads}
    {
      other != null && LookAheadEqual(Value(), other.Value())
    }
  }

  /**
   * Aliasing: after the adopting constructor, adding a lookahead through one
   * item is seen by the other; after the copy constructor it is not.
   */
  method SharedAndCopiedSets(p: Production, t: Token) returns (a: LALR1KernelItem, b: LALR1KernelItem, c: LALR1KernelItem)
    ensures a.lookAheads == b.lookAheads && a.lookAheads != c.lookAheads
    ensures t in b.lookAheads.elems && c.lookAheads.elems == []
  {
    a := new LALR1KernelItem.Empty(p, 0);
    c := new LALR1KernelItem.Copy(a);
    b := new LALR1KernelItem.Adopting(p, 0, a.lookAheads);
    var _ := a.AddLookAhead(t);
  }
}
