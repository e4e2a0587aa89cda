/**
 * Closure and goto over kernel items. The LR(0) closure adds every production
 * of an expected nonterminal at dot 0, each production once; the LR(1)
 * closure adds one item per production and lookahead token, the lookaheads
 * being the FIRST set of what follows the nonterminal, followed by the
 * item's own lookaheads. The transitions of a closure group the items by the
 * symbol after the dot and move the dot one step forward.
 */
module Closures {
  import opened Wrappers
  import opened Tokens
  import opened Productions
  import opened Relations
  import opened Analysis
  import opened FirstFollow
  import opened Items

  /** The symbol after the dot; the augmented item at dot 0 expects the start symbol. */
  function NextSymbol(start: Token, item: Item): Option<Token> {
    match item.production
    case Augmented => if item.index == 0 then Some(start) else None
    case Rule(_, body, _) => if item.index < |body| then Some(body[item.index]) else None
  }

  /** The keys of the productions of `ps`. */
  function ProductionKeys(ps: seq<Production>): set<ProductionKey> {
    set p | p in ps :: Key(p)
  }

  // ------------------------------------------------------------------
  // LR(0) closure

  /** An item the LR(0) closure adds: a grammar production at dot 0. */
  predicate GeneratedLR0(ps: seq<Production>, item: Item) {
    item.flavour == LR0Item && item.production in ps && item.index == 0 && item.lookAheads == []
  }

  /** The keys of the items from position `from` on. */
  function KeysFrom(result: seq<Item>, from: nat): set<ProductionKey> {
    set k | from <= k < |result| :: Key(result[k].production)
  }

  /** Every production headed by the symbol after item i's dot has been used. */
  predicate ExpandedLR0(ps: seq<Production>, start: Token, result: seq<Item>, used: set<ProductionKey>, i: int)
    requires 0 <= i < |result|
  {
    NextSymbol(start, result[i]).Some? ==>
      forall j | 0 <= j < |ps| && ps[j].Rule? && ps[j].head == NextSymbol(start, result[i]).value :: Key(ps[j]) in used
  }

  /** Item k was added for the symbol after the dot of an earlier item. */
  predicate Demanded(start: Token, result: seq<Item>, k: int)
    requires 0 <= k < |result|
  {
    result[k].production.Rule? &&
    exists i | 0 <= i < k :: NextSymbol(start, result[i]) == Some(result[k].production.head)
  }

  ghost predicate LR0Step(ps: seq<Production>, start: Token, kernel: seq<Item>, result: seq<Item>, used: set<ProductionKey>) {
    |kernel| <= |result| && result[..|kernel|] == kernel &&
    used == KeysFrom(result, |kernel|) && used <= ProductionKeys(ps) &&
    (forall k | |kernel| <= k < |result| :: GeneratedLR0(ps, result[k]) && Demanded(start, result, k)) &&
    (forall k1, k2 | |kernel| <= k1 < k2 < |result| :: Key(result[k1].production) != Key(result[k2].production))
  }

  /**
   * The LR(0) closure of `kernel`: the kernel, in order, followed by grammar
   * productions at dot 0, each production (by key) at most once, each one
   * added for the symbol after an earlier item's dot, and such that every
   * production headed by the symbol after any item's dot is present.
   */
  ghost predicate LR0ClosureOf(ps: seq<Production>, start: Token, kernel: seq<Item>, result: seq<Item>) {
    LR0Step(ps, start, kernel, result, KeysFrom(result, |kernel|)) &&
    forall i | 0 <= i < |result| :: ExpandedLR0(ps, start, result, KeysFrom(result, |kernel|), i)
  }

  lemma KeysFromSnoc(result: seq<Item>, from: nat, item: Item)
    requires from <= |result|
    ensures KeysFrom(result + [item], from) == KeysFrom(result, from) + {Key(item.production)}
  {
    var r := result + [item];
    forall x | x in KeysFrom(r, from) ensures x in KeysFrom(result, from) + {Key(item.production)} {
      var k :| from <= k < |r| && x == Key(r[k].production);
      if k < |result| { assert r[k] == result[k]; }
    }
    forall x | x in KeysFrom(result, from) ensures x in KeysFrom(r, from) {
      var k :| from <= k < |result| && x == Key(result[k].production);
      assert r[k] == result[k];
    }
    assert r[|result|] == item;
  }

  /** Appending a demanded production at dot 0 keeps the closure invariant. */
  lemma LR0StepSnoc(ps: seq<Production>, start: Token, kernel: seq<Item>, result: seq<Item>, used: set<ProductionKey>, i: int, p: Production)
    requires LR0Step(ps, start, kernel, result, used)
    requires 0 <= i < |result| && p in ps && p.Rule? && NextSymbol(start, result[i]) == Some(p.head) && Key(p) !in used
    ensures LR0Step(ps, start, kernel, result + [Item(LR0Item, p, 0, [])], used + {Key(p)})
  {
    var item := Item(LR0Item, p, 0, []);
    var r := result + [item];
    KeysFromSnoc(result, |kernel|, item);
    assert r[..|kernel|] == kernel by { assert r[..|kernel|] == result[..|kernel|]; }
    forall k | |kernel| <= k < |r| ensures GeneratedLR0(ps, r[k]) && Demanded(start, r, k) {
      if k < |result| {
        assert r[k] == result[k];
        assert Demanded(start, result, k);
        var i' :| 0 <= i' < k && NextSymbol(start, result[i']) == Some(result[k].production.head);
        assert r[i'] == result[i'];
      } else {
        assert r[i] == result[i];
      }
    }
    forall k1, k2 | |kernel| <= k1 < k2 < |r| ensures Key(r[k1].production) != Key(r[k2].production) {
      if k2 == |result| {
        assert Key(r[k1].production) in used by { assert r[k1] == result[k1]; }
      } else {
        assert r[k1] == result[k1] && r[k2] == result[k2];
      }
    }
  }

  /** Item i's expansion survives growth of the closure and of the used set. */
  lemma ExpandedLR0Grows(ps: seq<Production>, start: Token, r1: seq<Item>, u1: set<ProductionKey>, r2: seq<Item>, u2: set<ProductionKey>, i: int)
    requires 0 <= i < |r1| <= |r2| && r1 == r2[..|r1|] && u1 <= u2
    requires ExpandedLR0(ps, start, r1, u1, i)
    ensures ExpandedLR0(ps, start, r2, u2, i)
  {
    assert r2[i] == r1[i];
  }

  /** The inner loop of the LR(0) closure after production j: every production headed by h before j is used. */
  ghost predicate ExpandingLR0(ps: seq<Production>, start: Token, kernel: seq<Item>, result: seq<Item>, used: set<ProductionKey>,
                               result': seq<Item>, used': set<ProductionKey>, h: Token, j: int) {
    0 <= j <= |ps| && LR0Step(ps, start, kernel, result', used') &&
    |result| <= |result'| && result'[..|result|] == result && used <= used' &&
    (|result'| > |result| ==> used' != used) &&
    forall j' | 0 <= j' < j && ps[j'].Rule? && ps[j'].head == h :: Key(ps[j']) in used'
  }

  lemma ExpandLR0Add(ps: seq<Production>, start: Token, kernel: seq<Item>, result: seq<Item>, used: set<ProductionKey>,
                     result': seq<Item>, used': set<ProductionKey>, h: Token, i: int, j: int)
    requires ExpandingLR0(ps, start, kernel, result, used, result', used', h, j) && j < |ps| && 0 <= i < |result|
    requires NextSymbol(start, result[i]) == Some(h) && ps[j].Rule? && Key(ps[j]) !in used' && ps[j].head == h
    ensures ExpandingLR0(ps, start, kernel, result, used, result' + [Item(LR0Item, ps[j], 0, [])], used' + {Key(ps[j])}, h, j + 1)
  {
    assert result'[i] == result[i];
    LR0StepSnoc(ps, start, kernel, result', used', i, ps[j]);
    var r := result' + [Item(LR0Item, ps[j], 0, [])];
    assert r[..|result|] == result by { assert r[..|result|] == result'[..|result|]; }
  }

  lemma ExpandLR0Skip(ps: seq<Production>, start: Token, kernel: seq<Item>, result: seq<Item>, used: set<ProductionKey>,
                      result': seq<Item>, used': set<ProductionKey>, h: Token, j: int)
    requires ExpandingLR0(ps, start, kernel, result, used, result', used', h, j) && j < |ps|
    requires !(ps[j].Rule? && Key(ps[j]) !in used' && ps[j].head == h)
    ensures ExpandingLR0(ps, start, kernel, result, used, result', used', h, j + 1)
  {
  }

  /** One pass of the inner loop: every not yet used production headed by item i's next symbol is appended. */
  method ExpandLR0(ps: seq<Production>, start: Token, kernel: seq<Item>, result: seq<Item>, used: set<ProductionKey>, i: int)
    returns (result': seq<Item>, used': set<ProductionKey>)
    requires LR0Step(ps, start, kernel, result, used) && 0 <= i < |result|
    ensures LR0Step(ps, start, kernel, result', used')
    ensures |result| <= |result'| && result'[..|result|] == result && used <= used'
    ensures |result'| > |result| ==> used' != used
    ensures ExpandedLR0(ps, start, result', used', i)
  {
    result', used' := result, used;
    var next := NextSymbol(start, result[i]);
    if next.None? {
      return;
    }
    var j := 0;
    assert result'[..|result|] == result;
    while j < |ps|
      invariant ExpandingLR0(ps, start, kernel, result, used, result', used', next.value, j)
    {
      var p := ps[j];
      if p.Rule? && Key(p) !in used' && p.head == next.value {
        ExpandLR0Add(ps, start, kernel, result, used, result', used', next.value, i, j);
        result' := result' + [Item(LR0Item, p, 0, [])];
        used' := used' + {Key(p)};
      } else {
        ExpandLR0Skip(ps, start, kernel, result, used, result', used', next.value, j);
      }
      j := j + 1;
    }
    assert result'[i] == result[i];
  }

  /** The first n items are expanded. */
  ghost predicate ExpandedUpTo(ps: seq<Production>, start: Token, result: seq<Item>, used: set<ProductionKey>, n: int)
    requires 0 <= n <= |result|
  {
    forall i | 0 <= i < n :: ExpandedLR0(ps, start, result, used, i)
  }

  lemma ExpandedUpToStep(ps: seq<Production>, start: Token, r1: seq<Item>, u1: set<ProductionKey>, r2: seq<Item>, u2: set<ProductionKey>, n: int)
    requires 0 <= n < |r1| <= |r2| && r1 == r2[..|r1|] && u1 <= u2
    requires ExpandedUpTo(ps, start, r1, u1, n) && ExpandedLR0(ps, start, r2, u2, n)
    ensures ExpandedUpTo(ps, start, r2, u2, n + 1)
  {
    forall i | 0 <= i < n ensures ExpandedLR0(ps, start, r2, u2, i) {
      ExpandedLR0Grows(ps, start, r1, u1, r2, u2, i);
    }
  }

  /** One pass of the outer loop: the items present at its start are expanded in order. */
  method PassLR0(ps: seq<Production>, start: Token, kernel: seq<Item>, result: seq<Item>, used: set<ProductionKey>)
    returns (result': seq<Item>, used': set<ProductionKey>)
    requires LR0Step(ps, start, kernel, result, used)
    ensures LR0Step(ps, start, kernel, result', used')
    ensures |result| <= |result'| && used <= used'
    ensures |result'| > |result| ==> used' != used
    ensures |result'| == |result| ==> ExpandedUpTo(ps, start, result', used', |result'|)
  {
    result', used' := result, used;
    var i := 0;
    while i < |result|
      invariant |result| <= |result'| && 0 <= i <= |result|
      invariant LR0Step(ps, start, kernel, result', used')
      invariant used <= used' && (|result'| > |result| ==> used' != used)
      invariant ExpandedUpTo(ps, start, result', used', i)
    {
      var r', u' := ExpandLR0(ps, start, kernel, result', used', i);
      ExpandedUpToStep(ps, start, result', used', r', u', i);
      result', used' := r', u';
      i := i + 1;
    }
  }

  /** `BaseLR0Parsing.CreateClosure`: repeated passes until a pass adds nothing. */
  method ClosureLR0(ps: seq<Production>, start: Token, kernel: seq<Item>) returns (result: seq<Item>)
    requires KernelOf(LR0Item, kernel)
    ensures LR0ClosureOf(ps, start, kernel, result)
  {
    result := kernel;
    var used: set<ProductionKey> := {};
    assert KeysFrom(result, |kernel|) == {};
    var grown := true;
    while grown
      invariant LR0Step(ps, start, kernel, result, used)
      invariant !grown ==> ExpandedUpTo(ps, start, result, used, |result|)
      decreases |ProductionKeys(ps) - used|, grown
    {
      var r', u' := PassLR0(ps, start, kernel, result, used);
      grown := |r'| > |result|;
      RestShrinks(ProductionKeys(ps), used, u');
      result, used := r', u';
    }
    ClosureLR0Done(ps, start, kernel, result, used);
  }

  lemma ClosureLR0Done(ps: seq<Production>, start: Token, kernel: seq<Item>, result: seq<Item>, used: set<ProductionKey>)
    requires LR0Step(ps, start, kernel, result, used) && ExpandedUpTo(ps, start, result, used, |result|)
    ensures LR0ClosureOf(ps, start, kernel, result)
  {
  }

  // ------------------------------------------------------------------
  // LR(1) closure

  /** The cached grammar analyses the LR(1) closure consults. */
  datatype GrammarView = GrammarView(
    ps: seq<Production>, start: Token,
    terms: seq<Token>, nts: seq<Token>, nullable: seq<Token>, first: Graph)

  /** The symbols from the dot on: the start symbol for the augmented item at dot 0, nothing past its dot. */
  function Remaining(start: Token, x: Item): seq<Token> {
    match x.production
    case Augmented => if x.index == 0 then [start] else []
    case Rule(_, body, _) => if x.index < |body| then body[x.index..] else []
  }

  lemma RemainingStartsWithNext(start: Token, x: Item)
    ensures Remaining(start, x) != [] <==> NextSymbol(start, x).Some?
    ensures Remaining(start, x) != [] ==> NextSymbol(start, x).value == Remaining(start, x)[0]
  {
  }

  /** A token GetFirst can place: end of input, a terminal or a nonterminal. */
  predicate Known(g: GrammarView, t: Token) {
    t.kind == EndOfFile || t in g.terms || t in g.nts
  }

  /** Every token some FIRST set holds. */
  function FirstValues(first: Graph): set<Token> {
    set s, u | s in first.succ && u in first.succ[s] :: u
  }

  /** What GetFirst returns is drawn from its input and the FIRST sets; it fails only on an unknown input token. */
  lemma {:induction false} FirstOfBounds(ts: seq<Token>, g: GrammarView)
    ensures FirstOf(ts, Elems(g.terms), Elems(g.nts), Elems(g.nullable), g.first).Ok? ==>
      Elems(FirstOf(ts, Elems(g.terms), Elems(g.nts), Elems(g.nullable), g.first).value) <= Elems(ts) + FirstValues(g.first)
    ensures FirstOf(ts, Elems(g.terms), Elems(g.nts), Elems(g.nullable), g.first).Err? ==>
      exists t | t in ts :: !Known(g, t)
    decreases |ts|
  {
    if ts != [] {
      var s := ts[0];
      var terms, nts, nullable := Elems(g.terms), Elems(g.nts), Elems(g.nullable);
      if s.kind == EndOfFile || s in terms {
      } else if s in nts {
        var here := if s in g.first.succ then g.first.succ[s] else [];
        assert Elems(here) <= FirstValues(g.first) by {
          forall u | u in here ensures u in FirstValues(g.first) {
            assert s in g.first.succ && u in g.first.succ[s];
          }
        }
        if s in nullable {
          FirstOfBounds(ts[1..], g);
          var rest := FirstOf(ts[1..], terms, nts, nullable, g.first);
          if rest.Ok? {
            assert Elems(here + rest.value) == Elems(here) + Elems(rest.value);
            assert Elems(ts[1..]) <= Elems(ts);
          } else {
            var t :| t in ts[1..] && !Known(g, t);
            assert t in ts;
          }
        }
      } else {
        assert s in ts && !Known(g, s);
      }
    }
  }

  /** The lookaheads item `x` passes to the productions of its next symbol: FIRST of what follows that symbol, then x's own lookaheads. */
  function LookAheadsFor(g: GrammarView, x: Item): Result<seq<Token>>
    requires Remaining(g.start, x) != []
  {
    FirstOf(Remaining(g.start, x)[1..] + x.lookAheads, Elems(g.terms), Elems(g.nts), Elems(g.nullable), g.first)
  }

  /** Item x asks for production p with lookahead l. */
  predicate Demands(g: GrammarView, x: Item, p: Production, l: Token) {
    var rem := Remaining(g.start, x);
    rem != [] && rem[0] in g.nts && p.Rule? && p.head == rem[0] &&
    LookAheadsFor(g, x).Ok? && l in LookAheadsFor(g, x).value
  }

  /** An item the LR(1) closure adds: a grammar production at dot 0 with one lookahead. */
  predicate GeneratedLR1(f: Flavour, ps: seq<Production>, x: Item) {
    x.flavour == f && x.production in ps && x.production.Rule? && x.index == 0 && |x.lookAheads| == 1
  }

  /** Item k was asked for by an earlier item. */
  predicate DemandedLR1(g: GrammarView, result: seq<Item>, k: int)
    requires 0 <= k < |result|
  {
    |result[k].lookAheads| == 1 &&
    exists i | 0 <= i < k :: Demands(g, result[i], result[k].production, result[k].lookAheads[0])
  }

  /** The (production, lookahead) pairs of the items from position `from` on. */
  function GenPairs(result: seq<Item>, from: nat): set<(ProductionKey, Token)> {
    set k | from <= k < |result| && |result[k].lookAheads| > 0 :: (Key(result[k].production), result[k].lookAheads[0])
  }

  /** The pairs recorded in the `used` dictionary. */
  function UsedPairs(used: map<ProductionKey, set<Token>>): set<(ProductionKey, Token)> {
    set k, l | k in used && l in used[k] :: (k, l)
  }

  /** Every token the closure of `kernel` can meet: grammar bodies, the kernel's bodies and lookaheads, and FIRST sets. */
  function ClosureTokens(g: GrammarView, kernel: seq<Item>): set<Token> {
    (set i, k | 0 <= i < |g.ps| && g.ps[i].Rule? && 0 <= k < |g.ps[i].body| :: g.ps[i].body[k]) +
    (set i, k | 0 <= i < |kernel| && kernel[i].production.Rule? && 0 <= k < |kernel[i].production.body| :: kernel[i].production.body[k]) +
    (set i, k | 0 <= i < |kernel| && 0 <= k < |kernel[i].lookAheads| :: kernel[i].lookAheads[k]) +
    FirstValues(g.first)
  }

  /** Every (production, token) pair the `used` dictionary can hold. */
  function AllPairs(g: GrammarView, kernel: seq<Item>): set<(ProductionKey, Token)> {
    set k, l | k in ProductionKeys(g.ps) && l in ClosureTokens(g, kernel) :: (k, l)
  }

  /** No two grammar productions have equal head and body, so the lookahead dictionary, keyed by production equality, accepts them all. */
  predicate DistinctProductions(ps: seq<Production>) {
    forall i, j | 0 <= i < j < |ps| :: Key(ps[i]) != Key(ps[j])
  }

  ghost predicate LR1Step(f: Flavour, g: GrammarView, kernel: seq<Item>, result: seq<Item>, used: map<ProductionKey, set<Token>>) {
    |kernel| <= |result| && result[..|kernel|] == kernel &&
    used.Keys == ProductionKeys(g.ps) && UsedPairs(used) == GenPairs(result, |kernel|) &&
    (forall k | |kernel| <= k < |result| ::
      GeneratedLR1(f, g.ps, result[k]) && DemandedLR1(g, result, k) && result[k].lookAheads[0] in ClosureTokens(g, kernel)) &&
    (forall k1, k2 | |kernel| <= k1 < k2 < |result| ::
      (Key(result[k1].production), result[k1].lookAheads) != (Key(result[k2].production), result[k2].lookAheads))
  }

  /** Every (production, lookahead) pair item i asks for is used; its lookahead computation succeeds. */
  predicate ExpandedLR1(g: GrammarView, result: seq<Item>, used: map<ProductionKey, set<Token>>, i: int)
    requires 0 <= i < |result|
  {
    var rem := Remaining(g.start, result[i]);
    (rem != [] && rem[0] in g.nts) ==>
      LookAheadsFor(g, result[i]).Ok? &&
      forall j, l | 0 <= j < |g.ps| && l in LookAheadsFor(g, result[i]).value && Demands(g, result[i], g.ps[j], l) ::
        Key(g.ps[j]) in used && l in used[Key(g.ps[j])]
  }

  /**
   * The LR(1) closure of `kernel`: the kernel, in order, followed by grammar
   * productions at dot 0 with one lookahead each, each (production,
   * lookahead) pair at most once and each asked for by an earlier item, such
   * that every pair any item asks for is present.
   */
  ghost predicate LR1ClosureOf(f: Flavour, g: GrammarView, kernel: seq<Item>, result: seq<Item>) {
    exists used :: LR1Step(f, g, kernel, result, used) &&
      forall i | 0 <= i < |result| :: ExpandedLR1(g, result, used, i)
  }

  /** The `used` dictionary only grows. */
  predicate UsedGrows(u1: map<ProductionKey, set<Token>>, u2: map<ProductionKey, set<Token>>) {
    u1.Keys == u2.Keys && forall k | k in u1 :: u1[k] <= u2[k]
  }

  lemma UsedPairsAdd(used: map<ProductionKey, set<Token>>, k: ProductionKey, l: Token)
    requires k in used
    ensures UsedPairs(used[k := used[k] + {l}]) == UsedPairs(used) + {(k, l)}
  {
    var u := used[k := used[k] + {l}];
    forall x | x in UsedPairs(u) ensures x in UsedPairs(used) + {(k, l)} {
      var k', l' :| k' in u && l' in u[k'] && x == (k', l');
      if k' != k || l' != l { assert k' in used && l' in used[k']; }
    }
  }

  lemma GenPairsSnoc(result: seq<Item>, from: nat, x: Item)
    requires from <= |result| && |x.lookAheads| > 0
    ensures GenPairs(result + [x], from) == GenPairs(result, from) + {(Key(x.production), x.lookAheads[0])}
  {
    var r := result + [x];
    forall y | y in GenPairs(r, from) ensures y in GenPairs(result, from) + {(Key(x.production), x.lookAheads[0])} {
      var k :| from <= k < |r| && |r[k].lookAheads| > 0 && y == (Key(r[k].production), r[k].lookAheads[0]);
      if k < |result| { assert r[k] == result[k]; }
    }
    forall y | y in GenPairs(result, from) ensures y in GenPairs(r, from) {
      var k :| from <= k < |result| && |result[k].lookAheads| > 0 && y == (Key(result[k].production), result[k].lookAheads[0]);
      assert r[k] == result[k];
    }
    assert r[|result|] == x;
  }

  /** Appending an asked-for, unused (production, lookahead) item keeps the closure invariant. */
  lemma LR1StepSnoc(f: Flavour, g: GrammarView, kernel: seq<Item>, result: seq<Item>, used: map<ProductionKey, set<Token>>,
                    i: int, p: Production, l: Token)
    requires LR1Step(f, g, kernel, result, used)
    requires 0 <= i < |result| && p in g.ps && Demands(g, result[i], p, l) && Key(p) in used && l !in used[Key(p)]
    requires l in ClosureTokens(g, kernel)
    ensures LR1Step(f, g, kernel, result + [Item(f, p, 0, [l])], used[Key(p) := used[Key(p)] + {l}])
  {
    var x := Item(f, p, 0, [l]);
    var r := result + [x];
    UsedPairsAdd(used, Key(p), l);
    GenPairsSnoc(result, |kernel|, x);
    assert r[..|kernel|] == kernel by { assert r[..|kernel|] == result[..|kernel|]; }
    forall k | |kernel| <= k < |r|
      ensures GeneratedLR1(f, g.ps, r[k]) && DemandedLR1(g, r, k) && r[k].lookAheads[0] in ClosureTokens(g, kernel)
    {
      if k < |result| {
        assert r[k] == result[k];
        assert DemandedLR1(g, result, k);
        var i' :| 0 <= i' < k && Demands(g, result[i'], result[k].production, result[k].lookAheads[0]);
        assert r[i'] == result[i'];
      } else {
        assert r[i] == result[i];
      }
    }
    forall k1, k2 | |kernel| <= k1 < k2 < |r|
      ensures (Key(r[k1].production), r[k1].lookAheads) != (Key(r[k2].production), r[k2].lookAheads)
    {
      if k2 == |result| {
        assert r[k1] == result[k1];
        assert (Key(r[k1].production), r[k1].lookAheads[0]) in GenPairs(result, |kernel|);
      } else {
        assert r[k1] == result[k1] && r[k2] == result[k2];
      }
    }
  }

  lemma ExpandedLR1Grows(g: GrammarView, r1: seq<Item>, u1: map<ProductionKey, set<Token>>, r2: seq<Item>, u2: map<ProductionKey, set<Token>>, i: int)
    requires 0 <= i < |r1| <= |r2| && r1 == r2[..|r1|] && UsedGrows(u1, u2)
    requires ExpandedLR1(g, r1, u1, i)
    ensures ExpandedLR1(g, r2, u2, i)
  {
    assert r2[i] == r1[i];
  }

  lemma AllExpandedLR1Grow(g: GrammarView, r1: seq<Item>, u1: map<ProductionKey, set<Token>>, r2: seq<Item>, u2: map<ProductionKey, set<Token>>, n: int)
    requires 0 <= n <= |r1| <= |r2| && r1 == r2[..|r1|] && UsedGrows(u1, u2)
    requires forall i | 0 <= i < n :: ExpandedLR1(g, r1, u1, i)
    ensures forall i | 0 <= i < n :: ExpandedLR1(g, r2, u2, i)
  {
    forall i | 0 <= i < n ensures ExpandedLR1(g, r2, u2, i) {
      ExpandedLR1Grows(g, r1, u1, r2, u2, i);
    }
  }

  lemma PassStepLR1(g: GrammarView, r1: seq<Item>, u1: map<ProductionKey, set<Token>>, r2: seq<Item>, u2: map<ProductionKey, set<Token>>, n: int)
    requires 0 <= n < |r1| <= |r2| && r1 == r2[..|r1|] && UsedGrows(u1, u2)
    requires forall i | 0 <= i < n :: ExpandedLR1(g, r1, u1, i)
    requires ExpandedLR1(g, r2, u2, n)
    ensures forall i | 0 <= i < n + 1 :: ExpandedLR1(g, r2, u2, i)
  {
    AllExpandedLR1Grow(g, r1, u1, r2, u2, n);
  }

  /** The lookaheads an item passes on are tokens the closure can meet. */
  lemma LookAheadsBounded(f: Flavour, g: GrammarView, kernel: seq<Item>, result: seq<Item>, used: map<ProductionKey, set<Token>>, i: int)
    requires LR1Step(f, g, kernel, result, used) && 0 <= i < |result| && Remaining(g.start, result[i]) != []
    ensures LookAheadsFor(g, result[i]).Ok? ==> Elems(LookAheadsFor(g, result[i]).value) <= ClosureTokens(g, kernel)
    ensures LookAheadsFor(g, result[i]).Err? ==> exists t | t in ClosureTokens(g, kernel) :: !Known(g, t)
  {
    var x := result[i];
    var ts := Remaining(g.start, x)[1..] + x.lookAheads;
    FirstOfBounds(ts, g);
    var U := ClosureTokens(g, kernel);
    if i < |kernel| {
      assert kernel[i] == x;
    } else {
      assert GeneratedLR1(f, g.ps, x) && x.lookAheads[0] in U;
    }
    ItemTokensBounded(f, g, kernel, x);
    if LookAheadsFor(g, x).Err? {
      var t :| t in ts && !Known(g, t);
      assert t in U;
    }
  }

  /** The tokens after the dot of a kernel or generated item, and its lookaheads, are tokens the closure can meet. */
  lemma ItemTokensBounded(f: Flavour, g: GrammarView, kernel: seq<Item>, x: Item)
    requires Remaining(g.start, x) != []
    requires x in kernel || (GeneratedLR1(f, g.ps, x) && x.lookAheads[0] in ClosureTokens(g, kernel))
    ensures Elems(Remaining(g.start, x)[1..] + x.lookAheads) <= ClosureTokens(g, kernel)
  {
    var ts := Remaining(g.start, x)[1..] + x.lookAheads;
    var U := ClosureTokens(g, kernel);
    forall t | t in ts ensures t in U {
      var m :| 0 <= m < |ts| && ts[m] == t;
      var i :| x in kernel ==> 0 <= i < |kernel| && kernel[i] == x;
      if m < |Remaining(g.start, x)[1..]| {
        assert x.production.Rule?;
        var body := x.production.body;
        assert t == body[x.index + 1 + m];
        if !(x in kernel) {
          var j :| 0 <= j < |g.ps| && g.ps[j] == x.production;
        }
      } else {
        var n := m - |Remaining(g.start, x)[1..]|;
        assert t == x.lookAheads[n];
        if !(x in kernel) {
          assert |x.lookAheads| == 1 && t == x.lookAheads[0];
        }
      }
    }
  }

  lemma UsedPairsGrow(u1: map<ProductionKey, set<Token>>, u2: map<ProductionKey, set<Token>>)
    requires UsedGrows(u1, u2)
    ensures UsedPairs(u1) <= UsedPairs(u2)
  {
    forall x | x in UsedPairs(u1) ensures x in UsedPairs(u2) {
      var k, l :| k in u1 && l in u1[k] && x == (k, l);
      assert k in u2 && l in u2[k];
    }
  }

  lemma UsedPairsBounded(f: Flavour, g: GrammarView, kernel: seq<Item>, result: seq<Item>, used: map<ProductionKey, set<Token>>)
    requires LR1Step(f, g, kernel, result, used)
    ensures UsedPairs(used) <= AllPairs(g, kernel)
  {
    forall x | x in GenPairs(result, |kernel|) ensures x in AllPairs(g, kernel) {
      var k :| |kernel| <= k < |result| && |result[k].lookAheads| > 0 && x == (Key(result[k].production), result[k].lookAheads[0]);
      assert GeneratedLR1(f, g.ps, result[k]);
      assert Key(result[k].production) in ProductionKeys(g.ps);
    }
  }

  /** `result'` and `used'` extend `result` and `used` within a pass; they differ in the used pairs once an item was added. */
  ghost predicate Adding(f: Flavour, g: GrammarView, kernel: seq<Item>, result: seq<Item>, used: map<ProductionKey, set<Token>>,
                         result': seq<Item>, used': map<ProductionKey, set<Token>>) {
    LR1Step(f, g, kernel, result', used') &&
    |result| <= |result'| && result'[..|result|] == result && UsedGrows(used, used') &&
    (|result'| > |result| ==> UsedPairs(used') != UsedPairs(used))
  }

  /** One item appended inside a pass: the invariant, the growth and the strict growth of the used pairs all carry over. */
  lemma AddStep(f: Flavour, g: GrammarView, kernel: seq<Item>, result: seq<Item>, used: map<ProductionKey, set<Token>>,
                result': seq<Item>, used': map<ProductionKey, set<Token>>, i: int, p: Production, l: Token)
    requires Adding(f, g, kernel, result, used, result', used') && 0 <= i < |result|
    requires p in g.ps && Demands(g, result[i], p, l) && l in ClosureTokens(g, kernel)
    requires Key(p) in used' && l !in used'[Key(p)]
    ensures Adding(f, g, kernel, result, used, result' + [Item(f, p, 0, [l])], used'[Key(p) := used'[Key(p)] + {l}])
  {
    assert result'[i] == result[i];
    LR1StepSnoc(f, g, kernel, result', used', i, p, l);
    UsedPairsGrow(used, used');
    UsedPairsAdd(used', Key(p), l);
    assert (Key(p), l) !in UsedPairs(used');
    assert (result' + [Item(f, p, 0, [l])])[..|result|] == result'[..|result|];
  }

  /** The items for production p, one per lookahead of `lookaheads` not yet used for p. */
  method AddLookAheadItems(f: Flavour, g: GrammarView, kernel: seq<Item>, result: seq<Item>, used: map<ProductionKey, set<Token>>,
                           i: int, p: Production, lookaheads: seq<Token>)
    returns (result': seq<Item>, used': map<ProductionKey, set<Token>>)
    requires LR1Step(f, g, kernel, result, used) && 0 <= i < |result| && p in g.ps
    requires forall l | l in lookaheads :: Demands(g, result[i], p, l) && l in ClosureTokens(g, kernel)
    ensures Adding(f, g, kernel, result, used, result', used')
    ensures Key(p) in used' && forall l | l in lookaheads :: l in used'[Key(p)]
  {
    result', used' := result, used;
    var k := Key(p);
    assert k in used';
    assert result'[..|result|] == result;
    var m := 0;
    while m < |lookaheads|
      invariant 0 <= m <= |lookaheads|
      invariant Adding(f, g, kernel, result, used, result', used')
      invariant k in used' && Elems(lookaheads[..m]) <= used'[k]
    {
      LookAheadStep(f, g, kernel, result, used, result', used', i, p, lookaheads, m);
      var l := lookaheads[m];
      if l !in used'[k] {
        result' := result' + [Item(f, p, 0, [l])];
        used' := used'[k := used'[k] + {l}];
      }
      m := m + 1;
    }
    assert lookaheads[..m] == lookaheads;
  }

  /** One lookahead of `AddLookAheadItems`: its item is appended unless the lookahead is already used for p. */
  lemma LookAheadStep(f: Flavour, g: GrammarView, kernel: seq<Item>, result: seq<Item>, used: map<ProductionKey, set<Token>>,
                      result': seq<Item>, used': map<ProductionKey, set<Token>>, i: int, p: Production, lookaheads: seq<Token>, m: int)
    requires 0 <= m < |lookaheads| && 0 <= i < |result| && p in g.ps
    requires Demands(g, result[i], p, lookaheads[m]) && lookaheads[m] in ClosureTokens(g, kernel)
    requires Adding(f, g, kernel, result, used, result', used') && Key(p) in used' && Elems(lookaheads[..m]) <= used'[Key(p)]
    ensures var l := lookaheads[m];
      l in used'[Key(p)] ==> Elems(lookaheads[..m + 1]) <= used'[Key(p)]
    ensures var l := lookaheads[m]; var u2 := used'[Key(p) := used'[Key(p)] + {l}];
      l !in used'[Key(p)] ==> Adding(f, g, kernel, result, used, result' + [Item(f, p, 0, [l])], u2) && Key(p) in u2 && Elems(lookaheads[..m + 1]) <= u2[Key(p)]
  {
    var l := lookaheads[m];
    assert Elems(lookaheads[..m + 1]) == Elems(lookaheads[..m]) + {l} by {
      assert lookaheads[..m + 1] == lookaheads[..m] + [l];
    }
    if l !in used'[Key(p)] {
      AddStep(f, g, kernel, result, used, result', used', i, p, l);
    }
  }

  /** The production loop of the LR(1) expansion of item i after production j. */
  ghost predicate ExpandingLR1(f: Flavour, g: GrammarView, kernel: seq<Item>, result: seq<Item>, used: map<ProductionKey, set<Token>>,
                               result': seq<Item>, used': map<ProductionKey, set<Token>>, i: int, lookaheads: seq<Token>, j: int) {
    0 <= j <= |g.ps| && 0 <= i < |result| && Adding(f, g, kernel, result, used, result', used') &&
    forall j', l | 0 <= j' < j && l in lookaheads && Demands(g, result[i], g.ps[j'], l) ::
      Key(g.ps[j']) in used' && l in used'[Key(g.ps[j'])]
  }

  lemma ExpandLR1Add(f: Flavour, g: GrammarView, kernel: seq<Item>, result: seq<Item>, used: map<ProductionKey, set<Token>>,
                     result': seq<Item>, used': map<ProductionKey, set<Token>>, r': seq<Item>, u': map<ProductionKey, set<Token>>,
                     i: int, lookaheads: seq<Token>, j: int)
    requires ExpandingLR1(f, g, kernel, result, used, result', used', i, lookaheads, j) && j < |g.ps|
    requires Adding(f, g, kernel, result', used', r', u')
    requires Key(g.ps[j]) in u' && forall l | l in lookaheads :: l in u'[Key(g.ps[j])]
    ensures ExpandingLR1(f, g, kernel, result, used, r', u', i, lookaheads, j + 1)
  {
    UsedPairsGrow(used, used');
    UsedPairsGrow(used', u');
    assert r'[..|result|] == result by { assert r'[..|result|] == r'[..|result'|][..|result|]; }
  }

  lemma ExpandLR1Skip(f: Flavour, g: GrammarView, kernel: seq<Item>, result: seq<Item>, used: map<ProductionKey, set<Token>>,
                      result': seq<Item>, used': map<ProductionKey, set<Token>>, i: int, lookaheads: seq<Token>, j: int)
    requires ExpandingLR1(f, g, kernel, result, used, result', used', i, lookaheads, j) && j < |g.ps|
    requires Remaining(g.start, result[i]) != [] && !(g.ps[j].Rule? && g.ps[j].head == Remaining(g.start, result[i])[0])
    ensures ExpandingLR1(f, g, kernel, result, used, result', used', i, lookaheads, j + 1)
  {
  }

  /** The productions of item i's next symbol, each with every lookahead item i passes on that is still unused for it. */
  method ExpandLR1(f: Flavour, g: GrammarView, kernel: seq<Item>, result: seq<Item>, used: map<ProductionKey, set<Token>>, i: int)
    returns (failed: bool, result': seq<Item>, used': map<ProductionKey, set<Token>>)
    requires LR1Step(f, g, kernel, result, used) && 0 <= i < |result|
    ensures failed ==> exists t | t in ClosureTokens(g, kernel) :: !Known(g, t)
    ensures !failed ==> |result| <= |result'| && result'[..|result|] == result && UsedGrows(used, used')
    ensures !failed ==> LR1Step(f, g, kernel, result', used') && ExpandedLR1(g, result', used', i)
    ensures !failed ==> (|result'| > |result| ==> UsedPairs(used') != UsedPairs(used))
  {
    failed, result', used' := false, result, used;
    var rem := Remaining(g.start, result[i]);
    if rem == [] || rem[0] !in g.nts {
      return;
    }
    var las := FirstFollow.GetFirst(rem[1..] + result[i].lookAheads, g.terms, g.nts, g.nullable, g.first);
    LookAheadsBounded(f, g, kernel, result, used, i);
    if las.Err? {
      return true, result, used;
    }
    var lookaheads := las.value;
    var j := 0;
    assert result'[..|result|] == result;
    while j < |g.ps|
      invariant ExpandingLR1(f, g, kernel, result, used, result', used', i, lookaheads, j)
    {
      var p := g.ps[j];
      if p.Rule? && p.head == rem[0] {
        assert result'[i] == result[i];
        var r', u' := AddLookAheadItems(f, g, kernel, result', used', i, p, lookaheads);
        ExpandLR1Add(f, g, kernel, result, used, result', used', r', u', i, lookaheads, j);
        result', used' := r', u';
      } else {
        ExpandLR1Skip(f, g, kernel, result, used, result', used', i, lookaheads, j);
      }
      j := j + 1;
    }
    assert result'[i] == result[i];
  }

  /** One pass: the items present at its start are expanded in order. */
  method PassLR1(f: Flavour, g: GrammarView, kernel: seq<Item>, result: seq<Item>, used: map<ProductionKey, set<Token>>)
    returns (failed: bool, result': seq<Item>, used': map<ProductionKey, set<Token>>)
    requires LR1Step(f, g, kernel, result, used)
    ensures failed ==> exists t | t in ClosureTokens(g, kernel) :: !Known(g, t)
    ensures !failed ==> LR1Step(f, g, kernel, result', used') && UsedGrows(used, used')
    ensures !failed ==> |result| <= |result'| && result'[..|result|] == result
    ensures !failed ==> (|result'| > |result| ==> UsedPairs(used') != UsedPairs(used))
    ensures !failed && |result'| == |result| ==> forall i | 0 <= i < |result'| :: ExpandedLR1(g, result', used', i)
  {
    failed, result', used' := false, result, used;
    var i := 0;
    while i < |result|
      invariant |result| <= |result'| && 0 <= i <= |result| && result'[..|result|] == result
      invariant LR1Step(f, g, kernel, result', used') && UsedGrows(used, used')
      invariant |result'| > |result| ==> UsedPairs(used') != UsedPairs(used)
      invariant forall i' | 0 <= i' < i :: ExpandedLR1(g, result', used', i')
    {
      var fl, r', u' := ExpandLR1(f, g, kernel, result', used', i);
      if fl {
        return true, result', used';
      }
      PassStepLR1(g, result', used', r', u', i);
      assert r'[..|result|] == result by { assert r'[..|result|] == r'[..|result'|][..|result|]; }
      UsedPairsGrow(used, used');
      UsedPairsGrow(used', u');
      result', used' := r', u';
      i := i + 1;
    }
  }

  /** The `used` dictionary before the first pass: an empty set per production, keyed by production equality, so a second production with the same head and body is rejected. */
  method InitialUsed(ps: seq<Production>) returns (r: Result<map<ProductionKey, set<Token>>>)
    ensures r.Ok? <==> DistinctProductions(ps)
    ensures r.Err? ==> r.error == DuplicateProduction
    ensures r.Ok? ==> r.value.Keys == ProductionKeys(ps) && forall k | k in r.value :: r.value[k] == {}
  {
    var used: map<ProductionKey, set<Token>> := map[];
    var j := 0;
    while j < |ps|
      invariant 0 <= j <= |ps|
      invariant used.Keys == set j' | 0 <= j' < j :: Key(ps[j'])
      invariant forall k | k in used :: used[k] == {}
      invariant forall j1, j2 | 0 <= j1 < j2 < j :: Key(ps[j1]) != Key(ps[j2])
    {
      if Key(ps[j]) in used {
        return Err(DuplicateProduction);
      }
      used := used[Key(ps[j]) := {}];
      j := j + 1;
    }
    assert used.Keys == ProductionKeys(ps) by {
      forall k | k in ProductionKeys(ps) ensures k in used.Keys {
        var p :| p in ps && k == Key(p);
        var j' :| 0 <= j' < |ps| && ps[j'] == p;
      }
    }
    return Ok(used);
  }

  /** Using more of a finite set leaves less of it unused: the measure of the closure loops. */
  lemma RestShrinks<T>(all: set<T>, u1: set<T>, u2: set<T>)
    requires u1 <= u2 <= all
    ensures |all - u2| <= |all - u1|
    ensures u1 != u2 ==> |all - u2| < |all - u1|
  {
    assert all - u1 == (all - u2) + (u2 - u1);
    if u1 != u2 {
      var x :| x in u2 && x !in u1;
      assert x in u2 - u1;
    }
  }

  lemma InitialStepLR1(f: Flavour, g: GrammarView, kernel: seq<Item>, used: map<ProductionKey, set<Token>>)
    requires used.Keys == ProductionKeys(g.ps) && forall k | k in used :: used[k] == {}
    ensures LR1Step(f, g, kernel, kernel, used)
  {
    assert UsedPairs(used) == {};
    assert GenPairs(kernel, |kernel|) == {};
  }

  /** `BaseLR1Parsing.CreateClosure`. */
  method ClosureLR1(f: Flavour, g: GrammarView, kernel: seq<Item>) returns (r: Result<seq<Item>>)
    requires f != LR0Item && KernelOf(f, kernel)
    ensures r.Ok? ==> LR1ClosureOf(f, g, kernel, r.value)
    ensures r.Err? && r.error == DuplicateProduction <==> !DistinctProductions(g.ps)
    ensures r.Err? ==> r.error == DuplicateProduction || r.error == UnexpectedSymbol
    ensures r.Err? && r.error == UnexpectedSymbol ==> exists t | t in ClosureTokens(g, kernel) :: !Known(g, t)
  {
    var used :- InitialUsed(g.ps);
    var result := kernel;
    InitialStepLR1(f, g, kernel, used);
    var grown := true;
    while grown
      invariant LR1Step(f, g, kernel, result, used)
      invariant !grown ==> forall i | 0 <= i < |result| :: ExpandedLR1(g, result, used, i)
      decreases |AllPairs(g, kernel) - UsedPairs(used)|, grown
    {
      var fl, r', u' := PassLR1(f, g, kernel, result, used);
      if fl {
        return Err(UnexpectedSymbol);
      }
      grown := |r'| > |result|;
      if grown {
        UsedPairsGrow(used, u');
        UsedPairsBounded(f, g, kernel, r', u');
        RestShrinks(AllPairs(g, kernel), UsedPairs(used), UsedPairs(u'));
      } else {
        assert r' == result;
      }
      result, used := r', u';
    }
    return Ok(result);
  }

  // ------------------------------------------------------------------
  // Transitions

  /** `CreateTransitionKernelItem`: the same production and lookaheads, the dot one step on. */
  function Move(x: Item): (y: Item)
    ensures y.flavour == x.flavour && y.production == x.production && y.lookAheads == x.lookAheads
    ensures y.index == x.index + 1
  {
    x.(index := x.index + 1)
  }

  /** The symbols after the dots of the closure, each once, in order of first occurrence. */
  function TransitionTokens(start: Token, closure: seq<Item>): seq<Token> {
    if closure == [] then []
    else
      var prev := TransitionTokens(start, closure[..|closure| - 1]);
      var next := NextSymbol(start, closure[|closure| - 1]);
      if next.Some? then AddUnique(prev, next.value) else prev
  }

  /** The transition kernel on `t`: the closure items expecting t, dot moved on, in closure order. */
  function Goto(start: Token, closure: seq<Item>, t: Token): seq<Item> {
    if closure == [] then []
    else
      var last := closure[|closure| - 1];
      Goto(start, closure[..|closure| - 1], t) + (if NextSymbol(start, last) == Some(t) then [Move(last)] else [])
  }

  /** The transition tokens are exactly the next symbols of the closure items, without repeats. */
  lemma {:induction false} TransitionTokensMeaning(start: Token, closure: seq<Item>)
    ensures Distinct(TransitionTokens(start, closure))
    ensures forall t :: t in TransitionTokens(start, closure) <==> exists i | 0 <= i < |closure| :: NextSymbol(start, closure[i]) == Some(t)
    decreases |closure|
  {
    if closure != [] {
      var init := closure[..|closure| - 1];
      TransitionTokensMeaning(start, init);
      DistinctAddUnique(TransitionTokens(start, init), if NextSymbol(start, closure[|closure| - 1]).Some? then NextSymbol(start, closure[|closure| - 1]).value else start);
      forall t ensures t in TransitionTokens(start, closure) <==> exists i | 0 <= i < |closure| :: NextSymbol(start, closure[i]) == Some(t) {
        if exists i | 0 <= i < |closure| :: NextSymbol(start, closure[i]) == Some(t) {
          var i :| 0 <= i < |closure| && NextSymbol(start, closure[i]) == Some(t);
          if i < |init| { assert init[i] == closure[i]; }
        }
        if exists i | 0 <= i < |init| :: NextSymbol(start, init[i]) == Some(t) {
          var i :| 0 <= i < |init| && NextSymbol(start, init[i]) == Some(t);
          assert closure[i] == init[i];
        }
      }
    }
  }

  /** The transition kernel on t holds the moved items expecting t and nothing else. */
  lemma {:induction false} GotoMembers(start: Token, closure: seq<Item>, t: Token, y: Item)
    ensures y in Goto(start, closure, t) <==> exists i | 0 <= i < |closure| :: NextSymbol(start, closure[i]) == Some(t) && y == Move(closure[i])
    decreases |closure|
  {
    if closure != [] {
      var init := closure[..|closure| - 1];
      var last := closure[|closure| - 1];
      var tail := if NextSymbol(start, last) == Some(t) then [Move(last)] else [];
      assert Goto(start, closure, t) == Goto(start, init, t) + tail;
      GotoMembers(start, init, t, y);
      if exists i | 0 <= i < |closure| :: NextSymbol(start, closure[i]) == Some(t) && y == Move(closure[i]) {
        var i :| 0 <= i < |closure| && NextSymbol(start, closure[i]) == Some(t) && y == Move(closure[i]);
        if i < |init| {
          assert init[i] == closure[i];
        } else {
          assert y in tail;
        }
      }
      if y in Goto(start, init, t) {
        var i :| 0 <= i < |init| && NextSymbol(start, init[i]) == Some(t) && y == Move(init[i]);
        assert closure[i] == init[i];
      }
    }
  }

  /** The transition kernel on t holds the moved items expecting t and nothing else; it is empty iff no item expects t. */
  lemma GotoMeaning(start: Token, closure: seq<Item>, t: Token)
    ensures forall y :: y in Goto(start, closure, t) <==> exists i | 0 <= i < |closure| :: NextSymbol(start, closure[i]) == Some(t) && y == Move(closure[i])
    ensures Goto(start, closure, t) == [] <==> forall i | 0 <= i < |closure| :: NextSymbol(start, closure[i]) != Some(t)
  {
    forall y ensures y in Goto(start, closure, t) <==> exists i | 0 <= i < |closure| :: NextSymbol(start, closure[i]) == Some(t) && y == Move(closure[i]) {
      GotoMembers(start, closure, t, y);
    }
    if Goto(start, closure, t) != [] {
      GotoMembers(start, closure, t, Goto(start, closure, t)[0]);
    }
    if exists i | 0 <= i < |closure| :: NextSymbol(start, closure[i]) == Some(t) {
      var i :| 0 <= i < |closure| && NextSymbol(start, closure[i]) == Some(t);
      GotoMembers(start, closure, t, Move(closure[i]));
    }
  }

  /**
   * `CreateTransitions`: a dictionary from each next symbol, in order of
   * first occurrence, to its transition kernel.
   */
  method CreateTransitions(start: Token, closure: seq<Item>) returns (tokens: seq<Token>, kernels: map<Token, seq<Item>>)
    ensures tokens == TransitionTokens(start, closure)
    ensures kernels.Keys == Elems(tokens)
    ensures forall t | t in kernels :: kernels[t] == Goto(start, closure, t)
  {
    tokens, kernels := [], map[];
    var i := 0;
    while i < |closure|
      invariant 0 <= i <= |closure|
      invariant tokens == TransitionTokens(start, closure[..i])
      invariant kernels.Keys == Elems(tokens)
      invariant forall t | t in kernels :: kernels[t] == Goto(start, closure[..i], t)
    {
      var item := closure[i];
      assert closure[..i + 1][..i] == closure[..i];
      assert closure[..i + 1][i] == item;
      var next := NextSymbol(start, item);
      if next.Some? {
        var t := next.value;
        if t !in kernels {
          TransitionTokensMeaning(start, closure[..i]);
          GotoMeaning(start, closure[..i], t);
          assert t !in tokens;
          kernels := kernels[t := []];
        }
        kernels := kernels[t := kernels[t] + [Move(item)]];
        tokens := AddUnique(tokens, t);
      }
      i := i + 1;
    }
    assert closure[..i] == closure;
  }
}
