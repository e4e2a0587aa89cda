/**
 * The canonical collection (`BaseLRParsing.CreateAutomaton`): starting from
 * the initial kernel, every state gets its closure and its transitions; a
 * transition kernel reuses the first state whose kernel equals it and
 * otherwise becomes a new state at the end. State indices are positions.
 *
 * The same construction serves LR(0), LR(1) and, before merging, LALR(1);
 * the item class decides the closure and the kernel equality.
 */
module Automata {
  import opened Wrappers
  import opened Tokens
  import opened Productions
  import opened Relations
  import opened Items
  import opened States
  import opened Closures

  /** `CreateInitialKernel`: the augmented item at dot 0, with end of input as lookahead for the LR(1) classes. */
  function InitialKernel(f: Flavour): (k: seq<Item>)
    ensures |k| == 1 && k[0].production == Augmented && k[0].index == 0 && k[0].flavour == f
    ensures k[0].lookAheads == if f == LR0Item then [] else [EndToken]
  {
    if f == LR0Item then [Item(LR0Item, Augmented, 0, [])] else [Item(f, Augmented, 0, [EndToken])]
  }

  /** The closure the item class computes. */
  ghost predicate ClosureOf(f: Flavour, g: GrammarView, kernel: seq<Item>, items: seq<Item>) {
    if f == LR0Item then LR0ClosureOf(g.ps, g.start, kernel, items) else LR1ClosureOf(f, g, kernel, items)
  }

  /** `CreateClosure` of the item class; only the LR(1) closure can fail. */
  method Closure(f: Flavour, g: GrammarView, kernel: seq<Item>) returns (r: Result<seq<Item>>)
    requires KernelOf(f, kernel)
    ensures r.Ok? ==> ClosureOf(f, g, kernel, r.value)
    ensures f == LR0Item ==> r.Ok?
    ensures r.Err? && r.error == DuplicateProduction <==> f != LR0Item && !DistinctProductions(g.ps)
    ensures r.Err? ==> r.error == DuplicateProduction || r.error == UnexpectedSymbol
    ensures r.Err? && r.error == UnexpectedSymbol ==> exists t | t in ClosureTokens(g, kernel) :: !Known(g, t)
  {
    if f == LR0Item {
      var items := ClosureLR0(g.ps, g.start, kernel);
      return Ok(items);
    }
    r := ClosureLR1(f, g, kernel);
  }

  // ------------------------------------------------------------------
  // What kernels can hold

  /** The body tokens of the grammar. */
  function BodyTokens(ps: seq<Production>): set<Token> {
    set i, k | 0 <= i < |ps| && ps[i].Rule? && 0 <= k < |ps[i].body| :: ps[i].body[k]
  }

  /** Every token a lookahead set can hold: body tokens, FIRST entries and end of input. */
  function LookAheadUniverse(g: GrammarView): set<Token> {
    BodyTokens(g.ps) + FirstValues(g.first) + {EndToken}
  }

  /** The longest body of the grammar. */
  function MaxBody(ps: seq<Production>): nat {
    if ps == [] then 0
    else
      var m := MaxBody(ps[..|ps| - 1]);
      var last := ps[|ps| - 1];
      var b := if last.Rule? then |last.body| else 0;
      if b > m then b else m
  }

  lemma {:induction false} MaxBodyBound(ps: seq<Production>, p: Production)
    requires p in ps && p.Rule?
    ensures |p.body| <= MaxBody(ps)
    decreases |ps|
  {
    if ps[|ps| - 1] != p {
      var init := ps[..|ps| - 1];
      assert p in init by {
        var i :| 0 <= i < |ps| && ps[i] == p;
        assert i < |ps| - 1 && init[i] == p;
      }
      MaxBodyBound(init, p);
    }
  }

  /** An item of some kernel: the augmented production up to dot 1, or a grammar production with its dot inside or at the end of the body; lookaheads from the universe. */
  predicate ItemInUniverse(g: GrammarView, x: Item) {
    ((x.production == Augmented && x.index <= 1) ||
     (x.production in g.ps && x.production.Rule? && x.index <= |x.production.body|)) &&
    forall k | 0 <= k < |x.lookAheads| :: x.lookAheads[k] in LookAheadUniverse(g)
  }

  /** The shape every state kernel keeps: items of the one class, pairwise unequal, in the universe, and never a grammar production at dot 0. */
  predicate KernelShape(f: Flavour, g: GrammarView, kernel: seq<Item>) {
    KernelOf(f, kernel) && KeyDistinct(ComparisonOf(f), kernel) &&
    forall i | 0 <= i < |kernel| :: ItemInUniverse(g, kernel[i]) && (kernel[i].index >= 1 || kernel[i].production == Augmented)
  }

  /** Closure items: of the one class, pairwise unequal and in the universe. */
  predicate ItemsShape(f: Flavour, g: GrammarView, items: seq<Item>) {
    KernelOf(f, items) && KeyDistinct(ComparisonOf(f), items) &&
    forall i | 0 <= i < |items| :: ItemInUniverse(g, items[i])
  }

  ghost function Powerset<T>(u: set<T>): set<set<T>> {
    set s: set<T> | s <= u
  }

  /** Every key an item of some kernel can have. */
  ghost function KeyUniverse(g: GrammarView): set<ItemKey> {
    set k, d: nat, L | k in ProductionKeys(g.ps) + {AugmentedKey} && d <= MaxBody(g.ps) + 1 && L in Powerset(LookAheadUniverse(g)) :: ItemKey(k, d, L)
  }

  lemma KeyInUniverse(c: Comparison, g: GrammarView, x: Item)
    requires ItemInUniverse(g, x)
    ensures KeyOf(c, x) in KeyUniverse(g)
  {
    var L := if c == Core then {} else Elems(x.lookAheads);
    assert L in Powerset(LookAheadUniverse(g)) by {
      forall t | t in L ensures t in LookAheadUniverse(g) {
        var k :| 0 <= k < |x.lookAheads| && x.lookAheads[k] == t;
      }
    }
    if x.production != Augmented {
      MaxBodyBound(g.ps, x.production);
      assert Key(x.production) in ProductionKeys(g.ps);
    }
    assert KeyOf(c, x) == ItemKey(Key(x.production), x.index, L);
  }

  lemma KernelKeysInUniverse(c: Comparison, g: GrammarView, kernel: seq<Item>)
    requires forall i | 0 <= i < |kernel| :: ItemInUniverse(g, kernel[i])
    ensures KeySet(c, kernel) <= KeyUniverse(g)
  {
    forall y | y in KeySet(c, kernel) ensures y in KeyUniverse(g) {
      var x :| x in kernel && y == KeyOf(c, x);
      var i :| 0 <= i < |kernel| && kernel[i] == x;
      KeyInUniverse(c, g, x);
    }
  }

  /** The tokens a closure meets lie in the universe when its kernel does. */
  lemma ClosureTokensInUniverse(g: GrammarView, kernel: seq<Item>)
    requires forall i | 0 <= i < |kernel| :: ItemInUniverse(g, kernel[i])
    ensures ClosureTokens(g, kernel) <= LookAheadUniverse(g)
  {
    forall i, k | 0 <= i < |kernel| && kernel[i].production.Rule? && 0 <= k < |kernel[i].production.body|
      ensures kernel[i].production.body[k] in BodyTokens(g.ps)
    {
      assert ItemInUniverse(g, kernel[i]);
      var j :| 0 <= j < |g.ps| && g.ps[j] == kernel[i].production;
    }
    forall i, k | 0 <= i < |kernel| && 0 <= k < |kernel[i].lookAheads|
      ensures kernel[i].lookAheads[k] in LookAheadUniverse(g)
    {
      assert ItemInUniverse(g, kernel[i]);
    }
  }

  // ------------------------------------------------------------------
  // Closures and transition kernels keep the shape

  /** The LR(0) closure of a kernel of the right shape: in the universe, no two items equal. */
  lemma LR0ClosureShape(g: GrammarView, kernel: seq<Item>, result: seq<Item>)
    requires KernelShape(LR0Item, g, kernel) && LR0ClosureOf(g.ps, g.start, kernel, result)
    ensures ItemsShape(LR0Item, g, result)
  {
    var n := |kernel|;
    assert forall k | 0 <= k < n :: result[k] == kernel[k];
    forall k | n <= k < |result| ensures WellFormedItem(LR0Item, result[k]) && ItemInUniverse(g, result[k]) {
      assert GeneratedLR0(g.ps, result[k]) && Demanded(g.start, result, k);
    }
    forall k1, k2 | 0 <= k1 < k2 < |result| ensures KeyOf(Core, result[k1]) != KeyOf(Core, result[k2]) {
      if n <= k2 {
        assert GeneratedLR0(g.ps, result[k2]) && Demanded(g.start, result, k2);
        if n <= k1 {
          assert Key(result[k1].production) != Key(result[k2].production);
        }
      }
    }
  }

  /** The LR(1) closure of a kernel of the right shape: in the universe, no two items equal. */
  lemma LR1ClosureShape(f: Flavour, g: GrammarView, kernel: seq<Item>, result: seq<Item>)
    requires f != LR0Item && KernelShape(f, g, kernel) && LR1ClosureOf(f, g, kernel, result)
    ensures ItemsShape(f, g, result)
  {
    var used :| LR1Step(f, g, kernel, result, used) && forall i | 0 <= i < |result| :: ExpandedLR1(g, result, used, i);
    GeneratedWellFormed(f, g, kernel, result);
    GeneratedDistinct(f, g, kernel, result);
  }

  /** The generated items of an LR(1) closure are well formed and in the universe. */
  lemma GeneratedWellFormed(f: Flavour, g: GrammarView, kernel: seq<Item>, result: seq<Item>)
    requires f != LR0Item && KernelShape(f, g, kernel) && |kernel| <= |result| && result[..|kernel|] == kernel
    requires forall k | |kernel| <= k < |result| :: GeneratedLR1(f, g.ps, result[k]) && result[k].lookAheads[0] in ClosureTokens(g, kernel)
    ensures KernelOf(f, result) && forall i | 0 <= i < |result| :: ItemInUniverse(g, result[i])
  {
    var n := |kernel|;
    assert forall k | 0 <= k < n :: result[k] == kernel[k];
    ClosureTokensInUniverse(g, kernel);
    forall k | n <= k < |result| ensures WellFormedItem(f, result[k]) && ItemInUniverse(g, result[k]) {
      assert GeneratedLR1(f, g.ps, result[k]);
      assert result[k].lookAheads[0] in ClosureTokens(g, kernel);
    }
  }

  /** The items of an LR(1) closure are pairwise unequal with their lookaheads. */
  lemma GeneratedDistinct(f: Flavour, g: GrammarView, kernel: seq<Item>, result: seq<Item>)
    requires f != LR0Item && KernelShape(f, g, kernel) && |kernel| <= |result| && result[..|kernel|] == kernel
    requires forall k | |kernel| <= k < |result| :: GeneratedLR1(f, g.ps, result[k])
    requires forall k1, k2 | |kernel| <= k1 < k2 < |result| ::
      (Key(result[k1].production), result[k1].lookAheads) != (Key(result[k2].production), result[k2].lookAheads)
    ensures KeyDistinct(ComparisonOf(f), result)
  {
    var n := |kernel|;
    assert forall k | 0 <= k < n :: result[k] == kernel[k];
    forall k1, k2 | 0 <= k1 < k2 < |result| ensures KeyOf(WithLookAheads, result[k1]) != KeyOf(WithLookAheads, result[k2]) {
      if n <= k2 {
        assert GeneratedLR1(f, g.ps, result[k2]);
        if n <= k1 {
          assert GeneratedLR1(f, g.ps, result[k1]);
          var a, b := result[k1].lookAheads, result[k2].lookAheads;
          assert a == [a[0]] && b == [b[0]];
          assert Elems(a) == {a[0]} && Elems(b) == {b[0]};
          assert (Key(result[k1].production), a) != (Key(result[k2].production), b);
        }
      }
    }
  }

  lemma MoveKey(c: Comparison, x: Item, y: Item)
    ensures KeyOf(c, Move(x)) == KeyOf(c, Move(y)) <==> KeyOf(c, x) == KeyOf(c, y)
  {
  }

  /** A transition kernel of a duplicate-free closure is duplicate-free. */
  lemma {:induction false} GotoKeyDistinct(c: Comparison, start: Token, closure: seq<Item>, t: Token)
    requires KeyDistinct(c, closure)
    ensures KeyDistinct(c, Goto(start, closure, t))
    decreases |closure|
  {
    if closure != [] {
      var init := closure[..|closure| - 1];
      var last := closure[|closure| - 1];
      assert forall i | 0 <= i < |init| :: init[i] == closure[i];
      GotoKeyDistinct(c, start, init, t);
      if NextSymbol(start, last) == Some(t) {
        var prev := Goto(start, init, t);
        GotoMeaning(start, init, t);
        var r := prev + [Move(last)];
        forall i, j | 0 <= i < j < |r| ensures KeyOf(c, r[i]) != KeyOf(c, r[j]) {
          if j == |prev| {
            assert r[i] in prev;
            var m :| 0 <= m < |init| && NextSymbol(start, init[m]) == Some(t) && r[i] == Move(init[m]);
            MoveKey(c, init[m], last);
          }
        }
      }
    }
  }

  /** A transition kernel of a closure of the right shape has the kernel shape. */
  lemma GotoShape(f: Flavour, g: GrammarView, items: seq<Item>, t: Token)
    requires ItemsShape(f, g, items)
    ensures KernelShape(f, g, Goto(g.start, items, t))
  {
    var k := Goto(g.start, items, t);
    GotoMeaning(g.start, items, t);
    GotoKeyDistinct(ComparisonOf(f), g.start, items, t);
    forall i | 0 <= i < |k|
      ensures WellFormedItem(f, k[i]) && ItemInUniverse(g, k[i]) && (k[i].index >= 1 || k[i].production == Augmented)
    {
      assert k[i] in k;
      var m :| 0 <= m < |items| && NextSymbol(g.start, items[m]) == Some(t) && k[i] == Move(items[m]);
      assert ItemInUniverse(g, items[m]) && WellFormedItem(f, items[m]);
    }
  }

  /** The initial kernel has the kernel shape. */
  lemma InitialShape(f: Flavour, g: GrammarView)
    ensures KernelShape(f, g, InitialKernel(f))
  {
  }

  // ------------------------------------------------------------------
  // How many states there can be

  lemma {:induction false} DistinctBound<T>(s: seq<T>, u: set<T>)
    requires forall i | 0 <= i < |s| :: s[i] in u
    requires forall i, j | 0 <= i < j < |s| :: s[i] != s[j]
    ensures |s| <= |u|
    decreases |s|
  {
    if s != [] {
      var last := s[|s| - 1];
      var init := s[..|s| - 1];
      forall i | 0 <= i < |init| ensures init[i] in u - {last} {
        assert init[i] == s[i];
      }
      DistinctBound(init, u - {last});
    }
  }

  /**
   * Pairwise unequal kernels of the kernel shape are at most as many as the
   * subsets of the key universe, since unequal kernels have different key sets.
   */
  lemma StatesBound(f: Flavour, g: GrammarView, ks: seq<seq<Item>>)
    requires forall i | 0 <= i < |ks| :: KernelShape(f, g, ks[i])
    requires forall i, j | 0 <= i < j < |ks| :: !OrderlessEqual(ComparisonOf(f), ks[j], ks[i])
    ensures |ks| <= |Powerset(KeyUniverse(g))|
  {
    var c := ComparisonOf(f);
    var sets := seq(|ks|, i requires 0 <= i < |ks| => KeySet(c, ks[i]));
    forall i | 0 <= i < |sets| ensures sets[i] in Powerset(KeyUniverse(g)) {
      KernelKeysInUniverse(c, g, ks[i]);
    }
    forall i, j | 0 <= i < j < |sets| ensures sets[i] != sets[j] {
      OrderlessEqualIsSetEquality(c, ks[j], ks[i]);
    }
    DistinctBound(sets, Powerset(KeyUniverse(g)));
  }

  // ------------------------------------------------------------------
  // The construction

  /** State indices are positions, and every state is of the one item class. */
  predicate Indexed(f: Flavour, states: seq<State>) {
    forall i | 0 <= i < |states| :: states[i].index == i && states[i].flavour == f
  }

  /** Every kernel has the kernel shape, and no kernel equals an earlier state's kernel. */
  predicate KernelsApart(f: Flavour, g: GrammarView, states: seq<State>) {
    (forall i | 0 <= i < |states| :: KernelShape(f, g, states[i].kernel)) &&
    forall i, j | 0 <= i < j < |states| :: !OrderlessEqual(ComparisonOf(f), states[j].kernel, states[i].kernel)
  }

  /** State j is the first state whose kernel equals `kernel`. */
  predicate LinksTo(f: Flavour, states: seq<State>, kernel: seq<Item>, j: nat) {
    j < |states| && OrderlessEqual(ComparisonOf(f), kernel, states[j].kernel) &&
    forall i | 0 <= i < j :: !OrderlessEqual(ComparisonOf(f), kernel, states[i].kernel)
  }

  /**
   * State i is complete: its items are the closure of its kernel, it has a
   * transition on exactly the symbols after the dots of its items, and each
   * leads to the first state whose kernel equals the transition kernel.
   */
  ghost predicate Processed(f: Flavour, g: GrammarView, states: seq<State>, i: int)
    requires 0 <= i < |states|
  {
    var st := states[i];
    ClosureOf(f, g, st.kernel, st.items) &&
    st.transitions.Keys == Elems(TransitionTokens(g.start, st.items)) &&
    forall t | t in st.transitions :: LinksTo(f, states, Goto(g.start, st.items, t), st.transitions[t])
  }

  /** State j is the target of a transition of an earlier state. */
  predicate Reached(states: seq<State>, j: int) {
    exists i, t | 0 <= i < j && i < |states| && t in states[i].transitions :: states[i].transitions[t] == j
  }

  /**
   * The canonical collection: it starts from the initial kernel, every state
   * is complete, kernels are pairwise unequal, and every state but the first
   * is reached from an earlier one.
   */
  ghost predicate CanonicalCollection(f: Flavour, g: GrammarView, states: seq<State>) {
    |states| >= 1 && states[0].kernel == InitialKernel(f) &&
    Indexed(f, states) && KernelsApart(f, g, states) &&
    (forall i | 0 <= i < |states| :: Processed(f, g, states, i)) &&
    forall j | 0 < j < |states| :: Reached(states, j)
  }

  /** The kernels of `b` extend those of `a`. */
  predicate KernelsGrow(a: seq<State>, b: seq<State>) {
    |a| <= |b| && forall i | 0 <= i < |a| :: b[i].kernel == a[i].kernel
  }

  lemma LinksToGrows(f: Flavour, a: seq<State>, b: seq<State>, kernel: seq<Item>, j: nat)
    requires KernelsGrow(a, b) && LinksTo(f, a, kernel, j)
    ensures LinksTo(f, b, kernel, j)
  {
  }

  lemma KernelsBound(f: Flavour, g: GrammarView, states: seq<State>)
    requires KernelsApart(f, g, states)
    ensures |states| <= |Powerset(KeyUniverse(g))|
  {
    var ks := seq(|states|, i requires 0 <= i < |states| => states[i].kernel);
    StatesBound(f, g, ks);
  }

  /** The kernel search: the first state whose kernel the given kernel equals, or the number of states. */
  method FindState(f: Flavour, states: seq<State>, kernel: seq<Item>) returns (i: nat)
    ensures i <= |states|
    ensures i < |states| ==> LinksTo(f, states, kernel, i)
    ensures i == |states| ==> forall j | 0 <= j < |states| :: !OrderlessEqual(ComparisonOf(f), kernel, states[j].kernel)
  {
    i := 0;
    while i < |states|
      invariant i <= |states|
      invariant forall j | 0 <= j < i :: !OrderlessEqual(ComparisonOf(f), kernel, states[j].kernel)
    {
      var eq := OrderlessSequenceEqual(ComparisonOf(f), kernel, states[i].kernel);
      if eq {
        return;
      }
      i := i + 1;
    }
  }

  /** Appending a state whose kernel has the shape and equals no earlier kernel keeps the states apart. */
  lemma AppendApart(f: Flavour, g: GrammarView, states: seq<State>, kernel: seq<Item>)
    requires Indexed(f, states) && KernelsApart(f, g, states) && KernelShape(f, g, kernel)
    requires forall j | 0 <= j < |states| :: !OrderlessEqual(ComparisonOf(f), kernel, states[j].kernel)
    ensures Indexed(f, states + [NewState(f, |states|, kernel)])
    ensures KernelsApart(f, g, states + [NewState(f, |states|, kernel)])
  {
    var b := states + [NewState(f, |states|, kernel)];
    assert forall i | 0 <= i < |states| :: b[i] == states[i];
  }

  lemma TargetsStep(trans: map<Token, nat>, t: Token, i: nat, tr: map<Token, nat>, lo: int, hi: int, hi': int)
    requires forall j | lo <= j < hi :: j in trans.Values
    requires t !in trans && tr == trans[t := i] && hi <= hi' <= hi + 1 && (hi' == hi + 1 ==> i == hi)
    ensures forall j | lo <= j < hi' :: j in tr.Values
  {
    forall j | lo <= j < hi' ensures j in tr.Values {
      if j < hi {
        assert j in trans.Values;
        var u :| u in trans && trans[u] == j;
        assert tr[u] == j;
      } else {
        assert tr[t] == j;
      }
    }
  }

  /**
   * The transitions of one state: for each transition symbol in order, the
   * first state with an equal kernel, or a new state appended at the end.
   */
  method LinkTransitions(f: Flavour, g: GrammarView, states: seq<State>, items: seq<Item>, tokens: seq<Token>, kernels: map<Token, seq<Item>>)
    returns (states': seq<State>, trans: map<Token, nat>)
    requires Indexed(f, states) && KernelsApart(f, g, states)
    requires ItemsShape(f, g, items)
    requires Distinct(tokens) && kernels.Keys == Elems(tokens)
    requires forall t | t in kernels :: kernels[t] == Goto(g.start, items, t)
    ensures |states| <= |states'| && states'[..|states|] == states
    ensures forall i | |states| <= i < |states'| :: states'[i] == NewState(f, i, states'[i].kernel)
    ensures Indexed(f, states') && KernelsApart(f, g, states')
    ensures trans.Keys == Elems(tokens)
    ensures forall t | t in trans :: LinksTo(f, states', Goto(g.start, items, t), trans[t])
    ensures forall j | |states| <= j < |states'| :: j in trans.Values
  {
    states', trans := states, map[];
    var n := 0;
    while n < |tokens|
      invariant n <= |tokens|
      invariant |states| <= |states'| && states'[..|states|] == states
      invariant forall i | |states| <= i < |states'| :: states'[i] == NewState(f, i, states'[i].kernel)
      invariant Indexed(f, states') && KernelsApart(f, g, states')
      invariant trans.Keys == Elems(tokens[..n])
      invariant forall t | t in trans :: LinksTo(f, states', Goto(g.start, items, t), trans[t])
      invariant forall j | |states| <= j < |states'| :: j in trans.Values
    {
      var t := tokens[n];
      var kernel := kernels[t];
      GotoShape(f, g, items, t);
      var i := FindState(f, states', kernel);
      var before := states';
      if i == |states'| {
        AppendApart(f, g, states', kernel);
        states' := states' + [NewState(f, i, kernel)];
        forall u | u in trans ensures LinksTo(f, states', Goto(g.start, items, u), trans[u]) {
          LinksToGrows(f, before, states', Goto(g.start, items, u), trans[u]);
        }
        assert states'[..|states|] == before[..|states|];
      }
      assert LinksTo(f, states', kernel, i);
      assert t !in trans by { assert t !in tokens[..n]; }
      TargetsStep(trans, t, i, trans[t := i], |states|, |before|, |states'|);
      trans := trans[t := i];
      assert tokens[..n + 1] == tokens[..n] + [t];
      n := n + 1;
    }
    assert tokens[..n] == tokens;
  }

  /** The collection after `s` states have been completed: the rest are fresh and each was reached from an earlier state. */
  ghost predicate Partial(f: Flavour, g: GrammarView, states: seq<State>, s: int) {
    0 <= s <= |states| && |states| >= 1 && states[0].kernel == InitialKernel(f) &&
    Indexed(f, states) && KernelsApart(f, g, states) &&
    (forall i | 0 <= i < s :: Processed(f, g, states, i)) &&
    (forall i | s <= i < |states| :: states[i] == NewState(f, i, states[i].kernel)) &&
    forall j | 0 < j < |states| :: Reached(states, j)
  }

  lemma ProcessedGrows(f: Flavour, g: GrammarView, a: seq<State>, b: seq<State>, i: int)
    requires KernelsGrow(a, b) && 0 <= i < |a| && b[i] == a[i] && Processed(f, g, a, i)
    ensures Processed(f, g, b, i)
  {
    var st := a[i];
    forall t | t in st.transitions ensures LinksTo(f, b, Goto(g.start, st.items, t), st.transitions[t]) {
      LinksToGrows(f, a, b, Goto(g.start, st.items, t), st.transitions[t]);
    }
  }

  /** Completing state s: the appended states and the new transitions keep the collection partial, one state further. */
  lemma CompleteStep(f: Flavour, g: GrammarView, states: seq<State>, s: int, items: seq<Item>,
                     grown: seq<State>, trans: map<Token, nat>, next: seq<State>)
    requires Partial(f, g, states, s) && s < |states|
    requires ClosureOf(f, g, states[s].kernel, items)
    requires |states| <= |grown| && grown[..|states|] == states
    requires forall i | |states| <= i < |grown| :: grown[i] == NewState(f, i, grown[i].kernel)
    requires Indexed(f, grown) && KernelsApart(f, g, grown)
    requires trans.Keys == Elems(TransitionTokens(g.start, items))
    requires forall t | t in trans :: LinksTo(f, grown, Goto(g.start, items, t), trans[t])
    requires forall j | |states| <= j < |grown| :: j in trans.Values
    requires next == grown[s := grown[s].(items := items, transitions := trans)]
    ensures Partial(f, g, next, s + 1)
  {
    assert KernelsGrow(states, grown) && KernelsGrow(grown, next);
    assert forall i | 0 <= i < |states| :: grown[i] == states[i];
    forall i | 0 <= i < s ensures Processed(f, g, next, i) {
      ProcessedGrows(f, g, states, grown, i);
      ProcessedGrows(f, g, grown, next, i);
    }
    forall t | t in trans ensures LinksTo(f, next, Goto(g.start, items, t), trans[t]) {
      LinksToGrows(f, grown, next, Goto(g.start, items, t), trans[t]);
    }
    assert Processed(f, g, next, s);
    forall j | 0 < j < |next| ensures Reached(next, j) {
      if j < |states| {
        assert Reached(states, j);
        var i, t :| 0 <= i < j && i < |states| && t in states[i].transitions && states[i].transitions[t] == j;
        assert i != s;
        assert next[i] == states[i];
      } else {
        assert j in trans.Values;
        var t :| t in trans && trans[t] == j;
        assert t in next[s].transitions;
      }
    }
  }

  /** One round of the outer loop: close state s, compute its transitions and link them. */
  method CompleteState(f: Flavour, g: GrammarView, states: seq<State>, s: nat) returns (r: Result<seq<State>>)
    requires Partial(f, g, states, s) && s < |states|
    ensures r.Ok? ==> |states| <= |r.value| && Partial(f, g, r.value, s + 1)
    ensures f == LR0Item ==> r.Ok?
    ensures r.Err? && r.error == DuplicateProduction <==> f != LR0Item && !DistinctProductions(g.ps)
    ensures r.Err? ==> r.error == DuplicateProduction || r.error == UnexpectedSymbol
    ensures r.Err? && r.error == UnexpectedSymbol ==> exists t | t in LookAheadUniverse(g) :: !Known(g, t)
  {
    var kernel := states[s].kernel;
    var closed := Closure(f, g, kernel);
    if closed.Err? {
      if closed.error == UnexpectedSymbol {
        ClosureTokensInUniverse(g, kernel);
      }
      return Err(closed.error);
    }
    var items := closed.value;
    if f == LR0Item {
      LR0ClosureShape(g, kernel, items);
    } else {
      LR1ClosureShape(f, g, kernel, items);
    }
    var tokens, kernels := CreateTransitions(g.start, items);
    TransitionTokensMeaning(g.start, items);
    var grown, trans := LinkTransitions(f, g, states, items, tokens, kernels);
    var next := grown[s := grown[s].(items := items, transitions := trans)];
    CompleteStep(f, g, states, s, items, grown, trans, next);
    return Ok(next);
  }

  /**
   * `CreateAutomaton`: the canonical collection of the item class. The
   * construction ends since unequal kernels are bounded in number; it fails
   * on a grammar without productions, whose start symbol the first closure
   * cannot compute, and otherwise only where an LR(1) closure fails.
   */
  method CreateAutomaton(f: Flavour, g: GrammarView) returns (r: Result<seq<State>>)
    ensures |g.ps| == 0 ==> r == Err(EmptyGrammar)
    ensures r.Ok? ==> CanonicalCollection(f, g, r.value)
    ensures f == LR0Item && |g.ps| > 0 ==> r.Ok?
    ensures r.Err? && r.error == DuplicateProduction <==> f != LR0Item && !DistinctProductions(g.ps)
    ensures r.Err? ==> r.error == DuplicateProduction || r.error == UnexpectedSymbol || (|g.ps| == 0 && r.error == EmptyGrammar)
    ensures r.Err? && r.error == UnexpectedSymbol ==> exists t | t in LookAheadUniverse(g) :: !Known(g, t)
  {
    if |g.ps| == 0 {
      return Err(EmptyGrammar);
    }
    var states := [NewState(f, 0, InitialKernel(f))];
    InitialShape(f, g);
    var s := 0;
    KernelsBound(f, g, states);
    while s < |states|
      invariant Partial(f, g, states, s)
      invariant |states| <= |Powerset(KeyUniverse(g))|
      invariant s > 0 ==> f == LR0Item || DistinctProductions(g.ps)
      decreases |Powerset(KeyUniverse(g))| - |states|, |states| - s
    {
      var next := CompleteState(f, g, states, s);
      if next.Err? {
        return Err(next.error);
      }
      states := next.value;
      KernelsBound(f, g, states);
      s := s + 1;
    }
    return Ok(states);
  }
}
