/**
 * The analyses of a context-free grammar given as its list of productions:
 * start symbol, nonterminals and terminals, nullable and realizable
 * nonterminals as least fixpoints, unreachable nonterminals, null ambiguity
 * and the first cycle of the unit-derivation relation.
 *
 * Every analysis here works on a snapshot `ps` of the production list; the
 * grammar object with its caches is in module Grammars.
 */
module Analysis {
  import opened Wrappers
  import opened Tokens
  import opened Productions
  import opened Relations

  /** A grammar's productions are ordinary rules; the augmented production never is one of them. */
  predicate AllRules(ps: seq<Production>) {
    forall i :: 0 <= i < |ps| ==> ps[i].Rule?
  }

  /** The heads of the productions. */
  function Heads(ps: seq<Production>): set<Token>
    requires AllRules(ps)
  {
    set i | 0 <= i < |ps| :: ps[i].head
  }

  /** The nonterminals: every head that is not an EMPTY token. */
  function NonTerminals(ps: seq<Production>): set<Token>
    requires AllRules(ps)
  {
    set i | 0 <= i < |ps| && ps[i].head.kind != Empty :: ps[i].head
  }

  /** Every token of the grammar: heads and body tokens. */
  function TokenSet(ps: seq<Production>): set<Token>
    requires AllRules(ps)
  {
    Heads(ps) + set i, k | 0 <= i < |ps| && 0 <= k < |ps[i].body| :: ps[i].body[k]
  }

  /** The terminals: the tokens that are neither nonterminals nor EMPTY tokens. */
  function Terminals(ps: seq<Production>): set<Token>
    requires AllRules(ps)
  {
    set t | t in TokenSet(ps) && t !in NonTerminals(ps) && t.kind != Empty
  }

  /** Terminals and nonterminals are disjoint. */
  lemma TerminalsAreNotNonTerminals(ps: seq<Production>)
    requires AllRules(ps)
    ensures Terminals(ps) * NonTerminals(ps) == {}
    ensures NonTerminals(ps) <= TokenSet(ps)
  {
    forall t | t in NonTerminals(ps) ensures t in TokenSet(ps) {
      var i :| 0 <= i < |ps| && ps[i].head.kind != Empty && ps[i].head == t;
      assert t in Heads(ps);
    }
  }

  /** The start symbol: the head of the first production; an empty grammar has none. */
  function Start(ps: seq<Production>): (r: Result<Token>)
    requires AllRules(ps)
    ensures r.Ok? <==> |ps| > 0
    ensures r.Ok? ==> r.value in Heads(ps) && r.value == ps[0].head
  {
    if |ps| == 0 then Err(EmptyGrammar) else Ok(ps[0].head)
  }

  /** The nonterminals in the order of their first production. */
  method ComputeNonTerminals(ps: seq<Production>) returns (nts: seq<Token>)
    requires AllRules(ps)
    ensures Distinct(nts)
    ensures forall t :: t in nts <==> t in NonTerminals(ps)
  {
    nts := [];
    var i := 0;
    while i < |ps|
      invariant 0 <= i <= |ps| && Distinct(nts)
      invariant forall t :: t in nts <==> exists n :: 0 <= n < i && ps[n].head.kind != Empty && ps[n].head == t
    {
      if ps[i].head.kind != Empty {
        nts := AddUnique(nts, ps[i].head);
      }
      i := i + 1;
    }
  }

  /**
   * The terminals, in the order of `tokens`, the grammar's token list: the
   * tokens outside `nts` that are not EMPTY tokens. With the grammar's own
   * token list and nonterminals these are exactly its terminals.
   */
  method ComputeTerminals(ps: seq<Production>, nts: seq<Token>, tokens: seq<Token>) returns (ts: seq<Token>)
    requires AllRules(ps)
    ensures Distinct(ts)
    ensures forall t :: t in ts <==> t in tokens && t !in nts && t.kind != Empty
    ensures (forall t :: t in tokens <==> t in TokenSet(ps)) && Elems(nts) == NonTerminals(ps) ==>
      forall t :: t in ts <==> t in Terminals(ps)
  {
    ts := [];
    var i := 0;
    while i < |tokens|
      invariant 0 <= i <= |tokens| && Distinct(ts)
      invariant forall t :: t in ts <==> t in tokens[..i] && t !in nts && t.kind != Empty
    {
      if tokens[i] !in nts && tokens[i].kind != Empty {
        ts := AddUnique(ts, tokens[i]);
      }
      assert tokens[..i + 1] == tokens[..i] + [tokens[i]];
      i := i + 1;
    }
    assert tokens[..i] == tokens;
  }

  // ------------------------------------------------------------------
  // Marking fixpoints: nullable and realizable nonterminals

  /**
   * Every body token is marked or free. With no free tokens this says the
   * body derives the empty word from marked tokens; with the terminals free
   * it says the body's nonterminals are all marked.
   */
  predicate Ready(body: seq<Token>, marked: set<Token>, free: set<Token>) {
    forall k :: 0 <= k < |body| ==> body[k] in marked || body[k] in free
  }

  /** `s` is closed: a production whose body is ready puts its head in `s`. */
  ghost predicate Closed(ps: seq<Production>, free: set<Token>, s: set<Token>)
    requires AllRules(ps)
  {
    forall i :: 0 <= i < |ps| && Ready(ps[i].body, s, free) ==> ps[i].head in s
  }

  /** `marks` is the least closed set. */
  ghost predicate LeastClosed(ps: seq<Production>, free: set<Token>, marks: set<Token>)
    requires AllRules(ps)
  {
    Closed(ps, free, marks) && forall s :: Closed(ps, free, s) ==> marks <= s
  }

  lemma ReadyGrows(body: seq<Token>, a: set<Token>, b: set<Token>, free: set<Token>)
    requires Ready(body, a, free) && a <= b
    ensures Ready(body, b, free)
  {
  }

  /**
   * The first body position holding a token that is neither marked nor free,
   * or the length of the body: the inner loop of a marking pass.
   */
  method FirstUnready(body: seq<Token>, marked: seq<Token>, free: set<Token>) returns (pos: nat)
    ensures pos <= |body|
    ensures forall k :: 0 <= k < pos ==> body[k] in marked || body[k] in free
    ensures pos < |body| ==> body[pos] !in marked && body[pos] !in free
  {
    pos := 0;
    while pos < |body|
      invariant pos <= |body|
      invariant forall k :: 0 <= k < pos ==> body[k] in marked || body[k] in free
    {
      if body[pos] !in marked && body[pos] !in free {
        return;
      }
      pos := pos + 1;
    }
  }

  /**
   * One pass over the productions: the head of every production whose body
   * is ready is marked, reading the marks as they grow. The marks only grow,
   * by heads that every closed set containing the old marks contains; a pass
   * that marks nothing new ends on a closed set.
   */
  method MarkPass(ps: seq<Production>, free: set<Token>, marked0: seq<Token>) returns (marked: seq<Token>)
    requires AllRules(ps) && Distinct(marked0)
    ensures Distinct(marked) && |marked| >= |marked0| && marked[..|marked0|] == marked0
    ensures forall t :: t in marked ==> t in marked0 || t in Heads(ps)
    ensures forall s :: Closed(ps, free, s) && Elems(marked0) <= s ==> Elems(marked) <= s
    ensures |marked| == |marked0| ==> Closed(ps, free, Elems(marked))
  {
    marked := marked0;
    var i := 0;
    while i < |ps|
      invariant 0 <= i <= |ps|
      invariant Distinct(marked) && |marked| >= |marked0| && marked[..|marked0|] == marked0
      invariant forall t :: t in marked ==> t in marked0 || t in Heads(ps)
      invariant forall s :: Closed(ps, free, s) && Elems(marked0) <= s ==> Elems(marked) <= s
      invariant |marked| == |marked0| ==>
        forall n :: 0 <= n < i && Ready(ps[n].body, Elems(marked), free) ==> ps[n].head in marked
    {
      var p := ps[i];
      var pos := FirstUnready(p.body, marked, free);
      if p.head !in marked && pos == |p.body| {
        assert Ready(p.body, Elems(marked), free);
        forall s | Closed(ps, free, s) && Elems(marked0) <= s ensures Elems(marked + [p.head]) <= s {
          ReadyGrows(p.body, Elems(marked), s, free);
        }
        marked := marked + [p.head];
      } else if |marked| == |marked0| {
        assert p.head in marked || !Ready(p.body, Elems(marked), free);
      }
      i := i + 1;
    }
    if |marked| == |marked0| {
      forall n | 0 <= n < |ps| && Ready(ps[n].body, Elems(marked), free) ensures ps[n].head in Elems(marked) {
      }
    }
  }

  lemma GrowthShrinksRest(h: set<Token>, a: set<Token>, b: set<Token>, x: Token)
    requires a <= b && x in b && x !in a && x in h
    ensures |h - b| < |h - a|
  {
    assert h - b <= (h - a) - {x};
    assert x in h - a;
    assert |(h - a) - {x}| == |h - a| - 1;
    SubsetCard(h - b, (h - a) - {x});
  }

  lemma SubsetCard(a: set<Token>, b: set<Token>)
    requires a <= b
    ensures |a| <= |b|
  {
    assert b == a + (b - a);
  }

  /**
   * The marking fixpoint: passes are repeated until one marks nothing new.
   * The result is the least closed set, in the order of marking.
   */
  method Marks(ps: seq<Production>, free: set<Token>) returns (marked: seq<Token>)
    requires AllRules(ps)
    ensures Distinct(marked)
    ensures LeastClosed(ps, free, Elems(marked))
  {
    marked := [];
    while true
      invariant Distinct(marked)
      invariant forall t :: t in marked ==> t in Heads(ps)
      invariant forall s :: Closed(ps, free, s) ==> Elems(marked) <= s
      decreases |Heads(ps) - Elems(marked)|
    {
      var next := MarkPass(ps, free, marked);
      if |next| == |marked| {
        assert next == marked;
        return;
      }
      var x := next[|marked|];
      assert x !in marked by {
        assert next[..|marked|] == marked;
      }
      GrowthShrinksRest(Heads(ps), Elems(marked), Elems(next), x);
      marked := next;
    }
  }

  /** The nullable tokens: the least set closed under heads of bodies made of nullable tokens only. */
  method ComputeNullable(ps: seq<Production>) returns (nullable: seq<Token>)
    requires AllRules(ps)
    ensures Distinct(nullable)
    ensures LeastClosed(ps, {}, Elems(nullable))
  {
    nullable := Marks(ps, {});
  }

  /**
   * The unrealizable nonterminals, in the order of `nts`: those never marked,
   * where a head is marked once every body token in `nts` is marked.
   */
  method ComputeUnrealizable(ps: seq<Production>, nts: seq<Token>) returns (unrealizable: seq<Token>)
    requires AllRules(ps)
    ensures Distinct(unrealizable) || !Distinct(nts)
    ensures exists marks :: (LeastClosed(ps, TokenSet(ps) - Elems(nts), marks)
      && forall t :: t in unrealizable <==> t in nts && t !in marks)
  {
    var marked := Marks(ps, TokenSet(ps) - Elems(nts));
    unrealizable := [];
    var i := 0;
    while i < |nts|
      invariant 0 <= i <= |nts|
      invariant Distinct(nts) ==> Distinct(unrealizable)
      invariant forall t :: t in unrealizable ==> t in nts[..i]
      invariant forall t :: t in unrealizable <==> t in nts[..i] && t !in marked
    {
      if nts[i] !in marked {
        assert Distinct(nts) ==> nts[i] !in nts[..i];
        unrealizable := unrealizable + [nts[i]];
      }
      assert nts[..i + 1] == nts[..i] + [nts[i]];
      i := i + 1;
    }
    assert nts[..i] == nts;
    assert LeastClosed(ps, TokenSet(ps) - Elems(nts), Elems(marked));
  }

  /** The least closed set is unique, so the results above are determined by the grammar. */
  lemma LeastClosedUnique(ps: seq<Production>, free: set<Token>, a: set<Token>, b: set<Token>)
    requires AllRules(ps) && LeastClosed(ps, free, a) && LeastClosed(ps, free, b)
    ensures a == b
  {
    assert a <= b && b <= a;
  }

  /** Only heads are ever marked: in particular every nullable token is a head. */
  lemma MarksAreHeads(ps: seq<Production>, free: set<Token>, marks: set<Token>)
    requires AllRules(ps) && LeastClosed(ps, free, marks)
    ensures marks <= Heads(ps)
  {
    assert Closed(ps, free, Heads(ps));
  }

  /** Marking is monotone in the free tokens: more free tokens give more marks. */
  lemma MarksGrowWithFree(ps: seq<Production>, f1: set<Token>, f2: set<Token>, m1: set<Token>, m2: set<Token>)
    requires AllRules(ps) && f1 <= f2 && LeastClosed(ps, f1, m1) && LeastClosed(ps, f2, m2)
    ensures m1 <= m2
  {
    assert Closed(ps, f1, m2) by {
      forall i | 0 <= i < |ps| && Ready(ps[i].body, m2, f1) ensures ps[i].head in m2 {
        assert Ready(ps[i].body, m2, f2);
      }
    }
  }

  /** A head with an empty body is nullable. */
  lemma EmptyBodyIsNullable(ps: seq<Production>, marks: set<Token>, i: nat)
    requires AllRules(ps) && LeastClosed(ps, {}, marks) && i < |ps| && ps[i].body == []
    ensures ps[i].head in marks
  {
    assert Ready(ps[i].body, marks, {});
  }

  // ------------------------------------------------------------------
  // Unreachable nonterminals

  /** The derivation relation: the head of a production is related to each of its body tokens. */
  ghost predicate DerivEdge(ps: seq<Production>, a: Token, b: Token)
    requires AllRules(ps)
  {
    exists i :: 0 <= i < |ps| && ps[i].head == a && b in ps[i].body
  }

  /** Relates the head of `p` to every token of its body, in order. */
  method AddDerivations(rel: Relation, p: Production)
    requires rel.Valid() && p.Rule?
    modifies rel
    ensures rel.Valid()
    ensures forall a, b :: Edge(rel.Value(), a, b) <==> Edge(old(rel.Value()), a, b) || (a == p.head && b in p.body)
  {
    ghost var before := rel.Value();
    var k := 0;
    while k < |p.body|
      invariant 0 <= k <= |p.body| && rel.Valid() && AddedUpTo(before, rel.Value(), p.head, p.body, k)
    {
      ghost var now := rel.Value();
      rel.AddRelation(p.head, p.body[k]);
      AddedStep(before, now, rel.Value(), p.head, p.body, k);
      k := k + 1;
    }
    assert p.body[..k] == p.body;
  }

  /** The derivation relation of the grammar, built production by production. */
  method DerivationRelation(ps: seq<Production>) returns (rel: Relation)
    requires AllRules(ps)
    ensures fresh(rel) && rel.Valid()
    ensures forall a, b :: Edge(rel.Value(), a, b) <==> DerivEdge(ps, a, b)
  {
    rel := new Relation();
    var i := 0;
    while i < |ps|
      invariant 0 <= i <= |ps| && rel.Valid()
      invariant forall a, b :: Edge(rel.Value(), a, b) <==> exists n :: 0 <= n < i && ps[n].head == a && b in ps[n].body
    {
      AddDerivations(rel, ps[i]);
      i := i + 1;
    }
  }

  /** `s` takes part in no derivation step. */
  ghost predicate Isolated(ps: seq<Production>, s: Token)
    requires AllRules(ps)
  {
    forall a, b :: DerivEdge(ps, a, b) ==> a != s && b != s
  }

  /** In the derivation relation, whose rows are never empty, a token is a node iff it takes part in a step. */
  lemma IsolatedIsNoNode(ps: seq<Production>, rel: Relation, s: Token)
    requires AllRules(ps) && rel.Valid()
    requires forall a, b :: Edge(rel.Value(), a, b) <==> DerivEdge(ps, a, b)
    ensures s !in Nodes(rel.Value()) <==> Isolated(ps, s)
  {
    var g := rel.Value();
    if s in rel.relations {
      assert |rel.relations[s]| > 0 && Edge(g, s, rel.relations[s][0]);
    } else if s in Nodes(g) {
      var k :| k in g.succ && s in g.succ[k];
      assert Edge(g, k, s);
    }
    if !Isolated(ps, s) {
      var a, b :| DerivEdge(ps, a, b) && (a == s || b == s);
      assert Edge(g, a, b);
    }
  }

  /** The scan of `ComputeUnreachable` after the first i nonterminals. */
  ghost predicate UnreachedUpTo(g: Graph, closure: Graph, nts: seq<Token>, start: Token, u: seq<Token>, i: int) {
    0 <= i <= |nts| &&
    (Distinct(nts) ==> Distinct(u)) &&
    (forall t :: t in u ==> t in nts[..i] && t != start) &&
    (forall t :: t in nts[..i] && t != start ==> start in closure.succ) &&
    (start in closure.succ ==> forall t :: t in u <==> t in nts[..i] && t != start && !Reaches(g, start, t))
  }

  lemma UnreachedStep(g: Graph, closure: Graph, nts: seq<Token>, start: Token, u: seq<Token>, i: int, u': seq<Token>)
    requires forall a, b :: a in closure.succ ==> (b in closure.succ[a] <==> Reaches(g, a, b))
    requires UnreachedUpTo(g, closure, nts, start, u, i) && i < |nts|
    requires nts[i] != start ==> start in closure.succ
    requires u' == if nts[i] != start && nts[i] !in closure.succ[start] then u + [nts[i]] else u
    ensures UnreachedUpTo(g, closure, nts, start, u', i + 1)
  {
    var t := nts[i];
    assert nts[..i + 1] == nts[..i] + [t];
    if u' != u {
      assert Distinct(nts) ==> t !in nts[..i];
    }
  }

  /**
   * The nonterminals, other than the start symbol, that the start symbol
   * does not reach in the derivation relation `g`. An empty grammar has no
   * start symbol; when the start symbol takes part in no derivation step the
   * lookup of its closure row fails, as soon as a second nonterminal is met.
   */
  method ComputeUnreachable(ps: seq<Production>, nts: seq<Token>) returns (r: Result<seq<Token>>, ghost g: Graph)
    requires AllRules(ps)
    ensures g.Valid() && forall a, b :: Edge(g, a, b) <==> DerivEdge(ps, a, b)
    ensures |ps| == 0 ==> r == Err(EmptyGrammar)
    ensures |ps| > 0 ==> (r.Err? <==> Isolated(ps, ps[0].head) && exists t :: t in nts && t != ps[0].head)
    ensures |ps| > 0 && r.Err? ==> r.error == KeyNotFound
    ensures r.Ok? ==> Distinct(r.value) || !Distinct(nts)
    ensures r.Ok? ==> forall t :: t in r.value <==> t in nts && t != ps[0].head && !Reaches(g, ps[0].head, t)
  {
    var rel := DerivationRelation(ps);
    g := rel.Value();
    if |ps| == 0 {
      return Err(EmptyGrammar), g;
    }
    var start := ps[0].head;
    IsolatedIsNoNode(ps, rel, start);
    var closure := Closure(rel.Value());
    var unreachable := [];
    var i := 0;
    while i < |nts|
      invariant UnreachedUpTo(g, closure, nts, start, unreachable, i)
    {
      var t := nts[i];
      if t != start && start !in closure.succ {
        assert start !in Nodes(g) && t in nts;
        return Err(KeyNotFound), g;
      }
      var next := unreachable;
      if t != start && t !in closure.succ[start] {
        next := unreachable + [t];
      }
      UnreachedStep(g, closure, nts, start, unreachable, i, next);
      unreachable := next;
      i := i + 1;
    }
    assert nts[..i] == nts;
    if start !in closure.succ {
      assert start !in Nodes(g);
      assert forall t :: t in nts ==> t == start;
    }
    r := Ok(unreachable);
  }

  // ------------------------------------------------------------------
  // Null ambiguity

  /** Production i has a body of nullable tokens only (an empty body included). */
  predicate NullBody(ps: seq<Production>, nullable: set<Token>, i: nat)
    requires AllRules(ps) && i < |ps|
  {
    Ready(ps[i].body, nullable, {})
  }

  /** Production i is a second or later production of its head with a nullable body. */
  predicate Ambiguous(ps: seq<Production>, nullable: set<Token>, i: nat)
    requires AllRules(ps) && i < |ps|
  {
    NullBody(ps, nullable, i) && exists j :: 0 <= j < i && ps[j].head == ps[i].head && NullBody(ps, nullable, j)
  }

  /**
   * The productions of `nt` with a nullable body, except the first one: for
   * each production headed by `nt`, in order, once one nullable body has been
   * seen every further one is reported.
   */
  method AmbiguousOf(ps: seq<Production>, nt: Token, nullable: seq<Token>) returns (r: seq<Production>)
    requires AllRules(ps)
    ensures forall q :: q in r <==> exists i :: 0 <= i < |ps| && ps[i] == q && ps[i].head == nt && Ambiguous(ps, Elems(nullable), i)
  {
    r := [];
    var found := false;
    var i := 0;
    while i < |ps|
      invariant 0 <= i <= |ps|
      invariant found <==> exists j :: 0 <= j < i && ps[j].head == nt && NullBody(ps, Elems(nullable), j)
      invariant forall q :: q in r <==> exists n :: 0 <= n < i && ps[n] == q && ps[n].head == nt && Ambiguous(ps, Elems(nullable), n)
    {
      var p := ps[i];
      if p.head == nt {
        var pos := FirstUnready(p.body, nullable, {});
        if pos == |p.body| {
          assert NullBody(ps, Elems(nullable), i);
          if found {
            r := r + [p];
          }
          found := true;
        } else {
          assert !NullBody(ps, Elems(nullable), i);
        }
      }
      i := i + 1;
    }
  }

  /** Every production whose head already has an earlier production with a nullable body, nonterminal by nonterminal. */
  method ComputeNullAmbiguity(ps: seq<Production>, nts: seq<Token>, nullable: seq<Token>) returns (r: seq<Production>)
    requires AllRules(ps)
    ensures forall q :: q in r <==> exists i :: 0 <= i < |ps| && ps[i] == q && ps[i].head in nts && Ambiguous(ps, Elems(nullable), i)
  {
    r := [];
    var k := 0;
    while k < |nts|
      invariant 0 <= k <= |nts|
      invariant forall q :: q in r <==> exists i :: 0 <= i < |ps| && ps[i] == q && ps[i].head in nts[..k] && Ambiguous(ps, Elems(nullable), i)
    {
      var more := AmbiguousOf(ps, nts[k], nullable);
      assert nts[..k + 1] == nts[..k] + [nts[k]];
      r := r + more;
      k := k + 1;
    }
    assert nts[..k] == nts;
  }

  // ------------------------------------------------------------------
  // The first cycle

  /**
   * A unit-derivation step a -> b: some production of `a` has b, a
   * nonterminal, at a position j, and every other body token is a nullable
   * nonterminal.
   */
  ghost predicate CycleEdge(ps: seq<Production>, nts: set<Token>, nullable: set<Token>, a: Token, b: Token)
    requires AllRules(ps)
  {
    exists i, j :: 0 <= i < |ps| && UnitAt(ps[i], nts, nullable, j) && ps[i].head == a && ps[i].body[j] == b
  }

  predicate UnitAt(p: Production, nts: set<Token>, nullable: set<Token>, j: int)
    requires p.Rule?
  {
    0 <= j < |p.body| && p.body[j] in nts
    && forall k :: 0 <= k < |p.body| && k != j ==> p.body[k] in nts && p.body[k] in nullable
  }

  /** The first position other than j whose token is not a nullable nonterminal, or the body length. */
  method OthersNullable(body: seq<Token>, j: nat, nts: seq<Token>, nullable: seq<Token>) returns (k: nat)
    ensures k <= |body|
    ensures forall m :: 0 <= m < k && m != j ==> body[m] in nts && body[m] in nullable
    ensures k < |body| ==> k != j && !(body[k] in nts && body[k] in nullable)
  {
    k := 0;
    while k < |body|
      invariant k <= |body|
      invariant forall m :: 0 <= m < k && m != j ==> body[m] in nts && body[m] in nullable
    {
      if k != j {
        if body[k] !in nts || body[k] !in nullable {
          return;
        }
      }
      k := k + 1;
    }
  }

  /** Adds the unit-derivation steps of one production. */
  method AddUnitSteps(rel: Relation, p: Production, nts: seq<Token>, nullable: seq<Token>)
    requires rel.Valid() && p.Rule?
    modifies rel
    ensures rel.Valid()
    ensures forall a, b :: Edge(rel.Value(), a, b) <==> (Edge(old(rel.Value()), a, b)
      || (a == p.head && exists j :: UnitAt(p, Elems(nts), Elems(nullable), j) && p.body[j] == b))
  {
    var j := 0;
    while j < |p.body|
      invariant 0 <= j <= |p.body| && rel.Valid()
      invariant forall a, b :: Edge(rel.Value(), a, b) <==> (Edge(old(rel.Value()), a, b)
        || (a == p.head && exists m :: m < j && UnitAt(p, Elems(nts), Elems(nullable), m) && p.body[m] == b))
    {
      if p.body[j] in nts {
        var k := OthersNullable(p.body, j, nts, nullable);
        if k == |p.body| {
          assert UnitAt(p, Elems(nts), Elems(nullable), j);
          rel.AddRelation(p.head, p.body[j]);
        } else {
          assert !UnitAt(p, Elems(nts), Elems(nullable), j);
        }
      }
      j := j + 1;
    }
  }

  /**
   * The first cycle of the unit-derivation relation, or [] when there is
   * none: a nonterminal that derives itself through unit steps.
   */
  method ComputeFirstCycle(ps: seq<Production>, nts: seq<Token>, nullable: seq<Token>) returns (w: seq<Token>, ghost g: Graph)
    requires AllRules(ps)
    ensures g.Valid() && forall a, b :: Edge(g, a, b) <==> CycleEdge(ps, Elems(nts), Elems(nullable), a, b)
    ensures w == [] <==> !Cyclic(g)
    ensures w != [] ==> CycleWitness(g, w)
  {
    var rel := new Relation();
    var i := 0;
    while i < |ps|
      invariant 0 <= i <= |ps| && rel.Valid()
      invariant forall a, b :: Edge(rel.Value(), a, b) <==> exists n, j :: 0 <= n < i && UnitAt(ps[n], Elems(nts), Elems(nullable), j) && ps[n].head == a && ps[n].body[j] == b
    {
      AddUnitSteps(rel, ps[i], nts, nullable);
      i := i + 1;
    }
    g := rel.Value();
    w := Cycle(rel.Value());
    CycleCorrect(g);
  }
}
