/**
 * The grammar object: its productions, its token set, and a cache for each
 * analysis. Every analysis is computed at most once; adding a production
 * afterwards leaves the caches as they are.
 */
module Grammars {
  import opened Wrappers
  import opened Tokens
  import opened Productions
  import opened Relations
  import opened Analysis
  import opened FirstFollow
  import opened Closures

  // What each cache holds when it is up to date with the productions.

  ghost predicate UnrealizableSpec(ps: seq<Production>, v: seq<Token>)
    requires AllRules(ps)
  {
    exists marks :: LeastClosed(ps, TokenSet(ps) - NonTerminals(ps), marks)
      && forall t :: t in v <==> t in NonTerminals(ps) && t !in marks
  }

  ghost predicate DerivationGraph(ps: seq<Production>, g: Graph)
    requires AllRules(ps)
  {
    g.Valid() && forall a, b :: Edge(g, a, b) <==> DerivEdge(ps, a, b)
  }

  ghost predicate UnreachableSpec(ps: seq<Production>, v: seq<Token>)
    requires AllRules(ps)
  {
    |ps| > 0 && exists g :: (DerivationGraph(ps, g)
      && forall t :: t in v <==> t in NonTerminals(ps) && t != ps[0].head && !Reaches(g, ps[0].head, t))
  }

  ghost predicate FirstSpecWith(ps: seq<Production>, nts: set<Token>, nullable: set<Token>, first: Graph)
    requires AllRules(ps)
  {
    exists imm, prop :: FirstGraphs(ps, nts, nullable, imm, prop) && PropagationOf(imm, prop, first)
  }

  ghost predicate FollowSpecWith(ps: seq<Production>, nts: set<Token>, nullable: set<Token>, first: Graph, follow: Graph)
    requires AllRules(ps)
  {
    |ps| > 0 && exists imm, prop :: FollowGraphs(ps, nts, nullable, first, imm, prop) && PropagationOf(imm, prop, follow)
  }

  ghost predicate FirstSpec(ps: seq<Production>, first: Graph)
    requires AllRules(ps)
  {
    exists u :: LeastClosed(ps, {}, u) && FirstSpecWith(ps, NonTerminals(ps), u, first)
  }

  ghost predicate FollowSpec(ps: seq<Production>, follow: Graph)
    requires AllRules(ps)
  {
    exists u, first :: LeastClosed(ps, {}, u) && FirstSpecWith(ps, NonTerminals(ps), u, first)
      && FollowSpecWith(ps, NonTerminals(ps), u, first, follow)
  }

  class CNFGrammar {
    var productions: seq<Production>
    /** Every head and body token, in the order first added. */
    var tokens: seq<Token>
    var terminals: Option<seq<Token>>
    var nonTerminals: Option<seq<Token>>
    var start: Option<Token>
    var unreachable: Option<seq<Token>>
    var unrealizable: Option<seq<Token>>
    var nullable: Option<seq<Token>>
    var firstSet: Option<Graph>
    var followSet: Option<Graph>

    /**
     * The productions are rules, the token list is their token set without
     * duplicates, and the start symbol, once computed, is the head of the
     * first production (which adding productions never changes).
     */
    ghost predicate Valid() reads this {
      AllRules(productions) && Distinct(tokens) && (forall t :: t in tokens <==> t in TokenSet(productions))
      && (start.Some? ==> |productions| > 0 && start.value == productions[0].head)
      && (unreachable.Some? ==> |productions| > 0)
      && (followSet.Some? ==> |productions| > 0)
    }

    /** No analysis has been cached. */
    ghost predicate Cacheless() reads this {
      terminals.None? && nonTerminals.None? && unreachable.None? && unrealizable.None?
      && nullable.None? && firstSet.None? && followSet.None?
    }

    /** Every cached analysis is the one of the current productions. */
    ghost predicate Fresh() reads this {
      Valid()
      && (nonTerminals.Some? ==> Distinct(nonTerminals.value) && Elems(nonTerminals.value) == NonTerminals(productions))
      && (terminals.Some? ==> Elems(terminals.value) == Terminals(productions))
      && (nullable.Some? ==> LeastClosed(productions, {}, Elems(nullable.value)))
      && (unrealizable.Some? ==> UnrealizableSpec(productions, unrealizable.value))
      && (unreachable.Some? ==> UnreachableSpec(productions, unreachable.value))
      && (firstSet.Some? ==> FirstSpec(productions, firstSet.value))
      && (followSet.Some? ==> FollowSpec(productions, followSet.value))
    }

    /** A cache, once filled, keeps its value, and the productions and tokens stay as they are. */
    twostate predicate CachesKept() reads this {
      productions == old(productions) && tokens == old(tokens)
      && (old(terminals).Some? ==> terminals == old(terminals))
      && (old(nonTerminals).Some? ==> nonTerminals == old(nonTerminals))
      && (old(start).Some? ==> start == old(start))
      && (old(unreachable).Some? ==> unreachable == old(unreachable))
      && (old(unrealizable).Some? ==> unrealizable == old(unrealizable))
      && (old(nullable).Some? ==> nullable == old(nullable))
      && (old(firstSet).Some? ==> firstSet == old(firstSet))
      && (old(followSet).Some? ==> followSet == old(followSet))
    }

    constructor ()
      ensures productions == [] && tokens == [] && start.None? && Cacheless() && Fresh()
    {
      productions := [];
      tokens := [];
      terminals, nonTerminals, start := None, None, None;
      unreachable, unrealizable, nullable := None, None, None;
      firstSet, followSet := None, None;
    }

    /** A grammar from a token stream; fails as the production reader fails. */
    static method Create(ts: seq<Token>) returns (r: Result<CNFGrammar>)
      ensures r.Err? <==> Group(ts).Err?
      ensures r.Ok? ==> fresh(r.value) && r.value.productions == Group(ts).value
      ensures r.Ok? ==> r.value.Cacheless() && r.value.Fresh()
    {
      var ps :- CreateProductions(ts);
      GroupNumbersConsecutively(ts, ps);
      var g := new CNFGrammar();
      g.AddProductions(ps);
      return Ok(g);
    }

    /** Appends a production and adds its tokens to the token set; the caches are left as they are. */
    method AddProduction(p: Production)
      requires Valid() && p.Rule?
      modifies this`productions, this`tokens
      ensures Valid()
      ensures productions == old(productions) + [p]
      ensures |tokens| >= |old(tokens)| && tokens[..|old(tokens)|] == old(tokens)
      ensures forall t :: t in tokens <==> t in old(tokens) || t == p.head || t in p.body
      ensures old(Cacheless()) ==> Fresh()
    {
      TokenSetSnoc(productions, p);
      productions := productions + [p];
      tokens := WithTokensOf(tokens, p);
    }

    method AddProductions(ps: seq<Production>)
      requires Valid() && AllRules(ps)
      modifies this`productions, this`tokens
      ensures Valid()
      ensures productions == old(productions) + ps
      ensures old(Cacheless()) ==> Fresh()
    {
      var i := 0;
      while i < |ps|
        invariant 0 <= i <= |ps| && Valid()
        invariant productions == old(productions) + ps[..i]
        invariant old(Cacheless()) ==> Fresh()
      {
        AddProduction(ps[i]);
        assert ps[..i + 1] == ps[..i] + [ps[i]];
        i := i + 1;
      }
      assert ps[..i] == ps;
    }

    /** The head of the first production; an empty grammar has none. */
    method ComputeStartNonTerminal() returns (r: Result<Token>)
      requires Valid()
      modifies this`start
      ensures CachesKept()
      ensures Valid() && (old(Fresh()) ==> Fresh())
      ensures r == Analysis.Start(productions)
      ensures start == if r.Ok? then Some(r.value) else old(start)
    {
      if start.Some? {
        return Ok(start.value);
      }
      if |productions| == 0 {
        return Err(EmptyGrammar);
      }
      start := Some(productions[0].head);
      r := Ok(productions[0].head);
    }

    method ComputeNonTerminals() returns (r: seq<Token>)
      requires Valid()
      modifies this`nonTerminals
      ensures CachesKept()
      ensures Valid() && nonTerminals == Some(r)
      ensures old(nonTerminals).Some? ==> r == old(nonTerminals).value
      ensures old(nonTerminals).None? ==> Distinct(r) && Elems(r) == NonTerminals(productions)
      ensures old(Fresh()) ==> Fresh() && Elems(r) == NonTerminals(productions)
    {
      if nonTerminals.Some? {
        return nonTerminals.value;
      }
      r := Analysis.ComputeNonTerminals(productions);
      nonTerminals := Some(r);
    }

    method ComputeTerminals() returns (r: seq<Token>)
      requires Valid()
      modifies this`terminals, this`nonTerminals
      ensures CachesKept()
      ensures Valid() && terminals == Some(r)
      ensures old(terminals).Some? ==> r == old(terminals).value && nonTerminals == old(nonTerminals)
      ensures old(terminals).None? ==> (nonTerminals.Some?
        && forall t :: t in r <==> t in tokens && t !in nonTerminals.value && t.kind != Empty)
      ensures old(Fresh()) ==> Fresh() && Elems(r) == Terminals(productions)
    {
      if terminals.Some? {
        return terminals.value;
      }
      var nts := ComputeNonTerminals();
      r := Analysis.ComputeTerminals(productions, nts, tokens);
      terminals := Some(r);
    }

    method ComputeUnreachable() returns (r: Result<seq<Token>>)
      requires Valid()
      modifies this`nonTerminals, this`start, this`unreachable
      ensures CachesKept()
      ensures Valid()
      ensures unreachable == if r.Ok? then Some(r.value) else old(unreachable)
      ensures old(unreachable).Some? ==> r == Ok(old(unreachable).value)
      ensures |productions| == 0 ==> r == Err(EmptyGrammar)
      ensures old(unreachable).None? && |productions| > 0 ==> (nonTerminals.Some?
        && (r.Err? <==> Isolated(productions, productions[0].head) && exists t :: t in nonTerminals.value && t != productions[0].head))
      ensures old(unreachable).None? && r.Ok? ==> exists g :: (DerivationGraph(productions, g)
        && forall t :: t in r.value <==> t in nonTerminals.value && t != productions[0].head && !Reaches(g, productions[0].head, t))
      ensures old(Fresh()) ==> Fresh() && (r.Ok? ==> UnreachableSpec(productions, r.value))
    {
      if unreachable.Some? {
        return Ok(unreachable.value);
      }
      var nts := ComputeNonTerminals();
      var s := ComputeStartNonTerminal();
      if s.Err? {
        return Err(EmptyGrammar);
      }
      ghost var g;
      r, g := Analysis.ComputeUnreachable(productions, nts);
      if r.Ok? {
        unreachable := Some(r.value);
        assert DerivationGraph(productions, g);
      }
    }

    method ComputeUnrealizable() returns (r: seq<Token>)
      requires Valid()
      modifies this`nonTerminals, this`unrealizable
      ensures CachesKept()
      ensures Valid() && unrealizable == Some(r)
      ensures old(unrealizable).Some? ==> r == old(unrealizable).value
      ensures old(unrealizable).None? ==> nonTerminals.Some? && exists marks ::
        (LeastClosed(productions, TokenSet(productions) - Elems(nonTerminals.value), marks)
        && forall t :: t in r <==> t in nonTerminals.value && t !in marks)
      ensures old(Fresh()) ==> Fresh() && UnrealizableSpec(productions, r)
    {
      if unrealizable.Some? {
        return unrealizable.value;
      }
      var nts := ComputeNonTerminals();
      r := Analysis.ComputeUnrealizable(productions, nts);
      unrealizable := Some(r);
    }

    method ComputeNullable() returns (r: seq<Token>)
      requires Valid()
      modifies this`nullable
      ensures CachesKept()
      ensures Valid() && nullable == Some(r)
      ensures old(nullable).Some? ==> r == old(nullable).value
      ensures old(nullable).None? ==> Distinct(r) && LeastClosed(productions, {}, Elems(r))
      ensures old(Fresh()) ==> Fresh() && LeastClosed(productions, {}, Elems(r))
    {
      if nullable.Some? {
        return nullable.value;
      }
      r := Analysis.ComputeNullable(productions);
      nullable := Some(r);
    }

    /** The second and later nullable productions of each nonterminal; not cached. */
    method ComputeNullAmbiguity() returns (r: seq<Production>)
      requires Valid()
      modifies this`nonTerminals, this`nullable
      ensures CachesKept()
      ensures Valid() && nonTerminals.Some? && nullable.Some?
      ensures forall q :: q in r <==> exists i :: (0 <= i < |productions| && productions[i] == q
        && productions[i].head in nonTerminals.value && Ambiguous(productions, Elems(nullable.value), i))
      ensures old(Fresh()) ==> Fresh()
    {
      var nts := ComputeNonTerminals();
      var nl := ComputeNullable();
      r := Analysis.ComputeNullAmbiguity(productions, nts, nl);
    }

    /** A cycle of unit derivation steps, if there is one; not cached. */
    method ComputeFirstCycle() returns (w: seq<Token>, ghost g: Graph)
      requires Valid()
      modifies this`nonTerminals, this`nullable
      ensures CachesKept()
      ensures Valid() && nonTerminals.Some? && nullable.Some?
      ensures g.Valid() && forall a, b :: Edge(g, a, b) <==> CycleEdge(productions, Elems(nonTerminals.value), Elems(nullable.value), a, b)
      ensures w == [] <==> !Cyclic(g)
      ensures w != [] ==> CycleWitness(g, w)
      ensures old(Fresh()) ==> Fresh()
    {
      var nts := ComputeNonTerminals();
      var nl := ComputeNullable();
      w, g := Analysis.ComputeFirstCycle(productions, nts, nl);
    }

    method ComputeFirstSet() returns (r: Graph)
      requires Valid()
      modifies this`nonTerminals, this`nullable, this`firstSet
      ensures CachesKept()
      ensures Valid() && firstSet == Some(r)
      ensures old(firstSet).Some? ==> r == old(firstSet).value
      ensures old(firstSet).None? ==> (nonTerminals.Some? && nullable.Some?
        && FirstSpecWith(productions, Elems(nonTerminals.value), Elems(nullable.value), r))
      ensures old(Fresh()) ==> Fresh() && FirstSpec(productions, r)
    {
      if firstSet.Some? {
        return firstSet.value;
      }
      var nts := ComputeNonTerminals();
      var nl := ComputeNullable();
      ghost var imm, prop;
      r, imm, prop := FirstFollow.ComputeFirstSet(productions, nts, nl);
      firstSet := Some(r);
      assert FirstSpecWith(productions, Elems(nts), Elems(nl), r);
    }

    method ComputeFollowSet() returns (r: Result<Graph>)
      requires Valid()
      modifies this`nonTerminals, this`nullable, this`firstSet, this`start, this`followSet
      ensures CachesKept()
      ensures Valid()
      ensures followSet == if r.Ok? then Some(r.value) else old(followSet)
      ensures old(followSet).Some? ==> r == Ok(old(followSet).value)
      ensures |productions| == 0 ==> r == Err(EmptyGrammar)
      ensures old(followSet).None? && |productions| > 0 ==> (nonTerminals.Some? && nullable.Some? && firstSet.Some?
        && (r.Err? <==> FollowFails(productions, Elems(nonTerminals.value), Elems(nullable.value), firstSet.value))
        && (r.Err? ==> r.error == KeyNotFound)
        && (r.Ok? ==> FollowSpecWith(productions, Elems(nonTerminals.value), Elems(nullable.value), firstSet.value, r.value)))
      ensures old(Fresh()) ==> Fresh() && (r.Ok? ==> FollowSpec(productions, r.value))
    {
      if followSet.Some? {
        return Ok(followSet.value);
      }
      var nts := ComputeNonTerminals();
      var nl := ComputeNullable();
      var first := ComputeFirstSet();
      var s := ComputeStartNonTerminal();
      if s.Err? {
        return Err(EmptyGrammar);
      }
      r := StoreFollowSet(nts, nl, first);
    }

    /** Computes the FOLLOW sets from the given analyses and caches them on success. */
    method StoreFollowSet(nts: seq<Token>, nl: seq<Token>, first: Graph) returns (r: Result<Graph>)
      requires Valid() && |productions| > 0 && followSet.None?
      requires nonTerminals == Some(nts) && nullable == Some(nl) && firstSet == Some(first)
      modifies this`followSet
      ensures Valid()
      ensures followSet == if r.Ok? then Some(r.value) else None
      ensures r.Err? <==> FollowFails(productions, Elems(nts), Elems(nl), first)
      ensures r.Err? ==> r.error == KeyNotFound
      ensures r.Ok? ==> FollowSpecWith(productions, Elems(nts), Elems(nl), first, r.value)
      ensures old(Fresh()) ==> Fresh() && (r.Ok? ==> FollowSpec(productions, r.value))
    {
      ghost var imm, prop;
      r, imm, prop := FirstFollow.ComputeFollowSet(productions, nts, nl, first);
      if r.Ok? {
        assert FollowSpecWith(productions, Elems(nts), Elems(nl), first, r.value);
        if Fresh() {
          FollowSpecFrom(productions, Elems(nl), first, r.value);
        }
        followSet := Some(r.value);
      }
    }

    /** The FIRST set of a token sequence, from the cached analyses. */
    method GetFirst(ts: seq<Token>) returns (r: Result<seq<Token>>)
      requires Valid()
      modifies this`nonTerminals, this`terminals, this`nullable, this`firstSet
      ensures CachesKept()
      ensures Valid() && nonTerminals.Some? && terminals.Some? && nullable.Some? && firstSet.Some?
      ensures r == FirstOf(ts, Elems(terminals.value), Elems(nonTerminals.value), Elems(nullable.value), firstSet.value)
      ensures old(Fresh()) ==> Fresh()
    {
      var nts := ComputeNonTerminals();
      var terms := ComputeTerminals();
      var nl := ComputeNullable();
      var first := ComputeFirstSet();
      r := FirstFollow.GetFirst(ts, terms, nts, nl, first);
    }

    /** Nullability of a token sequence, from the cached analyses. */
    method IsNullable(ts: seq<Token>) returns (r: Result<bool>)
      requires Valid()
      modifies this`nonTerminals, this`terminals, this`nullable
      ensures CachesKept()
      ensures Valid() && nonTerminals.Some? && terminals.Some? && nullable.Some?
      ensures r == NullableSeq(ts, Elems(terminals.value), Elems(nonTerminals.value), Elems(nullable.value))
      ensures old(Fresh()) ==> Fresh()
    {
      var nts := ComputeNonTerminals();
      var terms := ComputeTerminals();
      var nl := ComputeNullable();
      r := FirstFollow.IsNullable(ts, terms, nts, nl);
    }

    /**
     * The grammar as the LR(1) closure and the LL(1) table consult it: the
     * productions, the start symbol and the cached terminals, nonterminals,
     * nullable set and FIRST sets. An empty grammar has no start symbol.
     */
    method View() returns (r: Result<GrammarView>)
      requires Valid()
      modifies this`nonTerminals, this`terminals, this`nullable, this`firstSet, this`start
      ensures CachesKept()
      ensures Valid() && nonTerminals.Some? && terminals.Some? && nullable.Some? && firstSet.Some?
      ensures r.Err? <==> |productions| == 0
      ensures r.Err? ==> r.error == EmptyGrammar
      ensures r.Ok? ==> r.value == GrammarView(productions, productions[0].head,
        terminals.value, nonTerminals.value, nullable.value, firstSet.value)
      ensures old(Fresh()) ==> Fresh()
      ensures r.Ok? && old(Fresh()) ==>
        Elems(r.value.nts) == NonTerminals(productions) && Elems(r.value.terms) == Terminals(productions)
        && LeastClosed(productions, {}, Elems(r.value.nullable)) && FirstSpec(productions, r.value.first)
    {
      var nts := ComputeNonTerminals();
      var terms := ComputeTerminals();
      var nl := ComputeNullable();
      var first := ComputeFirstSet();
      var s := ComputeStartNonTerminal();
      if s.Err? {
        return Err(EmptyGrammar);
      }
      r := Ok(GrammarView(productions, s.value, terms, nts, nl, first));
    }
  }

  /** FOLLOW sets computed from the grammar's own nonterminals, nullable set and FIRST sets are its FOLLOW sets. */
  lemma FollowSpecFrom(ps: seq<Production>, nullable: set<Token>, first: Graph, follow: Graph)
    requires AllRules(ps) && LeastClosed(ps, {}, nullable) && FirstSpec(ps, first)
    requires FollowSpecWith(ps, NonTerminals(ps), nullable, first, follow)
    ensures FollowSpec(ps, follow)
  {
    var u :| LeastClosed(ps, {}, u) && FirstSpecWith(ps, NonTerminals(ps), u, first);
    LeastClosedUnique(ps, {}, u, nullable);
  }

  /** `tokens` extended by the head and the body tokens of `p` that it lacks, in order. */
  method WithTokensOf(tokens: seq<Token>, p: Production) returns (r: seq<Token>)
    requires Distinct(tokens) && p.Rule?
    ensures Distinct(r)
    ensures |r| >= |tokens| && r[..|tokens|] == tokens
    ensures forall t :: t in r <==> t in tokens || t == p.head || t in p.body
  {
    r := AddUnique(tokens, p.head);
    var k := 0;
    while k < |p.body|
      invariant 0 <= k <= |p.body| && Distinct(r)
      invariant |r| >= |tokens| && r[..|tokens|] == tokens
      invariant forall t :: t in r <==> t in tokens || t == p.head || t in p.body[..k]
    {
      r := AddUnique(r, p.body[k]);
      assert p.body[..k + 1] == p.body[..k] + [p.body[k]];
      k := k + 1;
    }
    assert p.body[..k] == p.body;
  }

  /** The token set grows by the tokens of an appended production. */
  lemma TokenSetSnoc(ps: seq<Production>, p: Production)
    requires AllRules(ps) && p.Rule?
    ensures AllRules(ps + [p])
    ensures forall t :: t in TokenSet(ps + [p]) <==> t in TokenSet(ps) || t == p.head || t in p.body
  {
    var qs := ps + [p];
    assert AllRules(qs);
    forall t ensures t in TokenSet(qs) <==> t in TokenSet(ps) || t == p.head || t in p.body {
      if t in TokenSet(qs) {
        if t in Heads(qs) {
          var i :| 0 <= i < |qs| && qs[i].head == t;
          if i < |ps| { assert t in Heads(ps); }
        } else {
          var i, k :| 0 <= i < |qs| && 0 <= k < |qs[i].body| && qs[i].body[k] == t;
          if i < |ps| { assert ps[i].body[k] == t; }
        }
      }
      if t in TokenSet(ps) {
        if t in Heads(ps) {
          var i :| 0 <= i < |ps| && ps[i].head == t;
          assert qs[i].head == t;
        } else {
          var i, k :| 0 <= i < |ps| && 0 <= k < |ps[i].body| && ps[i].body[k] == t;
          assert qs[i].body[k] == t;
        }
      }
      if t == p.head { assert qs[|ps|].head == t; }
      if t in p.body {
        var k :| 0 <= k < |p.body| && p.body[k] == t;
        assert qs[|ps|].body[k] == t;
      }
    }
  }
}
