/**
 * FIRST and FOLLOW sets by propagation over relations, and the FIRST set and
 * nullability of a token sequence.
 *
 * The analyses take the nonterminals, the nullable tokens and, for FOLLOW,
 * the FIRST sets as arguments: the grammar object passes the values it has
 * computed (and cached) before.
 */
module FirstFollow {
  import opened Wrappers
  import opened Tokens
  import opened Productions
  import opened Relations
  import opened Analysis

  /** Relates `a` to every token of `us`, in order. */
  method AddRelations(rel: Relation, a: Token, us: seq<Token>)
    requires rel.Valid()
    modifies rel
    ensures rel.Valid()
    ensures forall x, y :: Edge(rel.Value(), x, y) <==> (Edge(old(rel.Value()), x, y) || (x == a && y in us))
  {
    ghost var before := rel.Value();
    var n := 0;
    while n < |us|
      invariant 0 <= n <= |us| && rel.Valid() && AddedUpTo(before, rel.Value(), a, us, n)
    {
      ghost var now := rel.Value();
      rel.AddRelation(a, us[n]);
      AddedStep(before, now, rel.Value(), a, us, n);
      n := n + 1;
    }
    assert us[..n] == us;
  }

  // ------------------------------------------------------------------
  // FIRST

  /** Position j is the first body position whose token is not nullable. */
  predicate LeadAt(body: seq<Token>, nullable: set<Token>, j: int) {
    0 <= j < |body| && body[j] !in nullable && forall k :: 0 <= k < j ==> body[k] in nullable
  }

  /** Position j is reached when scanning a body past nullable tokens: all before it are nullable. */
  predicate Scanned(body: seq<Token>, nullable: set<Token>, j: int) {
    0 <= j < |body| && forall k :: 0 <= k < j ==> body[k] in nullable
  }

  /** Immediate FIRST: a head is related to the first non-nullable token of its body when that token is a terminal. */
  ghost predicate FirstImmEdge(ps: seq<Production>, nts: set<Token>, nullable: set<Token>, a: Token, u: Token)
    requires AllRules(ps)
  {
    exists i, j :: 0 <= i < |ps| && ps[i].head == a && LeadAt(ps[i].body, nullable, j) && ps[i].body[j] == u && u !in nts
  }

  /** FIRST propagation: a head is related to each nonterminal up to and including its body's first non-nullable token. */
  ghost predicate FirstPropEdge(ps: seq<Production>, nts: set<Token>, nullable: set<Token>, a: Token, t: Token)
    requires AllRules(ps)
  {
    exists i, j :: 0 <= i < |ps| && ps[i].head == a && Scanned(ps[i].body, nullable, j) && ps[i].body[j] == t && t in nts
  }

  /** `imm` and `prop` are the immediate and propagation relations of FIRST. */
  ghost predicate FirstGraphs(ps: seq<Production>, nts: set<Token>, nullable: set<Token>, imm: Graph, prop: Graph)
    requires AllRules(ps)
  {
    imm.Valid() && prop.Valid()
    && (forall a, u :: Edge(imm, a, u) <==> FirstImmEdge(ps, nts, nullable, a, u))
    && (forall a, t :: Edge(prop, a, t) <==> FirstPropEdge(ps, nts, nullable, a, t))
  }

  method AddFirstImmediate(rel: Relation, p: Production, nts: seq<Token>, nullable: seq<Token>)
    requires rel.Valid() && p.Rule?
    modifies rel
    ensures rel.Valid()
    ensures forall a, u :: Edge(rel.Value(), a, u) <==> (Edge(old(rel.Value()), a, u)
      || (a == p.head && exists j :: LeadAt(p.body, Elems(nullable), j) && p.body[j] == u && u !in nts))
  {
    var j := FirstUnready(p.body, nullable, {});
    if j < |p.body| && p.body[j] !in nts {
      assert LeadAt(p.body, Elems(nullable), j);
      rel.AddRelation(p.head, p.body[j]);
    }
  }

  /** The FIRST propagation edges of p found among its first j body positions, on top of `before`. */
  ghost predicate FirstPropEdges(before: Graph, now: Graph, p: Production, nts: seq<Token>, nullable: seq<Token>, j: int)
    requires p.Rule?
  {
    forall a, t :: Edge(now, a, t) <==> (Edge(before, a, t)
      || (a == p.head && exists m :: m < j && Scanned(p.body, Elems(nullable), m) && p.body[m] == t && t in nts))
  }

  lemma FirstPropStep(before: Graph, now: Graph, next: Graph, p: Production, nts: seq<Token>, nullable: seq<Token>, j: int)
    requires p.Rule? && Scanned(p.body, Elems(nullable), j) && FirstPropEdges(before, now, p, nts, nullable, j)
    requires forall a, b :: Edge(next, a, b) <==> Edge(now, a, b) || (p.body[j] in nts && a == p.head && b == p.body[j])
    ensures FirstPropEdges(before, next, p, nts, nullable, j + 1)
  {
  }

  /** The scan stops at the end of the body or after a non-nullable token: no later position is scanned. */
  lemma FirstPropFinal(before: Graph, now: Graph, p: Production, nts: seq<Token>, nullable: seq<Token>, j: int)
    requires p.Rule? && 0 <= j <= |p.body| && (j == |p.body| || (0 < j && p.body[j - 1] !in nullable))
    requires FirstPropEdges(before, now, p, nts, nullable, j)
    ensures forall a, t :: Edge(now, a, t) <==> (Edge(before, a, t)
      || (a == p.head && exists m :: Scanned(p.body, Elems(nullable), m) && p.body[m] == t && t in nts))
  {
    if j < |p.body| {
      var stop := p.body[j - 1];
      forall m | Scanned(p.body, Elems(nullable), m) ensures m < j {
        assert m >= j ==> stop in Elems(nullable);
      }
    }
  }

  /** Every body position before j holds a nullable token. */
  predicate NullableUpTo(body: seq<Token>, nullable: seq<Token>, j: int) {
    forall k :: 0 <= k < |body| && k < j ==> body[k] in nullable
  }

  /** Position j is scanned when every earlier position is nullable; one more nullable token moves the scan on. */
  lemma NullableUpToStep(body: seq<Token>, nullable: seq<Token>, j: int)
    requires 0 <= j < |body| && NullableUpTo(body, nullable, j)
    ensures Scanned(body, Elems(nullable), j)
    ensures body[j] in nullable ==> NullableUpTo(body, nullable, j + 1)
  {
  }

  method AddFirstPropagation(rel: Relation, p: Production, nts: seq<Token>, nullable: seq<Token>)
    requires rel.Valid() && p.Rule?
    modifies rel
    ensures rel.Valid()
    ensures forall a, t :: Edge(rel.Value(), a, t) <==> (Edge(old(rel.Value()), a, t)
      || (a == p.head && exists j :: Scanned(p.body, Elems(nullable), j) && p.body[j] == t && t in nts))
  {
    ghost var before := rel.Value();
    var j := 0;
    while j < |p.body|
      invariant 0 <= j <= |p.body| && rel.Valid()
      invariant NullableUpTo(p.body, nullable, j)
      invariant FirstPropEdges(before, rel.Value(), p, nts, nullable, j)
    {
      ghost var now := rel.Value();
      var t := p.body[j];
      NullableUpToStep(p.body, nullable, j);
      if t in nts {
        rel.AddRelation(p.head, t);
      }
      FirstPropStep(before, now, rel.Value(), p, nts, nullable, j);
      if t !in nullable {
        FirstPropFinal(before, rel.Value(), p, nts, nullable, j + 1);
        return;
      }
      j := j + 1;
    }
    FirstPropFinal(before, rel.Value(), p, nts, nullable, j);
  }

  /**
   * The FIRST sets: the immediate FIRST relation propagated along the
   * closure of the FIRST propagation relation.
   */
  method ComputeFirstSet(ps: seq<Production>, nts: seq<Token>, nullable: seq<Token>)
    returns (first: Graph, ghost imm: Graph, ghost prop: Graph)
    requires AllRules(ps)
    ensures FirstGraphs(ps, Elems(nts), Elems(nullable), imm, prop) && PropagationOf(imm, prop, first)
  {
    var immediate := new Relation();
    var i := 0;
    while i < |ps|
      invariant 0 <= i <= |ps| && immediate.Valid()
      invariant forall a, u :: Edge(immediate.Value(), a, u) <==>
        exists n, j :: 0 <= n < i && ps[n].head == a && LeadAt(ps[n].body, Elems(nullable), j) && ps[n].body[j] == u && u !in nts
    {
      AddFirstImmediate(immediate, ps[i], nts, nullable);
      i := i + 1;
    }
    var immediateValue := immediate.Value();
    var propagation := new Relation();
    i := 0;
    while i < |ps|
      invariant 0 <= i <= |ps| && propagation.Valid()
      invariant forall a, t :: Edge(propagation.Value(), a, t) <==>
        exists n, j :: 0 <= n < i && ps[n].head == a && Scanned(ps[n].body, Elems(nullable), j) && ps[n].body[j] == t && t in nts
    {
      AddFirstPropagation(propagation, ps[i], nts, nullable);
      i := i + 1;
    }
    imm, prop := immediateValue, propagation.Value();
    first := Propagate(immediateValue, propagation.Value());
  }

  /** FIRST sets hold no nonterminal. */
  lemma FirstHoldsNoNonTerminal(ps: seq<Production>, nts: set<Token>, nullable: set<Token>, imm: Graph, prop: Graph, a: Token, u: Token)
    requires AllRules(ps)
    requires forall x, y :: Edge(imm, x, y) <==> FirstImmEdge(ps, nts, nullable, x, y)
    requires Propagated(imm, prop, a, u)
    ensures u !in nts
  {
    var t := a;
    if !Edge(imm, a, u) {
      t :| Reaches(prop, a, t) && Edge(imm, t, u);
    }
    assert FirstImmEdge(ps, nts, nullable, t, u);
  }

  /** When A's body reaches nonterminal B past nullable tokens, FIRST(B) is part of FIRST(A). */
  lemma FirstFlowsToHead(ps: seq<Production>, nts: set<Token>, nullable: set<Token>, imm: Graph, prop: Graph, a: Token, b: Token, u: Token)
    requires AllRules(ps)
    requires forall x, y :: Edge(prop, x, y) <==> FirstPropEdge(ps, nts, nullable, x, y)
    requires FirstPropEdge(ps, nts, nullable, a, b) && Propagated(imm, prop, b, u)
    ensures Propagated(imm, prop, a, u)
  {
    assert Edge(prop, a, b);
    PropagatedAlongEdge(imm, prop, a, b, u);
  }

  // ------------------------------------------------------------------
  // FOLLOW

  /** The tokens strictly between positions j and k are nullable nonterminals. */
  predicate Between(body: seq<Token>, nts: set<Token>, nullable: set<Token>, j: int, k: int) {
    forall m :: j < m < k && 0 <= m < |body| ==> body[m] in nts && body[m] in nullable
  }

  /**
   * Position k, after the nonterminal at j with only nullable nonterminals
   * in between, contributes u to FOLLOW(body[j]): the token itself when it is
   * a terminal, its FIRST set when it is a nonterminal.
   */
  predicate Contributes(body: seq<Token>, nts: set<Token>, nullable: set<Token>, first: Graph, j: int, k: int, u: Token) {
    0 <= j < k < |body| && body[j] in nts && Between(body, nts, nullable, j, k)
    && ((body[k] !in nts && u == body[k]) || (body[k] in nts && Edge(first, body[k], u)))
  }

  /** Position k is a nonterminal reached after j that has no FIRST entry: its lookup fails. */
  predicate LookupFails(body: seq<Token>, nts: set<Token>, nullable: set<Token>, first: Graph, j: int, k: int) {
    0 <= j < k < |body| && body[j] in nts && Between(body, nts, nullable, j, k) && body[k] in nts && body[k] !in first.succ
  }

  /** Immediate FOLLOW: end of input after the start symbol, and what follows each nonterminal inside a body. */
  ghost predicate FollowImmEdge(ps: seq<Production>, nts: set<Token>, nullable: set<Token>, first: Graph, start: Token, a: Token, u: Token)
    requires AllRules(ps)
  {
    (a == start && u == EndToken)
    || exists i, j, k :: 0 <= i < |ps| && Contributes(ps[i].body, nts, nullable, first, j, k, u) && ps[i].body[j] == a
  }

  ghost predicate FollowFails(ps: seq<Production>, nts: set<Token>, nullable: set<Token>, first: Graph)
    requires AllRules(ps)
  {
    exists i, j, k :: 0 <= i < |ps| && LookupFails(ps[i].body, nts, nullable, first, j, k)
  }

  /** FOLLOW propagation: a nonterminal followed in a body by nullable tokens only is related to the head. */
  ghost predicate FollowPropEdge(ps: seq<Production>, nts: set<Token>, nullable: set<Token>, a: Token, b: Token)
    requires AllRules(ps)
  {
    exists i, j :: 0 <= i < |ps| && Trailing(ps[i].body, nullable, j) && ps[i].body[j] == a && a in nts && ps[i].head == b
  }

  /** `imm` and `prop` are the immediate and propagation relations of FOLLOW. */
  ghost predicate FollowGraphs(ps: seq<Production>, nts: set<Token>, nullable: set<Token>, first: Graph, imm: Graph, prop: Graph)
    requires AllRules(ps) && |ps| > 0
  {
    imm.Valid() && prop.Valid()
    && (forall a, u :: Edge(imm, a, u) <==> FollowImmEdge(ps, nts, nullable, first, ps[0].head, a, u))
    && (forall a, b :: Edge(prop, a, b) <==> FollowPropEdge(ps, nts, nullable, a, b))
  }

  /** Every token after position j is nullable. */
  predicate Trailing(body: seq<Token>, nullable: set<Token>, j: int) {
    0 <= j < |body| && forall m :: j < m < |body| ==> body[m] in nullable
  }

  /**
   * The tokens that follow the nonterminal at position j: scanning on from
   * j + 1, a terminal is added and ends the scan, a nonterminal adds its
   * FIRST set and ends the scan unless it is nullable. Returns false when a
   * nonterminal without a FIRST entry is reached.
   */
  method AddFollowersAt(rel: Relation, body: seq<Token>, j: nat, nts: seq<Token>, nullable: seq<Token>, first: Graph)
    returns (ok: bool)
    requires rel.Valid() && j < |body| && body[j] in nts
    modifies rel
    ensures rel.Valid()
    ensures ok <==> forall k :: !LookupFails(body, Elems(nts), Elems(nullable), first, j, k)
    ensures ok ==> forall a, u :: Edge(rel.Value(), a, u) <==> (Edge(old(rel.Value()), a, u)
      || (a == body[j] && exists k :: Contributes(body, Elems(nts), Elems(nullable), first, j, k, u)))
  {
    ghost var N, U := Elems(nts), Elems(nullable);
    ghost var g0 := rel.Value();
    var k := j + 1;
    while k < |body|
      invariant j + 1 <= k <= |body| && rel.Valid()
      invariant Between(body, N, U, j, k)
      invariant forall m :: m < k ==> !LookupFails(body, N, U, first, j, m)
      invariant forall a, u :: Edge(rel.Value(), a, u) <==> (Edge(g0, a, u)
        || (a == body[j] && exists m :: m < k && Contributes(body, N, U, first, j, m, u)))
    {
      var found, more := AddFollowerAt(rel, body, j, k, nts, nullable, first);
      if !found {
        return false;
      }
      if !more {
        NothingPast(body, N, U, first, j, k);
        return true;
      }
      k := k + 1;
    }
    ok := true;
  }

  /**
   * One step of that scan, at position k: adds what k contributes;
   * `found` is false when the FIRST lookup fails, `more` says whether the
   * scan goes on.
   */
  method AddFollowerAt(rel: Relation, body: seq<Token>, j: nat, k: nat, nts: seq<Token>, nullable: seq<Token>, first: Graph)
    returns (found: bool, more: bool)
    requires rel.Valid() && j < k < |body| && body[j] in nts
    requires Between(body, Elems(nts), Elems(nullable), j, k)
    modifies rel
    ensures rel.Valid()
    ensures found <==> !LookupFails(body, Elems(nts), Elems(nullable), first, j, k)
    ensures more <==> found && body[k] in nts && body[k] in nullable
    ensures found ==> forall a, u :: Edge(rel.Value(), a, u) <==> (Edge(old(rel.Value()), a, u)
      || (a == body[j] && Contributes(body, Elems(nts), Elems(nullable), first, j, k, u)))
  {
    var t := body[k];
    if t !in nts {
      rel.AddRelation(body[j], t);
      return true, false;
    }
    if t !in first.succ {
      return false, false;
    }
    AddRelations(rel, body[j], first.succ[t]);
    return true, t in nullable;
  }

  /** The scan stops at k when body[k] is not a nullable nonterminal: no later position is reached. */
  lemma NothingPast(body: seq<Token>, nts: set<Token>, nullable: set<Token>, first: Graph, j: int, k: int)
    requires 0 <= j < k < |body| && !(body[k] in nts && body[k] in nullable)
    ensures forall m, u :: m > k ==> !Contributes(body, nts, nullable, first, j, m, u) && !LookupFails(body, nts, nullable, first, j, m)
  {
    forall m, u | m > k ensures !Contributes(body, nts, nullable, first, j, m, u) && !LookupFails(body, nts, nullable, first, j, m) {
      assert !Between(body, nts, nullable, j, m) by {
        assert j < k < m && 0 <= k < |body|;
      }
    }
  }

  /** The immediate FOLLOW contributions of one production; false when a FIRST lookup fails. */
  method AddFollowImmediate(rel: Relation, p: Production, nts: seq<Token>, nullable: seq<Token>, first: Graph)
    returns (ok: bool)
    requires rel.Valid() && p.Rule?
    modifies rel
    ensures rel.Valid()
    ensures ok <==> forall j, k :: !LookupFails(p.body, Elems(nts), Elems(nullable), first, j, k)
    ensures ok ==> forall a, u :: Edge(rel.Value(), a, u) <==> (Edge(old(rel.Value()), a, u)
      || exists j, k :: Contributes(p.body, Elems(nts), Elems(nullable), first, j, k, u) && p.body[j] == a)
  {
    ghost var N, U := Elems(nts), Elems(nullable);
    var j := 0;
    while j < |p.body| - 1
      invariant 0 <= j <= |p.body| && rel.Valid()
      invariant forall m, k :: m < j ==> !LookupFails(p.body, N, U, first, m, k)
      invariant forall a, u :: Edge(rel.Value(), a, u) <==> (Edge(old(rel.Value()), a, u)
        || exists m, k :: m < j && Contributes(p.body, N, U, first, m, k, u) && p.body[m] == a)
    {
      if p.body[j] in nts {
        ok := AddFollowersAt(rel, p.body, j, nts, nullable, first);
        if !ok {
          return;
        }
      }
      j := j + 1;
    }
    ok := true;
  }

  /** The FOLLOW propagation edges of p found among its body positions after j, on top of `before`. */
  ghost predicate FollowPropEdges(before: Graph, now: Graph, p: Production, nts: seq<Token>, nullable: seq<Token>, j: int)
    requires p.Rule?
  {
    forall a, b :: Edge(now, a, b) <==> (Edge(before, a, b)
      || (b == p.head && exists m :: j < m && Trailing(p.body, Elems(nullable), m) && p.body[m] == a && a in nts))
  }

  lemma FollowPropStep(before: Graph, now: Graph, next: Graph, p: Production, nts: seq<Token>, nullable: seq<Token>, j: int)
    requires p.Rule? && Trailing(p.body, Elems(nullable), j) && FollowPropEdges(before, now, p, nts, nullable, j)
    requires forall a, b :: Edge(next, a, b) <==> Edge(now, a, b) || (p.body[j] in nts && a == p.body[j] && b == p.head)
    ensures FollowPropEdges(before, next, p, nts, nullable, j - 1)
  {
  }

  /** The backward scan stops at the start of the body or after a non-nullable token: no earlier position trails. */
  lemma FollowPropFinal(before: Graph, now: Graph, p: Production, nts: seq<Token>, nullable: seq<Token>, j: int)
    requires p.Rule? && -1 <= j < |p.body| && (j == -1 || (j + 1 < |p.body| && p.body[j + 1] !in nullable))
    requires FollowPropEdges(before, now, p, nts, nullable, j)
    ensures forall a, b :: Edge(now, a, b) <==> (Edge(before, a, b)
      || (b == p.head && exists m :: Trailing(p.body, Elems(nullable), m) && p.body[m] == a && a in nts))
  {
    if j >= 0 {
      var stop := p.body[j + 1];
      forall m | Trailing(p.body, Elems(nullable), m) ensures j < m {
        assert m <= j ==> stop in Elems(nullable);
      }
    }
  }

  /** Every body position after j holds a nullable token. */
  predicate NullableAfter(body: seq<Token>, nullable: seq<Token>, j: int) {
    forall m :: 0 <= m < |body| && j < m ==> body[m] in nullable
  }

  /** Position j trails when every later position is nullable; one more nullable token moves the scan back. */
  lemma NullableAfterStep(body: seq<Token>, nullable: seq<Token>, j: int)
    requires 0 <= j < |body| && NullableAfter(body, nullable, j)
    ensures Trailing(body, Elems(nullable), j)
    ensures body[j] in nullable ==> NullableAfter(body, nullable, j - 1)
  {
  }

  method AddFollowPropagation(rel: Relation, p: Production, nts: seq<Token>, nullable: seq<Token>)
    requires rel.Valid() && p.Rule?
    modifies rel
    ensures rel.Valid()
    ensures forall a, b :: Edge(rel.Value(), a, b) <==> (Edge(old(rel.Value()), a, b)
      || (b == p.head && exists j :: Trailing(p.body, Elems(nullable), j) && p.body[j] == a && a in nts))
  {
    ghost var before := rel.Value();
    var j := |p.body| - 1;
    while j >= 0
      invariant -1 <= j < |p.body| && rel.Valid()
      invariant NullableAfter(p.body, nullable, j)
      invariant FollowPropEdges(before, rel.Value(), p, nts, nullable, j)
    {
      ghost var now := rel.Value();
      var t := p.body[j];
      NullableAfterStep(p.body, nullable, j);
      if t in nts {
        rel.AddRelation(t, p.head);
      }
      FollowPropStep(before, now, rel.Value(), p, nts, nullable, j);
      if t !in nullable {
        FollowPropFinal(before, rel.Value(), p, nts, nullable, j - 1);
        return;
      }
      j := j - 1;
    }
    FollowPropFinal(before, rel.Value(), p, nts, nullable, j);
  }

  /** The immediate FOLLOW edges of the start symbol and of the first i productions. */
  ghost predicate ImmediateUpTo(ps: seq<Production>, nts: set<Token>, nullable: set<Token>, first: Graph, start: Token, i: nat, now: Graph)
    requires AllRules(ps) && i <= |ps|
  {
    forall a, u :: Edge(now, a, u) <==> ((a == start && u == EndToken)
      || exists n, j, k :: 0 <= n < i && Contributes(ps[n].body, nts, nullable, first, j, k, u) && ps[n].body[j] == a)
  }

  /** No FIRST lookup fails in the first i productions. */
  ghost predicate NoFailsUpTo(ps: seq<Production>, nts: set<Token>, nullable: set<Token>, first: Graph, i: nat)
    requires AllRules(ps) && i <= |ps|
  {
    forall n, j, k :: 0 <= n < i ==> !LookupFails(ps[n].body, nts, nullable, first, j, k)
  }

  lemma ImmediateStep(ps: seq<Production>, nts: set<Token>, nullable: set<Token>, first: Graph, start: Token, i: nat, now: Graph, next: Graph)
    requires AllRules(ps) && i < |ps| && ImmediateUpTo(ps, nts, nullable, first, start, i, now) && NoFailsUpTo(ps, nts, nullable, first, i)
    requires forall j, k :: !LookupFails(ps[i].body, nts, nullable, first, j, k)
    requires forall a, u :: Edge(next, a, u) <==> (Edge(now, a, u)
      || exists j, k :: Contributes(ps[i].body, nts, nullable, first, j, k, u) && ps[i].body[j] == a)
    ensures ImmediateUpTo(ps, nts, nullable, first, start, i + 1, next) && NoFailsUpTo(ps, nts, nullable, first, i + 1)
  {
    forall a, u ensures Edge(next, a, u) <==> ((a == start && u == EndToken)
      || exists n, j, k :: 0 <= n < i + 1 && Contributes(ps[n].body, nts, nullable, first, j, k, u) && ps[n].body[j] == a)
    {
      if exists j, k :: Contributes(ps[i].body, nts, nullable, first, j, k, u) && ps[i].body[j] == a {
        var j, k :| Contributes(ps[i].body, nts, nullable, first, j, k, u) && ps[i].body[j] == a;
        assert 0 <= i < i + 1;
      }
      if exists n, j, k :: 0 <= n < i + 1 && Contributes(ps[n].body, nts, nullable, first, j, k, u) && ps[n].body[j] == a {
        var n, j, k :| 0 <= n < i + 1 && Contributes(ps[n].body, nts, nullable, first, j, k, u) && ps[n].body[j] == a;
        if n == i {
          assert Contributes(ps[i].body, nts, nullable, first, j, k, u) && ps[i].body[j] == a;
        }
      }
    }
  }

  lemma ImmediateFails(ps: seq<Production>, nts: set<Token>, nullable: set<Token>, first: Graph, i: nat)
    requires AllRules(ps) && i < |ps| && !forall j, k :: !LookupFails(ps[i].body, nts, nullable, first, j, k)
    ensures FollowFails(ps, nts, nullable, first)
  {
    var j, k :| LookupFails(ps[i].body, nts, nullable, first, j, k);
  }

  /** The immediate FOLLOW relation of all productions; fails when a FIRST lookup fails. */
  method ImmediateFollow(ps: seq<Production>, nts: seq<Token>, nullable: seq<Token>, first: Graph)
    returns (ok: bool, imm: Graph)
    requires AllRules(ps) && |ps| > 0
    ensures ok <==> !FollowFails(ps, Elems(nts), Elems(nullable), first)
    ensures ok ==> imm.Valid() && forall a, u :: Edge(imm, a, u) <==> FollowImmEdge(ps, Elems(nts), Elems(nullable), first, ps[0].head, a, u)
  {
    ghost var N, U := Elems(nts), Elems(nullable);
    var immediate := new Relation();
    var start := ps[0].head;
    immediate.AddRelation(start, OfKind(EndOfFile));
    var i := 0;
    while i < |ps|
      invariant 0 <= i <= |ps| && immediate.Valid()
      invariant NoFailsUpTo(ps, N, U, first, i)
      invariant ImmediateUpTo(ps, N, U, first, start, i, immediate.Value())
    {
      ghost var now := immediate.Value();
      ok := AddFollowImmediate(immediate, ps[i], nts, nullable, first);
      if !ok {
        ImmediateFails(ps, N, U, first, i);
        return false, Graph([], map[]);
      }
      ImmediateStep(ps, N, U, first, start, i, now, immediate.Value());
      i := i + 1;
    }
    return true, immediate.Value();
  }

  /** The FOLLOW propagation relation of all productions. */
  method FollowPropagation(ps: seq<Production>, nts: seq<Token>, nullable: seq<Token>) returns (prop: Graph)
    requires AllRules(ps)
    ensures prop.Valid() && forall a, b :: Edge(prop, a, b) <==> FollowPropEdge(ps, Elems(nts), Elems(nullable), a, b)
  {
    ghost var N, U := Elems(nts), Elems(nullable);
    var propagation := new Relation();
    var i := 0;
    while i < |ps|
      invariant 0 <= i <= |ps| && propagation.Valid()
      invariant forall a, b :: Edge(propagation.Value(), a, b) <==>
        exists n, j :: 0 <= n < i && Trailing(ps[n].body, U, j) && ps[n].body[j] == a && a in N && ps[n].head == b
    {
      AddFollowPropagation(propagation, ps[i], nts, nullable);
      i := i + 1;
    }
    return propagation.Value();
  }

  /**
   * The FOLLOW sets: the immediate FOLLOW relation propagated along the
   * closure of the FOLLOW propagation relation. Fails when the grammar is
   * empty (no start symbol) or a FIRST lookup fails.
   */
  method ComputeFollowSet(ps: seq<Production>, nts: seq<Token>, nullable: seq<Token>, first: Graph)
    returns (r: Result<Graph>, ghost imm: Graph, ghost prop: Graph)
    requires AllRules(ps)
    ensures |ps| == 0 ==> r == Err(EmptyGrammar)
    ensures |ps| > 0 ==> (r.Ok? <==> !FollowFails(ps, Elems(nts), Elems(nullable), first))
    ensures |ps| > 0 && r.Err? ==> r.error == KeyNotFound
    ensures r.Ok? ==> FollowGraphs(ps, Elems(nts), Elems(nullable), first, imm, prop) && PropagationOf(imm, prop, r.value)
  {
    imm, prop := Graph([], map[]), Graph([], map[]);
    if |ps| == 0 {
      return Err(EmptyGrammar), imm, prop;
    }
    var ok, immediate := ImmediateFollow(ps, nts, nullable, first);
    if !ok {
      return Err(KeyNotFound), imm, prop;
    }
    var propagation := FollowPropagation(ps, nts, nullable);
    imm, prop := immediate, propagation;
    var follow := Propagate(immediate, propagation);
    r := Ok(follow);
  }

  /** End of input follows the start symbol. */
  lemma EndFollowsStart(ps: seq<Production>, nts: set<Token>, nullable: set<Token>, first: Graph, imm: Graph, prop: Graph)
    requires AllRules(ps) && |ps| > 0
    requires forall a, u :: Edge(imm, a, u) <==> FollowImmEdge(ps, nts, nullable, first, ps[0].head, a, u)
    ensures Propagated(imm, prop, ps[0].head, EndToken)
  {
    assert FollowImmEdge(ps, nts, nullable, first, ps[0].head, ps[0].head, EndToken);
  }

  /** For B -> ... A beta with beta nullable, FOLLOW(B) is part of FOLLOW(A). */
  lemma FollowFlowsFromHead(ps: seq<Production>, nts: set<Token>, nullable: set<Token>, imm: Graph, prop: Graph, a: Token, b: Token, u: Token)
    requires AllRules(ps)
    requires forall x, y :: Edge(prop, x, y) <==> FollowPropEdge(ps, nts, nullable, x, y)
    requires FollowPropEdge(ps, nts, nullable, a, b) && Propagated(imm, prop, b, u)
    ensures Propagated(imm, prop, a, u)
  {
    assert Edge(prop, a, b);
    PropagatedAlongEdge(imm, prop, a, b, u);
  }

  // ------------------------------------------------------------------
  // FIRST and nullability of a token sequence

  /**
   * The FIRST set of a token sequence: end of input or a terminal is its own
   * FIRST and ends the sequence; a nonterminal contributes its FIRST set and
   * ends the sequence unless it is nullable; any other token is an error.
   */
  function FirstOf(ts: seq<Token>, terms: set<Token>, nts: set<Token>, nullable: set<Token>, first: Graph): Result<seq<Token>>
  {
    if ts == [] then Ok([])
    else
      var s := ts[0];
      if s.kind == EndOfFile || s in terms then Ok([s])
      else if s in nts then
        var here := if s in first.succ then first.succ[s] else [];
        if s !in nullable then Ok(here)
        else
          var rest :- FirstOf(ts[1..], terms, nts, nullable, first);
          Ok(here + rest)
      else Err(UnexpectedSymbol)
  }

  /** Position i is where the scan of `ts` stops: every token before it is a nullable nonterminal. */
  predicate ScannedTo(ts: seq<Token>, terms: set<Token>, nts: set<Token>, nullable: set<Token>, i: int) {
    0 <= i < |ts| && forall m :: 0 <= m < i ==> ts[m].kind != EndOfFile && ts[m] !in terms && ts[m] in nts && ts[m] in nullable
  }

  /** What position i contributes to the FIRST set of `ts` once it is reached. */
  predicate YieldsAt(ts: seq<Token>, terms: set<Token>, nts: set<Token>, first: Graph, i: int, u: Token)
    requires 0 <= i < |ts|
  {
    if ts[i].kind == EndOfFile || ts[i] in terms then u == ts[i]
    else ts[i] in nts && Edge(first, ts[i], u)
  }

  /** The meaning of FirstOf: u is in the FIRST set of `ts` iff some reached position yields it; it fails iff it reaches an unknown token. */
  lemma {:induction false} FirstOfMeaning(ts: seq<Token>, terms: set<Token>, nts: set<Token>, nullable: set<Token>, first: Graph)
    ensures FirstOf(ts, terms, nts, nullable, first).Err? <==>
      exists i :: ScannedTo(ts, terms, nts, nullable, i) && ts[i].kind != EndOfFile && ts[i] !in terms && ts[i] !in nts
    ensures FirstOf(ts, terms, nts, nullable, first).Ok? ==> forall u ::
      (u in FirstOf(ts, terms, nts, nullable, first).value <==> exists i :: ScannedTo(ts, terms, nts, nullable, i) && YieldsAt(ts, terms, nts, first, i, u))
    decreases |ts|
  {
    if ts != [] {
      var s := ts[0];
      assert ScannedTo(ts, terms, nts, nullable, 0);
      var tail := ts[1..];
      if s.kind == EndOfFile || s in terms {
        forall i | ScannedTo(ts, terms, nts, nullable, i) ensures i == 0 { assert i > 0 ==> s !in terms && s.kind != EndOfFile; }
      } else if s in nts {
        if s !in nullable {
          forall i | ScannedTo(ts, terms, nts, nullable, i) ensures i == 0 { assert i > 0 ==> s in nullable; }
        } else {
          FirstOfMeaning(tail, terms, nts, nullable, first);
          forall i | 0 <= i < |tail| ensures ScannedTo(tail, terms, nts, nullable, i) == ScannedTo(ts, terms, nts, nullable, i + 1) {
            if ScannedTo(tail, terms, nts, nullable, i) {
              forall m | 0 <= m < i + 1 ensures ts[m].kind != EndOfFile && ts[m] !in terms && ts[m] in nts && ts[m] in nullable {
                if m > 0 { assert ts[m] == tail[m - 1]; }
              }
            }
            if ScannedTo(ts, terms, nts, nullable, i + 1) {
              forall m | 0 <= m < i ensures tail[m].kind != EndOfFile && tail[m] !in terms && tail[m] in nts && tail[m] in nullable {
                assert tail[m] == ts[m + 1];
              }
            }
          }
          forall i, u | 0 <= i < |tail| ensures YieldsAt(tail, terms, nts, first, i, u) == YieldsAt(ts, terms, nts, first, i + 1, u) {
            assert tail[i] == ts[i + 1];
          }
          if FirstOf(ts, terms, nts, nullable, first).Ok? {
            forall u ensures u in FirstOf(ts, terms, nts, nullable, first).value <==>
              exists i :: ScannedTo(ts, terms, nts, nullable, i) && YieldsAt(ts, terms, nts, first, i, u)
            {
              if exists i :: ScannedTo(ts, terms, nts, nullable, i) && YieldsAt(ts, terms, nts, first, i, u) {
                var i :| ScannedTo(ts, terms, nts, nullable, i) && YieldsAt(ts, terms, nts, first, i, u);
                if i > 0 { assert ScannedTo(tail, terms, nts, nullable, i - 1) && YieldsAt(tail, terms, nts, first, i - 1, u); }
              }
            }
          }
          if FirstOf(ts, terms, nts, nullable, first).Err? {
            var i :| ScannedTo(tail, terms, nts, nullable, i) && tail[i].kind != EndOfFile && tail[i] !in terms && tail[i] !in nts;
            assert ScannedTo(ts, terms, nts, nullable, i + 1) && ts[i + 1] == tail[i];
          } else {
            forall i | ScannedTo(ts, terms, nts, nullable, i) && i > 0 ensures ts[i].kind == EndOfFile || ts[i] in terms || ts[i] in nts {
              assert ScannedTo(tail, terms, nts, nullable, i - 1) && ts[i] == tail[i - 1];
            }
          }
        }
      } else {
        assert ScannedTo(ts, terms, nts, nullable, 0);
      }
    }
  }

  /** A successful result with `acc` in front; a failure unchanged. */
  function Prepend(acc: seq<Token>, r: Result<seq<Token>>): Result<seq<Token>> {
    if r.Ok? then Ok(acc + r.value) else r
  }

  /** `GetFirst`: the FIRST set of a token sequence, computed by a scan that stops early. */
  method GetFirst(ts: seq<Token>, terms: seq<Token>, nts: seq<Token>, nullable: seq<Token>, first: Graph) returns (r: Result<seq<Token>>)
    ensures r == FirstOf(ts, Elems(terms), Elems(nts), Elems(nullable), first)
  {
    var acc: seq<Token> := [];
    var i := 0;
    assert ts[0..] == ts;
    ghost var whole := FirstOf(ts, Elems(terms), Elems(nts), Elems(nullable), first);
    assert whole.Ok? ==> [] + whole.value == whole.value;
    while i < |ts|
      invariant 0 <= i <= |ts|
      invariant FirstOf(ts, Elems(terms), Elems(nts), Elems(nullable), first) ==
        Prepend(acc, FirstOf(ts[i..], Elems(terms), Elems(nts), Elems(nullable), first))
    {
      var s := ts[i];
      assert ts[i..][1..] == ts[i + 1..];
      assert ts[i..][0] == s;
      ghost var rest := FirstOf(ts[i + 1..], Elems(terms), Elems(nts), Elems(nullable), first);
      if s.kind == EndOfFile || s in terms {
        return Ok(acc + [s]);
      } else if s in nts {
        var here := if s in first.succ then first.succ[s] else [];
        if s !in nullable {
          return Ok(acc + here);
        }
        assert rest.Ok? ==> acc + (here + rest.value) == (acc + here) + rest.value;
        acc := acc + here;
      } else {
        return Err(UnexpectedSymbol);
      }
      i := i + 1;
    }
    assert ts[i..] == [] && acc + [] == acc;
    r := Ok(acc);
  }

  /**
   * Nullability of a token sequence: false at the first terminal or
   * non-nullable nonterminal, true when every token is a nullable
   * nonterminal, an error at a token that is neither kind.
   */
  function NullableSeq(ts: seq<Token>, terms: set<Token>, nts: set<Token>, nullable: set<Token>): (r: Result<bool>)
    ensures r == Ok(true) <==> forall i :: 0 <= i < |ts| ==> ts[i] in nts && ts[i] in nullable
  {
    if ts == [] then Ok(true)
    else if ts[0] in nts then (if ts[0] !in nullable then Ok(false) else NullableSeq(ts[1..], terms, nts, nullable))
    else if ts[0] in terms then Ok(false)
    else Err(UnexpectedSymbol)
  }

  /** Every token before position k is a nullable nonterminal. */
  predicate NullableBefore(ts: seq<Token>, nts: set<Token>, nullable: set<Token>, k: int) {
    0 <= k <= |ts| && forall i :: 0 <= i < k ==> ts[i] in nts && ts[i] in nullable
  }

  /** The scan stops with false at k: a non-nullable nonterminal, or a terminal. */
  predicate RejectedAt(ts: seq<Token>, terms: set<Token>, nts: set<Token>, nullable: set<Token>, k: int) {
    NullableBefore(ts, nts, nullable, k) && k < |ts| && (if ts[k] in nts then ts[k] !in nullable else ts[k] in terms)
  }

  /** The scan reaches, at k, a token that is neither a nonterminal nor a terminal. */
  predicate UnknownAt(ts: seq<Token>, terms: set<Token>, nts: set<Token>, nullable: set<Token>, k: int) {
    NullableBefore(ts, nts, nullable, k) && k < |ts| && ts[k] !in nts && ts[k] !in terms
  }

  /**
   * What `NullableSeq` yields besides true: false iff the scan over nullable
   * nonterminals stops at a terminal or a non-nullable nonterminal, and
   * `UnexpectedSymbol` iff it reaches an unknown token first.
   */
  lemma {:induction false} NullableSeqMeaning(ts: seq<Token>, terms: set<Token>, nts: set<Token>, nullable: set<Token>)
    ensures NullableSeq(ts, terms, nts, nullable) == Ok(false) <==> exists k :: RejectedAt(ts, terms, nts, nullable, k)
    ensures NullableSeq(ts, terms, nts, nullable).Err? <==> exists k :: UnknownAt(ts, terms, nts, nullable, k)
    ensures NullableSeq(ts, terms, nts, nullable).Err? ==> NullableSeq(ts, terms, nts, nullable).error == UnexpectedSymbol
    decreases |ts|
  {
    if ts == [] {
      assert forall k :: !RejectedAt(ts, terms, nts, nullable, k) && !UnknownAt(ts, terms, nts, nullable, k);
    } else if ts[0] in nts && ts[0] in nullable {
      var tail := ts[1..];
      NullableSeqMeaning(tail, terms, nts, nullable);
      forall k ensures RejectedAt(ts, terms, nts, nullable, k) <==> k > 0 && RejectedAt(tail, terms, nts, nullable, k - 1) {
        TailShift(ts, nts, nullable, k);
      }
      forall k ensures UnknownAt(ts, terms, nts, nullable, k) <==> k > 0 && UnknownAt(tail, terms, nts, nullable, k - 1) {
        TailShift(ts, nts, nullable, k);
      }
      if exists k :: RejectedAt(tail, terms, nts, nullable, k) {
        var k :| RejectedAt(tail, terms, nts, nullable, k);
        assert RejectedAt(ts, terms, nts, nullable, k + 1);
      }
      if exists k :: UnknownAt(tail, terms, nts, nullable, k) {
        var k :| UnknownAt(tail, terms, nts, nullable, k);
        assert UnknownAt(ts, terms, nts, nullable, k + 1);
      }
    } else {
      assert NullableBefore(ts, nts, nullable, 0);
      forall k | k != 0 ensures !RejectedAt(ts, terms, nts, nullable, k) && !UnknownAt(ts, terms, nts, nullable, k) {
        if k > 0 {
          assert !(ts[0] in nts && ts[0] in nullable);
        }
      }
      if ts[0] in nts || ts[0] in terms {
        assert RejectedAt(ts, terms, nts, nullable, 0);
      } else {
        assert UnknownAt(ts, terms, nts, nullable, 0);
      }
    }
  }

  /** Past a leading nullable nonterminal, the prefixes of ts are those of its tail shifted by one. */
  lemma TailShift(ts: seq<Token>, nts: set<Token>, nullable: set<Token>, k: int)
    requires |ts| > 0 && ts[0] in nts && ts[0] in nullable
    ensures NullableBefore(ts, nts, nullable, k) <==> k == 0 || (k > 0 && NullableBefore(ts[1..], nts, nullable, k - 1))
    ensures k > 0 && k < |ts| ==> ts[k] == ts[1..][k - 1]
  {
    if k > 0 && NullableBefore(ts[1..], nts, nullable, k - 1) {
      forall i | 0 <= i < k ensures ts[i] in nts && ts[i] in nullable {
        if i > 0 { assert ts[i] == ts[1..][i - 1]; }
      }
    }
    if k > 0 && NullableBefore(ts, nts, nullable, k) {
      forall i | 0 <= i < k - 1 ensures ts[1..][i] in nts && ts[1..][i] in nullable {
        assert ts[1..][i] == ts[i + 1];
      }
    }
  }

  method IsNullable(ts: seq<Token>, terms: seq<Token>, nts: seq<Token>, nullable: seq<Token>) returns (r: Result<bool>)
    ensures r == NullableSeq(ts, Elems(terms), Elems(nts), Elems(nullable))
  {
    var i := 0;
    while i < |ts|
      invariant 0 <= i <= |ts|
      invariant NullableSeq(ts, Elems(terms), Elems(nts), Elems(nullable)) == NullableSeq(ts[i..], Elems(terms), Elems(nts), Elems(nullable))
    {
      assert ts[i..][1..] == ts[i + 1..];
      if ts[i] in nts {
        if ts[i] !in nullable {
          return Ok(false);
        }
      } else if ts[i] in terms {
        return Ok(false);
      } else {
        return Err(UnexpectedSymbol);
      }
      i := i + 1;
    }
    assert ts[i..] == [];
    return Ok(true);
  }
}
