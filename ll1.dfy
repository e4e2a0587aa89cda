/**
 * LL(1): the classification (null ambiguity, FIRST set clashes, FIRST/FOLLOW
 * clashes, in that order) and the two forms of the prediction table, the
 * list of (nonterminal, token, production) actions and the dense table
 * with a column per terminal and one for end of input.
 */
module LL1 {
  import opened Wrappers
  import opened Tokens
  import opened Productions
  import opened Relations
  import opened Analysis
  import opened FirstFollow
  import opened Closures

  /** The FIRST set of the body of production i, as `GetFirst` computes it. */
  function FirstOfRule(g: GrammarView, i: nat): Result<seq<Token>>
    requires AllRules(g.ps) && i < |g.ps|
  {
    FirstOf(g.ps[i].body, Elems(g.terms), Elems(g.nts), Elems(g.nullable), g.first)
  }

  /** The nullability of the body of production i, as `IsNullable` computes it. */
  function NullableRule(g: GrammarView, i: nat): Result<bool>
    requires AllRules(g.ps) && i < |g.ps|
  {
    NullableSeq(g.ps[i].body, Elems(g.terms), Elems(g.nts), Elems(g.nullable))
  }

  // ------------------------------------------------------------------
  // Classification

  /** The tokens recorded for head h by the productions before i. */
  ghost function Seen(g: GrammarView, i: nat, h: Token): set<Token>
    requires AllRules(g.ps) && i <= |g.ps|
  {
    set j, s | 0 <= j < i && g.ps[j].head == h && FirstOfRule(g, j).Ok? && s in FirstOfRule(g, j).value :: s
  }

  lemma SeenSnoc(g: GrammarView, i: nat, h: Token)
    requires AllRules(g.ps) && i < |g.ps| && FirstOfRule(g, i).Ok?
    ensures Seen(g, i + 1, h) == Seen(g, i, h) + if g.ps[i].head == h then Elems(FirstOfRule(g, i).value) else {}
  {
  }

  /** Production i fails the FIRST set check when it is reached: its FIRST set fails, or it names a token already recorded for its head (or its head has no row). */
  ghost predicate FirstBad(g: GrammarView, i: nat)
    requires AllRules(g.ps) && i < |g.ps|
  {
    var r := FirstOfRule(g, i);
    r.Err? ||
    (r.value != [] &&
     (g.ps[i].head !in g.nts ||
      exists k | 0 <= k < |r.value| :: r.value[k] in Seen(g, i, g.ps[i].head) || r.value[k] in r.value[..k]))
  }

  /** What a failing production raises. */
  function FirstFault(g: GrammarView, i: nat): Fault
    requires AllRules(g.ps) && i < |g.ps|
  {
    if FirstOfRule(g, i).Err? then UnexpectedSymbol
    else if g.ps[i].head !in g.nts then KeyNotFound
    else FirstSetClash
  }

  /** The table of `Classify`'s FIRST set check after the productions before i: a row per nonterminal, holding what they recorded. */
  ghost predicate Recorded(g: GrammarView, i: nat, table: map<Token, set<Token>>)
    requires AllRules(g.ps) && i <= |g.ps|
  {
    (forall h :: h in table <==> h in g.nts) && forall h | h in table :: table[h] == Seen(g, i, h)
  }

  /** The table after production i's first k FIRST tokens were recorded, none of them a clash. */
  ghost predicate RecordedUpTo(g: GrammarView, i: nat, table: map<Token, set<Token>>, ts: seq<Token>, k: nat)
    requires AllRules(g.ps) && i < |g.ps|
  {
    var head := g.ps[i].head;
    FirstOfRule(g, i) == Ok(ts) && k <= |ts| &&
    (forall h :: h in table <==> h in g.nts) &&
    (forall h | h in table && h != head :: table[h] == Seen(g, i, h)) &&
    (ts != [] ==> head in table) &&
    (head in table ==> table[head] == Seen(g, i, head) + Elems(ts[..k])) &&
    forall m | 0 <= m < k :: ts[m] !in Seen(g, i, head) && ts[m] !in ts[..m]
  }

  lemma RecordStart(g: GrammarView, i: nat, table: map<Token, set<Token>>, ts: seq<Token>)
    requires AllRules(g.ps) && i < |g.ps| && Recorded(g, i, table) && FirstOfRule(g, i) == Ok(ts)
    requires ts != [] ==> g.ps[i].head in table
    ensures RecordedUpTo(g, i, table, ts, 0)
  {
  }

  lemma RecordStep(g: GrammarView, i: nat, table: map<Token, set<Token>>, ts: seq<Token>, k: nat)
    requires AllRules(g.ps) && i < |g.ps| && RecordedUpTo(g, i, table, ts, k) && k < |ts|
    requires ts[k] !in table[g.ps[i].head]
    ensures RecordedUpTo(g, i, table[g.ps[i].head := table[g.ps[i].head] + {ts[k]}], ts, k + 1)
  {
    assert ts[..k + 1] == ts[..k] + [ts[k]];
  }

  lemma RecordClash(g: GrammarView, i: nat, table: map<Token, set<Token>>, ts: seq<Token>, k: nat)
    requires AllRules(g.ps) && i < |g.ps| && RecordedUpTo(g, i, table, ts, k) && k < |ts|
    requires ts[k] in table[g.ps[i].head]
    ensures FirstBad(g, i) && FirstFault(g, i) == FirstSetClash
  {
    var head := g.ps[i].head;
    if ts[k] !in Seen(g, i, head) {
      assert ts[k] in Elems(ts[..k]);
      var m :| 0 <= m < k && ts[..k][m] == ts[k];
      assert ts[k] in ts[..k];
    }
  }

  lemma RecordDone(g: GrammarView, i: nat, table: map<Token, set<Token>>, ts: seq<Token>)
    requires AllRules(g.ps) && i < |g.ps| && RecordedUpTo(g, i, table, ts, |ts|)
    ensures !FirstBad(g, i) && Recorded(g, i + 1, table)
  {
    assert ts[..|ts|] == ts;
    forall h ensures h in table ==> table[h] == Seen(g, i + 1, h) {
      SeenSnoc(g, i, h);
    }
  }

  /**
   * The FIRST set check of `Classify`: a set of tokens per nonterminal;
   * each production adds its FIRST tokens to its head's set, and a token
   * already there is a clash.
   */
  method CheckFirstSets(g: GrammarView) returns (c: Option<Fault>)
    requires AllRules(g.ps)
    ensures c.None? <==> forall i | 0 <= i < |g.ps| :: !FirstBad(g, i)
    ensures c.Some? ==> exists i | 0 <= i < |g.ps| ::
              FirstBad(g, i) && c.value == FirstFault(g, i) && forall j | 0 <= j < i :: !FirstBad(g, j)
  {
    var table: map<Token, set<Token>> := map h | h in g.nts :: {};
    var i := 0;
    while i < |g.ps|
      invariant 0 <= i <= |g.ps| && Recorded(g, i, table)
      invariant forall j | 0 <= j < i :: !FirstBad(g, j)
    {
      var p := g.ps[i];
      var head := p.head;
      var f := GetFirst(p.body, g.terms, g.nts, g.nullable, g.first);
      if f.Err? {
        assert FirstBad(g, i);
        return Some(UnexpectedSymbol);
      }
      var ts := f.value;
      if ts != [] && head !in table {
        assert FirstBad(g, i);
        return Some(KeyNotFound);
      }
      RecordStart(g, i, table, ts);
      var k := 0;
      while k < |ts|
        invariant RecordedUpTo(g, i, table, ts, k)
      {
        var s := ts[k];
        if s in table[head] {
          RecordClash(g, i, table, ts, k);
          return Some(FirstSetClash);
        }
        RecordStep(g, i, table, ts, k);
        table := table[head := table[head] + {s}];
        k := k + 1;
      }
      RecordDone(g, i, table, ts);
      i := i + 1;
    }
    return None;
  }

  /** Nullable nonterminal k fails the FIRST/FOLLOW check: it has FIRST tokens and no FOLLOW entry, or a FIRST token is in its FOLLOW set. */
  predicate NullableBad(first: Graph, follow: Graph, k: Token) {
    k in first.succ && first.succ[k] != [] &&
    (k !in follow.succ || exists f | f in first.succ[k] :: f in follow.succ[k])
  }

  /** What a failing nullable nonterminal raises: the FOLLOW lookup fails first. */
  function NullableFault(follow: Graph, k: Token): Fault {
    if k !in follow.succ then KeyNotFound else FirstFollowClash
  }

  /** The FIRST/FOLLOW check of `Classify`, nullable nonterminal by nullable nonterminal. */
  method CheckFirstFollow(nullable: seq<Token>, first: Graph, follow: Graph) returns (c: Option<Fault>)
    ensures c.None? <==> forall n | 0 <= n < |nullable| :: !NullableBad(first, follow, nullable[n])
    ensures c.Some? ==> exists n | 0 <= n < |nullable| ::
              NullableBad(first, follow, nullable[n]) && c.value == NullableFault(follow, nullable[n]) &&
              forall m | 0 <= m < n :: !NullableBad(first, follow, nullable[m])
  {
    var n := 0;
    while n < |nullable|
      invariant 0 <= n <= |nullable|
      invariant forall m | 0 <= m < n :: !NullableBad(first, follow, nullable[m])
    {
      var k := nullable[n];
      if k in first.succ {
        var fs := first.succ[k];
        var j := 0;
        while j < |fs|
          invariant 0 <= j <= |fs|
          invariant j > 0 ==> k in follow.succ
          invariant forall m | 0 <= m < j :: fs[m] !in follow.succ[k]
        {
          if k !in follow.succ {
            return Some(KeyNotFound);
          }
          if fs[j] in follow.succ[k] {
            return Some(FirstFollowClash);
          }
          j := j + 1;
        }
      }
      n := n + 1;
    }
    return None;
  }

  /** The grammar has a null ambiguity: some production of a nonterminal is a second one with a nullable body. */
  predicate HasNullAmbiguity(g: GrammarView)
    requires AllRules(g.ps)
  {
    exists i | 0 <= i < |g.ps| :: g.ps[i].head in g.nts && Ambiguous(g.ps, Elems(g.nullable), i)
  }

  /**
   * `LL1Parsing.Classify`: a null ambiguity first; then FIRST set clashes,
   * production by production; then the FOLLOW sets are computed, and their
   * failure is raised; then FIRST/FOLLOW clashes. No fault means the grammar
   * is LL(1).
   */
  method ClassifyLL1(g: GrammarView) returns (c: Option<Fault>, ghost follow: Result<Graph>, ghost imm: Graph, ghost prop: Graph)
    requires AllRules(g.ps)
    ensures HasNullAmbiguity(g) ==> c == Some(NullAmbiguity)
    ensures !HasNullAmbiguity(g) && (exists i | 0 <= i < |g.ps| :: FirstBad(g, i)) ==>
              exists i | 0 <= i < |g.ps| :: FirstBad(g, i) && c == Some(FirstFault(g, i)) && forall j | 0 <= j < i :: !FirstBad(g, j)
    ensures !HasNullAmbiguity(g) && (forall i | 0 <= i < |g.ps| :: !FirstBad(g, i)) ==>
              (|g.ps| == 0 ==> follow == Err(EmptyGrammar)) &&
              (|g.ps| > 0 ==> (follow.Ok? <==> !FollowFails(g.ps, Elems(g.nts), Elems(g.nullable), g.first))) &&
              (|g.ps| > 0 && follow.Ok? ==> FollowGraphs(g.ps, Elems(g.nts), Elems(g.nullable), g.first, imm, prop) && PropagationOf(imm, prop, follow.value)) &&
              (follow.Err? ==> c == Some(follow.error)) &&
              (follow.Ok? ==> (c.None? <==> forall n | 0 <= n < |g.nullable| :: !NullableBad(g.first, follow.value, g.nullable[n]))) &&
              (follow.Ok? && c.Some? ==> exists n | 0 <= n < |g.nullable| ::
                 NullableBad(g.first, follow.value, g.nullable[n]) && c.value == NullableFault(follow.value, g.nullable[n]) &&
                 forall m | 0 <= m < n :: !NullableBad(g.first, follow.value, g.nullable[m]))
  {
    imm, prop := Graph([], map[]), Graph([], map[]);
    follow := Err(EmptyGrammar);
    var ambiguity := ComputeNullAmbiguity(g.ps, g.nts, g.nullable);
    if |ambiguity| > 0 {
      assert ambiguity[0] in ambiguity;
      return Some(NullAmbiguity), follow, imm, prop;
    }
    assert forall i | 0 <= i < |g.ps| :: g.ps[i] !in ambiguity;
    c := CheckFirstSets(g);
    if c.Some? {
      return c, follow, imm, prop;
    }
    var fr;
    fr, imm, prop := ComputeFollowSet(g.ps, g.nts, g.nullable, g.first);
    follow := fr;
    if fr.Err? {
      return Some(fr.error), follow, imm, prop;
    }
    c := CheckFirstFollow(g.nullable, g.first, fr.value);
  }

  // ------------------------------------------------------------------
  // The prediction tables

  /** Production i predicts token s: s is in the FIRST set of its body, or its body is nullable and s follows its head. */
  predicate Predicts(g: GrammarView, follow: Graph, i: nat, s: Token)
    requires AllRules(g.ps) && i < |g.ps|
  {
    (FirstOfRule(g, i).Ok? && s in FirstOfRule(g, i).value) ||
    (NullableRule(g, i) == Ok(true) && Edge(follow, g.ps[i].head, s))
  }

  /** Production i makes the table construction fail: its FIRST set or its nullability cannot be computed. */
  predicate RuleFails(g: GrammarView, i: nat)
    requires AllRules(g.ps) && i < |g.ps|
  {
    FirstOfRule(g, i).Err? || NullableRule(g, i).Err?
  }

  /** An `LL1Action`: on nonterminal `head` and input `token`, expand `production`. */
  datatype Prediction = Prediction(head: Token, token: Token, production: Production)

  /** The entries the first i productions contribute. */
  ghost predicate EntriesUpTo(g: GrammarView, follow: Graph, i: nat, table: seq<Prediction>)
    requires AllRules(g.ps) && i <= |g.ps|
  {
    forall e :: e in table <==>
      exists j | 0 <= j < i :: e.production == g.ps[j] && e.head == g.ps[j].head && Predicts(g, follow, j, e.token)
  }

  /** One action per token of `ss`, all for production p. */
  function PredictAll(p: Production, ss: seq<Token>): seq<Prediction>
    requires p.Rule?
  {
    seq(|ss|, k requires 0 <= k < |ss| => Prediction(p.head, ss[k], p))
  }

  /** The actions of PredictAll are those for p on the tokens of `ss`. */
  lemma PredictAllMeaning(p: Production, ss: seq<Token>)
    requires p.Rule?
    ensures forall e :: e in PredictAll(p, ss) <==> e.head == p.head && e.production == p && e.token in ss
  {
    forall e: Prediction | e.head == p.head && e.production == p && e.token in ss ensures e in PredictAll(p, ss) {
      var k :| 0 <= k < |ss| && ss[k] == e.token;
      assert PredictAll(p, ss)[k] == e;
    }
  }

  /**
   * `LL1Parsing.CreateParsingTable`: the FOLLOW sets first (their failure is
   * the table's); then, production by production, an action for each token
   * of the FIRST set of its body and, when the body is nullable and the head
   * has FOLLOW tokens, for each of those.
   */
  method LL1ParsingTable(g: GrammarView) returns (r: Result<seq<Prediction>>, ghost follow: Result<Graph>, ghost imm: Graph, ghost prop: Graph)
    requires AllRules(g.ps)
    ensures |g.ps| == 0 ==> follow == Err(EmptyGrammar)
    ensures |g.ps| > 0 ==> (follow.Ok? <==> !FollowFails(g.ps, Elems(g.nts), Elems(g.nullable), g.first))
    ensures |g.ps| > 0 && follow.Ok? ==> FollowGraphs(g.ps, Elems(g.nts), Elems(g.nullable), g.first, imm, prop) && PropagationOf(imm, prop, follow.value)
    ensures follow.Err? ==> r == Err(follow.error)
    ensures follow.Ok? ==> (r.Err? <==> exists i | 0 <= i < |g.ps| :: RuleFails(g, i))
    ensures follow.Ok? && r.Err? ==> r.error == UnexpectedSymbol
    ensures r.Ok? ==> follow.Ok? && forall e :: e in r.value <==>
              exists i | 0 <= i < |g.ps| :: e.production == g.ps[i] && e.head == g.ps[i].head && Predicts(g, follow.value, i, e.token)
  {
    var fr;
    fr, imm, prop := ComputeFollowSet(g.ps, g.nts, g.nullable, g.first);
    follow := fr;
    if fr.Err? {
      return Err(fr.error), follow, imm, prop;
    }
    var fs := fr.value;
    var table: seq<Prediction> := [];
    var i := 0;
    while i < |g.ps|
      invariant 0 <= i <= |g.ps|
      invariant forall j | 0 <= j < i :: !RuleFails(g, j)
      invariant EntriesUpTo(g, fs, i, table)
    {
      var p := g.ps[i];
      var f := GetFirst(p.body, g.terms, g.nts, g.nullable, g.first);
      if f.Err? {
        assert RuleFails(g, i);
        return Err(UnexpectedSymbol), follow, imm, prop;
      }
      var firsts := table + PredictAll(p, f.value);
      var nb := IsNullable(p.body, g.terms, g.nts, g.nullable);
      if nb.Err? {
        assert RuleFails(g, i);
        return Err(UnexpectedSymbol), follow, imm, prop;
      }
      var extra: seq<Token> := [];
      if nb.value && p.head in fs.succ {
        extra := fs.succ[p.head];
      }
      EntriesStep(g, fs, i, table, f.value, extra);
      table := firsts + PredictAll(p, extra);
      i := i + 1;
    }
    r := Ok(table);
  }

  /** What production i adds: an entry per FIRST token and, when its body is nullable, per FOLLOW token of its head. */
  lemma EntriesStep(g: GrammarView, follow: Graph, i: nat, table: seq<Prediction>, ts: seq<Token>, extra: seq<Token>)
    requires AllRules(g.ps) && i < |g.ps| && EntriesUpTo(g, follow, i, table)
    requires FirstOfRule(g, i) == Ok(ts) && NullableRule(g, i).Ok?
    requires extra == if NullableRule(g, i).value && g.ps[i].head in follow.succ then follow.succ[g.ps[i].head] else []
    ensures EntriesUpTo(g, follow, i + 1, table + PredictAll(g.ps[i], ts) + PredictAll(g.ps[i], extra))
  {
    var p := g.ps[i];
    var t := table + PredictAll(p, ts) + PredictAll(p, extra);
    PredictAllMeaning(p, ts);
    PredictAllMeaning(p, extra);
    forall e ensures e in t <==>
      exists j | 0 <= j < i + 1 :: e.production == g.ps[j] && e.head == g.ps[j].head && Predicts(g, follow, j, e.token)
    {
      if e in t {
        if e !in table {
          assert e.production == p && e.head == p.head && Predicts(g, follow, i, e.token);
        }
      }
      if exists j | 0 <= j < i + 1 :: e.production == g.ps[j] && e.head == g.ps[j].head && Predicts(g, follow, j, e.token) {
        var j :| 0 <= j < i + 1 && e.production == g.ps[j] && e.head == g.ps[j].head && Predicts(g, follow, j, e.token);
        if j < i {
          assert e in table;
        } else if e.token in ts {
          assert e in PredictAll(p, ts);
        } else {
          assert e in PredictAll(p, extra);
        }
      }
    }
  }

  // ------------------------------------------------------------------
  // The dense table

  /** The columns of every row: the terminals and end of input. */
  function Columns(g: GrammarView): set<Token> {
    Elems(g.terms) + {EndToken}
  }

  /**
   * The rows and columns are added without repeats: the nonterminals are
   * listed once and, when there is a row to add them to, so are the
   * terminals, and end of input is not a terminal.
   */
  predicate ColumnsDistinct(g: GrammarView) {
    Distinct(g.nts) && (g.nts != [] ==> Distinct(g.terms) && EndToken !in g.terms)
  }

  /** Every lookup `table[head][s]` for the tokens of `ss` finds its cell. */
  predicate CellsExist(g: GrammarView, h: Token, ss: seq<Token>) {
    (|ss| > 0 ==> h in g.nts) && forall k | 0 <= k < |ss| :: ss[k] in Columns(g)
  }

  /** Production i fails one of the lookups of `GenerateTable`, or one of its analyses. */
  ghost predicate RowFails(g: GrammarView, follow: Graph, i: nat)
    requires AllRules(g.ps) && i < |g.ps|
  {
    var h := g.ps[i].head;
    FirstOfRule(g, i).Err? || !CellsExist(g, h, FirstOfRule(g, i).value) ||
    NullableRule(g, i).Err? ||
    (NullableRule(g, i) == Ok(true) && (h !in follow.succ || !CellsExist(g, h, follow.succ[h])))
  }

  /** A row per nonterminal, and in each row a cell per column. */
  ghost predicate Shaped(g: GrammarView, t: map<Token, map<Token, seq<Production>>>) {
    (forall x :: x in t <==> x in g.nts) && forall x | x in t :: t[x].Keys == Columns(g)
  }

  /** The number of times s occurs in ss. */
  function Count(ss: seq<Token>, s: Token): nat {
    if ss == [] then 0 else Count(ss[..|ss| - 1], s) + (if ss[|ss| - 1] == s then 1 else 0)
  }

  lemma CountSnoc(ss: seq<Token>, k: nat, s: Token)
    requires k < |ss|
    ensures Count(ss[..k + 1], s) == Count(ss[..k], s) + (if ss[k] == s then 1 else 0)
  {
    assert ss[..k + 1][..k] == ss[..k];
  }

  /** s occurs in ss iff its count is positive. */
  lemma {:induction false} CountPositive(ss: seq<Token>, s: Token)
    ensures Count(ss, s) > 0 <==> s in ss
    decreases |ss|
  {
    if ss != [] {
      CountPositive(ss[..|ss| - 1], s);
      assert ss == ss[..|ss| - 1] + [ss[|ss| - 1]];
    }
  }

  /** n copies of q. */
  function Copies(q: Production, n: nat): seq<Production> {
    seq(n, _ => q)
  }

  lemma CopiesMembers(q: Production, n: nat, q': Production)
    ensures q' in Copies(q, n) <==> n > 0 && q' == q
  {
    if n > 0 {
      assert Copies(q, n)[0] == q;
    }
  }

  lemma CopiesSnoc(q: Production, n: nat)
    ensures Copies(q, n + 1) == Copies(q, n) + [q]
  {
  }

  /** `t1` is `t0` with q appended to cell (h, s) once per occurrence of s in ss; every other cell is unchanged. */
  ghost predicate Appended(t0: map<Token, map<Token, seq<Production>>>, t1: map<Token, map<Token, seq<Production>>>, h: Token, ss: seq<Token>, q: Production) {
    t1.Keys == t0.Keys && (forall x | x in t0 :: t1[x].Keys == t0[x].Keys) &&
    forall x, s {:trigger t1[x][s]} | x in t1 && s in t1[x] :: t1[x][s] == t0[x][s] + (if x == h then Copies(q, Count(ss, s)) else [])
  }

  /** Appending for no token changes nothing. */
  lemma AppendedNone(t: map<Token, map<Token, seq<Production>>>, h: Token, q: Production)
    ensures Appended(t, t, h, [], q)
  {
    forall x, s | x in t && s in t[x] ensures t[x][s] == t[x][s] + (if x == h then Copies(q, Count([], s)) else []) {
      assert Copies(q, 0) == [];
    }
  }

  /** One cell of `Appended`. */
  lemma AppendedAt(t0: map<Token, map<Token, seq<Production>>>, t1: map<Token, map<Token, seq<Production>>>, h: Token, ss: seq<Token>, q: Production, x: Token, s: Token)
    requires Appended(t0, t1, h, ss, q) && x in t1 && s in t1[x]
    ensures x in t0 && s in t0[x]
    ensures t1[x][s] == t0[x][s] + (if x == h then Copies(q, Count(ss, s)) else [])
  {
    assert x in t0;
    assert t1[x].Keys == t0[x].Keys;
    assert s in t1[x].Keys;
  }

  /** Appending to an existing cell keeps the shape. */
  lemma ShapedStep(g: GrammarView, t: map<Token, map<Token, seq<Production>>>, h: Token, s: Token, q: Production)
    requires Shaped(g, t) && h in t && s in t[h]
    ensures Shaped(g, t[h := t[h][s := t[h][s] + [q]]])
  {
    var t' := t[h := t[h][s := t[h][s] + [q]]];
    forall x | x in t' ensures t'[x].Keys == Columns(g) {
      if x != h { assert t'[x] == t[x]; }
    }
  }

  /** Appending q to cell (h, ss[k]) extends the appended prefix of ss by one token. */
  lemma AppendedStep(table: map<Token, map<Token, seq<Production>>>, t: map<Token, map<Token, seq<Production>>>, h: Token, ss: seq<Token>, k: nat, q: Production)
    requires k < |ss| && Appended(table, t, h, ss[..k], q) && h in t && ss[k] in t[h]
    ensures Appended(table, t[h := t[h][ss[k] := t[h][ss[k]] + [q]]], h, ss[..k + 1], q)
  {
    var s := ss[k];
    var t' := t[h := t[h][s := t[h][s] + [q]]];
    forall x | x in table ensures t'[x].Keys == table[x].Keys {
      if x != h { assert t'[x] == t[x]; }
    }
    forall x, u | x in t' && u in t'[x]
      ensures t'[x][u] == table[x][u] + (if x == h then Copies(q, Count(ss[..k + 1], u)) else [])
    {
      CountSnoc(ss, k, u);
      if x == h && u == s {
        assert t'[x][u] == t[h][s] + [q];
        CopiesSnoc(q, Count(ss[..k], u));
      } else if x == h {
        assert t'[x][u] == t[x][u];
      } else {
        assert t'[x] == t[x];
      }
    }
  }

  lemma CellsSnoc(g: GrammarView, t: map<Token, map<Token, seq<Production>>>, h: Token, ss: seq<Token>, k: nat)
    requires k < |ss| && Shaped(g, t) && CellsExist(g, h, ss[..k]) && h in t && ss[k] in t[h]
    ensures CellsExist(g, h, ss[..k + 1])
  {
    assert ss[..k + 1] == ss[..k] + [ss[k]];
  }

  lemma CellMissing(g: GrammarView, t: map<Token, map<Token, seq<Production>>>, h: Token, ss: seq<Token>, k: nat)
    requires k < |ss| && Shaped(g, t) && (h !in t || ss[k] !in t[h])
    ensures !CellsExist(g, h, ss)
  {
    if h in t {
      assert t[h].Keys == Columns(g);
      assert ss[k] !in Columns(g);
    } else {
      assert h !in g.nts;
    }
  }

  /** `table[h][s].Add(q)` for each token s of `ss`, in order; a missing row or column is a failed lookup. */
  method AddPredictions(g: GrammarView, table: map<Token, map<Token, seq<Production>>>, h: Token, ss: seq<Token>, q: Production)
    returns (r: Result<map<Token, map<Token, seq<Production>>>>)
    requires Shaped(g, table)
    ensures r.Err? <==> !CellsExist(g, h, ss)
    ensures r.Err? ==> r.error == KeyNotFound
    ensures r.Ok? ==> Shaped(g, r.value) && Appended(table, r.value, h, ss, q)
  {
    var t := table;
    var k := 0;
    assert ss[..0] == [];
    AppendedNone(table, h, q);
    while k < |ss|
      invariant 0 <= k <= |ss|
      invariant CellsExist(g, h, ss[..k])
      invariant Shaped(g, t) && Appended(table, t, h, ss[..k], q)
    {
      var s := ss[k];
      if h !in t || s !in t[h] {
        CellMissing(g, t, h, ss, k);
        return Err(KeyNotFound);
      }
      CellsSnoc(g, t, h, ss, k);
      ShapedStep(g, t, h, s, q);
      AppendedStep(table, t, h, ss, k, q);
      t := t[h := t[h][s := t[h][s] + [q]]];
      k := k + 1;
    }
    assert ss[..k] == ss;
    return Ok(t);
  }

  // The exact contents of the cells

  /** Every production before i has a FIRST set, a nullability and, when nullable, a FOLLOW entry for its head. */
  ghost predicate RowsDefined(g: GrammarView, follow: Graph, i: nat)
    requires AllRules(g.ps) && i <= |g.ps|
  {
    forall j | 0 <= j < i :: FirstOfRule(g, j).Ok? && NullableRule(g, j).Ok? && (NullableRule(g, j).value ==> g.ps[j].head in follow.succ)
  }

  /**
   * What production j adds to cell (h, s) when h is its head: itself once per
   * occurrence of s in its FIRST list and, when its body is nullable, once more
   * per occurrence of s in the FOLLOW list of h.
   */
  ghost function Added(g: GrammarView, follow: Graph, j: nat, h: Token, s: Token): seq<Production>
    requires AllRules(g.ps) && j < |g.ps| && RowsDefined(g, follow, j + 1)
  {
    var p := g.ps[j];
    if p.head != h then []
    else Copies(p, Count(FirstOfRule(g, j).value, s))
         + (if NullableRule(g, j).value then Copies(p, Count(follow.succ[h], s)) else [])
  }

  /** Cell (h, s) after the first i productions: what each of them adds, in production order. */
  ghost function CellUpTo(g: GrammarView, follow: Graph, i: nat, h: Token, s: Token): seq<Production>
    requires AllRules(g.ps) && i <= |g.ps| && RowsDefined(g, follow, i)
    decreases i
  {
    if i == 0 then [] else CellUpTo(g, follow, i - 1, h, s) + Added(g, follow, i - 1, h, s)
  }

  /** Some production among the first i has head h and is predicted on s. */
  ghost predicate Predicted(g: GrammarView, follow: Graph, i: nat, h: Token, s: Token, q: Production)
    requires AllRules(g.ps) && i <= |g.ps|
  {
    exists j | 0 <= j < i :: q == g.ps[j] && h == g.ps[j].head && Predicts(g, follow, j, s)
  }

  lemma PredictedSnoc(g: GrammarView, follow: Graph, i: nat, h: Token, s: Token, q: Production)
    requires AllRules(g.ps) && i < |g.ps|
    ensures Predicted(g, follow, i + 1, h, s, q)
        <==> Predicted(g, follow, i, h, s, q) || (q == g.ps[i] && h == g.ps[i].head && Predicts(g, follow, i, s))
  {
    if Predicted(g, follow, i + 1, h, s, q) && !(q == g.ps[i] && h == g.ps[i].head && Predicts(g, follow, i, s)) {
      var j :| 0 <= j < i + 1 && q == g.ps[j] && h == g.ps[j].head && Predicts(g, follow, j, s);
      assert j < i;
    }
    if Predicted(g, follow, i, h, s, q) {
      var j :| 0 <= j < i && q == g.ps[j] && h == g.ps[j].head && Predicts(g, follow, j, s);
      assert 0 <= j < i + 1;
    }
  }

  /** A production is in cell (h, s) iff some production so far has head h and is predicted on s. */
  lemma {:induction false} CellMembers(g: GrammarView, follow: Graph, i: nat, h: Token, s: Token, q: Production)
    requires AllRules(g.ps) && i <= |g.ps| && RowsDefined(g, follow, i)
    ensures q in CellUpTo(g, follow, i, h, s) <==> Predicted(g, follow, i, h, s, q)
    decreases i
  {
    if i > 0 {
      var j := i - 1;
      CellMembers(g, follow, j, h, s, q);
      PredictedSnoc(g, follow, j, h, s, q);
      var p := g.ps[j];
      if p.head == h {
        var f := FirstOfRule(g, j).value;
        CountPositive(f, s);
        CopiesMembers(p, Count(f, s), q);
        if NullableRule(g, j).value {
          CountPositive(follow.succ[h], s);
          CopiesMembers(p, Count(follow.succ[h], s), q);
        }
      }
    }
  }

  /** Every cell of the table is exactly `CellUpTo` for the first i productions. */
  ghost predicate CellsUpTo(g: GrammarView, follow: Graph, i: nat, table: map<Token, map<Token, seq<Production>>>)
    requires AllRules(g.ps) && i <= |g.ps| && RowsDefined(g, follow, i)
  {
    forall h, s {:trigger table[h][s]} | h in table && s in table[h] :: table[h][s] == CellUpTo(g, follow, i, h, s)
  }

  /** The dense table after the first i productions: a row per nonterminal, a cell per column, each cell exactly `CellUpTo`. */
  ghost predicate DenseUpTo(g: GrammarView, follow: Graph, i: nat, table: map<Token, map<Token, seq<Production>>>)
    requires AllRules(g.ps) && i <= |g.ps|
  {
    RowsDefined(g, follow, i) && Shaped(g, table) && CellsUpTo(g, follow, i, table)
  }

  /** The dense table after production i, from the table before it and what production i appends. */
  lemma DenseStep(g: GrammarView, follow: Graph, i: nat, S2: seq<Token>, t0: map<Token, map<Token, seq<Production>>>, t1: map<Token, map<Token, seq<Production>>>, t2: map<Token, map<Token, seq<Production>>>)
    requires AllRules(g.ps) && i < |g.ps| && FirstOfRule(g, i).Ok? && NullableRule(g, i).Ok? && DenseUpTo(g, follow, i, t0)
    requires NullableRule(g, i).value ==> g.ps[i].head in follow.succ && S2 == follow.succ[g.ps[i].head]
    requires !NullableRule(g, i).value ==> S2 == []
    requires Appended(t0, t1, g.ps[i].head, FirstOfRule(g, i).value, g.ps[i])
    requires Appended(t1, t2, g.ps[i].head, S2, g.ps[i])
    requires Shaped(g, t2)
    ensures DenseUpTo(g, follow, i + 1, t2)
  {
    assert RowsDefined(g, follow, i + 1);
    forall h, s | h in t2 && s in t2[h]
      ensures t2[h][s] == CellUpTo(g, follow, i + 1, h, s)
    {
      var p := g.ps[i];
      AppendedAt(t1, t2, p.head, S2, p, h, s);
      AppendedAt(t0, t1, p.head, FirstOfRule(g, i).value, p, h, s);
      DenseStepAt(g, follow, i, FirstOfRule(g, i).value, S2, h, s, t0[h][s], t1[h][s], t2[h][s]);
    }
  }

  /** One cell of `DenseStep`: the cell before production i, then what its FIRST list and its FOLLOW list append. */
  lemma DenseStepAt(g: GrammarView, follow: Graph, i: nat, F: seq<Token>, S2: seq<Token>, h: Token, s: Token, c0: seq<Production>, c1: seq<Production>, c2: seq<Production>)
    requires AllRules(g.ps) && i < |g.ps| && RowsDefined(g, follow, i + 1) && F == FirstOfRule(g, i).value
    requires NullableRule(g, i).value ==> S2 == follow.succ[g.ps[i].head]
    requires !NullableRule(g, i).value ==> S2 == []
    requires c0 == CellUpTo(g, follow, i, h, s)
    requires c1 == c0 + (if h == g.ps[i].head then Copies(g.ps[i], Count(F, s)) else [])
    requires c2 == c1 + (if h == g.ps[i].head then Copies(g.ps[i], Count(S2, s)) else [])
    ensures c2 == CellUpTo(g, follow, i + 1, h, s)
  {
    AddedIs(g, follow, i, S2, h, s);
    assert CellUpTo(g, follow, i + 1, h, s) == c0 + Added(g, follow, i, h, s);
  }

  /** What production i adds to cell (h, s), with the FOLLOW list of a nullable body passed as S2. */
  lemma AddedIs(g: GrammarView, follow: Graph, i: nat, S2: seq<Token>, h: Token, s: Token)
    requires AllRules(g.ps) && i < |g.ps| && RowsDefined(g, follow, i + 1)
    requires NullableRule(g, i).value ==> S2 == follow.succ[g.ps[i].head]
    requires !NullableRule(g, i).value ==> S2 == []
    ensures Added(g, follow, i, h, s)
         == (if h == g.ps[i].head then Copies(g.ps[i], Count(FirstOfRule(g, i).value, s)) else [])
          + (if h == g.ps[i].head then Copies(g.ps[i], Count(S2, s)) else [])
  {
    assert Copies(g.ps[i], 0) == [];
  }

  /** The body of the production loop of `LL1Table.GenerateTable`, for production i. */
  method AddRule(g: GrammarView, fs: Graph, i: nat, table: map<Token, map<Token, seq<Production>>>)
    returns (r: Result<map<Token, map<Token, seq<Production>>>>)
    requires AllRules(g.ps) && i < |g.ps| && DenseUpTo(g, fs, i, table)
    ensures r.Err? <==> RowFails(g, fs, i)
    ensures r.Err? ==> r.error == UnexpectedSymbol || r.error == KeyNotFound
    ensures r.Ok? ==> DenseUpTo(g, fs, i + 1, r.value)
  {
    var p := g.ps[i];
    var f := GetFirst(p.body, g.terms, g.nts, g.nullable, g.first);
    if f.Err? {
      return Err(UnexpectedSymbol);
    }
    var t1 := AddPredictions(g, table, p.head, f.value, p);
    if t1.Err? {
      return Err(KeyNotFound);
    }
    var nb := IsNullable(p.body, g.terms, g.nts, g.nullable);
    if nb.Err? {
      return Err(UnexpectedSymbol);
    }
    var t2 := t1.value;
    ghost var S2: seq<Token> := [];
    if nb.value {
      if p.head !in fs.succ {
        return Err(KeyNotFound);
      }
      var t3 := AddPredictions(g, t1.value, p.head, fs.succ[p.head], p);
      if t3.Err? {
        return Err(KeyNotFound);
      }
      t2 := t3.value;
      S2 := fs.succ[p.head];
    } else {
      AppendedNone(t1.value, p.head, p);
    }
    DenseStep(g, fs, i, S2, table, t1.value, t2);
    return Ok(t2);
  }

  /** None of the first i productions fails. */
  ghost predicate NoRowFails(g: GrammarView, follow: Graph, i: nat)
    requires AllRules(g.ps) && i <= |g.ps|
  {
    forall j | 0 <= j < i :: !RowFails(g, follow, j)
  }

  lemma NoRowFailsStep(g: GrammarView, follow: Graph, i: nat)
    requires AllRules(g.ps) && i < |g.ps| && NoRowFails(g, follow, i) && !RowFails(g, follow, i)
    ensures NoRowFails(g, follow, i + 1)
  {
  }

  /** The empty table: a row per nonterminal, an empty cell per column. */
  lemma DenseStart(g: GrammarView, follow: Graph, table: map<Token, map<Token, seq<Production>>>)
    requires AllRules(g.ps)
    requires forall x :: x in table <==> x in g.nts
    requires forall x | x in table :: table[x] == (map t | t in g.terms :: [])[EndToken := []]
    ensures DenseUpTo(g, follow, 0, table)
  {
    forall x | x in table ensures table[x].Keys == Columns(g) {
      assert table[x].Keys == Elems(g.terms) + {EndToken};
    }
  }

  /**
   * `LL1Table.GenerateTable`: a row per nonterminal with an empty cell per
   * terminal and for end of input; then, production by production, the
   * production is appended to the cell of each FIRST token of its body and,
   * when the body is nullable, of each FOLLOW token of its head. A missing
   * row, column or FOLLOW entry is a failed lookup.
   */
  method GenerateTable(g: GrammarView) returns (r: Result<map<Token, map<Token, seq<Production>>>>, ghost follow: Result<Graph>, ghost imm: Graph, ghost prop: Graph)
    requires AllRules(g.ps)
    ensures |g.ps| == 0 ==> follow == Err(EmptyGrammar)
    ensures |g.ps| > 0 ==> (follow.Ok? <==> !FollowFails(g.ps, Elems(g.nts), Elems(g.nullable), g.first))
    ensures |g.ps| > 0 && follow.Ok? ==> FollowGraphs(g.ps, Elems(g.nts), Elems(g.nullable), g.first, imm, prop) && PropagationOf(imm, prop, follow.value)
    ensures follow.Err? ==> r == Err(follow.error)
    ensures follow.Ok? && !ColumnsDistinct(g) ==> r == Err(DuplicateKey)
    ensures follow.Ok? && ColumnsDistinct(g) ==> (r.Err? <==> exists i | 0 <= i < |g.ps| :: RowFails(g, follow.value, i))
    ensures follow.Ok? && ColumnsDistinct(g) && r.Err? ==> r.error == UnexpectedSymbol || r.error == KeyNotFound
    ensures r.Ok? ==> follow.Ok? && DenseUpTo(g, follow.value, |g.ps|, r.value)
  {
    var fr;
    fr, imm, prop := ComputeFollowSet(g.ps, g.nts, g.nullable, g.first);
    follow := fr;
    if fr.Err? {
      return Err(fr.error), follow, imm, prop;
    }
    var fs := fr.value;
    if !ColumnsDistinct(g) {
      return Err(DuplicateKey), follow, imm, prop;
    }
    var row: map<Token, seq<Production>> := (map t | t in g.terms :: [])[EndToken := []];
    var table := map h | h in g.nts :: row;
    DenseStart(g, fs, table);
    r := AddRules(g, fs, table);
  }

  /** The production loop of `LL1Table.GenerateTable`, from the empty table. */
  method AddRules(g: GrammarView, fs: Graph, table0: map<Token, map<Token, seq<Production>>>)
    returns (r: Result<map<Token, map<Token, seq<Production>>>>)
    requires AllRules(g.ps) && DenseUpTo(g, fs, 0, table0)
    ensures r.Err? <==> exists i | 0 <= i < |g.ps| :: RowFails(g, fs, i)
    ensures r.Err? ==> r.error == UnexpectedSymbol || r.error == KeyNotFound
    ensures r.Ok? ==> DenseUpTo(g, fs, |g.ps|, r.value)
  {
    var table := table0;
    for i := 0 to |g.ps|
      invariant NoRowFails(g, fs, i)
      invariant DenseUpTo(g, fs, i, table)
    {
      var t := AddRule(g, fs, i, table);
      if t.Err? {
        return Err(t.error);
      }
      NoRowFailsStep(g, fs, i);
      table := t.value;
    }
    return Ok(table);
  }

  /** Both tables predict the same: a production is in the dense cell (h, s) iff the action list holds (h, s, production). */
  lemma TablesAgree(g: GrammarView, follow: Graph, list: seq<Prediction>, dense: map<Token, map<Token, seq<Production>>>, h: Token, s: Token, q: Production)
    requires AllRules(g.ps) && EntriesUpTo(g, follow, |g.ps|, list) && DenseUpTo(g, follow, |g.ps|, dense)
    requires h in dense && s in dense[h]
    ensures q in dense[h][s] <==> Prediction(h, s, q) in list
  {
    CellMembers(g, follow, |g.ps|, h, s, q);
    var e := Prediction(h, s, q);
    assert e.head == h && e.token == s && e.production == q;
  }
}
