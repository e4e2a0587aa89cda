/**
 * The LR parsing tables built from an automaton, and their classification:
 * the LR(0) table (a shift map and a list of reductions per state), the
 * SLR(1), LR(1) and LALR(1) tables (per state, a cell per token holding an
 * optional shift and a list of reductions), and the checks that report a
 * reduce-reduce or a shift-reduce conflict.
 */
module ParsingTables {
  import opened Wrappers
  import opened Tokens
  import opened Productions
  import opened Relations
  import opened Analysis
  import opened FirstFollow
  import opened Items
  import opened States
  import opened Closures
  import opened Automata
  import opened Lalr

  // ------------------------------------------------------------------
  // Completed items

  /** The dot is at the end: the augmented item at dot 1, or a grammar production with the dot after its body. */
  predicate Completed(x: Item) {
    match x.production
    case Augmented => x.index == 1
    case Rule(_, body, _) => x.index == |body|
  }

  // ------------------------------------------------------------------
  // The LR(0) table

  /** An `LR0Action`: the transitions of a state and the productions it reduces. */
  datatype LR0Row = LR0Row(shift: map<Token, nat>, reduce: seq<Production>)

  /** The productions of the completed items, in item order. */
  function Reductions(items: seq<Item>): seq<Production>
    decreases |items|
  {
    if items == [] then []
    else
      var x := items[|items| - 1];
      Reductions(items[..|items| - 1]) + (if Completed(x) then [x.production] else [])
  }

  /** A production is reduced iff some completed item carries it. */
  lemma {:induction false} ReductionsMeaning(items: seq<Item>, p: Production)
    ensures p in Reductions(items) <==> exists i | 0 <= i < |items| :: Completed(items[i]) && items[i].production == p
    decreases |items|
  {
    if items != [] {
      var n := |items| - 1;
      var front := items[..n];
      ReductionsMeaning(front, p);
      if exists i | 0 <= i < |front| :: Completed(front[i]) && front[i].production == p {
        var i :| 0 <= i < |front| && Completed(front[i]) && front[i].production == p;
        assert items[i] == front[i];
      }
      if exists i | 0 <= i < |items| :: Completed(items[i]) && items[i].production == p {
        var i :| 0 <= i < |items| && Completed(items[i]) && items[i].production == p;
        if i < n { assert front[i] == items[i]; }
      }
    }
  }

  /** There are as many reductions as completed items; in particular more than one iff two positions hold completed items. */
  lemma {:induction false} ReductionsCount(items: seq<Item>)
    ensures |Reductions(items)| > 0 <==> exists i | 0 <= i < |items| :: Completed(items[i])
    ensures |Reductions(items)| > 1 <==> exists i, j | 0 <= i < j < |items| :: Completed(items[i]) && Completed(items[j])
    decreases |items|
  {
    if items != [] {
      var n := |items| - 1;
      var front := items[..n];
      ReductionsCount(front);
      forall i | 0 <= i < n ensures items[i] == front[i] { }
      if |Reductions(items)| > 1 && !Completed(items[n]) {
        var i, j :| 0 <= i < j < |front| && Completed(front[i]) && Completed(front[j]);
        assert Completed(items[i]) && Completed(items[j]);
      }
      if |Reductions(items)| > 1 && Completed(items[n]) {
        var i :| 0 <= i < |front| && Completed(front[i]);
        assert Completed(items[i]) && i < n;
      }
      if exists i, j | 0 <= i < j < |items| :: Completed(items[i]) && Completed(items[j]) {
        var i, j :| 0 <= i < j < |items| && Completed(items[i]) && Completed(items[j]);
        if j < n {
          assert Completed(front[i]) && Completed(front[j]);
        } else {
          assert Completed(front[i]);
        }
      }
    }
  }

  /** The reductions of one state, collected item by item. */
  method ReduceRow(items: seq<Item>) returns (reduce: seq<Production>)
    ensures reduce == Reductions(items)
  {
    reduce := [];
    var i := 0;
    while i < |items|
      invariant 0 <= i <= |items| && reduce == Reductions(items[..i])
    {
      assert items[..i + 1][..i] == items[..i];
      var x := items[i];
      if x.production == Augmented {
        if x.index == 1 {
          reduce := reduce + [x.production];
        }
      } else if x.index == |x.production.body| {
        reduce := reduce + [x.production];
      }
      i := i + 1;
    }
    assert items[..i] == items;
  }

  /** `LR0Parsing.CreateParsingTable`: one row per state, shifting on its transitions and reducing its completed items. */
  method LR0Table(states: seq<State>) returns (table: seq<LR0Row>)
    ensures |table| == |states|
    ensures forall i | 0 <= i < |states| :: table[i].shift == states[i].transitions && table[i].reduce == Reductions(states[i].items)
  {
    table := [];
    var i := 0;
    while i < |states|
      invariant 0 <= i <= |states| && |table| == i
      invariant forall j | 0 <= j < i :: table[j].shift == states[j].transitions && table[j].reduce == Reductions(states[j].items)
    {
      var reduce := ReduceRow(states[i].items);
      table := table + [LR0Row(states[i].transitions, reduce)];
      i := i + 1;
    }
  }

  /** A row is in conflict: two reductions, or a reduction beside a shift on a terminal. */
  predicate LR0Conflict(row: LR0Row, terminals: set<Token>) {
    |row.reduce| > 1 || (|row.reduce| > 0 && exists s | s in row.shift :: s in terminals)
  }

  /** The conflict a row reports: reduce-reduce takes precedence. */
  function LR0Fault(row: LR0Row): Fault {
    if |row.reduce| > 1 then ReduceReduce else ShiftReduce
  }

  /**
   * `LR0Parsing.Classify` over a built table: the rows are checked in order
   * and the first row in conflict raises its conflict; no conflict at all
   * means the grammar is LR(0).
   */
  method ClassifyLR0(table: seq<LR0Row>, terminals: set<Token>) returns (conflict: Option<Fault>)
    ensures conflict.None? <==> forall i | 0 <= i < |table| :: !LR0Conflict(table[i], terminals)
    ensures conflict.Some? ==> exists i | 0 <= i < |table| ::
              LR0Conflict(table[i], terminals) && conflict.value == LR0Fault(table[i]) &&
              forall j | 0 <= j < i :: !LR0Conflict(table[j], terminals)
  {
    var i := 0;
    while i < |table|
      invariant 0 <= i <= |table|
      invariant forall j | 0 <= j < i :: !LR0Conflict(table[j], terminals)
    {
      var row := table[i];
      if |row.reduce| > 1 {
        return Some(ReduceReduce);
      }
      if |row.reduce| > 0 {
        var shifts := row.shift.Keys;
        while shifts != {}
          invariant shifts <= row.shift.Keys
          invariant forall s | s in row.shift && s !in shifts :: s !in terminals
          decreases shifts
        {
          var s :| s in shifts;
          if s in terminals {
            return Some(ShiftReduce);
          }
          shifts := shifts - {s};
        }
      }
      i := i + 1;
    }
    return None;
  }

  /**
   * In terms of the states: an LR(0) automaton's table is free of conflicts
   * iff no state has two completed items, and no state with a completed
   * item has a transition on a terminal.
   */
  lemma LR0ConflictFree(states: seq<State>, table: seq<LR0Row>, terminals: set<Token>)
    requires |table| == |states|
    requires forall i | 0 <= i < |states| :: table[i].shift == states[i].transitions && table[i].reduce == Reductions(states[i].items)
    ensures (forall i | 0 <= i < |table| :: !LR0Conflict(table[i], terminals)) <==>
            forall i | 0 <= i < |states| ::
              (forall a, b | 0 <= a < b < |states[i].items| :: !(Completed(states[i].items[a]) && Completed(states[i].items[b]))) &&
              ((exists a | 0 <= a < |states[i].items| :: Completed(states[i].items[a])) ==>
                 forall s | s in states[i].transitions :: s !in terminals)
  {
    forall i | 0 <= i < |states| {
      ReductionsCount(states[i].items);
    }
  }

  // ------------------------------------------------------------------
  // The SLR(1), LR(1) and LALR(1) tables

  /** An `LR1ActionItem`: the state to shift to, if any, and the productions to reduce. */
  datatype Cell = Cell(shift: Option<nat>, reduce: seq<Production>)

  /** Where a completed grammar production reduces: on the FOLLOW set of its head (SLR(1)), or on the item's own lookaheads. */
  datatype ReduceRule = OnFollow(follow: Graph) | OnLookAheads

  /**
   * The tokens an item reduces on: end of input for the augmented item at
   * dot 1; for a completed grammar production the FOLLOW set of its head
   * (none when the head has no entry) or the item's lookaheads; none for an
   * item whose dot is not at the end.
   */
  function ReduceTokens(rule: ReduceRule, x: Item): seq<Token> {
    match x.production
    case Augmented => if x.index == 1 then [EndToken] else []
    case Rule(head, body, _) =>
      if x.index != |body| then []
      else match rule
        case OnFollow(follow) => if head in follow.succ then follow.succ[head] else []
        case OnLookAheads => x.lookAheads
  }

  /** Only a completed item reduces, on the tokens its rule names. */
  lemma ReduceTokensMeaning(rule: ReduceRule, x: Item, t: Token)
    ensures t in ReduceTokens(rule, x) <==>
      Completed(x) &&
      if x.production == Augmented then t == EndToken
      else if rule.OnFollow? then Edge(rule.follow, x.production.head, t)
      else t in x.lookAheads
  {
  }

  /** The reductions on token t: the productions of the items that reduce on t, in item order. */
  function ReducesOn(rule: ReduceRule, items: seq<Item>, t: Token): seq<Production>
    decreases |items|
  {
    if items == [] then []
    else
      var x := items[|items| - 1];
      ReducesOn(rule, items[..|items| - 1], t) + (if t in ReduceTokens(rule, x) then [x.production] else [])
  }

  /** Item i of the items reduces on t. */
  predicate ReducesAt(rule: ReduceRule, items: seq<Item>, i: int, t: Token)
    requires 0 <= i < |items|
  {
    t in ReduceTokens(rule, items[i])
  }

  /** A production reduces on t iff some item of it reduces on t. */
  lemma {:induction false} ReducesOnMeaning(rule: ReduceRule, items: seq<Item>, t: Token, p: Production)
    ensures p in ReducesOn(rule, items, t) <==> exists i | 0 <= i < |items| :: items[i].production == p && t in ReduceTokens(rule, items[i])
    decreases |items|
  {
    if items != [] {
      var n := |items| - 1;
      var front := items[..n];
      var tail := if ReducesAt(rule, items, n, t) then [items[n].production] else [];
      assert ReducesOn(rule, items, t) == ReducesOn(rule, front, t) + tail;
      ReducesOnMeaning(rule, front, t, p);
      if p in ReducesOn(rule, front, t) {
        var i :| 0 <= i < |front| && front[i].production == p && t in ReduceTokens(rule, front[i]);
        assert items[i] == front[i];
      }
      if exists i | 0 <= i < |items| :: items[i].production == p && t in ReduceTokens(rule, items[i]) {
        var i :| 0 <= i < |items| && items[i].production == p && t in ReduceTokens(rule, items[i]);
        if i < n {
          assert front[i] == items[i];
        } else {
          assert p in tail;
        }
      }
    }
  }

  /** A cell holds a reduction iff some item reduces on its token. */
  lemma {:induction false} ReducesOnSome(rule: ReduceRule, items: seq<Item>, t: Token)
    ensures |ReducesOn(rule, items, t)| > 0 <==> exists i | 0 <= i < |items| :: ReducesAt(rule, items, i, t)
    decreases |items|
  {
    if items != [] {
      var n := |items| - 1;
      var front := items[..n];
      ReducesOnSome(rule, front, t);
      assert ReducesOn(rule, items, t) == ReducesOn(rule, front, t) + (if ReducesAt(rule, items, n, t) then [items[n].production] else []);
      if exists i | 0 <= i < |front| :: ReducesAt(rule, front, i, t) {
        var i :| 0 <= i < |front| && ReducesAt(rule, front, i, t);
        assert items[i] == front[i] && ReducesAt(rule, items, i, t);
      }
      if exists i | 0 <= i < |items| :: ReducesAt(rule, items, i, t) {
        var i :| 0 <= i < |items| && ReducesAt(rule, items, i, t);
        if i < n { assert items[i] == front[i] && ReducesAt(rule, front, i, t); }
      }
    }
  }

  /** Two reductions in a cell come from two items. */
  lemma {:induction false} TwiceHasTwo(rule: ReduceRule, items: seq<Item>, t: Token)
    requires |ReducesOn(rule, items, t)| > 1
    ensures exists i, j | 0 <= i < j < |items| :: ReducesAt(rule, items, i, t) && ReducesAt(rule, items, j, t)
    decreases |items|
  {
    var n := |items| - 1;
    var front := items[..n];
    assert ReducesOn(rule, items, t) == ReducesOn(rule, front, t) + (if ReducesAt(rule, items, n, t) then [items[n].production] else []);
    if ReducesAt(rule, items, n, t) {
      ReducesOnSome(rule, front, t);
      var i :| 0 <= i < |front| && ReducesAt(rule, front, i, t);
      assert items[i] == front[i] && ReducesAt(rule, items, i, t);
    } else {
      TwiceHasTwo(rule, front, t);
      var i, j :| 0 <= i < j < |front| && ReducesAt(rule, front, i, t) && ReducesAt(rule, front, j, t);
      assert items[i] == front[i] && items[j] == front[j];
      assert ReducesAt(rule, items, i, t) && ReducesAt(rule, items, j, t);
    }
  }

  /** Two items reducing on one token put two reductions in its cell. */
  lemma {:induction false} TwoMakeTwice(rule: ReduceRule, items: seq<Item>, t: Token, i: int, j: int)
    requires 0 <= i < j < |items| && ReducesAt(rule, items, i, t) && ReducesAt(rule, items, j, t)
    ensures |ReducesOn(rule, items, t)| > 1
    decreases |items|
  {
    var n := |items| - 1;
    var front := items[..n];
    assert ReducesOn(rule, items, t) == ReducesOn(rule, front, t) + (if ReducesAt(rule, items, n, t) then [items[n].production] else []);
    assert items[i] == front[i] && ReducesAt(rule, front, i, t);
    if j < n {
      assert items[j] == front[j] && ReducesAt(rule, front, j, t);
      TwoMakeTwice(rule, front, t, i, j);
    } else {
      ReducesOnSome(rule, front, t);
    }
  }

  /** A cell holds more than one reduction iff two items reduce on its token. */
  lemma ReducesOnTwice(rule: ReduceRule, items: seq<Item>, t: Token)
    ensures |ReducesOn(rule, items, t)| > 1 <==>
      exists i, j | 0 <= i < j < |items| :: ReducesAt(rule, items, i, t) && ReducesAt(rule, items, j, t)
  {
    if |ReducesOn(rule, items, t)| > 1 {
      TwiceHasTwo(rule, items, t);
    }
    if exists i, j | 0 <= i < j < |items| :: ReducesAt(rule, items, i, t) && ReducesAt(rule, items, j, t) {
      var i, j :| 0 <= i < j < |items| && ReducesAt(rule, items, i, t) && ReducesAt(rule, items, j, t);
      TwoMakeTwice(rule, items, t, i, j);
    }
  }

  /**
   * `AddReduceAction`: the cell of token t, created empty when absent, gains
   * production p at the end of its reductions; its shift and every other
   * cell stay as they were.
   */
  function AddReduceAction(row: map<Token, Cell>, t: Token, p: Production): (r: map<Token, Cell>)
    ensures r.Keys == row.Keys + {t}
    ensures r[t].shift == (if t in row then row[t].shift else None)
    ensures r[t].reduce == (if t in row then row[t].reduce else []) + [p]
    ensures forall u | u in row && u != t :: r[u] == row[u]
  {
    var cell := if t in row then row[t] else Cell(None, []);
    row[t := cell.(reduce := cell.reduce + [p])]
  }

  /** The shift of state s on token t. */
  function ShiftOf(s: State, t: Token): Option<nat> {
    if t in s.transitions then Some(s.transitions[t]) else None
  }

  /**
   * The row of state s: a cell for every token it shifts or reduces on, the
   * shift to its transition target and the reductions of its items on
   * that token.
   */
  ghost predicate RowOf(rule: ReduceRule, s: State, row: map<Token, Cell>) {
    (forall t :: t in row <==> t in s.transitions || ReducesOn(rule, s.items, t) != []) &&
    forall t | t in row :: row[t] == Cell(ShiftOf(s, t), ReducesOn(rule, s.items, t))
  }

  /** The row after the first n items of s. */
  ghost predicate RowAfter(rule: ReduceRule, s: State, n: nat, row: map<Token, Cell>)
    requires n <= |s.items|
  {
    (forall t :: t in row <==> t in s.transitions || ReducesOn(rule, s.items[..n], t) != []) &&
    forall t | t in row :: row[t] == Cell(ShiftOf(s, t), ReducesOn(rule, s.items[..n], t))
  }

  /** What the reductions of item n have added after its first k tokens. */
  ghost predicate TokensAfter(rule: ReduceRule, s: State, n: nat, k: nat, row: map<Token, Cell>)
    requires n < |s.items| && k <= |ReduceTokens(rule, s.items[n])|
  {
    var ts := ReduceTokens(rule, s.items[n]);
    var p := s.items[n].production;
    (forall t :: t in row <==> t in s.transitions || ReducesOn(rule, s.items[..n], t) != [] || t in ts[..k]) &&
    forall t | t in row ::
      row[t] == Cell(ShiftOf(s, t), ReducesOn(rule, s.items[..n], t) + (if t in ts[..k] then [p] else []))
  }

  /** The tokens a rule yields are duplicate-free: the FOLLOW rows and the lookahead sets are sets. */
  predicate RuleWellFormed(rule: ReduceRule, items: seq<Item>) {
    (rule.OnFollow? ==> forall h | h in rule.follow.succ :: Distinct(rule.follow.succ[h])) &&
    forall i | 0 <= i < |items| :: Distinct(items[i].lookAheads)
  }

  lemma ReduceTokensDistinct(rule: ReduceRule, items: seq<Item>, i: nat)
    requires RuleWellFormed(rule, items) && i < |items|
    ensures Distinct(ReduceTokens(rule, items[i]))
  {
  }

  /** Adding the reduction of item n on its next token, one not seen before. */
  lemma TokenStep(rule: ReduceRule, s: State, n: nat, k: nat, row: map<Token, Cell>)
    requires n < |s.items| && k < |ReduceTokens(rule, s.items[n])| && TokensAfter(rule, s, n, k, row)
    requires ReduceTokens(rule, s.items[n])[k] !in ReduceTokens(rule, s.items[n])[..k]
    ensures TokensAfter(rule, s, n, k + 1, AddReduceAction(row, ReduceTokens(rule, s.items[n])[k], s.items[n].production))
  {
    var ts := ReduceTokens(rule, s.items[n]);
    var p := s.items[n].production;
    var x := ts[k];
    var row2 := AddReduceAction(row, x, p);
    var before := s.items[..n];
    assert ts[..k + 1] == ts[..k] + [x];
    forall t ensures t in row2 <==> t in s.transitions || ReducesOn(rule, before, t) != [] || t in ts[..k + 1] {
    }
    forall t | t in row2
      ensures row2[t] == Cell(ShiftOf(s, t), ReducesOn(rule, before, t) + (if t in ts[..k + 1] then [p] else []))
    {
      if t != x {
        assert row2[t] == row[t];
      }
    }
  }

  /** After all its tokens, item n has been added. */
  lemma ItemDone(rule: ReduceRule, s: State, n: nat, row: map<Token, Cell>)
    requires n < |s.items| && TokensAfter(rule, s, n, |ReduceTokens(rule, s.items[n])|, row)
    ensures RowAfter(rule, s, n + 1, row)
  {
    var ts := ReduceTokens(rule, s.items[n]);
    assert ts[..|ts|] == ts;
    assert s.items[..n + 1][..n] == s.items[..n];
    assert s.items[..n + 1][n] == s.items[n];
  }

  /** Adding the reductions of one item, token by token. */
  method AddItemReductions(rule: ReduceRule, s: State, n: nat, row0: map<Token, Cell>) returns (row: map<Token, Cell>)
    requires n < |s.items| && RuleWellFormed(rule, s.items) && RowAfter(rule, s, n, row0)
    ensures RowAfter(rule, s, n + 1, row)
  {
    var x := s.items[n];
    var ts := ReduceTokens(rule, x);
    ReduceTokensDistinct(rule, s.items, n);
    row := row0;
    var k := 0;
    assert ts[..0] == [];
    while k < |ts|
      invariant 0 <= k <= |ts| && TokensAfter(rule, s, n, k, row)
    {
      assert ts[k] !in ts[..k];
      TokenStep(rule, s, n, k, row);
      row := AddReduceAction(row, ts[k], x.production);
      k := k + 1;
    }
    ItemDone(rule, s, n, row);
  }

  /**
   * One row of `CreateParsingTable` for the SLR(1), LR(1) and LALR(1)
   * tables: a shift cell per transition, then the reductions of every item
   * that reduces.
   */
  method CreateRow(rule: ReduceRule, s: State) returns (row: map<Token, Cell>)
    requires RuleWellFormed(rule, s.items)
    ensures RowOf(rule, s, row)
  {
    row := map t | t in s.transitions :: Cell(Some(s.transitions[t]), []);
    assert s.items[..0] == [];
    var n := 0;
    while n < |s.items|
      invariant 0 <= n <= |s.items| && RowAfter(rule, s, n, row)
    {
      row := AddItemReductions(rule, s, n, row);
      n := n + 1;
    }
    assert s.items[..n] == s.items;
  }

  /** Every state's items satisfy the rule's duplicate-freedom. */
  predicate TableWellFormed(rule: ReduceRule, states: seq<State>) {
    forall i | 0 <= i < |states| :: RuleWellFormed(rule, states[i].items)
  }

  /** `CreateParsingTable`: one row per state of the automaton, in state order. */
  method CreateTable(rule: ReduceRule, states: seq<State>) returns (table: seq<map<Token, Cell>>)
    requires TableWellFormed(rule, states)
    ensures |table| == |states| && forall i | 0 <= i < |states| :: RowOf(rule, states[i], table[i])
  {
    table := [];
    var i := 0;
    while i < |states|
      invariant 0 <= i <= |states| && |table| == i
      invariant forall j | 0 <= j < i :: RowOf(rule, states[j], table[j])
    {
      var row := CreateRow(rule, states[i]);
      table := table + [row];
      i := i + 1;
    }
  }

  /** A cell in conflict: two reductions, or a shift beside a reduction. */
  predicate CellConflict(c: Cell) {
    |c.reduce| > 1 || (c.shift.Some? && |c.reduce| > 0)
  }

  /** The conflict a cell reports: the reduce-reduce test comes first. */
  function CellFault(c: Cell): Fault {
    if |c.reduce| > 1 then ReduceReduce else ShiftReduce
  }

  predicate RowConflict(row: map<Token, Cell>) {
    exists t | t in row :: CellConflict(row[t])
  }

  /**
   * `ClassifyLR1`: rows in order, and within a row the cells in the
   * dictionary's enumeration order, left open here; the first cell in
   * conflict raises its conflict.
   */
  method ClassifyLR1(table: seq<map<Token, Cell>>) returns (conflict: Option<Fault>)
    ensures conflict.None? <==> forall i | 0 <= i < |table| :: !RowConflict(table[i])
    ensures conflict.Some? ==> exists i | 0 <= i < |table| ::
              (forall j | 0 <= j < i :: !RowConflict(table[j])) &&
              exists t | t in table[i] :: CellConflict(table[i][t]) && conflict.value == CellFault(table[i][t])
  {
    var i := 0;
    while i < |table|
      invariant 0 <= i <= |table|
      invariant forall j | 0 <= j < i :: !RowConflict(table[j])
    {
      var row := table[i];
      var keys := row.Keys;
      while keys != {}
        invariant keys <= row.Keys
        invariant forall t | t in row && t !in keys :: !CellConflict(row[t])
        decreases keys
      {
        var t :| t in keys;
        var c := row[t];
        if |c.reduce| > 1 {
          return Some(ReduceReduce);
        }
        if c.shift.Some? && |c.reduce| > 0 {
          return Some(ShiftReduce);
        }
        keys := keys - {t};
      }
      i := i + 1;
    }
    return None;
  }

  /** State s has no conflict on t: no two items reduce on t, and none does if s shifts on t. */
  predicate CleanOn(rule: ReduceRule, s: State, t: Token) {
    (forall a, b | 0 <= a < b < |s.items| :: !(ReducesAt(rule, s.items, a, t) && ReducesAt(rule, s.items, b, t))) &&
    (t in s.transitions ==> forall a | 0 <= a < |s.items| :: !ReducesAt(rule, s.items, a, t))
  }

  /** A row of state s is free of conflicts iff s is clean on every token. */
  lemma RowConflictFree(rule: ReduceRule, s: State, row: map<Token, Cell>)
    requires RowOf(rule, s, row)
    ensures !RowConflict(row) <==> forall t :: CleanOn(rule, s, t)
  {
    forall t ensures (|ReducesOn(rule, s.items, t)| > 0 <==> exists i | 0 <= i < |s.items| :: ReducesAt(rule, s.items, i, t)) &&
                     (|ReducesOn(rule, s.items, t)| > 1 <==> exists i, j | 0 <= i < j < |s.items| :: ReducesAt(rule, s.items, i, t) && ReducesAt(rule, s.items, j, t)) {
      ReducesOnSome(rule, s.items, t);
      ReducesOnTwice(rule, s.items, t);
    }
    if !RowConflict(row) {
      forall t ensures CleanOn(rule, s, t) {
        if t in row { assert !CellConflict(row[t]); }
      }
    }
    if forall t :: CleanOn(rule, s, t) {
      forall t | t in row ensures !CellConflict(row[t]) {
        assert CleanOn(rule, s, t);
      }
    }
  }

  /**
   * In terms of the automaton: the table is free of conflicts iff no token
   * is reduced on by two items of one state, and no state both shifts and
   * reduces on one token.
   */
  lemma TableConflictFree(rule: ReduceRule, states: seq<State>, table: seq<map<Token, Cell>>)
    requires |table| == |states| && forall i | 0 <= i < |states| :: RowOf(rule, states[i], table[i])
    ensures (forall i | 0 <= i < |table| :: !RowConflict(table[i])) <==> forall i, t | 0 <= i < |states| :: CleanOn(rule, states[i], t)
  {
    forall i | 0 <= i < |states| ensures !RowConflict(table[i]) <==> forall t :: CleanOn(rule, states[i], t) {
      RowConflictFree(rule, states[i], table[i]);
    }
  }

  // ------------------------------------------------------------------
  // The tables of the four LR methods

  /** The closures of a canonical collection keep the item class and duplicate-free lookaheads. */
  lemma CanonicalItems(f: Flavour, g: GrammarView, states: seq<State>)
    requires CanonicalCollection(f, g, states)
    ensures forall i | 0 <= i < |states| :: KernelOf(f, states[i].items)
  {
    forall i | 0 <= i < |states| ensures KernelOf(f, states[i].items) {
      assert Processed(f, g, states, i);
      assert KernelShape(f, g, states[i].kernel);
      if f == LR0Item {
        LR0ClosureShape(g, states[i].kernel, states[i].items);
      } else {
        LR1ClosureShape(f, g, states[i].kernel, states[i].items);
      }
    }
  }

  /** Items of one class have duplicate-free lookaheads, so any rule with duplicate-free FOLLOW rows is well formed on them. */
  lemma WellFormedOnKernels(f: Flavour, rule: ReduceRule, states: seq<State>)
    requires forall i | 0 <= i < |states| :: KernelOf(f, states[i].items)
    requires rule.OnFollow? ==> rule.follow.Valid()
    ensures TableWellFormed(rule, states)
  {
    forall i, k | 0 <= i < |states| && 0 <= k < |states[i].items| ensures Distinct(states[i].items[k].lookAheads) {
      assert WellFormedItem(f, states[i].items[k]);
    }
  }

  /**
   * `LR0Parsing.CreateParsingTable` with its automaton: the LR(0) canonical
   * collection, tabulated; a grammar without productions has none.
   */
  method LR0ParsingTable(g: GrammarView) returns (r: Result<seq<LR0Row>>, ghost states: seq<State>)
    ensures r.Err? <==> |g.ps| == 0
    ensures r.Err? ==> r.error == EmptyGrammar
    ensures r.Ok? ==> CanonicalCollection(LR0Item, g, states)
    ensures r.Ok? ==> |r.value| == |states|
    ensures r.Ok? ==>
      forall i | 0 <= i < |states| :: r.value[i].shift == states[i].transitions && r.value[i].reduce == Reductions(states[i].items)
  {
    var a := CreateAutomaton(LR0Item, g);
    if a.Err? {
      return Err(a.error), [];
    }
    var automaton := a.value;
    states := automaton;
    var table := LR0Table(automaton);
    r := Ok(table);
  }

  /** `LR0Parsing.Classify`: build the table, then classify it against the grammar's terminals. */
  method ClassifyLR0Grammar(g: GrammarView) returns (c: Result<Option<Fault>>, ghost states: seq<State>)
    requires AllRules(g.ps)
    ensures c.Err? <==> |g.ps| == 0
    ensures c.Err? ==> c.error == EmptyGrammar
    ensures c.Ok? ==> CanonicalCollection(LR0Item, g, states)
    ensures c.Ok? ==> (c.value.None? <==> forall i | 0 <= i < |states| ::
              (forall a, b | 0 <= a < b < |states[i].items| :: !(Completed(states[i].items[a]) && Completed(states[i].items[b]))) &&
              ((exists a | 0 <= a < |states[i].items| :: Completed(states[i].items[a])) ==>
                 forall s | s in states[i].transitions :: s !in Terminals(g.ps)))
  {
    var table;
    table, states := LR0ParsingTable(g);
    if table.Err? {
      return Err(table.error), states;
    }
    var conflict := ClassifyLR0(table.value, Terminals(g.ps));
    LR0ConflictFree(states, table.value, Terminals(g.ps));
    c := Ok(conflict);
  }

  /**
   * `SLR1Parsing.CreateParsingTable`: the LR(0) automaton, then the FOLLOW
   * sets (whose failure is the table's failure), then the rows, completed
   * items reducing on the FOLLOW set of their head.
   */
  method SLR1ParsingTable(g: GrammarView) returns (r: Result<seq<map<Token, Cell>>>, ghost states: seq<State>, ghost follow: Graph, ghost imm: Graph, ghost prop: Graph)
    requires AllRules(g.ps)
    ensures |g.ps| > 0 ==> CanonicalCollection(LR0Item, g, states)
    ensures |g.ps| == 0 ==> r == Err(EmptyGrammar)
    ensures |g.ps| > 0 ==> (r.Ok? <==> !FollowFails(g.ps, Elems(g.nts), Elems(g.nullable), g.first))
    ensures |g.ps| > 0 && r.Err? ==> r.error == KeyNotFound
    ensures r.Ok? ==> FollowGraphs(g.ps, Elems(g.nts), Elems(g.nullable), g.first, imm, prop) && PropagationOf(imm, prop, follow)
    ensures r.Ok? ==> |r.value| == |states| && forall i | 0 <= i < |states| :: RowOf(OnFollow(follow), states[i], r.value[i])
  {
    var a := CreateAutomaton(LR0Item, g);
    if a.Err? {
      return Err(a.error), [], Graph([], map[]), Graph([], map[]), Graph([], map[]);
    }
    var automaton := a.value;
    states := automaton;
    var f;
    f, imm, prop := ComputeFollowSet(g.ps, g.nts, g.nullable, g.first);
    if f.Err? {
      return Err(f.error), states, Graph([], map[]), imm, prop;
    }
    follow := f.value;
    CanonicalItems(LR0Item, g, automaton);
    WellFormedOnKernels(LR0Item, OnFollow(f.value), automaton);
    var table := CreateTable(OnFollow(f.value), automaton);
    r := Ok(table);
  }

  /** `LR1Parsing.CreateParsingTable`: the canonical LR(1) collection, completed items reducing on their lookaheads. */
  method LR1ParsingTable(g: GrammarView) returns (r: Result<seq<map<Token, Cell>>>, ghost states: seq<State>)
    ensures |g.ps| == 0 ==> r == Err(EmptyGrammar)
    ensures r.Err? && r.error == DuplicateProduction <==> !DistinctProductions(g.ps)
    ensures r.Err? ==> r.error == DuplicateProduction || r.error == UnexpectedSymbol || (|g.ps| == 0 && r.error == EmptyGrammar)
    ensures r.Ok? ==> CanonicalCollection(LR1Item, g, states)
    ensures r.Ok? ==> |r.value| == |states| && forall i | 0 <= i < |states| :: RowOf(OnLookAheads, states[i], r.value[i])
  {
    var a := CreateAutomaton(LR1Item, g);
    if a.Err? {
      return Err(a.error), [];
    }
    var automaton := a.value;
    states := automaton;
    CanonicalItems(LR1Item, g, automaton);
    WellFormedOnKernels(LR1Item, OnLookAheads, automaton);
    var table := CreateTable(OnLookAheads, automaton);
    r := Ok(table);
  }

  /** `LALR1Parsing.CreateParsingTable`: the merged LALR(1) automaton, completed items reducing on their merged lookaheads. */
  method LALR1ParsingTable(g: GrammarView) returns (r: Result<seq<map<Token, Cell>>>, ghost lr1: seq<State>, ghost groups: seq<seq<nat>>, ghost states: seq<State>)
    ensures |g.ps| == 0 ==> r == Err(EmptyGrammar)
    ensures r.Err? && r.error == DuplicateProduction <==> !DistinctProductions(g.ps)
    ensures r.Err? ==> r.error == DuplicateProduction || r.error == UnexpectedSymbol || (|g.ps| == 0 && r.error == EmptyGrammar)
    ensures r.Ok? ==> CanonicalCollection(LALR1Item, g, lr1) && CoreGroups(lr1, groups) && MergedStates(lr1, groups, states)
    ensures r.Ok? ==> |r.value| == |states| && forall i | 0 <= i < |states| :: RowOf(OnLookAheads, states[i], r.value[i])
  {
    var a;
    a, lr1, groups := CreateLALRAutomaton(g);
    if a.Err? {
      return Err(a.error), lr1, groups, [];
    }
    var automaton := a.value;
    states := automaton;
    WellFormedOnKernels(LALR1Item, OnLookAheads, automaton);
    var table := CreateTable(OnLookAheads, automaton);
    r := Ok(table);
  }

  /** `Classify` of the SLR(1), LR(1) and LALR(1) parsers: `ClassifyLR1` of the built table; a table that cannot be built passes its failure on. */
  method ClassifyTable(r: Result<seq<map<Token, Cell>>>) returns (c: Result<Option<Fault>>)
    ensures r.Err? ==> c == Err(r.error)
    ensures r.Ok? ==> c.Ok? && (c.value.None? <==> forall i | 0 <= i < |r.value| :: !RowConflict(r.value[i]))
    ensures r.Ok? && c.value.Some? ==> c.value.value == ReduceReduce || c.value.value == ShiftReduce
  {
    if r.Err? {
      return Err(r.error);
    }
    var conflict := ClassifyLR1(r.value);
    c := Ok(conflict);
  }
}
