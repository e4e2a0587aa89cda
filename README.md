# CNFDotnet grammar analysis, modelled in Dafny

CNFDotnet reads a context-free grammar written as text, such as `S -> a S | ε`, and analyses it. The analyses cover:

- start symbol, terminals and nonterminals;
- nullable, unrealizable and unreachable nonterminals;
- null ambiguity;
- the first cycle;
- FIRST and FOLLOW sets.

From the grammar it builds the LL(1) prediction tables and the LR(0), SLR(1), LR(1) and LALR(1) automata and parsing tables. Each table is classified by reporting the first conflict it finds.

This project models that pipeline stage by stage:

- **Front end.**
  - `Tokens`: tokens and their string conversions.
  - `Lexing`: the one-character-lookahead scanner. `StringLexer` holds a cursor over a string.
  - `Productions`: the grouping of the token stream into indexed productions.
- **Relation algebra** (`Relations`). This covers:
  - a directed relation over tokens, as a class whose `AddRelation` updates it in place;
  - its transitive closure by Floyd–Warshall;
  - the two-relation propagation used for FIRST and FOLLOW;
  - the depth-first search that returns a cycle witness.
- **Grammar analyses.**
  - `Analysis`: the fixpoints and the derivation relation.
  - `FirstFollow`: FIRST, FOLLOW, `GetFirst` and `IsNullable`.
  - `Grammars`: the `CNFGrammar` class, which caches every analysis in a field on first use.
- **LR items.**
  - `Items`: the LR(0) core comparison and the lookahead comparison, orderless kernel equality and `Contains`.
  - `LookAheadItems`: the LALR(1) kernel item with its mutable, possibly shared, lookahead set.
  - `States`: states and the `Automaton` list.
  - `Closures`: the LR(0) and LR(1) closures, goto and the transition dictionary.
  - `Automata`: the canonical collection.
- **LALR(1) merge** (`Lalr`):
  - collapse the LR(1) automaton onto LR(0) cores;
  - group its states by core-equal kernels;
  - build one merged state per group;
  - redirect the transitions.
- **Tables and classifiers.**
  - `ParsingTables` covers LR(0), SLR(1), LR(1) and LALR(1).
  - `LL1` covers the LL(1) classification, the action list and the dense table with list cells.

**How the loops are proved.** Each loop of the source is a `method` with invariants. Each method is proved against a specification function or predicate: the least closed set, the reachability relation, the canonical collection and the merged states. The properties the source promises are lemmas over those specifications.

**Failures.** Exceptions become a `Result` with a `Fault` value:

| fault | raised for |
|---|---|
| `KeyNotFound` | a failed dictionary lookup |
| `DuplicateProduction` | two productions with equal head and body, which the model keys as one production in the LR(1) closure's lookahead dictionary |
| `UnexpectedSymbol` | `GetFirst` or `IsNullable` on a symbol no analysis knows |
| `SyntaxError`, `HeadNotSingle`, `BodyNotString` | productions that cannot be built |
| `InvalidCast` | an item of the wrong class |

Classifiers return the conflict as `Option<Fault>`.

**Data model.**

- A production is `Augmented` (the source's `Production.Null`) or `Rule(head, body, index)`. Production equality compares head and body and ignores the index.
- Items are values with a flavour: LR(0), LR(1) or LALR(1).
- States are values whose transitions are state positions.
- `HashSet`s and `Dictionary`s become duplicate-free sequences and maps, enumerated in insertion order.

**Item equality.** The LALR(1) item's typed equality compares lookahead sets, as `LALR1KernelItem.Equals` does by forwarding to `BaseLR1KernelItem`. The merge phase compares kernels under the LR(0) core comparison, as the code does through `IKernel<BaseLR0KernelItem>`.

**Older revisions.** The canonical-collection loop, the transition grouping and the dense LL(1) table appear only in older revisions that use a different API: `BaseLRParsing.cs`, `LR_0/LR0Parsing.cs` and `LL1Table.cs`. Their algorithms are modelled over the current data model.

## Model

| member | source | states |
|---|---|---|
| Tokens.FromChar | src/CNFDotnet.Analysis/Grammar/Token.cs:23-27 | the character constructor gives a token of the given kind whose value is that one character |
| Tokens.OfKind | src/CNFDotnet.Analysis/Grammar/Token.cs:29-33 | the kind-only constructor gives the empty value |
| Tokens.Equals | src/CNFDotnet.Analysis/Grammar/Token.cs:37-39 | two tokens are equal iff kind and value are equal |
| Tokens.NotEquals | src/CNFDotnet.Analysis/Grammar/Token.cs:58-62 | `!=` is the negation of `==` and of `Equals` |
| Tokens.FromString | src/CNFDotnet.Analysis/Grammar/Token.cs:64-74 | "$" becomes the end-of-input token; every other string s becomes the STRING token s |
| Tokens.ToString | src/CNFDotnet.Analysis/Grammar/Token.cs:79-87 | end of input prints as "$"; every other token prints as its value |
| Tokens.StringRoundTrip | src/CNFDotnet.Analysis/Grammar/Token.cs:64-87 | converting a string other than "$" to a token and back gives the string |
| Tokens.TokenRoundTrip | src/CNFDotnet.Analysis/Grammar/Token.cs:29-33 | converting an end-of-input token, or a STRING token whose value is not "$", to a string and back gives an equal token |
| Tokens.DollarIsNotAString | src/CNFDotnet.Analysis/Grammar/Token.cs:64-74 | the STRING token "$" does not survive the round trip: "$" always reads back as end of input |
| Lexing.RunEnd | src/CNFDotnet.Analysis/Grammar/BaseLexer.cs:90-119 | the end of the maximal run before a newline, whitespace or '\|': every character before it belongs to a word and the character at it does not |
| Lexing.Word | src/CNFDotnet.Analysis/Grammar/BaseLexer.cs:90-119 | a STRING token is the first character followed by the maximal run of word characters |
| Lexing.ScanArrow | src/CNFDotnet.Analysis/Grammar/BaseLexer.cs:39-75 | '-' or '=' followed by '>' is one ARROW token of two characters; at end of input it is the one-character STRING token; followed by any other character it starts a STRING token that keeps that character |
| Lexing.Scan | src/CNFDotnet.Analysis/Grammar/BaseLexer.cs:17-88 | the token and cursor of one `Next` call: end of input iff no character is left; EOL for '\n', WHITESPACE for other white space, EOL taking precedence; arrows; EMPTY for 'ε'; CHOICE for '\|'; otherwise a word |
| Lexing.TokenizeFrom | src/CNFDotnet.Analysis/Grammar/BaseLexer.cs:17-88 | repeated `Next` calls end with exactly one end-of-input token, and every earlier token is of another kind |
| Lexing.TextOfTokenizeFrom | src/CNFDotnet.Analysis/Grammar/BaseLexer.cs:17-119 | scanning from a cursor loses no character: the token values concatenate to the rest of the input |
| Lexing.TextOfTokenize | src/CNFDotnet.Analysis/Grammar/BaseLexer.cs:17-119 | the token values of the whole scan concatenate to the input text, so the cache leaks nothing from one token into the next |
| Lexing.StringLexer.constructor | src/CNFDotnet.Analysis/Grammar/StringLexer.cs:11-15 | the cursor starts at -1 over the given grammar text |
| Lexing.StringLexer.GetNextChar | src/CNFDotnet.Analysis/Grammar/StringLexer.cs:17-27 | the cursor moves one step forward; the character there is returned iff the new position is inside the text |
| Lexing.StringLexer.PreviousPosition | src/CNFDotnet.Analysis/Grammar/StringLexer.cs:29-38 | at position 0 nothing moves and false is returned; otherwise the cursor moves back one step and true is returned |
| Lexing.StringLexer.Next | src/CNFDotnet.Analysis/Grammar/BaseLexer.cs:17-88 | the token returned and the new cursor are those of `Scan` from the old cursor |
| Lexing.StringLexer.ArrowToken | src/CNFDotnet.Analysis/Grammar/BaseLexer.cs:39-75 | the arrow branch of `Next`, with the cursor moves of the source, yields `ScanArrow`'s token |
| Lexing.StringLexer.GetStringToken | src/CNFDotnet.Analysis/Grammar/BaseLexer.cs:90-119 | the token is the cached text followed by the maximal run of word characters; the cursor is left just before the delimiter, so it is returned next |
| Productions.EqualsIsKeyEquality | src/CNFDotnet.Analysis/Grammar/Production.cs:241-244 | production equality holds iff head and body agree |
| Productions.EqualsIgnoresIndex | src/CNFDotnet.Analysis/Grammar/Production.cs:241-244 | two productions that differ only in their index are equal |
| Productions.MakeProduction | src/CNFDotnet.Analysis/Grammar/Production.cs:95-121 | the constructor succeeds iff every body token is a STRING token, and otherwise fails with `BodyNotString` |
| Productions.Single | src/CNFDotnet.Analysis/Grammar/Production.cs:127-172 | the head is taken iff exactly one head token was collected |
| Productions.CreateProductions | src/CNFDotnet.Analysis/Grammar/Production.cs:179-239 | the loop over the token stream yields the grouping `Group` of the tokens, or its failure |
| Productions.CreateProduction | src/CNFDotnet.Analysis/Grammar/Production.cs:127-172 | the single-production form gives the first production of the grouping |
| Productions.GroupNumbersConsecutively | src/CNFDotnet.Analysis/Grammar/Production.cs:184-235 | the productions emitted carry indices 0, 1, 2, … in order |
| Productions.GroupCountsEnds | src/CNFDotnet.Analysis/Grammar/Production.cs:217-237 | a successful grouping emits exactly one production per CHOICE, EOL and EOF token it reads, stopping at the first EOF |
| Productions.GroupIgnoresLayout | src/CNFDotnet.Analysis/Grammar/Production.cs:196-204 | WHITESPACE and EMPTY tokens are skipped: removing them changes nothing, so an ε alternative has an empty body |
| Productions.GroupFromPrefix | src/CNFDotnet.Analysis/Grammar/Production.cs:184-237 | grouping only appends: the productions already emitted are a prefix of the final result |
| Productions.GroupFromCollect | src/CNFDotnet.Analysis/Grammar/Production.cs:190-204 | a run of STRING, WHITESPACE and EMPTY tokens adds its STRING tokens, in order, to the head or the body, whichever is being collected, and nothing else changes |
| Productions.GroupRejectsSecondArrow | src/CNFDotnet.Analysis/Grammar/Production.cs:206-214 | in a whole token stream, a second ARROW after a head, an ARROW and any body fails with `SyntaxError`, whatever follows |
| Productions.GroupRejectsHead | src/CNFDotnet.Analysis/Grammar/Production.cs:217-237 | in a whole token stream, an alternative ended by CHOICE, EOL or EOF with no head token or several, with or without an ARROW, fails with `HeadNotSingle` |
| Productions.CreateProductionIsFirst | src/CNFDotnet.Analysis/Grammar/Production.cs:127-172 | `CreateProduction` succeeds with the first production whenever `CreateProductions` succeeds with at least one |
| Productions.RenderTokens | src/CNFDotnet.Analysis/Grammar/Production.cs:263-273 | the printed form of a production scans to its head, WHITESPACE, ARROW, WHITESPACE, then the body words separated by WHITESPACE (or one EMPTY token for an empty body) and end of input |
| Productions.RenderRoundTrip | src/CNFDotnet.Analysis/Grammar/Production.cs:263-273 | printing a production whose tokens are plain words and reading the text back with the lexer and `CreateProductions` gives that production, numbered 0 |
| Relations.ViaAllIsReaches | src/CNFDotnet.Analysis/Grammar/Relation.cs:69-84 | paths through every node as pivot are exactly the paths of one or more edges: the Floyd–Warshall invariant closes on reachability |
| Relations.ReachesEndsAreNodes | src/CNFDotnet.Analysis/Grammar/Relation.cs:41-67 | both ends of a path are nodes of the relation |
| Relations.Relation.constructor | src/CNFDotnet.Analysis/Grammar/Relation.cs:20-30 | a new relation has no edges |
| Relations.Relation.AddRelation | src/CNFDotnet.Analysis/Grammar/Relation.cs:20-30 | after `AddRelation(l, r)` the relation has exactly its old edges plus l → r; the row of l is created if absent and no other row changes |
| Relations.Closure | src/CNFDotnet.Analysis/Grammar/Relation.cs:34-87 | the result has a key for every source or target token, and j is in row i iff j is reachable from i by one or more edges; the input is not changed |
| Relations.CopyRelation | src/CNFDotnet.Analysis/Grammar/Relation.cs:42-67 | the copy has a row for every node, holding exactly the node's direct successors |
| Relations.FloydRound | src/CNFDotnet.Analysis/Grammar/Relation.cs:70-84 | one pivot round extends the paths allowed through the first k pivots to those through the first k+1 |
| Relations.Propagate | src/CNFDotnet.Analysis/Grammar/Relation.cs:91-144 | the keys are those of the immediate relation and of the closure; u is in row s iff u is immediate at s or at some t reachable from s in the propagation relation |
| Relations.PropagatedAlongEdge | src/CNFDotnet.Analysis/Grammar/Relation.cs:115-141 | what is propagated at t flows to s along a propagation edge s → t |
| Relations.CycleCorrect | src/CNFDotnet.Analysis/Grammar/Relation.cs:149-216 | `Cycle` is empty iff the relation has no cycle; a non-empty result is a witness: consecutive tokens are edges and the last token occurs earlier |
| Relations.DfsSound | src/CNFDotnet.Analysis/Grammar/Relation.cs:151-201 | a non-empty result of the search extends the path by edges and closes a cycle |
| Relations.DfsComplete | src/CNFDotnet.Analysis/Grammar/Relation.cs:151-201 | an empty result of the search means no cycle is reachable from its path |
| Relations.CycleFromCorrect | src/CNFDotnet.Analysis/Grammar/Relation.cs:206-215 | the outer loop over the keys finds a cycle iff one exists |
| Analysis.TerminalsAreNotNonTerminals | src/CNFDotnet.Analysis/Grammar/CNFGrammar.cs:111-152 | terminals and nonterminals are disjoint, and every nonterminal is a grammar token |
| Analysis.Start | src/CNFDotnet.Analysis/Grammar/CNFGrammar.cs:99-107 | the start symbol is the head of the first production; an empty grammar has none |
| Analysis.ComputeNonTerminals | src/CNFDotnet.Analysis/Grammar/CNFGrammar.cs:111-129 | the nonterminals are exactly the heads, each listed once |
| Analysis.ComputeTerminals | src/CNFDotnet.Analysis/Grammar/CNFGrammar.cs:132-152 | the terminals are exactly the grammar tokens that are neither nonterminals nor EMPTY, each listed once |
| Analysis.MarkPass | src/CNFDotnet.Analysis/Grammar/CNFGrammar.cs:345-375 | one pass only adds heads, stays inside every closed superset of what was marked, and a pass that adds nothing leaves a closed set |
| Analysis.Marks | src/CNFDotnet.Analysis/Grammar/CNFGrammar.cs:334-379 | the passes repeated until nothing changes give the least set closed under "a body of the head is all marked or free" |
| Analysis.ComputeNullable | src/CNFDotnet.Analysis/Grammar/CNFGrammar.cs:334-379 | nullable is the least set containing each head that has a body of nullable symbols only; empty bodies qualify |
| Analysis.ComputeUnrealizable | src/CNFDotnet.Analysis/Grammar/CNFGrammar.cs:204-267 | unrealizable is the set of nonterminals outside the least set of heads that have a body whose nonterminals are all realizable |
| Analysis.LeastClosedUnique | src/CNFDotnet.Analysis/Grammar/CNFGrammar.cs:334-379 | the fixpoint is unique, so repeated computations agree |
| Analysis.MarksAreHeads | src/CNFDotnet.Analysis/Grammar/CNFGrammar.cs:204-267 | only heads are ever marked |
| Analysis.MarksGrowWithFree | src/CNFDotnet.Analysis/Grammar/CNFGrammar.cs:204-267 | more free symbols give a larger fixpoint; in particular nullable symbols are realizable |
| Analysis.EmptyBodyIsNullable | src/CNFDotnet.Analysis/Grammar/CNFGrammar.cs:334-379 | the head of an empty production is nullable |
| Analysis.AddDerivations | src/CNFDotnet.Analysis/Grammar/CNFGrammar.cs:170-178 | a production adds exactly the edges from its head to its body symbols |
| Analysis.DerivationRelation | src/CNFDotnet.Analysis/Grammar/CNFGrammar.cs:170-184 | the relation's edges are exactly head → body symbol over all productions |
| Analysis.IsolatedIsNoNode | src/CNFDotnet.Analysis/Grammar/CNFGrammar.cs:182-196 | a token has no row in the closure iff it heads no production with a body symbol and occurs in no body |
| Analysis.ComputeUnreachable | src/CNFDotnet.Analysis/Grammar/CNFGrammar.cs:156-200 | an empty grammar fails; the `closure[start]` lookup fails iff start has no edge while another nonterminal exists; otherwise the result is the nonterminals other than start that start does not reach |
| Analysis.AmbiguousOf | src/CNFDotnet.Analysis/Grammar/CNFGrammar.cs:283-326 | for one nonterminal, the reported productions are its second and later productions whose body is empty or nullable |
| Analysis.ComputeNullAmbiguity | src/CNFDotnet.Analysis/Grammar/CNFGrammar.cs:272-331 | over all nonterminals, a production is reported iff an earlier production of its head already has a nullable body and its own body is nullable |
| Analysis.OthersNullable | src/CNFDotnet.Analysis/Grammar/CNFGrammar.cs:401-417 | the scan stops at the first body symbol, other than position j, that is not a nullable nonterminal |
| Analysis.AddUnitSteps | src/CNFDotnet.Analysis/Grammar/CNFGrammar.cs:388-427 | a production adds head → `Body[j]` exactly for the positions j holding a nonterminal with every other body symbol a nullable nonterminal |
| Analysis.ComputeFirstCycle | src/CNFDotnet.Analysis/Grammar/CNFGrammar.cs:382-431 | the result is `Cycle` over the unit-step edges: empty iff they have no cycle, a witness otherwise |
| FirstFollow.AddFirstImmediate | src/CNFDotnet.Analysis/Grammar/CNFGrammar.cs:452-473 | the immediate FIRST edges are head → each terminal reached through a nullable prefix of the body |
| FirstFollow.AddFirstPropagation | src/CNFDotnet.Analysis/Grammar/CNFGrammar.cs:475-493 | the propagation edges are head → each nonterminal reached through a nullable prefix of the body |
| FirstFollow.ComputeFirstSet | src/CNFDotnet.Analysis/Grammar/CNFGrammar.cs:434-498 | FIRST is the propagation of the immediate FIRST edges along the FIRST propagation edges |
| FirstFollow.FirstHoldsNoNonTerminal | src/CNFDotnet.Analysis/Grammar/CNFGrammar.cs:452-473 | no FIRST set holds a nonterminal |
| FirstFollow.FirstFlowsToHead | src/CNFDotnet.Analysis/Grammar/CNFGrammar.cs:475-493 | for A → α B … with α nullable, FIRST(B) is included in FIRST(A) |
| FirstFollow.AddFollowersAt | src/CNFDotnet.Analysis/Grammar/CNFGrammar.cs:536-570 | the immediate FOLLOW edges of body position j: the symbols after it up to the first one that is not a nullable nonterminal, terminals directly and nonterminals through their FIRST set; the `firstSet` lookup can fail |
| FirstFollow.AddFollowImmediate | src/CNFDotnet.Analysis/Grammar/CNFGrammar.cs:520-572 | the immediate FOLLOW relation is end of input for start plus the edges of every body position, or the lookup failure |
| FirstFollow.AddFollowPropagation | src/CNFDotnet.Analysis/Grammar/CNFGrammar.cs:576-599 | the FOLLOW propagation edges are A → B for each body nonterminal A of a production of B followed only by nullable nonterminals |
| FirstFollow.ImmediateFollow | src/CNFDotnet.Analysis/Grammar/CNFGrammar.cs:520-572 | it succeeds iff no FIRST lookup fails, and then its edges are exactly the immediate FOLLOW edges |
| FirstFollow.FollowPropagation | src/CNFDotnet.Analysis/Grammar/CNFGrammar.cs:576-599 | its edges are exactly the FOLLOW propagation edges |
| FirstFollow.ComputeFollowSet | src/CNFDotnet.Analysis/Grammar/CNFGrammar.cs:501-603 | an empty grammar fails; otherwise it fails with `KeyNotFound` iff a FIRST lookup fails, and FOLLOW is the propagation of the immediate edges along the propagation edges |
| FirstFollow.EndFollowsStart | src/CNFDotnet.Analysis/Grammar/CNFGrammar.cs:520-524 | end of input is in FOLLOW(start) |
| FirstFollow.FollowFlowsFromHead | src/CNFDotnet.Analysis/Grammar/CNFGrammar.cs:576-599 | for B → … A β with β nullable, FOLLOW(B) is included in FOLLOW(A) |
| FirstFollow.FirstOfMeaning | src/CNFDotnet.Analysis/Grammar/CNFGrammar.cs:606-654 | `GetFirst` fails iff the scan, which continues past nullable nonterminals only, reaches a token that is neither end of input, terminal nor nonterminal; otherwise it holds exactly the tokens yielded on the way: end of input or a terminal once the scan stops there, the FIRST set of each nonterminal passed |
| FirstFollow.GetFirst | src/CNFDotnet.Analysis/Grammar/CNFGrammar.cs:606-654 | the index loop yields what `FirstOf` specifies |
| FirstFollow.NullableSeq | src/CNFDotnet.Analysis/Grammar/CNFGrammar.cs:657-689 | a sequence is nullable iff every token is a nullable nonterminal |
| FirstFollow.NullableSeqMeaning | src/CNFDotnet.Analysis/Grammar/CNFGrammar.cs:663-686 | the result is false iff the scan over nullable nonterminals stops at a non-nullable nonterminal or a terminal, and `UnexpectedSymbol` iff it reaches a token that is neither first; no other failure |
| FirstFollow.IsNullable | src/CNFDotnet.Analysis/Grammar/CNFGrammar.cs:657-689 | the index loop returns what `NullableSeq` specifies; `NullableSeqMeaning` fixes when that is false and when it fails on an unknown symbol |
| Grammars.CNFGrammar.constructor | src/CNFDotnet.Analysis/Grammar/CNFGrammar.cs:71-75 | a new grammar has no productions, no tokens and no cached analysis |
| Grammars.CNFGrammar.Create | src/CNFDotnet.Analysis/Grammar/CNFGrammar.cs:71-96 | building a grammar from a token stream fails iff the grouping fails; otherwise it holds the grouped productions and no cache |
| Grammars.CNFGrammar.AddProduction | src/CNFDotnet.Analysis/Grammar/CNFGrammar.cs:78-87 | the production is appended, and its head and body tokens join the token list |
| Grammars.CNFGrammar.AddProductions | src/CNFDotnet.Analysis/Grammar/CNFGrammar.cs:90-96 | the productions are appended in order |
| Grammars.CNFGrammar.ComputeStartNonTerminal | src/CNFDotnet.Analysis/Grammar/CNFGrammar.cs:99-107 | the start symbol is the first head and is cached; no other cache changes |
| Grammars.CNFGrammar.ComputeNonTerminals | src/CNFDotnet.Analysis/Grammar/CNFGrammar.cs:111-129 | the cached set is returned if present; otherwise the heads are computed and cached |
| Grammars.CNFGrammar.ComputeTerminals | src/CNFDotnet.Analysis/Grammar/CNFGrammar.cs:132-152 | the cached set is returned if present; otherwise the tokens that are neither nonterminals nor EMPTY are computed and cached |
| Grammars.CNFGrammar.ComputeUnreachable | src/CNFDotnet.Analysis/Grammar/CNFGrammar.cs:156-200 | the cached set is returned if present; otherwise the unreachable nonterminals, or the lookup failure, with the result cached only on success |
| Grammars.CNFGrammar.ComputeUnrealizable | src/CNFDotnet.Analysis/Grammar/CNFGrammar.cs:204-267 | the cached set is returned if present; otherwise the nonterminals outside the realizable fixpoint are computed and cached |
| Grammars.CNFGrammar.ComputeNullable | src/CNFDotnet.Analysis/Grammar/CNFGrammar.cs:334-379 | the cached set is returned if present; otherwise the least nullable set is computed and cached |
| Grammars.CNFGrammar.ComputeNullAmbiguity | src/CNFDotnet.Analysis/Grammar/CNFGrammar.cs:272-331 | the null-ambiguous productions, over the cached nonterminals and nullable set |
| Grammars.CNFGrammar.ComputeFirstCycle | src/CNFDotnet.Analysis/Grammar/CNFGrammar.cs:382-431 | a cycle witness of the unit-step relation, empty iff there is no cycle |
| Grammars.CNFGrammar.ComputeFirstSet | src/CNFDotnet.Analysis/Grammar/CNFGrammar.cs:434-498 | the cached FIRST sets are returned if present; otherwise they are computed from the cached analyses and cached |
| Grammars.CNFGrammar.ComputeFollowSet | src/CNFDotnet.Analysis/Grammar/CNFGrammar.cs:501-603 | the cached FOLLOW sets are returned if present; an empty grammar fails; otherwise `KeyNotFound` iff a FIRST lookup fails, or the FOLLOW sets, cached |
| Grammars.CNFGrammar.GetFirst | src/CNFDotnet.Analysis/Grammar/CNFGrammar.cs:606-654 | `FirstOf` over the cached terminals, nonterminals, nullable set and FIRST sets |
| Grammars.CNFGrammar.IsNullable | src/CNFDotnet.Analysis/Grammar/CNFGrammar.cs:657-689 | `NullableSeq` over the cached terminals, nonterminals and nullable set, whose false and failure cases `NullableSeqMeaning` states |
| Grammars.CNFGrammar.View | src/CNFDotnet.Analysis/Grammar/CNFGrammar.cs:39-62 | the grammar as the LR(1) closure and the LL(1) table read it: its productions, the head of the first production and the filled caches of terminals, nonterminals, nullable set and FIRST sets; fails with `EmptyGrammar` iff there are no productions; on a fresh grammar the parts are its nonterminals, terminals, least nullable set and FIRST sets |
| Items.EqualIsKeyEquality | src/CNFDotnet.Analysis/Parsing/LR/BaseLR0KernelItem.cs:22-26 | items are equal under a comparison iff their keys agree: production (head and body) and dot for the LR(0) core, plus the lookahead set for the LR(1) comparison |
| Items.LookAheadEqualIsCoreEqual | src/CNFDotnet.Analysis/Parsing/LR/BaseLR1KernelItem.cs:21-26 | LR(1)-equal items are LR(0)-equal, and the production index plays no part |
| Items.LookAheadOrderIgnored | src/CNFDotnet.Analysis/Parsing/LR/BaseLR1KernelItem.cs:26 | replacing an item's lookaheads keeps it equal iff the new list holds the same tokens, so every rearrangement of the lookaheads (same multiset) keeps it equal |
| Items.OrderlessSequenceEqual | src/CNFDotnet.Analysis/Parsing/LR/IKernel.cs:17-53 | the enumerator loops return true iff the counts match and every left item equals some right item |
| Items.KeySetSize | src/CNFDotnet.Analysis/Parsing/LR/Kernel.cs:56-65 | a duplicate-free kernel has as many keys as items |
| Items.OrderlessEqualIsSetEquality | src/CNFDotnet.Analysis/Parsing/LR/Kernel.cs:56-65 | for duplicate-free kernels, orderless equality is equality of key sets: symmetric and order-independent |
| Items.OrderlessEqualIgnoresMultiplicity | src/CNFDotnet.Analysis/Parsing/LR/IKernel.cs:31-52 | multiplicity is not checked: [a, a] equals [a, b] while [a, b] does not equal [a, a] |
| Items.Contains | src/CNFDotnet.Analysis/Parsing/LR/IKernel.cs:55-90 | true iff some item equals the query, and `found` is the first such item; otherwise nothing is found |
| Items.Kernel.constructor | src/CNFDotnet.Analysis/Parsing/LR/Kernel.cs:24-27 | a new kernel of the given item class is empty |
| Items.Kernel.Add | src/CNFDotnet.Analysis/Parsing/LR/Kernel.cs:29 | the item is appended at the end and earlier items are unchanged |
| Items.KernelEqualsAfterAdd | src/CNFDotnet.Analysis/Parsing/LR/Kernel.cs:57-65 | adding equal items to equal duplicate-free kernels keeps them equal |
| LookAheadItems.TokenSet.Add | src/CNFDotnet.Analysis/Parsing/LR/LALR1/LALR1KernelItem.cs:81-82 | the token is added iff it was absent, and so true is returned |
| LookAheadItems.LALR1KernelItem.Empty | src/CNFDotnet.Analysis/Parsing/LR/LALR1/LALR1KernelItem.cs:15-23 | a new item with a fresh, empty lookahead set |
| LookAheadItems.LALR1KernelItem.Copying | src/CNFDotnet.Analysis/Parsing/LR/LALR1/LALR1KernelItem.cs:25-45 | the enumerable constructor copies the tokens into a fresh set, without repeats |
| LookAheadItems.LALR1KernelItem.Adopting | src/CNFDotnet.Analysis/Parsing/LR/LALR1/LALR1KernelItem.cs:47-66 | the set constructors adopt the given set itself, so it is shared |
| LookAheadItems.LALR1KernelItem.Copy | src/CNFDotnet.Analysis/Parsing/LR/LALR1/LALR1KernelItem.cs:72-79 | the copy constructor duplicates the lookahead set into a fresh one |
| LookAheadItems.LALR1KernelItem.AddLookAhead | src/CNFDotnet.Analysis/Parsing/LR/LALR1/LALR1KernelItem.cs:81-82 | true iff the token was absent; afterwards it is present and nothing else changes |
| LookAheadItems.SharedAndCopiedSets | src/CNFDotnet.Analysis/Parsing/LR/LALR1/LALR1KernelItem.cs:47-79 | a lookahead added through one item shows in an item adopting its set and not in a copy |
| States.NewState | src/CNFDotnet.Analysis/Parsing/LR/State.cs:38-70 | a new state has the given index and kernel, no items and no transitions |
| States.AddKernel | src/CNFDotnet.Analysis/Parsing/LR/State.cs:72-80 | the item is appended to the kernel iff it has the state's item class, else `InvalidCast`; nothing else changes |
| States.AddItem | src/CNFDotnet.Analysis/Parsing/LR/State.cs:82-90 | the item is appended to the closure iff it has the state's item class, else `InvalidCast`; nothing else changes |
| States.Automaton.constructor | src/CNFDotnet.Analysis/Parsing/LR/Automaton.cs:23-26 | a new automaton has no states |
| States.Automaton.Add | src/CNFDotnet.Analysis/Parsing/LR/Automaton.cs:28 | the state is appended |
| States.Automaton.IndexOf | src/CNFDotnet.Analysis/Parsing/LR/Automaton.cs:48-59 | the smallest position whose state has items equal to the query, or -1 iff there is none |
| States.Automaton.Remove | src/CNFDotnet.Analysis/Parsing/LR/Automaton.cs:64-65 | the first state equal to the argument is removed iff one exists; otherwise nothing changes |
| Closures.ClosureLR0 | src/CNFDotnet.Analysis/Parsing/LR/BaseLR0Parsing.cs:21-104 | the kernel in order, then grammar productions at dot 0, each production at most once, each demanded by an earlier item, and every production of each expected nonterminal present; the augmented item at dot 0 expects start |
| Closures.ExpandLR0 | src/CNFDotnet.Analysis/Parsing/LR/BaseLR0Parsing.cs:83-99 | after one item, every production headed by its next symbol has been used |
| Closures.PassLR0 | src/CNFDotnet.Analysis/Parsing/LR/BaseLR0Parsing.cs:45-101 | one pass keeps the closure invariant and expands every item present when it started |
| Closures.FirstOfBounds | src/CNFDotnet.Analysis/Parsing/LR/BaseLR1Parsing.cs:145-154 | the lookaheads `GetFirst` returns come from its input and the FIRST sets; it fails only on an unknown token |
| Closures.InitialUsed | src/CNFDotnet.Analysis/Parsing/LR/BaseLR1Parsing.cs:65-68 | an empty lookahead set per production, keyed by production equality; the model's `Add` fails with `DuplicateProduction` iff two productions have equal head and body |
| Closures.AddLookAheadItems | src/CNFDotnet.Analysis/Parsing/LR/BaseLR1Parsing.cs:170-184 | a production gains one item at dot 0 per lookahead not yet used for it, with that single lookahead |
| Closures.ExpandLR1 | src/CNFDotnet.Analysis/Parsing/LR/BaseLR1Parsing.cs:101-186 | for an item expecting a nonterminal, every production of it gets the lookaheads `GetFirst` gives for the rest of the body followed by the item's lookaheads |
| Closures.PassLR1 | src/CNFDotnet.Analysis/Parsing/LR/BaseLR1Parsing.cs:88-188 | one pass keeps the closure invariant and expands every item present when it started, or fails as `GetFirst` fails |
| Closures.ClosureLR1 | src/CNFDotnet.Analysis/Parsing/LR/BaseLR1Parsing.cs:49-191 | the LR(1) closure: the kernel, then one item per (production, lookahead) pair demanded and nothing else; under the model's value keys, `DuplicateProduction` iff two productions have equal head and body; `UnexpectedSymbol` only for an unknown token |
| Closures.Move | src/CNFDotnet.Analysis/Parsing/LR/BaseLR1Parsing.cs:194-201 | the transition item keeps production, class and lookaheads and moves the dot one step |
| Closures.TransitionTokensMeaning | src/CNFDotnet.Analysis/Parsing/LR/LR_0/LR0Parsing.cs:98-123 | the transition keys are exactly the next symbols of the closure items, each once |
| Closures.GotoMembers | src/CNFDotnet.Analysis/Parsing/LR/LR_0/LR0Parsing.cs:125-131 | the kernel on t holds exactly the moved items that expect t |
| Closures.GotoMeaning | src/CNFDotnet.Analysis/Parsing/LR/LR_0/LR0Parsing.cs:115-131 | the kernel on t is empty iff no item expects t, so every transition kernel is non-empty and completed items produce none |
| Closures.CreateTransitions | src/CNFDotnet.Analysis/Parsing/LR/LR_0/LR0Parsing.cs:92-134 | a dictionary from each next symbol, in order of first occurrence, to its transition kernel |
| Automata.InitialKernel | src/CNFDotnet.Analysis/Parsing/LR/BaseLR1Parsing.cs:38-47 | the kernel is the single augmented item at dot 0, with end of input as its lookahead in the LR(1) classes and no lookahead in LR(0) |
| Automata.Closure | src/CNFDotnet.Analysis/Parsing/LR/BaseLRParsing.cs:48 | the closure of the item class; the LR(0) closure never fails |
| Automata.LR0ClosureShape | src/CNFDotnet.Analysis/Parsing/LR/BaseLR0Parsing.cs:21-104 | the LR(0) closure of a well-formed kernel holds no two equal items |
| Automata.LR1ClosureShape | src/CNFDotnet.Analysis/Parsing/LR/BaseLR1Parsing.cs:49-191 | the LR(1) closure of a well-formed kernel holds no two equal items |
| Automata.GotoShape | src/CNFDotnet.Analysis/Parsing/LR/BaseLRParsing.cs:49-55 | a transition kernel of a well-formed closure is again well formed |
| Automata.StatesBound | src/CNFDotnet.Analysis/Parsing/LR/BaseLRParsing.cs:53-71 | pairwise unequal kernels are at most as many as the sets of possible keys, so the worklist ends |
| Automata.FindState | src/CNFDotnet.Analysis/Parsing/LR/BaseLRParsing.cs:57-64 | the first state whose kernel equals the transition kernel, or the number of states when none does |
| Automata.LinkTransitions | src/CNFDotnet.Analysis/Parsing/LR/BaseLRParsing.cs:53-71 | each transition symbol links to the first state with an equal kernel, or to a new state appended at the end; old states are kept and kernels stay pairwise unequal |
| Automata.CompleteState | src/CNFDotnet.Analysis/Parsing/LR/BaseLRParsing.cs:46-71 | one state gets its closure and its transitions, one step further in the worklist |
| Automata.CreateAutomaton | src/CNFDotnet.Analysis/Parsing/LR/BaseLRParsing.cs:27-78 | the canonical collection: state 0 from the initial kernel, each state index its position, closures and transitions complete, kernels pairwise unequal; a grammar without productions fails with `EmptyGrammar`, as the first closure cannot compute its start symbol; otherwise LR(0) never fails, and the LR(1) classes fail only as their closure does |
| Lalr.FindCore | src/CNFDotnet.Analysis/Parsing/LR/LALR1/LALR1Parsing.cs:484-497 | `Contains` under the core comparison finds the first item with the same core |
| Lalr.AddLookAheads | src/CNFDotnet.Analysis/Parsing/LR/LALR1/LALR1Parsing.cs:500-503 | `AddLookAhead` token by token: the set grows by exactly the tokens, without repeats |
| Lalr.CollapseLookAheads | src/CNFDotnet.Analysis/Parsing/LR/LALR1/LALR1Parsing.cs:477-507 | one item per core, in order of first occurrence, each a fresh copy carrying the union of the lookaheads at its core |
| Lalr.CollapseKeepsLookAheads | src/CNFDotnet.Analysis/Parsing/LR/LALR1/LALR1Parsing.cs:477-507 | at every core the collapsed items carry exactly the lookaheads the original items carry |
| Lalr.MergeItems | src/CNFDotnet.Analysis/Parsing/LR/LALR1/LALR1Parsing.cs:510-560 | without b, copies of a; with b, copies of a's items then of b's items whose core a lacks, in the order in which b first shows those cores, each item carrying the union of a's and b's lookaheads at its core; neither input changes |
| Lalr.ScanGroup | src/CNFDotnet.Analysis/Parsing/LR/LALR1/LALR1Parsing.cs:305-318 | the inner scan collects, in order, the unused states whose kernel equals the outer kernel under the core comparison, and marks them used |
| Lalr.MergeGroups | src/CNFDotnet.Analysis/Parsing/LR/LALR1/LALR1Parsing.cs:284-321 | the groups cover every state; each starts at the first state no earlier group holds and holds exactly the remaining states with a core-equal kernel |
| Lalr.GroupsAreCoreClasses | src/CNFDotnet.Analysis/Parsing/LR/LALR1/LALR1Parsing.cs:284-321 | for core-distinct kernels, a state is in a group iff its kernel has the same cores as the group's first state |
| Lalr.FoldMerge | src/CNFDotnet.Analysis/Parsing/LR/LALR1/LALR1Parsing.cs:335-349 | folding `MergeItems` over a group gives one item per core of any member, carrying every lookahead the members carry there |
| Lalr.MergeStates | src/CNFDotnet.Analysis/Parsing/LR/LALR1/LALR1Parsing.cs:323-353 | one merged state per group, at index equal to its position, with the folded kernel and closure |
| Lalr.GroupIndex | src/CNFDotnet.Analysis/Parsing/LR/LALR1/LALR1Parsing.cs:355-369 | every state maps to the index of the group that holds it |
| Lalr.CollapseStates | src/CNFDotnet.Analysis/Parsing/LR/LALR1/LALR1Parsing.cs:241-282 | the intermediate automaton: each LR(1) state collapsed, keeping its index and transitions |
| Lalr.Rewire | src/CNFDotnet.Analysis/Parsing/LR/LALR1/LALR1Parsing.cs:371-395 | merged state g has the transition symbols of its group's first state, each leading to the group of that state's target |
| Lalr.MergeMeaning | src/CNFDotnet.Analysis/Parsing/LR/LALR1/LALR1Parsing.cs:241-395 | the merge's steps make the groups a partition of the LR(1) states into classes of equal kernel cores, with the merged states built from them |
| Lalr.MergeAutomaton | src/CNFDotnet.Analysis/Parsing/LR/LALR1/LALR1Parsing.cs:241-399 | the merge fails iff a transition names a state outside the automaton; otherwise the groups partition the states by kernel cores and each merged state unites its group's cores and lookaheads |
| Lalr.CanonicalTargets | src/CNFDotnet.Analysis/Parsing/LR/LALR1/LALR1Parsing.cs:275-281 | in a canonical collection every transition target is a state, so the translation lookup never fails |
| Lalr.CreateLALRAutomaton | src/CNFDotnet.Analysis/Parsing/LR/LALR1/LALR1Parsing.cs:220-400 | the canonical LR(1) collection over LALR(1) items, failing as it fails (`EmptyGrammar` without productions), then merged by cores; the merge itself never fails on it |
| ParsingTables.ReductionsMeaning | src/CNFDotnet.Analysis/Parsing/LR/LR0/LR0Parsing.cs:198-219 | a production is reduced iff some completed item carries it; the augmented item at dot 1 reduces `Null` |
| ParsingTables.ReductionsCount | src/CNFDotnet.Analysis/Parsing/LR/LR0/LR0Parsing.cs:141-166 | a row reduces iff some item is completed, and reduces more than once iff two items are |
| ParsingTables.ReduceRow | src/CNFDotnet.Analysis/Parsing/LR/LR0/LR0Parsing.cs:198-219 | the loop over the items collects the reductions in item order |
| ParsingTables.LR0Table | src/CNFDotnet.Analysis/Parsing/LR/LR0/LR0Parsing.cs:170-226 | one row per state, in order; the shift map is the state's transitions and the reductions are its completed items |
| ParsingTables.ClassifyLR0 | src/CNFDotnet.Analysis/Parsing/LR/LR0/LR0Parsing.cs:132-168 | no conflict iff no row has two reductions or a reduction beside a shift on a terminal; otherwise the first such row's conflict, reduce-reduce first |
| ParsingTables.LR0ConflictFree | src/CNFDotnet.Analysis/Parsing/LR/LR0/LR0Parsing.cs:132-168 | the LR(0) table is conflict-free iff no state has two completed items, and no state with a completed item shifts on a terminal |
| ParsingTables.ReduceTokensMeaning | src/CNFDotnet.Analysis/Parsing/LR/SLR1/SLR1Parsing.cs:190-221 | only completed items reduce: the augmented item on end of input only; a grammar production on FOLLOW(head) in SLR(1), or on its own lookaheads in LR(1) and LALR(1) |
| ParsingTables.ReducesOnMeaning | src/CNFDotnet.Analysis/Parsing/LR/LR1/LR1Parsing.cs:198-222 | a production is in the cell of t iff some item of it reduces on t |
| ParsingTables.ReducesOnTwice | src/CNFDotnet.Analysis/Parsing/LR/BaseLRParsing.cs:87-91 | a cell holds two reductions iff two items reduce on its token |
| ParsingTables.AddReduceAction | src/CNFDotnet.Analysis/Parsing/LR/BaseLRParsing.cs:103-118 | the cell of t is created when absent and gains p at the end of its reductions; its shift and all other cells are kept |
| ParsingTables.CreateRow | src/CNFDotnet.Analysis/Parsing/LR/LR1/LR1Parsing.cs:179-222 | a cell for exactly the tokens the state shifts or reduces on, holding the transition target and the reductions on that token |
| ParsingTables.CreateTable | src/CNFDotnet.Analysis/Parsing/LR/LR1/LR1Parsing.cs:164-231 | one row per state, in state order |
| ParsingTables.ClassifyLR1 | src/CNFDotnet.Analysis/Parsing/LR/BaseLRParsing.cs:80-101 | no conflict iff no cell has two reductions or a shift beside a reduction; otherwise a conflict of the first row that has one, reduce-reduce checked first |
| ParsingTables.RowConflictFree | src/CNFDotnet.Analysis/Parsing/LR/BaseLRParsing.cs:80-101 | a row is conflict-free iff its state has no token reduced on by two items, nor a shifted token that an item reduces on |
| ParsingTables.TableConflictFree | src/CNFDotnet.Analysis/Parsing/LR/BaseLRParsing.cs:80-101 | the whole table is conflict-free iff every state is clean on every token |
| ParsingTables.LR0ParsingTable | src/CNFDotnet.Analysis/Parsing/LR/LR0/LR0Parsing.cs:170-226 | the LR(0) table of the canonical LR(0) collection, one row per state with its transitions and completed items; fails with `EmptyGrammar` iff there are no productions |
| ParsingTables.ClassifyLR0Grammar | src/CNFDotnet.Analysis/Parsing/LR/LR0/LR0Parsing.cs:132-168 | a grammar is LR(0) iff no state of its LR(0) automaton has two completed items or a completed item beside a shift on a terminal; `EmptyGrammar` iff there are no productions |
| ParsingTables.SLR1ParsingTable | src/CNFDotnet.Analysis/Parsing/LR/SLR1/SLR1Parsing.cs:147-228 | the LR(0) automaton's rows, shifting on transitions and reducing completed items on FOLLOW(head); fails exactly as the FOLLOW sets fail |
| ParsingTables.LR1ParsingTable | src/CNFDotnet.Analysis/Parsing/LR/LR1/LR1Parsing.cs:164-231 | the canonical LR(1) collection's rows, reducing completed items on their lookaheads; fails exactly as the automaton fails, with `EmptyGrammar` when there are no productions |
| ParsingTables.LALR1ParsingTable | src/CNFDotnet.Analysis/Parsing/LR/LALR1/LALR1Parsing.cs:405-472 | the merged LALR(1) automaton's rows, reducing completed items on their merged lookaheads; fails as the automaton fails, with `EmptyGrammar` when there are no productions |
| ParsingTables.ClassifyTable | src/CNFDotnet.Analysis/Parsing/LR/SLR1/SLR1Parsing.cs:144-145 | `Classify` of SLR(1), LR(1) and LALR(1): a table that cannot be built passes its failure on; otherwise `ClassifyLR1` of the table |
| LL1.CheckFirstSets | src/CNFDotnet.Analysis/Parsing/LL/LL1Parsing.cs:114-146 | no fault iff no production's FIRST set fails or repeats a token already recorded for its head; otherwise the fault of the first production that does |
| LL1.CheckFirstFollow | src/CNFDotnet.Analysis/Parsing/LL/LL1Parsing.cs:150-174 | no fault iff no nullable nonterminal has a FIRST token in its FOLLOW set or lacks a FOLLOW entry; otherwise the fault of the first one that does, the lookup failure first |
| LL1.ClassifyLL1 | src/CNFDotnet.Analysis/Parsing/LL/LL1Parsing.cs:96-175 | null ambiguity first; then the first FIRST set clash; then the FOLLOW failure; then the first FIRST/FOLLOW clash; no fault means the grammar is LL(1) |
| LL1.PredictAllMeaning | src/CNFDotnet.Analysis/Parsing/LL/LL1Parsing.cs:204-207 | the actions added for a production are those for its head and each given token |
| LL1.LL1ParsingTable | src/CNFDotnet.Analysis/Parsing/LL/LL1Parsing.cs:181-226 | fails as FOLLOW fails, or with `UnexpectedSymbol` iff some body's FIRST set or nullability cannot be computed; otherwise (h, s, p) is an action iff p has head h and s is in FIRST(body), or the body is nullable and s is in FOLLOW(h) |
| LL1.AddPredictions | src/CNFDotnet.Analysis/Parsing/LL/LL1Table.cs:47-58 | fails with `KeyNotFound` iff a row or column is missing; otherwise cell (h, s) gains the production once per occurrence of s in the token list, at its end, and every other cell and key is unchanged |
| LL1.AddRule | src/CNFDotnet.Analysis/Parsing/LL/LL1Table.cs:42-59 | one production's FIRST and FOLLOW cells, failing iff a lookup or analysis fails for it |
| LL1.GenerateTable | src/CNFDotnet.Analysis/Parsing/LL/LL1Table.cs:17-62 | a row per nonterminal and a cell per terminal and end of input; each cell (h, s) is exactly `CellUpTo`: in production order, each production with head h once per occurrence of s in FIRST(body) and, for a nullable body, once more per occurrence of s in FOLLOW(h); conflicts stay visible as cells with several productions; `DuplicateKey` when a nonterminal repeats or, once there is a row, a terminal repeats or is end of input |
| LL1.AddRules | src/CNFDotnet.Analysis/Parsing/LL/LL1Table.cs:42-59 | the production loop fails iff some production's row fails, and otherwise leaves every cell exactly `CellUpTo` for all productions |
| LL1.CellMembers | src/CNFDotnet.Analysis/Parsing/LL/LL1Table.cs:42-59 | a production is in cell (h, s) iff some production so far has head h and is predicted on s |
| LL1.TablesAgree | src/CNFDotnet.Analysis/Parsing/LL/LL1Table.cs:17-62 | the dense table and the action list predict the same: p is in cell (h, s) iff (h, s, p) is an action |

## Left out

- Lalr.FoldMerge: states which cores the merged kernel and closure hold and the lookaheads at each, but not the order of their items. `MergeItems` fixes the order of one merge step, but the fold does not carry it; the order in which an LALR(1) table cell lists several reductions follows that open item order. No conflict classification depends on it.
- `GetHashCode` overrides are not modelled. They hash lists and sets by reference and disagree with equality, so the model uses equality only.
- Production keys follow `Equals` (head and body by value), not the source's hashing. `Production.GetHashCode` (Production.cs:258-259) combines the head with the body list's reference, and each production gets its own list, so two alternatives with equal bodies are different keys in the source. This has two consequences. For a grammar such as `S -> a | a`, `Closures.ClosureLR1`, `Automata.CreateAutomaton`, `Lalr.CreateLALRAutomaton` and the LR(1)/LALR(1) tables return `DuplicateProduction`, where the source's `used.Add` (BaseLR1Parsing.cs:65-68) succeeds and the automaton is built. And `Closures.ClosureLR0` adds the items of only one of two equal productions, where the source's `used` set (BaseLR0Parsing.cs:93-97) admits both.
- Hash-based collections are modelled without their hash order. A `HashSet` becomes a duplicate-free sequence and a `Dictionary` a map, both enumerated in insertion order. `ClassifyLR1` leaves the order of the cells within a row open, because the order of a `Dictionary` is not specified.
- `char.IsWhiteSpace` is modelled as the fixed list of Unicode white-space characters, with '\n' checked first as the source does. The runtime's own table is not part of this model.
- `null` arguments and `null` fields are not modelled as values. An absent set is empty, and an absent `state?.Kernel` is `None`. The `null` branch of `MergeItems` is unreachable from the merge loop and is modelled as `MergeItems(a, None)`.
- The laziness of the `yield` iterators `GetFirst`, `ComputeNullAmbiguity` and `CreateProductions` is not modelled: they return whole sequences or a failure. A failure that would surface only when the enumeration reaches it is reported for the whole call.
- Exceptions are modelled as `Fault` values. Messages and exception classes are not kept.
- The caches of the parser classes (`this.Automaton`, `this.ParsingTable`) are not modelled: each table or automaton is computed from the grammar. The caches of `CNFGrammar` are modelled.
- Kernel items are values. Aliasing of lookahead sets is modelled only in `LookAheadItems`, and the merge copies every item, as `MergeItems` and `CollapseLookaheads` do.
- States refer to each other by position, not by reference. The `Dictionary<State, …>` translations of the merge become position maps. `translation.Add` cannot meet a duplicate key because states are kept apart by position.
- `Kernel.Insert`, `Remove`, `Clear`, `CopyTo` and the indexer are not modelled (src/CNFDotnet.Analysis/Parsing/LR/Kernel.cs:31-51). They are list plumbing that the analysis never calls.
- The batched closure of `LR_0/LR0Parsing.cs:24-90` is not modelled separately. Its current form, `BaseLR0Parsing.CreateClosure`, is modelled; the older revision computes the same closure by appending each round's items after the scan.
- `LR_0/LR0Parsing.cs` table and `Classify` are not modelled separately. They are older revisions of the `LR0/LR0Parsing.cs` members, which are modelled.
- `LL1Table.cs` is modelled over the current grammar API, not its `Left`/`Right` members.
- `AddReduceAction`'s argument order is not modelled. Callers use several orders, and the model has one function taking row, token and production.
- The head-type checks of the `Production` constructors (Production.cs:69 and 83) are not modelled. They never fire, because `_head` is read before it is assigned and its default kind is STRING.
- `ComputeStartNonTerminal` on an empty grammar: the source's index exception is modelled as `EmptyGrammar`, as are the other analyses that read the first production of an empty grammar, and the automaton construction, whose first closure reads it. A `GrammarView` carries its start symbol as a field; only `CNFGrammar.View` ties it to the first head.
- Lalr.Rewire: follows only the transitions of each group's first state, as the source does. The model does not prove that the other members have transitions into the same groups.
- LL1.LL1ParsingTable: states which actions the list holds, not their multiplicity or order.
- Automata.CreateAutomaton: fixes state 0 and has every later state reached by a transition of an earlier one, but does not fix which number each new kernel receives. The source numbers kernels in the order its scan of states and transition tokens first meets them.
- The concrete test grammars are not carried over as lemmas: the 10-row LR(0) table, the SLR(1) row reducing on $ and b, the 17-state LR(1) automaton, the 14-to-10 LALR(1) merge and the five LL(1) actions. Each would need the whole construction unfolded by the verifier.
- The xUnit tests and their JSON plumbing are not part of this model.
- `LL1Classification.cs` is not modelled separately. It holds the same checks as `LL1Parsing.Classify`, which is modelled.
