/**
 * Grammar productions and the pass that groups a token stream into them.
 * A production is a head token and a body of tokens, numbered by the order in
 * which it was read; the augmented start production is the distinguished
 * `Augmented` value, whose head is the empty word and which has no body.
 */
module Productions {
  import opened Wrappers
  import opened Tokens
  import Lexing

  datatype Production = Augmented | Rule(head: Token, body: seq<Token>, index: int)

  /** What production equality looks at: the head and the body, never the index. */
  datatype ProductionKey = AugmentedKey | RuleKey(head: Token, body: seq<Token>)

  function Key(p: Production): ProductionKey {
    match p
    case Augmented => AugmentedKey
    case Rule(h, b, _) => RuleKey(h, b)
  }

  /** Production equality: the same object, or equal heads and equal bodies. */
  predicate Equals(p: Production, q: Production) {
    match (p, q)
    case (Augmented, Augmented) => true
    case (Rule(h1, b1, _), Rule(h2, b2, _)) => h1 == h2 && b1 == b2
    case _ => false
  }

  /** Equality is exactly agreement of keys, so it is an equivalence. */
  lemma EqualsIsKeyEquality(p: Production, q: Production)
    ensures Equals(p, q) <==> Key(p) == Key(q)
  {
  }

  /** Two productions that differ only in their index are equal. */
  lemma EqualsIgnoresIndex(h: Token, b: seq<Token>, i: int, j: int)
    ensures Equals(Rule(h, b, i), Rule(h, b, j))
  {
  }

  /** The public constructor: every body token must be a STRING token. */
  function MakeProduction(head: Token, body: seq<Token>, index: int): (r: Result<Production>)
    ensures r.Ok? <==> forall t :: t in body ==> t.kind == String
    ensures r.Ok? ==> r.value == Rule(head, body, index)
    ensures r.Err? ==> r.error == BodyNotString
  {
    if exists t :: t in body && t.kind != String then Err(BodyNotString)
    else Ok(Rule(head, body, index))
  }

  /** `Single()` on the collected head tokens. */
  function Single(head: seq<Token>): (r: Result<Token>)
    ensures r.Ok? <==> |head| == 1
    ensures r.Ok? ==> r.value == head[0]
  {
    if |head| == 1 then Ok(head[0]) else Err(HeadNotSingle)
  }

  /** The production emitted at the end of an alternative. */
  function Emit(head: seq<Token>, body: seq<Token>, index: int): Result<Production> {
    var h :- Single(head);
    MakeProduction(h, body, index)
  }

  predicate WellFormed(p: Production) {
    p.Rule? && p.head.kind == String && forall t :: t in p.body ==> t.kind == String
  }

  // ------------------------------------------------------------------
  // Grouping, as a function of the remaining tokens and the reader state

  /** Head and body collected so far, which list receives STRING tokens, the next index, the productions emitted. */
  datatype Reader = Reader(head: seq<Token>, body: seq<Token>, inBody: bool, index: nat, done: seq<Production>)

  const Start: Reader := Reader([], [], false, 0, [])

  function GroupFrom(ts: seq<Token>, st: Reader): Result<seq<Production>>
    decreases |ts|
  {
    if ts == [] then Ok(st.done)
    else
      var t := ts[0];
      match t.kind
      case String =>
        if st.inBody then GroupFrom(ts[1..], st.(body := st.body + [t]))
        else GroupFrom(ts[1..], st.(head := st.head + [t]))
      case Empty => GroupFrom(ts[1..], st)
      case WhiteSpace => GroupFrom(ts[1..], st)
      case Arrow =>
        if st.inBody then Err(SyntaxError) else GroupFrom(ts[1..], st.(inBody := true))
      case Choice =>
        (match Emit(st.head, st.body, st.index)
         case Err(e) => Err(e)
         case Ok(p) => GroupFrom(ts[1..], Reader(st.head, [], true, st.index + 1, st.done + [p])))
      case EndOfLine =>
        (match Emit(st.head, st.body, st.index)
         case Err(e) => Err(e)
         case Ok(p) => GroupFrom(ts[1..], Reader([], [], false, st.index + 1, st.done + [p])))
      case EndOfFile =>
        (match Emit(st.head, st.body, st.index)
         case Err(e) => Err(e)
         case Ok(p) => Ok(st.done + [p]))
  }

  /** The productions read from a token stream. */
  function Group(ts: seq<Token>): Result<seq<Production>> { GroupFrom(ts, Start) }

  /** Reads every production of a token stream; it stops at end of input. */
  method CreateProductions(tokens: seq<Token>) returns (r: Result<seq<Production>>)
    ensures r == Group(tokens)
  {
    var head: seq<Token> := [];
    var body: seq<Token> := [];
    var inBody := false;
    var index: nat := 0;
    var done: seq<Production> := [];
    var i := 0;
    while i < |tokens|
      invariant 0 <= i <= |tokens|
      invariant Group(tokens) == GroupFrom(tokens[i..], Reader(head, body, inBody, index, done))
    {
      var token := tokens[i];
      assert tokens[i..][1..] == tokens[i + 1..];
      if token.kind == String {
        if inBody { body := body + [token]; } else { head := head + [token]; }
      } else if token.kind == Empty || token.kind == WhiteSpace {
      } else if token.kind == Arrow {
        if inBody {
          return Err(SyntaxError);
        }
        inBody := true;
      } else {
        var p := Emit(head, body, index);
        if p.Err? {
          return Err(p.error);
        }
        done := done + [p.value];
        index := index + 1;
        body := [];
        if token.kind == Choice {
          inBody := true;
        } else if token.kind == EndOfLine {
          head := [];
          inBody := false;
        } else {
          return Ok(done);
        }
      }
      i := i + 1;
    }
    return Ok(done);
  }

  /** The single production at the start of a token stream, read with the given index. */
  function OneFrom(ts: seq<Token>, head: seq<Token>, body: seq<Token>, inBody: bool, index: int): Result<Production>
    decreases |ts|
  {
    if ts == [] then Emit(head, body, index)
    else
      var t := ts[0];
      match t.kind
      case String =>
        if inBody then OneFrom(ts[1..], head, body + [t], inBody, index)
        else OneFrom(ts[1..], head + [t], body, inBody, index)
      case Empty => OneFrom(ts[1..], head, body, inBody, index)
      case WhiteSpace => OneFrom(ts[1..], head, body, inBody, index)
      case Arrow => if inBody then Err(SyntaxError) else OneFrom(ts[1..], head, body, true, index)
      case _ => Emit(head, body, index)
  }

  /** Reads one production; it ends at the first CHOICE, EOL or EOF, or where the tokens run out. */
  method CreateProduction(tokens: seq<Token>, index: int) returns (r: Result<Production>)
    ensures r == OneFrom(tokens, [], [], false, index)
  {
    var head: seq<Token> := [];
    var body: seq<Token> := [];
    var inBody := false;
    var i := 0;
    while i < |tokens|
      invariant 0 <= i <= |tokens|
      invariant OneFrom(tokens, [], [], false, index) == OneFrom(tokens[i..], head, body, inBody, index)
    {
      var token := tokens[i];
      assert tokens[i..][1..] == tokens[i + 1..];
      if token.kind == String {
        if inBody { body := body + [token]; } else { head := head + [token]; }
      } else if token.kind == Empty || token.kind == WhiteSpace {
      } else if token.kind == Arrow {
        if inBody {
          return Err(SyntaxError);
        }
        inBody := true;
      } else {
        break;
      }
      i := i + 1;
    }
    r := Emit(head, body, index);
  }

  // ------------------------------------------------------------------
  // Properties of grouping

  /** The reader's bookkeeping: the next index is the number emitted, and every emitted production is well formed and numbered by position. */
  ghost predicate Numbered(st: Reader) {
    st.index == |st.done| && (forall t :: t in st.head ==> t.kind == String)
    && (forall t :: t in st.body ==> t.kind == String)
    && forall k :: 0 <= k < |st.done| ==> WellFormed(st.done[k]) && st.done[k].index == k
  }

  lemma {:induction false} GroupFromNumbered(ts: seq<Token>, st: Reader, ps: seq<Production>)
    requires Numbered(st) && GroupFrom(ts, st) == Ok(ps)
    ensures forall k :: 0 <= k < |ps| ==> WellFormed(ps[k]) && ps[k].index == k
    decreases |ts|
  {
    if ts != [] {
      var t := ts[0];
      match t.kind
      case String =>
        if st.inBody { GroupFromNumbered(ts[1..], st.(body := st.body + [t]), ps); }
        else { GroupFromNumbered(ts[1..], st.(head := st.head + [t]), ps); }
      case Empty => GroupFromNumbered(ts[1..], st, ps);
      case WhiteSpace => GroupFromNumbered(ts[1..], st, ps);
      case Arrow => GroupFromNumbered(ts[1..], st.(inBody := true), ps);
      case Choice =>
        var p := Emit(st.head, st.body, st.index).value;
        GroupFromNumbered(ts[1..], Reader(st.head, [], true, st.index + 1, st.done + [p]), ps);
      case EndOfLine =>
        var p := Emit(st.head, st.body, st.index).value;
        GroupFromNumbered(ts[1..], Reader([], [], false, st.index + 1, st.done + [p]), ps);
      case EndOfFile =>
    }
  }

  /** Every production read is well formed, and their indices are 0, 1, 2, ... in order. */
  lemma GroupNumbersConsecutively(ts: seq<Token>, ps: seq<Production>)
    requires Group(ts) == Ok(ps)
    ensures forall k :: 0 <= k < |ps| ==> WellFormed(ps[k]) && ps[k].index == k
  {
    GroupFromNumbered(ts, Start, ps);
  }

  predicate IsEnd(t: Token) { t.kind == Choice || t.kind == EndOfLine || t.kind == EndOfFile }

  /** The number of CHOICE, EOL and EOF tokens up to and including the first EOF. */
  function Ends(ts: seq<Token>): nat {
    if ts == [] then 0
    else if ts[0].kind == EndOfFile then 1
    else (if IsEnd(ts[0]) then 1 else 0) + Ends(ts[1..])
  }

  lemma {:induction false} GroupFromCount(ts: seq<Token>, st: Reader, ps: seq<Production>)
    requires GroupFrom(ts, st) == Ok(ps)
    ensures |ps| == |st.done| + Ends(ts)
    decreases |ts|
  {
    if ts != [] {
      var t := ts[0];
      match t.kind
      case String =>
        if st.inBody { GroupFromCount(ts[1..], st.(body := st.body + [t]), ps); }
        else { GroupFromCount(ts[1..], st.(head := st.head + [t]), ps); }
      case Empty => GroupFromCount(ts[1..], st, ps);
      case WhiteSpace => GroupFromCount(ts[1..], st, ps);
      case Arrow => GroupFromCount(ts[1..], st.(inBody := true), ps);
      case Choice =>
        var p := Emit(st.head, st.body, st.index).value;
        GroupFromCount(ts[1..], Reader(st.head, [], true, st.index + 1, st.done + [p]), ps);
      case EndOfLine =>
        var p := Emit(st.head, st.body, st.index).value;
        GroupFromCount(ts[1..], Reader([], [], false, st.index + 1, st.done + [p]), ps);
      case EndOfFile =>
    }
  }

  /** One production is read per CHOICE, EOL or EOF token, and nothing after the first EOF. */
  lemma GroupCountsEnds(ts: seq<Token>, ps: seq<Production>)
    requires Group(ts) == Ok(ps)
    ensures |ps| == Ends(ts)
  {
    GroupFromCount(ts, Start, ps);
  }

  /** The stream without its WHITESPACE and EMPTY tokens. */
  function Skipped(ts: seq<Token>): seq<Token> {
    if ts == [] then []
    else if ts[0].kind == WhiteSpace || ts[0].kind == Empty then Skipped(ts[1..])
    else [ts[0]] + Skipped(ts[1..])
  }

  lemma {:induction false} GroupFromSkips(ts: seq<Token>, st: Reader)
    ensures GroupFrom(ts, st) == GroupFrom(Skipped(ts), st)
    decreases |ts|
  {
    if ts != [] {
      var t := ts[0];
      var rest := Skipped(ts[1..]);
      if t.kind == WhiteSpace || t.kind == Empty {
        GroupFromSkips(ts[1..], st);
      } else {
        assert Skipped(ts) == [t] + rest;
        assert ([t] + rest)[1..] == rest;
        match t.kind
        case String =>
          if st.inBody { GroupFromSkips(ts[1..], st.(body := st.body + [t])); }
          else { GroupFromSkips(ts[1..], st.(head := st.head + [t])); }
        case Arrow =>
          GroupFromSkips(ts[1..], st.(inBody := true));
        case Choice =>
          if Emit(st.head, st.body, st.index).Ok? {
            var p := Emit(st.head, st.body, st.index).value;
            GroupFromSkips(ts[1..], Reader(st.head, [], true, st.index + 1, st.done + [p]));
          }
        case EndOfLine =>
          if Emit(st.head, st.body, st.index).Ok? {
            var p := Emit(st.head, st.body, st.index).value;
            GroupFromSkips(ts[1..], Reader([], [], false, st.index + 1, st.done + [p]));
          }
        case EndOfFile =>
      }
    }
  }

  /** WHITESPACE and EMPTY tokens are ignored: dropping them does not change the productions read. */
  lemma GroupIgnoresLayout(ts: seq<Token>)
    ensures Group(ts) == Group(Skipped(ts))
  {
    GroupFromSkips(ts, Start);
  }

  lemma {:induction false} OneFromIsFirst(ts: seq<Token>, st: Reader, ps: seq<Production>)
    requires st.done == [] && GroupFrom(ts, st) == Ok(ps) && |ps| >= 1
    ensures OneFrom(ts, st.head, st.body, st.inBody, st.index) == Ok(ps[0])
    decreases |ts|
  {
    if ts != [] {
      var t := ts[0];
      match t.kind
      case String =>
        if st.inBody { OneFromIsFirst(ts[1..], st.(body := st.body + [t]), ps); }
        else { OneFromIsFirst(ts[1..], st.(head := st.head + [t]), ps); }
      case Empty => OneFromIsFirst(ts[1..], st, ps);
      case WhiteSpace => OneFromIsFirst(ts[1..], st, ps);
      case Arrow => OneFromIsFirst(ts[1..], st.(inBody := true), ps);
      case Choice =>
        var p := Emit(st.head, st.body, st.index).value;
        assert st.done + [p] == [p];
        GroupFromPrefix(ts[1..], Reader(st.head, [], true, st.index + 1, [p]), ps);
      case EndOfLine =>
        var p := Emit(st.head, st.body, st.index).value;
        assert st.done + [p] == [p];
        GroupFromPrefix(ts[1..], Reader([], [], false, st.index + 1, [p]), ps);
      case EndOfFile =>
    }
  }

  /** Grouping only ever appends to the productions already emitted. */
  lemma {:induction false} GroupFromPrefix(ts: seq<Token>, st: Reader, ps: seq<Production>)
    requires GroupFrom(ts, st) == Ok(ps)
    ensures |st.done| <= |ps| && ps[..|st.done|] == st.done
    decreases |ts|
  {
    if ts != [] {
      var t := ts[0];
      match t.kind
      case String =>
        if st.inBody { GroupFromPrefix(ts[1..], st.(body := st.body + [t]), ps); }
        else { GroupFromPrefix(ts[1..], st.(head := st.head + [t]), ps); }
      case Empty => GroupFromPrefix(ts[1..], st, ps);
      case WhiteSpace => GroupFromPrefix(ts[1..], st, ps);
      case Arrow => GroupFromPrefix(ts[1..], st.(inBody := true), ps);
      case Choice =>
        var p := Emit(st.head, st.body, st.index).value;
        GroupFromPrefix(ts[1..], Reader(st.head, [], true, st.index + 1, st.done + [p]), ps);
      case EndOfLine =>
        var p := Emit(st.head, st.body, st.index).value;
        GroupFromPrefix(ts[1..], Reader([], [], false, st.index + 1, st.done + [p]), ps);
      case EndOfFile =>
    }
  }

  /** Reading a single production gives the first production of the whole stream. */
  lemma CreateProductionIsFirst(ts: seq<Token>, ps: seq<Production>)
    requires Group(ts) == Ok(ps) && |ps| >= 1
    ensures OneFrom(ts, [], [], false, 0) == Ok(ps[0])
  {
    OneFromIsFirst(ts, Start, ps);
  }

  /** Only STRING, WHITESPACE and EMPTY tokens: what may stand between an arrow and the end of an alternative. */
  predicate Layout(ts: seq<Token>) {
    forall k :: 0 <= k < |ts| ==> ts[k].kind == String || ts[k].kind == WhiteSpace || ts[k].kind == Empty
  }

  /** The STRING tokens of a stream, in order. */
  function StringsOf(ts: seq<Token>): seq<Token> {
    if ts == [] then [] else (if ts[0].kind == String then [ts[0]] else []) + StringsOf(ts[1..])
  }

  /** A run of layout tokens only feeds its STRING tokens to the list being collected. */
  lemma {:induction false} GroupFromCollect(ts: seq<Token>, more: seq<Token>, st: Reader)
    requires Layout(ts)
    ensures GroupFrom(ts + more, st)
         == GroupFrom(more, if st.inBody then st.(body := st.body + StringsOf(ts)) else st.(head := st.head + StringsOf(ts)))
    decreases |ts|
  {
    if ts == [] {
      assert ts + more == more;
      assert st.body + [] == st.body && st.head + [] == st.head;
    } else {
      var t := ts[0];
      assert (ts + more)[0] == t;
      assert (ts + more)[1..] == ts[1..] + more;
      assert Layout(ts[1..]) by {
        forall k | 0 <= k < |ts[1..]| ensures ts[1..][k] == ts[k + 1] { }
      }
      var st1 := if t.kind == String then (if st.inBody then st.(body := st.body + [t]) else st.(head := st.head + [t])) else st;
      assert GroupFrom(ts + more, st) == GroupFrom(ts[1..] + more, st1);
      GroupFromCollect(ts[1..], more, st1);
      assert StringsOf(ts) == (if t.kind == String then [t] else []) + StringsOf(ts[1..]);
      if t.kind == String {
        assert st.body + [t] + StringsOf(ts[1..]) == st.body + StringsOf(ts);
        assert st.head + [t] + StringsOf(ts[1..]) == st.head + StringsOf(ts);
      } else {
        assert StringsOf(ts[1..]) == StringsOf(ts);
      }
    }
  }

  /** A second ARROW in one alternative, after a head and any body, is a syntax error whatever follows. */
  lemma GroupRejectsSecondArrow(h: Token, a: Token, b: seq<Token>, a2: Token, rest: seq<Token>)
    requires h.kind == String && a.kind == Arrow && a2.kind == Arrow && Layout(b)
    ensures Group([h, a] + b + [a2] + rest) == Err(SyntaxError)
  {
    var st := Reader([h], [], true, 0, []);
    var tail := b + ([a2] + rest);
    var ts := [h, a] + b + [a2] + rest;
    assert ts == [h] + ([a] + tail);
    assert ts[0] == h && ts[1..] == [a] + tail;
    assert ([a] + tail)[0] == a && ([a] + tail)[1..] == tail;
    assert GroupFrom(ts, Start) == GroupFrom([a] + tail, Start.(head := [] + [h]));
    assert [] + [h] == [h];
    assert GroupFrom([a] + tail, Start.(head := [h])) == GroupFrom(tail, st);
    GroupFromCollect(b, [a2] + rest, st);
    assert ([a2] + rest)[0] == a2;
  }

  /** An alternative that ends with no head token or with several fails with `HeadNotSingle`, with or without an arrow. */
  lemma GroupRejectsHead(hs: seq<Token>, a: Token, b: seq<Token>, e: Token, rest: seq<Token>)
    requires Layout(hs) && Layout(b) && a.kind == Arrow && IsEnd(e) && |StringsOf(hs)| != 1
    ensures Group(hs + [e] + rest) == Err(HeadNotSingle)
    ensures Group(hs + [a] + b + [e] + rest) == Err(HeadNotSingle)
  {
    var st := Start.(head := StringsOf(hs));
    assert [] + StringsOf(hs) == StringsOf(hs);
    assert Single(st.head).Err?;
    assert Emit(st.head, [], 0) == Err(HeadNotSingle);
    assert hs + [e] + rest == hs + ([e] + rest);
    GroupFromCollect(hs, [e] + rest, Start);
    assert ([e] + rest)[0] == e;
    assert GroupFrom([e] + rest, st) == Err(HeadNotSingle);
    var tail := b + ([e] + rest);
    assert hs + [a] + b + [e] + rest == hs + ([a] + tail);
    GroupFromCollect(hs, [a] + tail, Start);
    assert ([a] + tail)[0] == a && ([a] + tail)[1..] == tail;
    assert GroupFrom([a] + tail, st) == GroupFrom(tail, st.(inBody := true));
    GroupFromCollect(b, [e] + rest, st.(inBody := true));
    var st2 := st.(inBody := true).(body := [] + StringsOf(b));
    assert Emit(st2.head, st2.body, 0) == Err(HeadNotSingle);
  }

  // ------------------------------------------------------------------
  // Printing

  /** The body tokens printed and separated by single blanks. */
  function Join(ts: seq<Token>): string {
    if ts == [] then "" else if |ts| == 1 then ToString(ts[0]) else ToString(ts[0]) + " " + Join(ts[1..])
  }

  /** The printed form "H -> b1 b2 ..." of a production, "H -> ε" for an empty body. */
  function Render(p: Production): string
    requires p.Rule?
  {
    ToString(p.head) + " -> " + (if p.body == [] then "ε" else Join(p.body))
  }

  // ------------------------------------------------------------------
  // Printing and reading back

  /** A STRING token that prints as itself and scans back as one STRING token. */
  predicate Printable(t: Token) {
    t.kind == String && |t.value| >= 1 && !Lexing.StartsArrow(t.value[0]) && !Lexing.IsEmpty(t.value[0])
    && forall k :: 0 <= k < |t.value| ==> !Lexing.IsDelimiter(t.value[k])
  }

  const Blank: Token := FromChar(' ', WhiteSpace)

  /** The tokens scanned from a printed body: the words with a blank between neighbours. */
  function Spaced(ts: seq<Token>): seq<Token> {
    if |ts| <= 1 then ts else [ts[0], Blank] + Spaced(ts[1..])
  }

  /** A printable word followed by a delimiter or the end scans as exactly that token. */
  lemma ScanPrintable(s: string, n: nat, t: Token)
    requires Printable(t) && n + |t.value| <= |s| && s[n .. n + |t.value|] == t.value
    requires n + |t.value| == |s| || Lexing.IsDelimiter(s[n + |t.value|])
    ensures Lexing.Scan(s, n - 1) == (t, n + |t.value| - 1)
  {
    var v := t.value;
    assert s[n] == v[0];
    var j := Lexing.RunEnd(s, n + 1);
    assert j == n + |v|;
  }

  /** One scanner step that does not reach end of input. */
  lemma TokenizeStep(s: string, q: int, t: Token, q2: int)
    requires q >= -1 && Lexing.Scan(s, q) == (t, q2) && t.kind != EndOfFile
    ensures Lexing.TokenizeFrom(s, q) == [t] + Lexing.TokenizeFrom(s, q2)
  {
  }

  lemma TokenizeEnd(s: string, q: int)
    requires q >= -1 && q + 1 >= |s|
    ensures Lexing.TokenizeFrom(s, q) == [EndToken]
  {
    assert Lexing.Scan(s, q).0.kind == EndOfFile;
  }

  /** A blank scans as the one-character WHITESPACE token. */
  lemma ScanBlank(s: string, m: int)
    requires -1 <= m && m + 1 < |s| && s[m + 1] == ' '
    ensures Lexing.Scan(s, m) == (Blank, m + 1)
  {
    var r := Lexing.Scan(s, m);
    assert r.0.kind == WhiteSpace && r.1 == m + 1;
    assert r.0.value == s[m + 1 .. m + 2] == " ";
  }

  /** A word and then a blank scan as that word's token and the WHITESPACE token. */
  lemma TokenizeWordBlank(s: string, q: int, t: Token, q2: int)
    requires q >= -1 && Printable(t) && q + 2 + |t.value| <= |s| && q2 == q + 1 + |t.value|
    requires s[q + 1 .. q + 1 + |t.value|] == t.value && s[q + 1 + |t.value|] == ' '
    ensures Lexing.TokenizeFrom(s, q) == [t, Blank] + Lexing.TokenizeFrom(s, q2)
  {
    var m := q + |t.value|;
    ScanPrintable(s, q + 1, t);
    TokenizeStep(s, q, t, m);
    ScanBlank(s, m);
    TokenizeStep(s, m, Blank, q2);
    var x := Lexing.TokenizeFrom(s, q2);
    assert [t] + ([Blank] + x) == [t, Blank] + x;
  }

  /** A word that ends the text scans as that word's token and then end of input. */
  lemma TokenizeLastWord(s: string, q: int, t: Token)
    requires q >= -1 && q + 1 <= |s| && Printable(t) && s[q + 1 ..] == t.value
    ensures Lexing.TokenizeFrom(s, q) == [t, EndToken]
  {
    var m := q + |t.value|;
    assert s[q + 1 .. q + 1 + |t.value|] == t.value;
    ScanPrintable(s, q + 1, t);
    TokenizeStep(s, q, t, m);
    TokenizeEnd(s, m);
  }

  /** Where the printed form of several tokens splits: the first word, a blank, the rest. */
  lemma JoinSplit(s: string, n: nat, ts: seq<Token>)
    requires |ts| >= 2 && n <= |s| && s[n ..] == Join(ts) && ts[0].kind == String
    ensures n + 1 + |ts[0].value| <= |s|
    ensures s[n .. n + |ts[0].value|] == ts[0].value && s[n + |ts[0].value|] == ' '
    ensures s[n + 1 + |ts[0].value| ..] == Join(ts[1..])
  {
    var v := ts[0].value;
    assert Join(ts) == v + " " + Join(ts[1..]);
    assert s[n ..][.. |v|] == v;
    assert s[n ..][|v|] == ' ';
    assert s[n ..][|v| + 1 ..] == Join(ts[1..]);
  }

  lemma SnocAssoc(x: seq<Token>, y: seq<Token>, e: Token)
    ensures (x + y) + [e] == x + (y + [e])
  {
  }

  /** Scanning a printed body of printable words gives the spaced words and then end of input. */
  lemma {:induction false} TokenizeBody(s: string, q: int, ts: seq<Token>)
    requires -1 <= q && q + 1 <= |s| && |ts| >= 1 && (forall k :: 0 <= k < |ts| ==> Printable(ts[k]))
    requires s[q + 1 ..] == Join(ts)
    ensures Lexing.TokenizeFrom(s, q) == Spaced(ts) + [EndToken]
    decreases |ts|
  {
    if |ts| == 1 {
      assert Join(ts) == ts[0].value;
      TokenizeLastWord(s, q, ts[0]);
    } else {
      var q2 := q + 1 + |ts[0].value|;
      JoinSplit(s, q + 1, ts);
      assert forall k :: 0 <= k < |ts[1..]| ==> Printable(ts[1..][k]) by {
        forall k | 0 <= k < |ts[1..]| ensures ts[1..][k] == ts[k + 1] { }
      }
      TokenizeBody(s, q2, ts[1..]);
      TokenizeBodyStep(s, q, q2, ts);
    }
  }

  /** One word of `TokenizeBody`: the word, a blank, and the scan of the rest from q2. */
  lemma TokenizeBodyStep(s: string, q: int, q2: int, ts: seq<Token>)
    requires -1 <= q && q + 1 <= |s| && |ts| >= 2 && Printable(ts[0]) && s[q + 1 ..] == Join(ts)
    requires q2 == q + 1 + |ts[0].value|
    requires Lexing.TokenizeFrom(s, q2) == Spaced(ts[1..]) + [EndToken]
    ensures Lexing.TokenizeFrom(s, q) == Spaced(ts) + [EndToken]
  {
    var t := ts[0];
    JoinSplit(s, q + 1, ts);
    TokenizeWordBlank(s, q, t, q2);
    SpacedSnoc(ts, Spaced(ts[1..]), Lexing.TokenizeFrom(s, q2), Lexing.TokenizeFrom(s, q));
  }

  /** A word and a blank before the spaced rest and end of input make the spaced words and end of input. */
  lemma SpacedSnoc(ts: seq<Token>, a: seq<Token>, x: seq<Token>, y: seq<Token>)
    requires |ts| >= 2 && a == Spaced(ts[1..]) && x == a + [EndToken] && y == [ts[0], Blank] + x
    ensures y == Spaced(ts) + [EndToken]
  {
    assert Spaced(ts) == [ts[0], Blank] + a;
    SnocAssoc([ts[0], Blank], a, EndToken);
  }

  /** Where the printed form of a production splits: head, blank, arrow, blank, body. */
  lemma RenderSplit(hv: string, tail: string, s: string)
    requires s == hv + " -> " + tail
    ensures |s| == |hv| + 4 + |tail| && s[0 .. |hv|] == hv && s[|hv|] == ' '
    ensures s[|hv| + 1] == '-' && s[|hv| + 2] == '>' && s[|hv| + 3] == ' ' && s[|hv| + 1 .. |hv| + 3] == "->"
    ensures s[|hv| + 4 ..] == tail
  {
    assert s[|hv| ..][.. 4] == " -> ";
  }

  /** "->" scans as one ARROW token. */
  lemma ScanArrowAt(s: string, h: int)
    requires h >= 0 && h + 2 < |s| && s[h + 1] == '-' && s[h + 2] == '>' && s[h + 1 .. h + 3] == "->"
    ensures Lexing.Scan(s, h) == (Token(Arrow, "->"), h + 2)
  {
    var x := Lexing.Scan(s, h);
    assert x == Lexing.ScanArrow(s, h + 1);
    assert x.0.kind == Arrow && x.1 == h + 2 && x.0.value == s[h + 1 .. h + 3];
  }

  /** The arrow and the blank after it scan as the ARROW token and the WHITESPACE token. */
  lemma TokenizeArrowBlank(s: string, h: int)
    requires h >= 0 && h + 3 < |s| && s[h + 1] == '-' && s[h + 2] == '>' && s[h + 3] == ' '
    requires s[h + 1 .. h + 3] == "->"
    ensures Lexing.TokenizeFrom(s, h) == [Token(Arrow, "->"), Blank] + Lexing.TokenizeFrom(s, h + 3)
  {
    ScanArrowAt(s, h);
    TokenizeStep(s, h, Token(Arrow, "->"), h + 2);
    ScanBlank(s, h + 2);
    TokenizeStep(s, h + 2, Blank, h + 3);
  }

  /** The printed empty body scans as the EMPTY token and then end of input. */
  lemma TokenizeEmptyBody(s: string, q: int)
    requires q >= -1 && q + 1 <= |s| && s[q + 1 ..] == "ε"
    ensures Lexing.TokenizeFrom(s, q) == [FromChar('ε', Empty), EndToken]
  {
    assert s[q + 1] == 'ε' && |s| == q + 2;
    var x := Lexing.Scan(s, q);
    assert x.0.kind == Empty && x.1 == q + 1 && x.0.value == s[q + 1 .. q + 2];
    assert x == (FromChar('ε', Empty), q + 1);
    TokenizeStep(s, q, FromChar('ε', Empty), q + 1);
    TokenizeEnd(s, q + 1);
  }

  lemma PairsAssoc(a: Token, b: Token, c: Token, d: Token, rest: seq<Token>)
    ensures [a, b] + ([c, d] + rest) == [a, b, c, d] + rest
  {
  }

  /** The tokens scanned from a printed body. */
  function BodyTokens(body: seq<Token>): seq<Token> {
    (if body == [] then [FromChar('ε', Empty)] else Spaced(body)) + [EndToken]
  }

  /** The printed form of a production scans to its head, a blank, the arrow, a blank and the body. */
  lemma RenderTokens(r: Production)
    requires r.Rule? && Printable(r.head) && forall k :: 0 <= k < |r.body| ==> Printable(r.body[k])
    ensures Lexing.Tokenize(Render(r)) == [r.head, Blank, Token(Arrow, "->"), Blank] + BodyTokens(r.body)
  {
    var s := Render(r);
    var hv := r.head.value;
    var tail := if r.body == [] then "ε" else Join(r.body);
    assert ToString(r.head) == hv;
    RenderSplit(hv, tail, s);
    TokenizeLine(s, r.head, r.body, |hv|);
  }

  /** A line laid out as head, " -> " and a printed body scans to the tokens of that production. */
  lemma TokenizeLine(s: string, head: Token, body: seq<Token>, h: int)
    requires Printable(head) && forall k :: 0 <= k < |body| ==> Printable(body[k])
    requires h == |head.value| && |s| >= h + 4 && s[0 .. h] == head.value && s[h] == ' '
    requires s[h + 1] == '-' && s[h + 2] == '>' && s[h + 3] == ' ' && s[h + 1 .. h + 3] == "->"
    requires s[h + 4 ..] == if body == [] then "ε" else Join(body)
    ensures Lexing.TokenizeFrom(s, -1) == [head, Blank, Token(Arrow, "->"), Blank] + BodyTokens(body)
  {
    if body == [] {
      TokenizeEmptyBody(s, h + 3);
    } else {
      TokenizeBody(s, h + 3, body);
    }
    var b := Lexing.TokenizeFrom(s, h + 3);
    assert b == BodyTokens(body);
    TokenizeArrowBlank(s, h);
    TokenizeWordBlank(s, -1, head, h);
    PairsAssoc(head, Blank, Token(Arrow, "->"), Blank, b);
  }

  /** Reading a spaced body and end of input after the arrow emits the one production. */
  lemma {:induction false} GroupSpacedBody(ts: seq<Token>, h: Token, acc: seq<Token>)
    requires (forall t :: t in acc ==> t.kind == String) && forall k :: 0 <= k < |ts| ==> Printable(ts[k])
    ensures GroupFrom(Spaced(ts) + [EndToken], Reader([h], acc, true, 0, [])) == Ok([Rule(h, acc + ts, 0)])
    decreases |ts|
  {
    var st := Reader([h], acc, true, 0, []);
    if ts == [] {
      assert Spaced(ts) + [EndToken] == [EndToken];
      assert acc + ts == acc;
      assert Emit(st.head, st.body, 0) == Ok(Rule(h, acc, 0));
      assert [] + [Rule(h, acc, 0)] == [Rule(h, acc, 0)];
    } else if |ts| == 1 {
      var b := acc + [ts[0]];
      assert Spaced(ts) + [EndToken] == [ts[0], EndToken];
      assert [ts[0], EndToken][1..] == [EndToken];
      assert GroupFrom([ts[0], EndToken], st) == GroupFrom([EndToken], st.(body := b));
      assert forall t :: t in b ==> t.kind == String;
      assert Emit([h], b, 0) == Ok(Rule(h, b, 0));
      assert [] + [Rule(h, b, 0)] == [Rule(h, b, 0)];
      assert b == acc + ts;
    } else {
      var rest := ts[1..];
      var more := Spaced(rest) + [EndToken];
      assert Spaced(ts) + [EndToken] == [ts[0], Blank] + more;
      assert ([ts[0], Blank] + more)[1..] == [Blank] + more;
      assert ([Blank] + more)[1..] == more;
      assert forall k :: 0 <= k < |rest| ==> Printable(rest[k]) by {
        forall k | 0 <= k < |rest| ensures rest[k] == ts[k + 1] { }
      }
      GroupSpacedBody(rest, h, acc + [ts[0]]);
      assert acc + [ts[0]] + rest == acc + ts;
    }
  }

  /** Printing a production of printable tokens and reading the text back gives that production, numbered 0. */
  lemma RenderRoundTrip(r: Production)
    requires r.Rule? && Printable(r.head) && forall k :: 0 <= k < |r.body| ==> Printable(r.body[k])
    ensures Group(Lexing.Tokenize(Render(r))) == Ok([Rule(r.head, r.body, 0)])
  {
    RenderTokens(r);
    var body := BodyTokens(r.body);
    var ts := [r.head, Blank, Token(Arrow, "->"), Blank] + body;
    var st := Reader([r.head], [], true, 0, []);
    GroupHeader(r.head, body);
    GroupSpacedBody(r.body, r.head, []);
    assert [] + r.body == r.body;
    if r.body == [] {
      assert body == [FromChar('ε', Empty), EndToken];
      assert GroupFrom(body, st) == GroupFrom([EndToken], st);
      assert Spaced(r.body) + [EndToken] == [EndToken];
    }
  }

  /** The head, a blank, the arrow and a blank leave the reader collecting the body of that head. */
  lemma GroupHeader(h: Token, body: seq<Token>)
    requires h.kind == String
    ensures GroupFrom([h, Blank, Token(Arrow, "->"), Blank] + body, Start) == GroupFrom(body, Reader([h], [], true, 0, []))
  {
    var ts := [h, Blank, Token(Arrow, "->"), Blank] + body;
    assert ts[1..] == [Blank, Token(Arrow, "->"), Blank] + body;
    assert ts[2..] == [Token(Arrow, "->"), Blank] + body;
    assert ts[3..] == [Blank] + body;
    assert ts[4..] == body;
    assert [] + [h] == [h];
    var st := Start.(head := [h]);
    assert GroupFrom(ts, Start) == GroupFrom(ts[1..], st);
    assert GroupFrom(ts[1..], st) == GroupFrom(ts[2..], st);
    assert GroupFrom(ts[2..], st) == GroupFrom(ts[3..], st.(inBody := true));
    assert GroupFrom(ts[3..], st.(inBody := true)) == GroupFrom(body, st.(inBody := true));
  }
}
