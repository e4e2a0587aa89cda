/**
 * The grammar scanner: a string with a cursor, read one character at a time
 * with one character of push-back, and a cache in which multi-character
 * tokens are assembled.
 */
module Lexing {
  import opened Wrappers
  import opened Tokens

  // Character classes of the scanner.

  predicate IsEndOfLine(ch: char) { ch == '\n' }

  /** `char.IsWhiteSpace`: the Unicode separators and the control characters U+0009 to U+000D and U+0085. */
  predicate IsWhiteSpace(ch: char) {
    ('\t' <= ch <= '\r') || ch == ' ' || ch == '\U{0085}' || ch == '\U{00A0}' || ch == '\U{1680}'
    || ('\U{2000}' <= ch <= '\U{200A}') || ch == '\U{2028}' || ch == '\U{2029}'
    || ch == '\U{202F}' || ch == '\U{205F}' || ch == '\U{3000}'
  }

  predicate IsChoice(ch: char) { ch == '|' }
  predicate StartsArrow(ch: char) { ch == '-' || ch == '=' }
  predicate CompletesArrow(ch: char) { ch == '>' }
  predicate IsEmpty(ch: char) { ch == 'ε' }

  /** The character classes the scanner tests after white space are pairwise disjoint and contain no white space. */
  lemma ClassesApart(ch: char)
    ensures StartsArrow(ch) || IsEmpty(ch) || IsChoice(ch) ==> !IsWhiteSpace(ch) && !IsEndOfLine(ch)
    ensures StartsArrow(ch) ==> !IsEmpty(ch) && !IsChoice(ch)
    ensures IsEmpty(ch) ==> !IsChoice(ch)
  {
  }

  /** A character that ends a word. */
  predicate IsDelimiter(ch: char) { IsEndOfLine(ch) || IsWhiteSpace(ch) || IsChoice(ch) }

  /** The first index at or after `i` holding a delimiter, or the length of `s`. */
  function RunEnd(s: string, i: nat): (j: nat)
    requires i <= |s|
    ensures i <= j <= |s|
    ensures forall k :: i <= k < j ==> !IsDelimiter(s[k])
    ensures j < |s| ==> IsDelimiter(s[j])
    decreases |s| - i
  {
    if i == |s| || IsDelimiter(s[i]) then i else RunEnd(s, i + 1)
  }

  /** A STRING token from index n to the next delimiter at or after m, and the index of its last character. */
  function Word(s: string, n: nat, m: nat): (r: (Token, int))
    requires n < m <= |s|
    ensures m - 1 <= r.1 < |s| && r.0 == Token(String, s[n .. r.1 + 1])
    ensures r.1 + 1 == |s| || IsDelimiter(s[r.1 + 1])
  {
    var j := RunEnd(s, m);
    (Token(String, s[n .. j]), j - 1)
  }

  /** The token that starts with an arrow character at index n: an arrow when `>` follows, else a word. */
  function ScanArrow(s: string, n: nat): (r: (Token, int))
    requires n < |s| && StartsArrow(s[n])
    ensures n <= r.1 < |s| && r.0.kind != EndOfFile && r.0.value == s[n .. r.1 + 1]
    ensures r.0.kind == String ==> r.1 + 1 == |s| || IsDelimiter(s[r.1 + 1])
    ensures r.0.kind == Arrow || r.0.kind == String
    ensures r.0.kind == Arrow <==> n + 1 < |s| && CompletesArrow(s[n + 1])
    ensures r.0.kind == Arrow ==> r.1 == n + 1
    ensures n + 1 == |s| ==> r == (FromChar(s[n], String), n)
    ensures n + 1 < |s| && !CompletesArrow(s[n + 1]) ==> r.1 >= n + 1
  {
    if n + 1 == |s| then (FromChar(s[n], String), n)
    else if CompletesArrow(s[n + 1]) then (Token(Arrow, s[n .. n + 2]), n + 1)
    else Word(s, n, n + 2)
  }

  /** An arrow character not followed by `>` starts a word that keeps both characters. */
  lemma ArrowStartsWord(s: string, n: nat)
    requires n + 1 < |s| && StartsArrow(s[n]) && !CompletesArrow(s[n + 1])
    ensures ScanArrow(s, n) == (Token(String, [s[n]] + s[n + 1 .. RunEnd(s, n + 2)]), RunEnd(s, n + 2) - 1)
  {
    var j := RunEnd(s, n + 2);
    assert [s[n]] + s[n + 1 .. j] == s[n .. j];
  }

  /**
   * One call of the scanner on `s` with the cursor at `p` (the index of the
   * last character read, -1 before the first): the token returned and the
   * cursor afterwards.
   */
  function Scan(s: string, p: int): (r: (Token, int))
    requires p >= -1
    ensures r.1 >= p + 1
    ensures r.0.kind == EndOfFile <==> p + 1 >= |s|
    ensures r.0.kind == EndOfFile ==> r.0 == EndToken && r.1 == p + 1
    ensures r.0.kind != EndOfFile ==> r.1 < |s| && r.0.value == s[p + 1 .. r.1 + 1]
    ensures r.0.kind == String ==> r.1 + 1 == |s| || IsDelimiter(s[r.1 + 1])
    ensures r.0.kind == EndOfLine <==> p + 1 < |s| && IsEndOfLine(s[p + 1])
    ensures r.0.kind == WhiteSpace <==> p + 1 < |s| && !IsEndOfLine(s[p + 1]) && IsWhiteSpace(s[p + 1])
    ensures r.0.kind == Empty <==> p + 1 < |s| && IsEmpty(s[p + 1])
    ensures r.0.kind == Choice <==> p + 1 < |s| && IsChoice(s[p + 1])
    ensures r.0.kind == Arrow <==> p + 2 < |s| && StartsArrow(s[p + 1]) && CompletesArrow(s[p + 2])
    ensures r.0.kind in {EndOfLine, WhiteSpace, Empty, Choice} ==> r.1 == p + 1
    ensures p + 1 < |s| && StartsArrow(s[p + 1]) ==> r == ScanArrow(s, p + 1)
    ensures p + 1 < |s| && !IsDelimiter(s[p + 1]) && !StartsArrow(s[p + 1]) && !IsEmpty(s[p + 1]) ==>
              r.0.kind == String && r.0.value == s[p + 1 .. RunEnd(s, p + 2)]
  {
    var n := p + 1;
    if n >= |s| then (EndToken, n)
    else
      var c := s[n];
      ClassesApart(c);
      if IsEndOfLine(c) then (FromChar(c, EndOfLine), n)
      else if IsWhiteSpace(c) then (FromChar(c, WhiteSpace), n)
      else if StartsArrow(c) then ScanArrow(s, n)
      else if IsEmpty(c) then (FromChar(c, Empty), n)
      else if IsChoice(c) then (FromChar(c, Choice), n)
      else Word(s, n, n + 1)
  }

  /** Calling the scanner until it returns end of input, that last token included. */
  function TokenizeFrom(s: string, p: int): (ts: seq<Token>)
    requires p >= -1
    ensures |ts| >= 1 && ts[|ts| - 1] == EndToken
    ensures forall i :: 0 <= i < |ts| - 1 ==> ts[i].kind != EndOfFile
    decreases |s| - p
  {
    var (t, q) := Scan(s, p);
    if t.kind == EndOfFile then [t] else [t] + TokenizeFrom(s, q)
  }

  function Tokenize(s: string): seq<Token> { TokenizeFrom(s, -1) }

  /** The texts of a token sequence, concatenated. */
  function Text(ts: seq<Token>): string {
    if ts == [] then "" else ts[0].value + Text(ts[1..])
  }

  /** Scanning loses no character and invents none: the token texts spell the input again. */
  lemma {:induction false} TextOfTokenizeFrom(s: string, p: int)
    requires -1 <= p < |s|
    ensures Text(TokenizeFrom(s, p)) == s[p + 1 ..]
    decreases |s| - p
  {
    var r := Scan(s, p);
    var t, q := r.0, r.1;
    if t.kind == EndOfFile {
      assert TokenizeFrom(s, p) == [t];
      assert Text([t]) == t.value + Text([]);
    } else {
      var rest := TokenizeFrom(s, q);
      assert TokenizeFrom(s, p) == [t] + rest;
      TextOfTokenizeFrom(s, q);
      TextOfCons(t, rest, s, p + 1, q + 1);
    }
  }

  /** A token spelling `s[i .. j]` followed by tokens spelling `s[j ..]` spells `s[i ..]`. */
  lemma TextOfCons(t: Token, rest: seq<Token>, s: string, i: nat, j: nat)
    requires i <= j <= |s| && t.value == s[i .. j] && Text(rest) == s[j ..]
    ensures Text([t] + rest) == s[i ..]
  {
    assert ([t] + rest)[1..] == rest;
    assert s[i .. j] + s[j ..] == s[i ..];
  }

  lemma TextOfTokenize(s: string)
    ensures Text(Tokenize(s)) == s
  {
    TextOfTokenizeFrom(s, -1);
  }

  /** The scanner over a string; `position` is the cursor, `cache` the token under construction. */
  class StringLexer {
    const grammar: string
    var position: int
    var cache: string

    /** Between calls the cursor is at -1 or beyond and the cache is empty. */
    ghost predicate Valid() reads this {
      position >= -1 && cache == ""
    }

    constructor (grammar: string)
      ensures this.grammar == grammar && position == -1 && Valid()
    {
      this.grammar := grammar;
      position := -1;
      cache := "";
    }

    /** Advances the cursor; yields the character under it while it is inside the string. */
    method GetNextChar() returns (ch: Option<char>)
      requires position >= -1
      modifies this`position
      ensures position == old(position) + 1
      ensures ch.Some? <==> position < |grammar|
      ensures ch.Some? ==> ch.value == grammar[position]
    {
      position := position + 1;
      if position < |grammar| {
        ch := Some(grammar[position]);
      } else {
        ch := None;
      }
    }

    /** Moves the cursor back by one, except at index 0. */
    method PreviousPosition() returns (moved: bool)
      modifies this`position
      ensures moved <==> old(position) != 0
      ensures position == if moved then old(position) - 1 else old(position)
    {
      if position == 0 {
        return false;
      }
      position := position - 1;
      return true;
    }

    /** The next token of the grammar text. */
    method Next() returns (t: Token)
      requires Valid()
      modifies this`position, this`cache
      ensures Valid()
      ensures (t, position) == Scan(grammar, old(position))
    {
      var next := GetNextChar();
      if next.None? {
        return OfKind(EndOfFile);
      }
      var ch := next.value;
      ghost var n := position;
      assert n == old(position) + 1 && n < |grammar| && grammar[n] == ch;
      if IsEndOfLine(ch) {
        t := FromChar(ch, EndOfLine);
      } else if IsWhiteSpace(ch) {
        t := FromChar(ch, WhiteSpace);
      } else if StartsArrow(ch) {
        t := ArrowToken(ch);
      } else if IsEmpty(ch) {
        t := FromChar(ch, Empty);
      } else if IsChoice(ch) {
        t := FromChar(ch, Choice);
      } else {
        t := GetStringToken(ch);
        assert position == RunEnd(grammar, n + 1) - 1;
        assert t.value == grammar[n .. position + 1];
        assert (t, position) == Word(grammar, n, n + 1);
      }
    }

    /** The token after an arrow character under the cursor: an arrow when `>` follows, else a word. */
    method ArrowToken(ch: char) returns (t: Token)
      requires 0 <= position < |grammar| && grammar[position] == ch && StartsArrow(ch) && cache == ""
      modifies this`position, this`cache
      ensures cache == ""
      ensures (t, position) == ScanArrow(grammar, old(position))
    {
      ghost var n := position;
      cache := cache + [ch];
      var next := GetNextChar();
      if next.None? {
        t := Token(String, cache);
        cache := "";
        var _ := PreviousPosition();
        assert position == n && n + 1 == |grammar|;
        assert t == FromChar(ch, String);
      } else if CompletesArrow(next.value) {
        cache := cache + [next.value];
        t := Token(Arrow, cache);
        cache := "";
        assert position == n + 1 && t.value == grammar[n .. n + 2];
      } else {
        assert position == n + 1 && cache == [grammar[n]];
        t := GetStringToken(next.value);
        ArrowStartsWord(grammar, n);
      }
    }

    /**
     * Appends `ch` (the character under the cursor) and every following
     * character up to the next delimiter to the cache, returns the cache as a
     * STRING token and leaves the cursor before the delimiter.
     */
    method GetStringToken(ch: char) returns (t: Token)
      requires 0 <= position < |grammar| && grammar[position] == ch
      modifies this`position, this`cache
      ensures cache == ""
      ensures position == RunEnd(grammar, old(position) + 1) - 1
      ensures t == Token(String, old(cache) + grammar[old(position) .. position + 1])
    {
      ghost var start := position;
      var c := ch;
      while true
        invariant start <= position < |grammar| && grammar[position] == c
        invariant cache == old(cache) + grammar[start .. position]
        invariant forall k :: start < k <= position ==> !IsDelimiter(grammar[k])
        decreases |grammar| - position
      {
        cache := cache + [c];
        var next := GetNextChar();
        if next.None? {
          break;
        }
        c := next.value;
        if IsDelimiter(c) {
          break;
        }
      }
      assert cache == old(cache) + grammar[start .. position];
      t := Token(String, cache);
      cache := "";
      var _ := PreviousPosition();
    }
  }
}
