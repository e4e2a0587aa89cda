/**
 * Grammar tokens: a token type together with the text it was read from.
 * Equality is structural, exactly as the token struct compares its two fields.
 */
module Tokens {

  datatype TokenType = String | Arrow | WhiteSpace | EndOfLine | Choice | EndOfFile | Empty

  datatype Token = Token(kind: TokenType, value: string)

  /** A token of the given type carrying one character. */
  function FromChar(ch: char, kind: TokenType): (t: Token)
    ensures t.kind == kind && |t.value| == 1 && t.value[0] == ch
  {
    Token(kind, [ch])
  }

  /** A token of the given type with the empty string as its value. */
  function OfKind(kind: TokenType): (t: Token)
    ensures t.kind == kind && |t.value| == 0
  {
    Token(kind, "")
  }

  /** The end-of-input marker as the lexer produces it. */
  const EndToken: Token := OfKind(EndOfFile)

  /** Value equality of tokens; `==` and `!=` on tokens are this relation and its negation. */
  function Equals(a: Token, b: Token): (r: bool)
    ensures r <==> a == b
  {
    a.kind == b.kind && a.value == b.value
  }

  function NotEquals(a: Token, b: Token): (r: bool)
    ensures r <==> a != b
  {
    !Equals(a, b)
  }

  /** The implicit conversion from a string: "$" denotes end of input. */
  function FromString(s: string): (t: Token)
    ensures t.kind == EndOfFile <==> s == "$"
    ensures t.kind == EndOfFile ==> t == EndToken
    ensures t.kind != EndOfFile ==> t.kind == String && t.value == s
  {
    if s == "$" then EndToken else Token(String, s)
  }

  /** The printed form: "$" for end of input, the value otherwise. */
  function ToString(t: Token): (s: string)
    ensures t.kind == EndOfFile ==> s == "$"
    ensures t.kind != EndOfFile ==> s == t.value
  {
    if t.kind == EndOfFile then "$" else t.value
  }

  /** Printing the converted string gives the string back, for every string. */
  lemma StringRoundTrip(s: string)
    ensures ToString(FromString(s)) == s
  {
  }

  /** Converting a token to a string and back gives the token back. */
  lemma TokenRoundTrip(t: Token)
    requires t == EndToken || (t.kind == String && t.value != "$")
    ensures FromString(ToString(t)) == t
  {
  }

  /** The round trip fails for the STRING token "$", which reads back as end of input. */
  lemma DollarIsNotAString()
    ensures FromString(ToString(Token(String, "$"))) == EndToken
    ensures FromString(ToString(Token(String, "$"))) != Token(String, "$")
  {
  }
}
