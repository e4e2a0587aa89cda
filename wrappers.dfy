/**
 * Option and Result values used across the model. The source reports its
 * error conditions by throwing; here every such condition is a `Fault`
 * carried by `Err`.
 */
module Wrappers {

  datatype Option<T> = None | Some(value: T)

  /** The kinds of exception the modelled code can raise. */
  datatype Fault =
    | SyntaxError          // a second arrow inside one production
    | HeadNotSingle        // a production head that is not exactly one token
    | BodyNotString        // a body token whose type is not STRING
    | EmptyGrammar         // the first production of an empty grammar
    | KeyNotFound          // a dictionary lookup of an absent key
    | UnexpectedSymbol     // a token that is neither terminal, nonterminal nor EOF
    | DuplicateProduction  // a production whose head and body are already a key
    | ReduceReduce         // two reductions in one cell or row
    | ShiftReduce          // a shift and a reduction in one cell or row
    | NullAmbiguity        // two nullable productions for one nonterminal
    | FirstSetClash        // two productions of one head start with one token
    | FirstFollowClash     // FIRST and FOLLOW of a nullable nonterminal meet
    | InvalidCast          // a kernel item of the wrong item class
    | DuplicateKey         // Dictionary.Add of an already present token

  datatype Result<T> = Ok(value: T) | Err(error: Fault)
  {
    predicate IsFailure() { Err? }
    function PropagateFailure<U>(): Result<U> requires Err? { Err(error) }
    function Extract(): T requires Ok? { value }
  }

  /** Appends `x` unless it is already present: HashSet.Add on an insertion-ordered set. */
  function AddUnique<T(==)>(s: seq<T>, x: T): (r: seq<T>)
    ensures x in r && (forall i :: 0 <= i < |s| ==> s[i] in r)
    ensures forall i :: 0 <= i < |r| ==> r[i] in s || r[i] == x
    ensures x in s ==> r == s
    ensures x !in s ==> r == s + [x]
  {
    if x in s then s else s + [x]
  }

  /** No element occurs twice. */
  predicate Distinct<T(==)>(s: seq<T>) {
    forall i, j :: 0 <= i < j < |s| ==> s[i] != s[j]
  }

  lemma DistinctAddUnique<T>(s: seq<T>, x: T)
    requires Distinct(s)
    ensures Distinct(AddUnique(s, x))
    ensures forall y :: y in AddUnique(s, x) <==> y in s || y == x
  {
  }
}
