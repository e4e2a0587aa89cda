/**
 * LR automaton states and the ordered state list. A state has a fixed index,
 * a kernel, its closure (`items`) and its transitions; a transition names its
 * target by the target's index, which is also its position in the automaton.
 */
module States {
  import opened Wrappers
  import opened Tokens
  import opened Items

  datatype State = State(flavour: Flavour, index: nat, kernel: seq<Item>, items: seq<Item>, transitions: map<Token, nat>)

  /** `new State(index, kernel)`: no closure and no transitions yet. */
  function NewState(flavour: Flavour, index: nat, kernel: seq<Item>): (s: State)
    ensures s.index == index && s.kernel == kernel && s.items == [] && s.transitions == map[]
  {
    State(flavour, index, kernel, [], map[])
  }

  /** `AddKernel`: an item of another item class is an invalid cast; the index never changes. */
  function AddKernel(s: State, item: Item): (r: Result<State>)
    ensures r.Ok? <==> item.flavour == s.flavour
    ensures r.Err? ==> r.error == InvalidCast
    ensures r.Ok? ==> r.value.kernel == s.kernel + [item] && r.value.index == s.index &&
                      r.value.items == s.items && r.value.transitions == s.transitions && r.value.flavour == s.flavour
  {
    if item.flavour != s.flavour then Err(InvalidCast) else Ok(s.(kernel := s.kernel + [item]))
  }

  /** `AddItem`: as `AddKernel`, on the closure items. */
  function AddItem(s: State, item: Item): (r: Result<State>)
    ensures r.Ok? <==> item.flavour == s.flavour
    ensures r.Err? ==> r.error == InvalidCast
    ensures r.Ok? ==> r.value.items == s.items + [item] && r.value.index == s.index &&
                      r.value.kernel == s.kernel && r.value.transitions == s.transitions && r.value.flavour == s.flavour
  {
    if item.flavour != s.flavour then Err(InvalidCast) else Ok(s.(items := s.items + [item]))
  }

  /** `Equals(State)`: equal kernels, equal closures and equal indices, under the item class's own equality. */
  predicate StateEquals(s: State, t: State) {
    s.flavour == t.flavour && s.index == t.index &&
    OrderlessEqual(ComparisonOf(s.flavour), s.kernel, t.kernel) &&
    OrderlessEqual(ComparisonOf(s.flavour), s.items, t.items)
  }

  /**
   * `Equals(IState<BaseLR0KernelItem>)`: the closures alone are compared, as
   * kernels of the state's own item class (a closure of another class is never equal).
   */
  predicate ItemsEqual(s: State, t: State) {
    s.flavour == t.flavour && OrderlessEqual(ComparisonOf(s.flavour), s.items, t.items)
  }

  /** No state before position `j` has closure items equal to the query's. */
  predicate NoItemsEqualBefore(states: seq<State>, query: State, j: int) {
    forall i | 0 <= i < j && i < |states| :: !ItemsEqual(query, states[i])
  }

  /** No state before position `j` equals `s`. */
  predicate NoStateEqualBefore(states: seq<State>, s: State, j: int) {
    forall i | 0 <= i < j && i < |states| :: !StateEquals(s, states[i])
  }

  /** `Automaton<TKernelItem>`: the ordered list of states. */
  class Automaton {
    var states: seq<State>

    constructor ()
      ensures states == []
    {
      states := [];
    }

    /** `Add` appends; the indexer and enumeration follow insertion order. */
    method Add(s: State)
      modifies this
      ensures states == old(states) + [s]
    {
      states := states + [s];
    }

    /** `IndexOf(IState<BaseLR0KernelItem>)`: the first state whose closure equals the query's, or -1. */
    method IndexOf(query: State) returns (r: int)
      ensures -1 <= r < |states|
      ensures r == -1 <==> forall i | 0 <= i < |states| :: !ItemsEqual(query, states[i])
      ensures r >= 0 ==> ItemsEqual(query, states[r]) && NoItemsEqualBefore(states, query, r)
    {
      var i := 0;
      while i < |states|
        invariant 0 <= i <= |states|
        invariant NoItemsEqualBefore(states, query, i)
      {
        if ItemsEqual(query, states[i]) {
          return i;
        }
        i := i + 1;
      }
      return -1;
    }

    /** `Remove`: drops the first state equal to `s`, if any, and reports whether it did. */
    method Remove(s: State) returns (removed: bool)
      modifies this
      ensures removed <==> exists i | 0 <= i < |old(states)| :: StateEquals(s, old(states)[i])
      ensures !removed ==> states == old(states)
      ensures removed ==> exists i | 0 <= i < |old(states)| ::
                (StateEquals(s, old(states)[i]) && NoStateEqualBefore(old(states), s, i) &&
                 states == old(states)[..i] + old(states)[i + 1..])
    {
      var i := 0;
      while i < |states|
        invariant 0 <= i <= |states|
        invariant NoStateEqualBefore(states, s, i)
      {
        if StateEquals(s, states[i]) {
          states := states[..i] + states[i + 1..];
          return true;
        }
        i := i + 1;
      }
      return false;
    }
  }
}
