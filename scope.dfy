/**
 * The scope tracker of parser.py: an insertion-ordered dictionary from
 * (function, variable) to the most recent reference of that variable in that
 * function, plus the name of the function being traversed.
 */
module Scope {
  import opened Wrappers

  /** A dictionary key: (function name, variable name). */
  type Key = (string, string)

  /** One recorded use of a variable in a function (a mutable dataclass in the source). */
  datatype VariableReference = VariableReference(functionName: string, variableName: string, lineNumber: int)

  /** One record of the `deallocations` list: where to release which variable. */
  datatype DeallocationPoint = DeallocationPoint(functionName: string, lineNumber: int, variableName: string)

  function KeyOf(r: VariableReference): Key
  {
    (r.functionName, r.variableName)
  }

  /**
   * The value of a tracker: the dictionary's keys in insertion order, the
   * dictionary itself, and `current_function`.
   */
  datatype Tracker = Tracker(order: seq<Key>, refs: map<Key, VariableReference>, current: string)

  predicate Distinct<T(==)>(s: seq<T>)
  {
    forall i, j :: 0 <= i < j < |s| ==> s[i] != s[j]
  }

  /**
   * The order lists each key of the dictionary exactly once, and every entry
   * is stored under its own (function, variable) pair.
   */
  predicate WellFormed(t: Tracker)
  {
    && Distinct(t.order)
    && (forall k :: k in t.order ==> k in t.refs)
    && (forall k :: k in t.refs ==> k in t.order)
    && (forall k :: k in t.refs ==> KeyOf(t.refs[k]) == k)
  }

  /** A fresh tracker: no references, `current_function` empty. */
  const Initial := Tracker([], map[], "")

  /**
   * `add_reference`: store a reference with exactly the current function,
   * the variable and the line, overwriting any earlier one. A new key goes
   * to the end of the order; an existing key keeps its place.
   */
  function Add(t: Tracker, variable: string, line: int): (r: Tracker)
    ensures r.current == t.current
    ensures (t.current, variable) in r.refs
    ensures r.refs[(t.current, variable)] == VariableReference(t.current, variable, line)
    ensures forall k :: k != (t.current, variable) ==> (k in r.refs <==> k in t.refs)
    ensures forall k :: k != (t.current, variable) && k in t.refs ==> r.refs[k] == t.refs[k]
    ensures t.order <= r.order && |r.order| <= |t.order| + 1
    ensures WellFormed(t) && (t.current, variable) in t.refs ==> r.order == t.order
    ensures WellFormed(t) ==> WellFormed(r)
  {
    var key := (t.current, variable);
    Tracker(if key in t.refs then t.order else t.order + [key],
            t.refs[key := VariableReference(t.current, variable, line)],
            t.current)
  }

  /**
   * `update_reference_line`: on a present key only that entry's line
   * changes; on an absent key nothing changes. Keys and order never change.
   */
  function UpdateLine(t: Tracker, variable: string, line: int): (r: Tracker)
    ensures r.order == t.order && r.current == t.current && r.refs.Keys == t.refs.Keys
    ensures forall k :: k in t.refs && k != (t.current, variable) ==> r.refs[k] == t.refs[k]
    ensures (t.current, variable) in t.refs ==>
      && r.refs[(t.current, variable)].lineNumber == line
      && KeyOf(r.refs[(t.current, variable)]) == KeyOf(t.refs[(t.current, variable)])
    ensures (t.current, variable) !in t.refs ==> r == t
    ensures WellFormed(t) ==> WellFormed(r)
  {
    var key := (t.current, variable);
    if key in t.refs then t.(refs := t.refs[key := t.refs[key].(lineNumber := line)]) else t
  }

  /** `get_reference`: the stored entry for (current function, variable), or None. */
  function Lookup(t: Tracker, variable: string): (r: Option<VariableReference>)
    ensures r.Some? <==> (t.current, variable) in t.refs
    ensures r.Some? ==> r.value == t.refs[(t.current, variable)]
    ensures WellFormed(t) && r.Some? ==> r.value.functionName == t.current && r.value.variableName == variable
  {
    var key := (t.current, variable);
    if key in t.refs then Some(t.refs[key]) else None
  }

  /** A reference the loop exit widens: it belongs to `fn` and its line lies in `[lo, hi]`. */
  predicate InLoop(r: VariableReference, fn: string, lo: int, hi: int)
  {
    r.functionName == fn && lo <= r.lineNumber <= hi
  }

  /** The effect of leaving a `for` or `while` statement spanning lines `[lo, hi]`. */
  function Widen(t: Tracker, lo: int, hi: int): (r: Tracker)
    ensures r.order == t.order && r.current == t.current && r.refs.Keys == t.refs.Keys
    ensures WellFormed(t) ==> WellFormed(r)
  {
    Tracker(t.order,
            map k | k in t.refs :: if InLoop(t.refs[k], t.current, lo, hi) then t.refs[k].(lineNumber := hi) else t.refs[k],
            t.current)
  }

  /**
   * Leaving the loop: every reference of the current function whose line
   * lies in `[lo, hi]` now ends at `hi`; all other references are
   * untouched; names never change and no line moves backwards; so no
   * reference of the current function is left strictly inside the loop.
   */
  lemma WidenMeaning(t: Tracker, lo: int, hi: int)
    ensures var r := Widen(t, lo, hi);
      && (forall k :: k in t.refs ==> KeyOf(r.refs[k]) == KeyOf(t.refs[k]))
      && (forall k :: k in t.refs && InLoop(t.refs[k], t.current, lo, hi) ==> r.refs[k].lineNumber == hi)
      && (forall k :: k in t.refs && !InLoop(t.refs[k], t.current, lo, hi) ==> r.refs[k] == t.refs[k])
      && (forall k :: k in t.refs ==> r.refs[k].lineNumber >= t.refs[k].lineNumber)
      && (forall k :: k in r.refs && r.refs[k].functionName == r.current ==> !(lo <= r.refs[k].lineNumber < hi))
  {
  }

  /** The `ScopeTracker` object: its dictionary, its `deallocations` list and `current_function`. */
  class ScopeTracker {
    var order: seq<Key>
    var references: map<Key, VariableReference>
    var deallocations: seq<DeallocationPoint>
    var currentFunction: string

    function State(): Tracker
      reads this
    {
      Tracker(order, references, currentFunction)
    }

    ghost predicate Valid()
      reads this
    {
      WellFormed(State())
    }

    constructor ()
      ensures Valid() && State() == Initial && deallocations == []
    {
      order := [];
      references := map[];
      deallocations := [];
      currentFunction := "";
    }

    method AddReference(variable: string, line: int)
      requires Valid()
      modifies this
      ensures Valid() && State() == Add(old(State()), variable, line)
      ensures deallocations == old(deallocations)
    {
      var key := (currentFunction, variable);
      if key !in references {
        order := order + [key];
      }
      references := references[key := VariableReference(currentFunction, variable, line)];
    }

    method UpdateReferenceLine(variable: string, line: int)
      requires Valid()
      modifies this
      ensures Valid() && State() == UpdateLine(old(State()), variable, line)
      ensures deallocations == old(deallocations)
    {
      var key := (currentFunction, variable);
      if key in references {
        var ref := references[key];
        references := references[key := ref.(lineNumber := line)];
      }
    }

    method GetReference(variable: string) returns (r: Option<VariableReference>)
      ensures r == Lookup(State(), variable)
    {
      var key := (currentFunction, variable);
      r := if key in references then Some(references[key]) else None;
    }
  }
}
