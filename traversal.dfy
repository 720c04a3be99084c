/**
 * `traverse_ast` of parser.py: a pre-order walk over the syntax tree that
 * records every reference to a variable declaration and, on leaving a `for`
 * or `while` statement, widens the references inside it to its last line.
 * The tree comes from the C front end, which is not part of this model: it
 * is an input here.
 */
module Traversal {
  import opened Scope

  /** The node kinds the walk distinguishes; every other kind is `Other`. */
  datatype Kind = FunctionDecl | ForStmt | WhileStmt | DeclRefExpr | Other

  /**
   * A syntax-tree node: its kind, spelling, the line where it starts, the
   * line where its extent ends, whether it is a reference whose declaration
   * is a `VAR_DECL`, and its children in order.
   */
  datatype Node = Node(kind: Kind, spelling: string, line: int, endLine: int, refersToVarDecl: bool, children: seq<Node>)

  predicate IsLoop(n: Node)
  {
    n.kind == ForStmt || n.kind == WhileStmt
  }

  predicate RecordsReference(n: Node)
  {
    n.kind == DeclRefExpr && n.refersToVarDecl
  }

  /** The function in force after visiting `n`: a function declaration names it, anything else keeps it. */
  function FunctionAfter(n: Node, current: string): string
  {
    if n.kind == FunctionDecl then n.spelling else current
  }

  /** What visiting `n` does before its children: switch function, then record a reference. */
  function Enter(n: Node, t: Tracker): (r: Tracker)
    ensures r.current == FunctionAfter(n, t.current)
    ensures r.refs.Keys == t.refs.Keys + (if RecordsReference(n) then {(r.current, n.spelling)} else {})
    ensures t.order <= r.order
    ensures RecordsReference(n) ==> r.refs[(r.current, n.spelling)] == VariableReference(r.current, n.spelling, n.line)
    ensures forall k :: k in t.refs && (!RecordsReference(n) || k != (r.current, n.spelling)) ==> r.refs[k] == t.refs[k]
  {
    var t1 := t.(current := FunctionAfter(n, t.current));
    if RecordsReference(n) then Add(t1, n.spelling, n.line) else t1
  }

  /** The tracker after `traverse_ast(n, ·)` starting from `t`. */
  function Traverse(n: Node, t: Tracker): (r: Tracker)
    ensures t.refs.Keys <= r.refs.Keys
    ensures t.order <= r.order
    decreases n, |n.children| + 1
  {
    var c := TraverseChildren(n, |n.children|, Enter(n, t));
    if IsLoop(n) then Widen(c, n.line, n.endLine) else c
  }

  /** The tracker after traversing the first `i` children of `n`, in order. */
  function TraverseChildren(n: Node, i: nat, t: Tracker): (r: Tracker)
    requires i <= |n.children|
    ensures t.refs.Keys <= r.refs.Keys
    ensures t.order <= r.order
    decreases n, i
  {
    if i == 0 then t else Traverse(n.children[i - 1], TraverseChildren(n, i - 1, t))
  }

  /** `traverse_ast`, with the tracker updated in place. */
  method TraverseAst(node: Node, tracker: ScopeTracker)
    requires tracker.Valid()
    modifies tracker
    ensures tracker.Valid()
    ensures tracker.State() == Traverse(node, old(tracker.State()))
    ensures tracker.deallocations == old(tracker.deallocations)
    decreases node
  {
    if node.kind == FunctionDecl {
      tracker.currentFunction := node.spelling;
    }
    if node.kind == DeclRefExpr && node.refersToVarDecl {
      tracker.AddReference(node.spelling, node.line);
    }
    ghost var entered := tracker.State();
    for i := 0 to |node.children|
      invariant tracker.Valid()
      invariant tracker.State() == TraverseChildren(node, i, entered)
      invariant tracker.deallocations == old(tracker.deallocations)
    {
      TraverseAst(node.children[i], tracker);
    }
    if node.kind == ForStmt || node.kind == WhileStmt {
      WidenReferences(tracker, node.line, node.endLine);
    }
  }

  /**
   * The exit step of `traverse_ast` for a loop statement: walk the
   * dictionary's entries in order and move each reference of the current
   * function whose line lies in `[startLine, endLine]` to `endLine`.
   */
  method WidenReferences(tracker: ScopeTracker, startLine: int, endLine: int)
    requires tracker.Valid()
    modifies tracker
    ensures tracker.Valid()
    ensures tracker.State() == Widen(old(tracker.State()), startLine, endLine)
    ensures tracker.deallocations == old(tracker.deallocations)
  {
    ghost var before := tracker.State();
    ghost var widened := Widen(before, startLine, endLine);
    var keys := tracker.order;
    for i := 0 to |keys|
      invariant tracker.Valid()
      invariant tracker.order == keys && tracker.currentFunction == before.current
      invariant tracker.references.Keys == before.refs.Keys
      invariant forall k :: k in before.refs ==>
        tracker.references[k] == if k in keys[..i] then widened.refs[k] else before.refs[k]
      invariant tracker.deallocations == old(tracker.deallocations)
    {
      assert keys[..i + 1] == keys[..i] + [keys[i]];
      assert keys[i] !in keys[..i];
      var ref := tracker.references[keys[i]];
      if ref.functionName == tracker.currentFunction && startLine <= ref.lineNumber <= endLine {
        tracker.UpdateReferenceLine(ref.variableName, endLine);
      }
    }
    assert keys[..|keys|] == keys;
    assert tracker.references == widened.refs;
  }

  /** The walk keeps the dictionary well-formed: each key listed once in order and stored under its own names. */
  lemma {:induction false} TraverseKeepsWellFormed(n: Node, t: Tracker)
    ensures WellFormed(t) ==> WellFormed(Traverse(n, t))
    decreases n, |n.children| + 1
  {
    TraverseChildrenKeepWellFormed(n, |n.children|, Enter(n, t));
  }

  lemma {:induction false} TraverseChildrenKeepWellFormed(n: Node, i: nat, t: Tracker)
    requires i <= |n.children|
    ensures WellFormed(t) ==> WellFormed(TraverseChildren(n, i, t))
    decreases n, i
  {
    if i > 0 {
      TraverseChildrenKeepWellFormed(n, i - 1, t);
      TraverseKeepsWellFormed(n.children[i - 1], TraverseChildren(n, i - 1, t));
    }
  }

  /** The tracker after main's loop over the first `i` top-level nodes, which walks only function declarations. */
  function TraverseUnit(unit: seq<Node>, i: nat, t: Tracker): (r: Tracker)
    requires i <= |unit|
    ensures t.refs.Keys <= r.refs.Keys
    ensures t.order <= r.order
    ensures WellFormed(t) ==> WellFormed(r)
  {
    if i == 0 then t
    else
      var p := TraverseUnit(unit, i - 1, t);
      if unit[i - 1].kind == FunctionDecl then
        TraverseKeepsWellFormed(unit[i - 1], p);
        Traverse(unit[i - 1], p)
      else p
  }

  // ---------------------------------------------------------------------
  // Which keys the walk adds: an independent, flat description.
  // ---------------------------------------------------------------------

  /** The nodes of the tree rooted at `n` in pre-order: the order in which the walk visits them. */
  function PreOrder(n: Node): (ns: seq<Node>)
    ensures ns != [] && ns[0] == n
    decreases n, |n.children| + 1
  {
    [n] + PreOrderChildren(n, |n.children|)
  }

  function PreOrderChildren(n: Node, i: nat): seq<Node>
    requires i <= |n.children|
    decreases n, i
  {
    if i == 0 then [] else PreOrderChildren(n, i - 1) + PreOrder(n.children[i - 1])
  }

  /** The function in force after visiting the nodes `ns` in order, starting in `current`. */
  function ScanFunction(ns: seq<Node>, current: string): string
  {
    if ns == [] then current else ScanFunction(ns[1..], FunctionAfter(ns[0], current))
  }

  /**
   * The keys recorded while visiting `ns` in order: one (function in force,
   * spelling) pair per reference to a variable declaration.
   */
  function ScanKeys(ns: seq<Node>, current: string): set<Key>
  {
    if ns == [] then {}
    else
      var f := FunctionAfter(ns[0], current);
      (if RecordsReference(ns[0]) then {(f, ns[0].spelling)} else {}) + ScanKeys(ns[1..], f)
  }

  lemma {:induction false} ScanAppend(a: seq<Node>, b: seq<Node>, current: string)
    ensures ScanFunction(a + b, current) == ScanFunction(b, ScanFunction(a, current))
    ensures ScanKeys(a + b, current) == ScanKeys(a, current) + ScanKeys(b, ScanFunction(a, current))
    decreases |a|
  {
    if a == [] {
      assert a + b == b;
    } else {
      assert (a + b)[0] == a[0] && (a + b)[1..] == a[1..] + b;
      ScanAppend(a[1..], b, FunctionAfter(a[0], current));
    }
  }

  /** Scanning the first `i` children's subtrees is scanning the first `i - 1`, then the `i`-th. */
  lemma ScanChildrenStep(n: Node, i: nat, current: string)
    requires 0 < i <= |n.children|
    ensures var a := PreOrderChildren(n, i - 1);
      && ScanFunction(PreOrderChildren(n, i), current) == ScanFunction(PreOrder(n.children[i - 1]), ScanFunction(a, current))
      && ScanKeys(PreOrderChildren(n, i), current)
         == ScanKeys(a, current) + ScanKeys(PreOrder(n.children[i - 1]), ScanFunction(a, current))
  {
    ScanAppend(PreOrderChildren(n, i - 1), PreOrder(n.children[i - 1]), current);
  }

  /**
   * The walk only adds keys, and it adds exactly one key per reference to a
   * variable declaration, under the function in force when that reference is
   * visited; the function in force at the end is the last declared one.
   */
  lemma {:induction false} TraverseKeys(n: Node, t: Tracker)
    ensures Traverse(n, t).refs.Keys == t.refs.Keys + ScanKeys(PreOrder(n), t.current)
    ensures Traverse(n, t).current == ScanFunction(PreOrder(n), t.current)
    decreases n, |n.children| + 1
  {
    var e := Enter(n, t);
    TraverseChildrenKeys(n, |n.children|, e);
    var rest := PreOrderChildren(n, |n.children|);
    assert PreOrder(n)[1..] == rest;
  }

  lemma {:induction false} TraverseChildrenKeys(n: Node, i: nat, t: Tracker)
    requires i <= |n.children|
    ensures TraverseChildren(n, i, t).refs.Keys == t.refs.Keys + ScanKeys(PreOrderChildren(n, i), t.current)
    ensures TraverseChildren(n, i, t).current == ScanFunction(PreOrderChildren(n, i), t.current)
    decreases n, i
  {
    if i > 0 {
      var c := TraverseChildren(n, i - 1, t);
      var child := n.children[i - 1];
      var a := PreOrderChildren(n, i - 1);
      assert TraverseChildren(n, i, t) == Traverse(child, c);
      TraverseChildrenKeys(n, i - 1, t);
      TraverseKeys(child, c);
      ScanChildrenStep(n, i, t.current);
      var k0, k1, k2 := t.refs.Keys, ScanKeys(a, t.current), ScanKeys(PreOrder(child), c.current);
      assert Traverse(child, c).refs.Keys == (k0 + k1) + k2 == k0 + (k1 + k2);
    }
  }

  // ---------------------------------------------------------------------
  // Functions do not interfere with each other.
  // ---------------------------------------------------------------------

  /** No node of the tree rooted at `n` declares a function. */
  ghost predicate DeclaresNoFunction(n: Node)
  {
    forall x :: x in PreOrder(n) ==> x.kind != FunctionDecl
  }

  /** Every key of another function is left exactly as it was. */
  ghost predicate OtherFunctionsUnchanged(t: Tracker, r: Tracker, f: string)
  {
    forall k: Key :: k.0 != f ==> (k in r.refs <==> k in t.refs) && (k in t.refs ==> r.refs[k] == t.refs[k])
  }

  /**
   * Walking a tree that declares no function keeps the current function and
   * touches only the current function's references.
   */
  lemma {:induction false} TraverseStaysInFunction(n: Node, t: Tracker)
    requires WellFormed(t)
    requires DeclaresNoFunction(n)
    ensures Traverse(n, t).current == t.current
    ensures OtherFunctionsUnchanged(t, Traverse(n, t), t.current)
    decreases n, |n.children| + 1
  {
    var e := Enter(n, t);
    assert n in PreOrder(n);
    TraverseChildrenStayInFunction(n, |n.children|, e);
  }

  lemma {:induction false} TraverseChildrenStayInFunction(n: Node, i: nat, t: Tracker)
    requires WellFormed(t)
    requires i <= |n.children|
    requires forall x :: x in PreOrderChildren(n, i) ==> x.kind != FunctionDecl
    ensures TraverseChildren(n, i, t).current == t.current
    ensures OtherFunctionsUnchanged(t, TraverseChildren(n, i, t), t.current)
    decreases n, i
  {
    if i > 0 {
      var c := TraverseChildren(n, i - 1, t);
      TraverseChildrenKeepWellFormed(n, i - 1, t);
      TraverseChildrenStayInFunction(n, i - 1, t);
      TraverseStaysInFunction(n.children[i - 1], c);
    }
  }

  /**
   * Two functions do not interfere: walking a function declaration whose
   * body declares no further function leaves every reference of every other
   * function as it was.
   */
  lemma FunctionIsolation(n: Node, t: Tracker)
    requires WellFormed(t)
    requires n.kind == FunctionDecl
    requires forall x :: x in PreOrderChildren(n, |n.children|) ==> x.kind != FunctionDecl
    ensures Traverse(n, t).current == n.spelling
    ensures OtherFunctionsUnchanged(t, Traverse(n, t), n.spelling)
  {
    var e := Enter(n, t);
    TraverseChildrenStayInFunction(n, |n.children|, e);
  }

  // ---------------------------------------------------------------------
  // Loop exit.
  // ---------------------------------------------------------------------

  /**
   * After a loop statement and all its children are walked, no reference of
   * the current function lies on a line from the loop's first line up to
   * (not including) its last: it either lies outside the loop or at its end.
   * Inner loops are widened first, so a reference an inner loop moved into
   * the outer range ends at the outer loop's last line.
   */
  lemma LoopExitLeavesNoInnerLine(n: Node, t: Tracker)
    requires IsLoop(n)
    ensures var r := Traverse(n, t);
      forall k :: k in r.refs && r.refs[k].functionName == r.current ==>
        !(n.line <= r.refs[k].lineNumber < n.endLine)
  {
  }

  /** The tracker of the nested-loop example: only `v` of `f`, last seen on `line`. */
  function OnlyRef(f: string, v: string, line: int): Tracker
  {
    Tracker([(f, v)], map[(f, v) := VariableReference(f, v, line)], f)
  }

  /** `while` on lines 3-6 whose body reads `v` on line 4. */
  function InnerLoop(v: string): Node
  {
    Node(WhileStmt, "while", 3, 6, false, [Node(DeclRefExpr, v, 4, 4, true, [])])
  }

  /** `for` on lines 2-10 whose body is the inner loop. */
  function OuterLoop(v: string): Node
  {
    Node(ForStmt, "for", 2, 10, false, [InnerLoop(v)])
  }

  lemma InnerLoopWidens(f: string, v: string)
    ensures Traverse(InnerLoop(v), Tracker([], map[], f)) == OnlyRef(f, v, 6)
  {
    var t0 := Tracker([], map[], f);
    var use := InnerLoop(v).children[0];
    assert Enter(use, t0) == OnlyRef(f, v, 4);
    assert Traverse(use, t0) == OnlyRef(f, v, 4);
    assert TraverseChildren(InnerLoop(v), 1, t0) == OnlyRef(f, v, 4);
    assert Widen(OnlyRef(f, v, 4), 3, 6).refs == OnlyRef(f, v, 6).refs;
  }

  lemma OuterLoopWidens(f: string, v: string)
    ensures Traverse(OuterLoop(v), Tracker([], map[], f)) == OnlyRef(f, v, 10)
  {
    var t0 := Tracker([], map[], f);
    InnerLoopWidens(f, v);
    assert Enter(OuterLoop(v), t0) == t0;
    assert TraverseChildren(OuterLoop(v), 1, t0) == OnlyRef(f, v, 6);
    assert Widen(OnlyRef(f, v, 6), 2, 10).refs == OnlyRef(f, v, 10).refs;
  }

  /**
   * Nested loops, concretely: in function `f`, a `for` on lines 2-10 holds a
   * `while` on lines 3-6 that reads `v` on line 4. The inner exit moves the
   * reference to line 6, the outer exit to line 10.
   */
  lemma NestedLoopsWidenToOuterEnd(f: string, v: string)
    ensures Traverse(Node(FunctionDecl, f, 1, 12, false, [OuterLoop(v)]), Initial) == OnlyRef(f, v, 10)
  {
    var n := Node(FunctionDecl, f, 1, 12, false, [OuterLoop(v)]);
    OuterLoopWidens(f, v);
    assert Enter(n, Initial) == Tracker([], map[], f);
    assert TraverseChildren(n, 1, Enter(n, Initial)) == OnlyRef(f, v, 10);
  }
}
