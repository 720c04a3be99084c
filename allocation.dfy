/**
 * The allocation gate and the end of `main` in parser.py: walk every
 * top-level function declaration, then keep, in the dictionary's order, the
 * references whose variable has textual evidence of heap allocation.
 * Reading the C file and writing the JSON document are replaced by the
 * file's lines as input and the document as the result.
 */
module Allocation {
  import opened Wrappers
  import opened Strings
  import opened Scope
  import opened Traversal

  /** A line is evidence for `variable`: it contains "alloc" and "*variable". */
  predicate IsAllocLine(line: string, variable: string)
  {
    Contains(line, "alloc") && Contains(line, "*" + variable)
  }

  /**
   * `check_alloc_term`: some line of the file is evidence for `variable`.
   * The line number is accepted and not used.
   */
  function CheckAllocTerm(lines: seq<string>, lineNumber: int, variable: string): (r: bool)
    ensures r <==> exists i :: 0 <= i < |lines| && IsAllocLine(lines[i], variable)
  {
    if lines == [] then false
    else if IsAllocLine(lines[0], variable) then true
    else
      var r := CheckAllocTerm(lines[1..], lineNumber, variable);
      assert r ==> exists i :: 0 <= i < |lines| && IsAllocLine(lines[i], variable) by {
        if r {
          var i :| 0 <= i < |lines| - 1 && IsAllocLine(lines[1..][i], variable);
          assert lines[1..][i] == lines[i + 1];
        }
      }
      assert (exists i :: 0 <= i < |lines| && IsAllocLine(lines[i], variable)) ==> r by {
        if exists i :: 0 <= i < |lines| && IsAllocLine(lines[i], variable) {
          var i :| 0 <= i < |lines| && IsAllocLine(lines[i], variable);
          assert lines[1..][i - 1] == lines[i];
        }
      }
      r
  }

  /**
   * Containment is plain substring matching: a declaration of `ptr` with an
   * allocation on the same line is evidence for a variable named `p` too.
   */
  lemma PrefixNameAlsoMatches(lines: seq<string>, lineNumber: int)
    requires |lines| > 0 && lines[0] == "int *ptr = malloc(8);"
    ensures CheckAllocTerm(lines, lineNumber, "p")
  {
    var line := lines[0];
    assert line[12..17] == "alloc";
    assert OccursAt(line, "alloc", 12);
    assert line[4..6] == "*" + "p";
    assert OccursAt(line, "*" + "p", 4);
    assert IsAllocLine(lines[0], "p");
  }

  /** A key passes the gate when its variable has evidence in the file. */
  predicate Passes(k: Key, refs: map<Key, VariableReference>, lines: seq<string>)
    requires k in refs
  {
    CheckAllocTerm(lines, refs[k].lineNumber, k.1)
  }

  /** The record main appends for key `k`: the key's names and its reference's final line. */
  function Record(k: Key, refs: map<Key, VariableReference>): DeallocationPoint
    requires k in refs
  {
    DeallocationPoint(k.0, refs[k].lineNumber, k.1)
  }

  /** The `deallocations` list after main's loop has visited `keys` in order. */
  function Gated(keys: seq<Key>, refs: map<Key, VariableReference>, lines: seq<string>): seq<DeallocationPoint>
    requires forall k :: k in keys ==> k in refs
  {
    if keys == [] then []
    else
      var k := keys[|keys| - 1];
      Gated(keys[..|keys| - 1], refs, lines) + (if Passes(k, refs, lines) then [Record(k, refs)] else [])
  }

  /**
   * `idx` witnesses that `r` holds one record per key of `keys` that passes
   * the gate and none for any other key, in the keys' order: `idx[j]` is the
   * position in `keys` of the key behind record `j`.
   */
  ghost predicate FollowsKeys(keys: seq<Key>, refs: map<Key, VariableReference>, lines: seq<string>,
                              r: seq<DeallocationPoint>, idx: seq<int>)
    requires forall k :: k in keys ==> k in refs
  {
    && |idx| == |r|
    && (forall j :: 0 <= j < |idx| ==> 0 <= idx[j] < |keys| && r[j] == Record(keys[idx[j]], refs))
    && (forall j1, j2 :: 0 <= j1 < j2 < |idx| ==> idx[j1] < idx[j2])
    && (forall i :: 0 <= i < |keys| ==> (i in idx <==> Passes(keys[i], refs, lines)))
  }

  /** The list holds one record per key that passes the gate and none for any other key, in the keys' order. */
  lemma {:induction false} GatedFollowsKeys(keys: seq<Key>, refs: map<Key, VariableReference>, lines: seq<string>)
    returns (idx: seq<int>)
    requires forall k :: k in keys ==> k in refs
    ensures FollowsKeys(keys, refs, lines, Gated(keys, refs, lines), idx)
  {
    if keys == [] {
      idx := [];
    } else {
      var n := |keys| - 1;
      assert keys == keys[..n] + [keys[n]];
      var p := GatedFollowsKeys(keys[..n], refs, lines);
      idx := FollowsKeysStep(keys[..n], keys[n], refs, lines, Gated(keys[..n], refs, lines), p);
    }
  }

  /** Visiting one more key extends the witness by that key's position exactly when it passes. */
  lemma FollowsKeysStep(front: seq<Key>, last: Key, refs: map<Key, VariableReference>, lines: seq<string>,
                        rf: seq<DeallocationPoint>, p: seq<int>) returns (idx: seq<int>)
    requires forall k :: k in front ==> k in refs
    requires last in refs
    requires FollowsKeys(front, refs, lines, rf, p)
    ensures forall k :: k in front + [last] ==> k in refs
    ensures FollowsKeys(front + [last], refs, lines,
                        rf + (if Passes(last, refs, lines) then [Record(last, refs)] else []), idx)
  {
    var keys := front + [last];
    var n := |front|;
    var r := rf + (if Passes(last, refs, lines) then [Record(last, refs)] else []);
    idx := p + if Passes(last, refs, lines) then [n] else [];
    forall j | 0 <= j < |idx|
      ensures 0 <= idx[j] < |keys| && r[j] == Record(keys[idx[j]], refs)
    {
      if j < |p| {
        assert idx[j] == p[j] && r[j] == rf[j] && front[p[j]] == keys[p[j]];
      }
    }
    forall i | 0 <= i < |keys|
      ensures i in idx <==> Passes(keys[i], refs, lines)
    {
      if i < n {
        assert front[i] == keys[i];
        assert i in idx <==> i in p;
      } else {
        assert n !in p;
      }
    }
  }

  function PointKey(d: DeallocationPoint): Key
  {
    (d.functionName, d.variableName)
  }

  /** No (function, variable) pair appears twice in the list, since the dictionary has each key once. */
  lemma GatedHasNoDuplicates(keys: seq<Key>, refs: map<Key, VariableReference>, lines: seq<string>)
    requires forall k :: k in keys ==> k in refs
    requires Distinct(keys)
    ensures var r := Gated(keys, refs, lines);
      forall j1, j2 :: 0 <= j1 < j2 < |r| ==> PointKey(r[j1]) != PointKey(r[j2])
  {
    var idx := GatedFollowsKeys(keys, refs, lines);
  }

  /** The JSON document main writes, a single field `deallocations`. */
  type Interchange = map<string, seq<DeallocationPoint>>

  /** The deallocation list the whole analysis produces for a translation unit and its file. */
  function Deallocations(unit: seq<Node>, lines: seq<string>): seq<DeallocationPoint>
  {
    var t := TraverseUnit(unit, |unit|, Initial);
    Gated(t.order, t.refs, lines)
  }

  /**
   * `main`: walk each top-level function declaration with one tracker, then
   * append a record for every key that passes the gate. The document is
   * produced only when the list is non-empty; otherwise nothing is written.
   */
  method Analyze(unit: seq<Node>, lines: seq<string>) returns (written: Option<Interchange>)
    ensures written.None? <==> Deallocations(unit, lines) == []
    ensures written.Some? ==> written.value == map["deallocations" := Deallocations(unit, lines)]
  {
    var tracker := new ScopeTracker();
    TraverseFunctions(unit, tracker);
    RecordDeallocations(tracker, lines);
    if |tracker.deallocations| > 0 {
      written := Some(map["deallocations" := tracker.deallocations]);
    } else {
      written := None;
    }
  }

  /** `main`'s first loop: walk every top-level function declaration with the one tracker. */
  method TraverseFunctions(unit: seq<Node>, tracker: ScopeTracker)
    requires tracker.State() == Initial && tracker.deallocations == []
    modifies tracker
    ensures tracker.Valid()
    ensures tracker.State() == TraverseUnit(unit, |unit|, Initial)
    ensures tracker.deallocations == []
  {
    for i := 0 to |unit|
      invariant tracker.Valid()
      invariant tracker.State() == TraverseUnit(unit, i, Initial)
      invariant tracker.deallocations == []
    {
      if unit[i].kind == FunctionDecl {
        TraverseAst(unit[i], tracker);
      }
    }
  }

  /** `main`'s second loop: append a record for every key, in order, whose variable passes the gate. */
  method RecordDeallocations(tracker: ScopeTracker, lines: seq<string>)
    requires tracker.Valid() && tracker.deallocations == []
    modifies tracker
    ensures tracker.State() == old(tracker.State())
    ensures tracker.deallocations == Gated(tracker.order, tracker.references, lines)
  {
    var keys := tracker.order;
    ghost var t := tracker.State();
    for i := 0 to |keys|
      invariant tracker.State() == t
      invariant tracker.deallocations == Gated(keys[..i], t.refs, lines)
    {
      assert keys[..i + 1][..i] == keys[..i];
      var key := keys[i];
      var ref := tracker.references[key];
      if CheckAllocTerm(lines, ref.lineNumber, key.1) {
        tracker.deallocations := tracker.deallocations + [DeallocationPoint(key.0, ref.lineNumber, key.1)];
      }
    }
    assert keys[..|keys|] == keys;
  }


  /** A file with no line mentioning "alloc" yields an empty list: nothing is written, and that is not an error. */
  lemma NoEvidenceNothingWritten(unit: seq<Node>, lines: seq<string>)
    requires forall i :: 0 <= i < |lines| ==> !Contains(lines[i], "alloc")
    ensures Deallocations(unit, lines) == []
  {
    var t := TraverseUnit(unit, |unit|, Initial);
    assert forall k :: k in t.order ==> !Passes(k, t.refs, lines);
    NothingPassesNothingGated(t.order, t.refs, lines);
  }

  lemma {:induction false} NothingPassesNothingGated(keys: seq<Key>, refs: map<Key, VariableReference>, lines: seq<string>)
    requires forall k :: k in keys ==> k in refs && !Passes(k, refs, lines)
    ensures Gated(keys, refs, lines) == []
  {
    if keys != [] {
      NothingPassesNothingGated(keys[..|keys| - 1], refs, lines);
    }
  }
}
