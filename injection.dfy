/**
 * `inject_deallocation_code` of ParseInject.py: copy the C file line by line,
 * re-deriving the enclosing function by counting braces in the text, and
 * after each line write a `free` call for every deallocation point of that
 * line and function. The JSON document and both files are replaced by
 * in-memory values: the document as input, the output file as the result.
 */
module Injection {
  import opened Wrappers
  import opened Strings
  import opened Scope
  import opened Allocation

  /** The two ways the pass fails: `KeyError` on the document, `IndexError` on a header with a blank name. */
  datatype InjectError = MissingDeallocations | BlankFunctionName(lineNumber: int)

  /** `current_function` (None outside any function) and `brace_count`. */
  datatype ScopeState = ScopeState(current: Option<string>, braceCount: int)

  const Start := ScopeState(None, 0)

  /** A line taken to open a function: it holds "(", ")" and "{". */
  predicate IsHeader(line: string)
  {
    '(' in line && ')' in line && '{' in line
  }

  /** The last whitespace-separated token before the first "(" of a header, if there is one. */
  function HeaderName(line: string): Option<string>
  {
    var ws := Words(BeforeFirst(line, '('));
    if ws == [] then None else Some(Last(ws))
  }

  /**
   * The scope update for line number `i`: a header names the function and
   * resets the count to 1; otherwise a line with "{" adds its "{"s (its "}"s
   * are ignored), and only a line with no "{" subtracts its "}"s, leaving the
   * function when that brings the count to 0.
   */
  function ScopeStep(st: ScopeState, line: string, i: int): Result<ScopeState, InjectError>
  {
    if IsHeader(line) then
      match HeaderName(line)
      case None => Err(BlankFunctionName(i))
      case Some(name) => Ok(ScopeState(Some(name), 1))
    else if '{' in line then
      Ok(ScopeState(st.current, st.braceCount + multiset(line)['{']))
    else if '}' in line then
      var count := st.braceCount - multiset(line)['}'];
      Ok(ScopeState(if count == 0 then None else st.current, count))
    else
      Ok(st)
  }

  /**
   * What one line does to the scope: the step fails exactly on a header
   * whose text before the first "(" is blank; a header names the function
   * and sets the count to 1; a line with "{" adds its "{"s whatever "}"s it
   * holds; a line without "{" subtracts its "}"s; a line that is no header
   * never renames the enclosing function; and the enclosing function
   * is None afterwards exactly when it was None and the line is no header,
   * or a line without "{" brought the count to 0.
   */
  lemma {:induction false} ScopeStepMeaning(st: ScopeState, line: string, i: int)
    ensures var r := ScopeStep(st, line, i);
      && (r.Err? <==> IsHeader(line) && Blank(BeforeFirst(line, '(')))
      && (r.Err? ==> r.error == BlankFunctionName(i))
      && (r.Ok? && IsHeader(line) ==> r.value.braceCount == 1 && r.value.current == HeaderName(line))
      && (r.Ok? && !IsHeader(line) && '{' in line ==>
            r.value == ScopeState(st.current, st.braceCount + multiset(line)['{']))
      && (r.Ok? && '{' !in line ==> r.value.braceCount == st.braceCount - multiset(line)['}'])
      && (r.Ok? && !IsHeader(line) && r.value.current.Some? ==> r.value.current == st.current)
      && (r.Ok? ==> (r.value.current.None? <==>
            (st.current.None? && !IsHeader(line)) || ('{' !in line && '}' in line && r.value.braceCount == 0)))
  {
    WordsEmptyIffBlank(BeforeFirst(line, '('));
  }

  /**
   * The name a header assigns is the last run of non-whitespace before its
   * first "(": non-empty, free of whitespace and of "(", and followed there
   * only by whitespace.
   */
  lemma HeaderNameIsLastToken(line: string)
    requires HeaderName(line).Some?
    ensures var name := HeaderName(line).value; var prefix := BeforeFirst(line, '(');
      && name != [] && NoSpace(name) && '(' !in name
      && exists j :: IsFinalRun(prefix, name, j)
  {
    var prefix := BeforeFirst(line, '(');
    var ws := Words(prefix);
    var name := Last(ws);
    assert name == ws[|ws| - 1];
    var j := LastWordIsFinalRun(prefix);
    assert name == prefix[j..j + |name|];
    assert '(' !in name;
    assert name == HeaderName(line).value;
    assert exists k :: IsFinalRun(BeforeFirst(line, '('), HeaderName(line).value, k);
  }

  function FreeLine(variable: string): string
  {
    "\tfree(" + variable + ");\n"
  }

  /**
   * The lines written after line number `i` when the enclosing function is
   * `current`: one `free` per point of that line and function, in the
   * points' order.
   */
  function FreesAfter(points: seq<DeallocationPoint>, i: int, current: Option<string>): (r: seq<string>)
    ensures |r| <= |points|
    ensures current.None? ==> r == []
  {
    if points == [] then []
    else
      var p := points[|points| - 1];
      var front := FreesAfter(points[..|points| - 1], i, current);
      front + (if Matches(p, i, current) then [FreeLine(p.variableName)] else [])
  }

  /** A point whose `free` belongs after line number `i` when the enclosing function is `current`. */
  predicate Matches(p: DeallocationPoint, i: int, current: Option<string>)
  {
    i == p.lineNumber && current == Some(p.functionName)
  }

  /**
   * `idx` witnesses that `r` holds one `free` per point of `points` that
   * matches line `i` and function `current`, in the points' order: `idx[m]`
   * is the position of the point behind `r[m]`.
   */
  ghost predicate FollowsPoints(points: seq<DeallocationPoint>, i: int, current: Option<string>, r: seq<string>, idx: seq<int>)
  {
    && |idx| == |r|
    && (forall m :: 0 <= m < |idx| ==> 0 <= idx[m] < |points| && r[m] == FreeLine(points[idx[m]].variableName))
    && (forall m1, m2 :: 0 <= m1 < m2 < |idx| ==> idx[m1] < idx[m2])
    && (forall q :: 0 <= q < |points| ==> (q in idx <==> Matches(points[q], i, current)))
  }

  /** One `free` per matching point and none for any other, in the points' order. */
  lemma {:induction false} FreesAfterFollowsPoints(points: seq<DeallocationPoint>, i: int, current: Option<string>)
    returns (idx: seq<int>)
    ensures FollowsPoints(points, i, current, FreesAfter(points, i, current), idx)
  {
    if points == [] {
      idx := [];
    } else {
      var n := |points| - 1;
      var p := FreesAfterFollowsPoints(points[..n], i, current);
      assert points == points[..n] + [points[n]];
      idx := FollowsPointsStep(points[..n], points[n], i, current, FreesAfter(points[..n], i, current), p);
    }
  }

  /** Appending one point extends the witness by that point's position exactly when it matches. */
  lemma FollowsPointsStep(front: seq<DeallocationPoint>, last: DeallocationPoint, i: int, current: Option<string>,
                          rf: seq<string>, p: seq<int>) returns (idx: seq<int>)
    requires FollowsPoints(front, i, current, rf, p)
    ensures FollowsPoints(front + [last], i, current,
                          rf + (if Matches(last, i, current) then [FreeLine(last.variableName)] else []), idx)
  {
    var points := front + [last];
    var n := |front|;
    var r := rf + (if Matches(last, i, current) then [FreeLine(last.variableName)] else []);
    idx := p + if Matches(last, i, current) then [n] else [];
    forall m | 0 <= m < |idx|
      ensures 0 <= idx[m] < |points| && r[m] == FreeLine(points[idx[m]].variableName)
    {
      if m < |p| {
        assert idx[m] == p[m] && r[m] == rf[m] && front[p[m]] == points[p[m]];
      }
    }
    forall q | 0 <= q < |points|
      ensures q in idx <==> Matches(points[q], i, current)
    {
      if q < n {
        assert front[q] == points[q];
        assert q in idx <==> q in p;
      } else {
        assert n !in p;
      }
    }
  }

  /** Every line written after line number `i` frees the variable of a point for line `i`. */
  lemma FreeComesFromPoint(points: seq<DeallocationPoint>, i: int, current: Option<string>, x: string)
    requires x in FreesAfter(points, i, current)
    ensures exists p :: p in points && p.lineNumber == i && x == FreeLine(p.variableName)
  {
    var frees := FreesAfter(points, i, current);
    var idx := FreesAfterFollowsPoints(points, i, current);
    var m :| 0 <= m < |frees| && frees[m] == x;
    assert idx[m] in idx;
    assert points[idx[m]] in points;
  }

  /** The pass so far: the scope after the last line read, and one block of output per line read. */
  datatype Progress = Progress(scope: ScopeState, blocks: seq<seq<string>>)

  /** The pass after reading the first `k` lines, or the error that stopped it. */
  function Run(lines: seq<string>, points: seq<DeallocationPoint>, k: nat): Result<Progress, InjectError>
    requires k <= |lines|
  {
    if k == 0 then Ok(Progress(Start, []))
    else
      match Run(lines, points, k - 1)
      case Err(e) => Err(e)
      case Ok(p) =>
        match ScopeStep(p.scope, lines[k - 1], k)
        case Err(e) => Err(e)
        case Ok(st) => Ok(Progress(st, p.blocks + [[lines[k - 1]] + FreesAfter(points, k, st.current)]))
  }

  /** Once the pass has raised, it stays stopped with the same error. */
  lemma {:induction false} RunStopsAtError(lines: seq<string>, points: seq<DeallocationPoint>, k: nat, m: nat)
    requires k <= m <= |lines|
    requires Run(lines, points, k).Err?
    ensures Run(lines, points, m) == Run(lines, points, k)
    decreases m - k
  {
    if k < m {
      RunStopsAtError(lines, points, k, m - 1);
    }
  }

  /** The blocks written one after another. */
  function Flatten(blocks: seq<seq<string>>): seq<string>
  {
    if blocks == [] then [] else Flatten(blocks[..|blocks| - 1]) + blocks[|blocks| - 1]
  }

  /** The output file, or the error the pass raises. */
  function Injected(data: Interchange, lines: seq<string>): Result<seq<string>, InjectError>
  {
    if "deallocations" !in data then Err(MissingDeallocations)
    else
      match Run(lines, data["deallocations"], |lines|)
      case Err(e) => Err(e)
      case Ok(p) => Ok(Flatten(p.blocks))
  }

  /** The inner loop of the pass: the `free` lines for line number `i` in function `current`. */
  method WriteFrees(points: seq<DeallocationPoint>, i: int, current: Option<string>) returns (frees: seq<string>)
    ensures frees == FreesAfter(points, i, current)
  {
    frees := [];
    for j := 0 to |points|
      invariant frees == FreesAfter(points[..j], i, current)
    {
      assert points[..j + 1][..j] == points[..j];
      var p := points[j];
      if i == p.lineNumber && current == Some(p.functionName) {
        frees := frees + [FreeLine(p.variableName)];
      }
    }
    assert points[..|points|] == points;
  }

  /** One more line read without error: its block is the line followed by its frees. */
  lemma RunExtends(lines: seq<string>, points: seq<DeallocationPoint>, k: nat, p: Progress, st: ScopeState)
    requires 1 <= k <= |lines|
    requires Run(lines, points, k - 1) == Ok(p)
    requires ScopeStep(p.scope, lines[k - 1], k) == Ok(st)
    ensures Run(lines, points, k) == Ok(Progress(st, p.blocks + [[lines[k - 1]] + FreesAfter(points, k, st.current)]))
  {
  }

  /** A line whose scope update raises ends the whole pass with that error. */
  lemma RunFails(lines: seq<string>, points: seq<DeallocationPoint>, k: nat, p: Progress)
    requires 1 <= k <= |lines|
    requires Run(lines, points, k - 1) == Ok(p)
    requires ScopeStep(p.scope, lines[k - 1], k).Err?
    ensures Run(lines, points, |lines|) == Err(ScopeStep(p.scope, lines[k - 1], k).error)
  {
    RunStopsAtError(lines, points, k, |lines|);
  }

  lemma FlattenSnoc(blocks: seq<seq<string>>, block: seq<string>)
    ensures Flatten(blocks + [block]) == Flatten(blocks) + block
  {
    assert (blocks + [block])[..|blocks|] == blocks;
  }

  /**
   * The scope tracking at the top of each iteration: the new enclosing
   * function and brace count after line number `i`, or the IndexError a
   * header with a blank name raises.
   */
  method UpdateScope(current: Option<string>, braceCount: int, line: string, i: int)
    returns (r: Result<ScopeState, InjectError>)
    ensures r == ScopeStep(ScopeState(current, braceCount), line, i)
  {
    var enclosing, count := current, braceCount;
    if '(' in line && ')' in line && '{' in line {
      var words := Words(BeforeFirst(line, '('));
      if words == [] {
        return Err(BlankFunctionName(i));
      }
      enclosing := Some(words[|words| - 1]);
      count := 1;
    } else if '{' in line {
      count := count + multiset(line)['{'];
    } else if '}' in line {
      count := count - multiset(line)['}'];
      if count == 0 {
        enclosing := None;
      }
    }
    return Ok(ScopeState(enclosing, count));
  }

  /** `inject_deallocation_code`. */
  method InjectDeallocationCode(data: Interchange, source: seq<string>) returns (r: Result<seq<string>, InjectError>)
    ensures r == Injected(data, source)
  {
    if "deallocations" !in data {
      return Err(MissingDeallocations);
    }
    var points := data["deallocations"];
    var current: Option<string> := None;
    var braceCount: int := 0;
    var out: seq<string> := [];
    ghost var blocks: seq<seq<string>> := [];
    for i := 1 to |source| + 1
      invariant Run(source, points, i - 1) == Ok(Progress(ScopeState(current, braceCount), blocks))
      invariant out == Flatten(blocks)
    {
      var line := source[i - 1];
      var step := UpdateScope(current, braceCount, line, i);
      if step.Err? {
        RunFails(source, points, i, Progress(ScopeState(current, braceCount), blocks));
        return Err(step.error);
      }
      RunExtends(source, points, i, Progress(ScopeState(current, braceCount), blocks), step.value);
      current, braceCount := step.value.current, step.value.braceCount;
      var frees := WriteFrees(points, i, current);
      var block := [line] + frees;
      FlattenSnoc(blocks, block);
      out := out + block;
      blocks := blocks + [block];
    }
    r := Ok(out);
  }

  // ---------------------------------------------------------------------
  // Properties of the pass.
  // ---------------------------------------------------------------------

  /** The textual scope after the first `k` lines, computed on its own. */
  function ScopeAfter(lines: seq<string>, k: nat): Result<ScopeState, InjectError>
    requires k <= |lines|
  {
    if k == 0 then Ok(Start)
    else
      match ScopeAfter(lines, k - 1)
      case Err(e) => Err(e)
      case Ok(st) => ScopeStep(st, lines[k - 1], k)
  }

  /**
   * The pass fails exactly when the scope scan fails, with the same error;
   * otherwise the block for line `j + 1` is that line followed by the frees
   * for the scope in force AFTER that line's own update.
   */
  lemma {:induction false} RunFollowsScopes(lines: seq<string>, points: seq<DeallocationPoint>, k: nat)
    requires k <= |lines|
    ensures Run(lines, points, k).Ok? <==> ScopeAfter(lines, k).Ok?
    ensures Run(lines, points, k).Err? ==> Run(lines, points, k).error == ScopeAfter(lines, k).error
    ensures Run(lines, points, k).Ok? ==> Run(lines, points, k).value.scope == ScopeAfter(lines, k).value
    ensures Run(lines, points, k).Ok? ==> |Run(lines, points, k).value.blocks| == k
    ensures Run(lines, points, k).Ok? ==> forall j :: 1 <= j <= k ==> ScopeAfter(lines, j).Ok?
    ensures Run(lines, points, k).Ok? ==> forall j :: 0 <= j < k ==>
      Run(lines, points, k).value.blocks[j] == [lines[j]] + FreesAfter(points, j + 1, ScopeAfter(lines, j + 1).value.current)
  {
    if k > 0 {
      RunFollowsScopes(lines, points, k - 1);
      var r0 := Run(lines, points, k - 1);
      if r0.Ok? {
        var step := ScopeStep(r0.value.scope, lines[k - 1], k);
        assert ScopeAfter(lines, k) == step;
        if step.Ok? {
          var st := step.value;
          var prev := r0.value.blocks;
          var blocks := prev + [[lines[k - 1]] + FreesAfter(points, k, st.current)];
          assert Run(lines, points, k) == Ok(Progress(st, blocks));
          forall j | 0 <= j < k
            ensures blocks[j] == [lines[j]] + FreesAfter(points, j + 1, ScopeAfter(lines, j + 1).value.current)
          {
            if j < k - 1 {
              assert blocks[j] == prev[j];
            }
          }
        } else {
          assert Run(lines, points, k) == Err(step.error);
        }
      } else {
        assert Run(lines, points, k) == r0;
      }
    }
  }

  /** The first line of each block, in order. */
  function FirstLines(blocks: seq<seq<string>>): seq<string>
    requires forall j :: 0 <= j < |blocks| ==> blocks[j] != []
  {
    if blocks == [] then []
    else FirstLines(blocks[..|blocks| - 1]) + [blocks[|blocks| - 1][0]]
  }

  lemma {:induction false} FirstLinesAre(blocks: seq<seq<string>>, lines: seq<string>)
    requires |blocks| == |lines|
    requires forall j :: 0 <= j < |blocks| ==> blocks[j] != [] && blocks[j][0] == lines[j]
    ensures FirstLines(blocks) == lines
  {
    if blocks != [] {
      var n := |blocks| - 1;
      FirstLinesAre(blocks[..n], lines[..n]);
      assert lines == lines[..n] + [lines[n]];
    }
  }

  /**
   * The output splits into one block per input line: the line itself, then
   * only `free` lines of points for that line number. Deleting the inserted
   * lines therefore gives back the input, in order.
   */
  lemma InjectedKeepsSource(data: Interchange, lines: seq<string>) returns (blocks: seq<seq<string>>)
    requires Injected(data, lines).Ok?
    ensures Flatten(blocks) == Injected(data, lines).value
    ensures |blocks| == |lines|
    ensures forall j :: 0 <= j < |blocks| ==> blocks[j] != [] && blocks[j][0] == lines[j]
    ensures FirstLines(blocks) == lines
    ensures forall j, x :: 0 <= j < |blocks| && x in blocks[j][1..] ==>
      exists p :: p in data["deallocations"] && p.lineNumber == j + 1 && x == FreeLine(p.variableName)
  {
    var points := data["deallocations"];
    var run := Run(lines, points, |lines|);
    assert run.Ok? && Injected(data, lines) == Ok(Flatten(run.value.blocks));
    blocks := run.value.blocks;
    RunFollowsScopes(lines, points, |lines|);
    forall j, x | 0 <= j < |blocks| && x in blocks[j][1..]
      ensures exists p :: p in points && p.lineNumber == j + 1 && x == FreeLine(p.variableName)
    {
      var current := ScopeAfter(lines, j + 1).value.current;
      assert blocks[j] == [lines[j]] + FreesAfter(points, j + 1, current);
      assert blocks[j][1..] == FreesAfter(points, j + 1, current);
      FreeComesFromPoint(points, j + 1, current, x);
    }
    FirstLinesAre(blocks, lines);
  }

  lemma {:induction false} FreesAfterAppend(a: seq<DeallocationPoint>, b: seq<DeallocationPoint>, i: int, current: Option<string>)
    ensures FreesAfter(a + b, i, current) == FreesAfter(a, i, current) + FreesAfter(b, i, current)
    decreases |b|
  {
    if b == [] {
      assert a + b == a;
    } else {
      var n := |b| - 1;
      var ab := a + b;
      assert ab[..|ab| - 1] == a + b[..n] && ab[|ab| - 1] == b[n];
      var last := if Matches(b[n], i, current) then [FreeLine(b[n].variableName)] else [];
      assert FreesAfter(ab, i, current) == FreesAfter(a + b[..n], i, current) + last;
      assert FreesAfter(b, i, current) == FreesAfter(b[..n], i, current) + last;
      FreesAfterAppend(a, b[..n], i, current);
      assert FreesAfter(ab, i, current) == FreesAfter(a, i, current) + (FreesAfter(b[..n], i, current) + last);
    }
  }

  /** A point for another line number contributes nothing after line `i`. */
  lemma FreesAfterSkips(points: seq<DeallocationPoint>, j: nat, i: int, current: Option<string>)
    requires j < |points| && points[j].lineNumber != i
    ensures FreesAfter(points, i, current) == FreesAfter(points[..j] + points[j + 1..], i, current)
  {
    var a, p, b := points[..j], points[j], points[j + 1..];
    assert points == (a + [p]) + b;
    FreesAfterAppend(a + [p], b, i, current);
    FreesAfterAppend(a, [p], i, current);
    assert [p][..0] == [];
    assert FreesAfter([p], i, current) == [];
    FreesAfterAppend(a, b, i, current);
  }

  lemma {:induction false} RunIgnoresPoint(lines: seq<string>, points: seq<DeallocationPoint>, j: nat, k: nat)
    requires j < |points| && (points[j].lineNumber < 1 || points[j].lineNumber > |lines|)
    requires k <= |lines|
    ensures Run(lines, points, k) == Run(lines, points[..j] + points[j + 1..], k)
  {
    if k > 0 {
      RunIgnoresPoint(lines, points, j, k - 1);
      forall current: Option<string>
        ensures FreesAfter(points, k, current) == FreesAfter(points[..j] + points[j + 1..], k, current)
      {
        FreesAfterSkips(points, j, k, current);
      }
    }
  }

  /** A point whose line number is outside `1..|lines|` changes nothing in the output. */
  lemma OutOfRangePointWritesNothing(data: Interchange, lines: seq<string>, j: nat)
    requires "deallocations" in data
    requires j < |data["deallocations"]|
    requires data["deallocations"][j].lineNumber < 1 || data["deallocations"][j].lineNumber > |lines|
    ensures var points := data["deallocations"];
      Injected(data, lines) == Injected(data["deallocations" := points[..j] + points[j + 1..]], lines)
  {
    RunIgnoresPoint(lines, data["deallocations"], j, |lines|);
  }
}
