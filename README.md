# SmartGC lifetime inference and free injection, modelled in Dafny

SmartGC instruments C programs that allocate heap memory and never release it.
It works in two phases, and this project models the logic of both:

1. **Lifetime inference** (`parser.py`). A pre-order walk over the C syntax tree
   records, for every (function, variable) pair, the line of the most recently
   visited reference to a variable declaration. The records live in an
   insertion-ordered dictionary held by the scope tracker. When the walk leaves
   a `for` or `while` statement, every reference of the current function that
   lies inside the statement's lines is moved to its last line. Then `main`
   keeps, in dictionary order, the pairs whose variable passes a textual
   allocation gate: some line of the file contains both `alloc` and `*name`.
   These pairs make the `deallocations` list. The document is written only when
   the list is non-empty.
2. **Free injection** (`ParseInject.py`). The C file is copied line by line. The
   enclosing function is re-derived by counting braces in the text. After each
   line, one `\tfree(v);\n` is written for every deallocation point with that
   line number and the current function.

Modules:

- `Wrappers` (wrappers.dfy): Option and Result.
- `Strings` (strings.dfy): Python's `in`, `str.isspace`, `split()` and `split(c)[0]`.
- `Scope` (scope.dfy): `VariableReference` and the `ScopeTracker` class. The
  `Tracker` datatype is its abstract value, and pure functions on it specify
  each method.
- `Traversal` (traversal.dfy): the syntax-tree datatype, `traverse_ast` as a
  function and as a recursive method, and lemmas about the walk.
- `Allocation` (allocation.dfy): `check_alloc_term`, `main`'s assembly loop
  and the whole analysis (`Analyze`).
- `Injection` (injection.dfy): `inject_deallocation_code` as a method, `Run`
  (a fold over the lines) as its specification, and lemmas about the output.

Behaviours of the code that the model reproduces as written:

- Widening uses `current_function` as it stands when the loop is left
  (parser.py:55-59), not the function in force when the loop was entered.
  The two differ when a function declaration, such as a block-scope
  prototype, sits inside the loop.
- `current_function` is never restored after a function declaration's subtree
  (parser.py:37-38). A nested declaration therefore redirects every later
  reference in the enclosing body to the nested name.
- Only references whose declaration is a `VAR_DECL` are recorded
  (parser.py:48). This includes globals and excludes parameters.
- A `return p;` is itself a reference, so the last line of a function that
  returns its pointer is the `return` line.
- The gate ignores its `line_number` argument and matches plain substrings. So
  `*ptr` on an `alloc` line is also evidence for a variable named `p`.

## Model

| member | source | states |
|---|---|---|
| `Strings.Contains` | parser.py:65 | Python's `sub in s` holds exactly when `sub` occurs in `s` at some index |
| `Strings.BeforeFirst` | ParseInject.py:28 | `s.split(c)[0]` is the prefix of `s` that holds no `c` and ends at the first `c` or at the end |
| `Strings.WordsEmptyIffBlank` | ParseInject.py:28 | `split()` yields no token exactly when the text is all whitespace, which is when `split()[-1]` raises |
| `Strings.WordsLoseOnlySpaces` | ParseInject.py:28 | the tokens of `split()` glued together are the text with its whitespace removed |
| `Strings.LastWordIsFinalRun` | ParseInject.py:28 | `split()[-1]` is the last run of non-whitespace: it starts the text or follows whitespace, and only whitespace follows it |
| `Scope.Add` | parser.py:18-24 | the key (current function, variable) maps to a reference with exactly those names and that line; other keys are unchanged; the order only gains the new key at its end, and an existing key keeps its place; well-formedness is kept |
| `Scope.UpdateLine` | parser.py:26-30 | on a present key only that entry's line changes and its names stay; on an absent key nothing changes; keys and order never change |
| `Scope.Lookup` | parser.py:32-34 | yields the stored entry for (current function, variable), whose names are exactly those, or None when the key is absent |
| `Scope.Widen` | parser.py:55-59 | leaving a loop changes no key, no position in the order and not the current function, and keeps the tracker well-formed |
| `Scope.WidenMeaning` | parser.py:55-59 | each reference of the current function with a line in [start, end] moves to end; every other reference is unchanged; names never change; no line decreases; afterwards no reference of the current function lies in [start, end) |
| `Scope.ScopeTracker.constructor` | parser.py:13-16 | a new tracker has no references, no deallocations and an empty current function |
| `Scope.ScopeTracker.AddReference` | parser.py:18-24 | updates the dictionary in place exactly as `Add` describes and keeps the tracker well-formed |
| `Scope.ScopeTracker.UpdateReferenceLine` | parser.py:26-30 | updates the dictionary in place exactly as `UpdateLine` describes |
| `Scope.ScopeTracker.GetReference` | parser.py:32-34 | returns what `Lookup` describes and changes nothing |
| `Traversal.Enter` | parser.py:37-50 | visiting a node first sets the current function if it is a function declaration; then, if it is a reference to a variable declaration, it adds the key (that function, the spelling) if it is new and overwrites its entry otherwise; the entry carries that function, the spelling and the node's own line; every other entry keeps its value |
| `Traversal.Traverse` | parser.py:36-59 | the walk only adds keys and keeps the existing order as a prefix |
| `Traversal.TraverseKeepsWellFormed` | parser.py:36-59 | the walk keeps the tracker well-formed: each key listed once in the order, and each entry stored under its own names |
| `Traversal.TraverseChildrenKeepWellFormed` | parser.py:52-53 | the same for the first i children |
| `Traversal.TraverseChildren` | parser.py:52-53 | walking children in order only adds keys and keeps the order as a prefix |
| `Traversal.TraverseAst` | parser.py:36-59 | the recursive method leaves the tracker in the state `Traverse` describes and does not touch the deallocation list |
| `Traversal.WidenReferences` | parser.py:55-59 | the loop over the dictionary's entries leaves exactly the state `Widen` describes |
| `Traversal.TraverseUnit` | parser.py:76-78 | walking the top-level function declarations only adds keys and keeps order and well-formedness |
| `Traversal.TraverseKeys` | parser.py:37-53 | the keys after the walk are the old ones plus one per reference to a variable declaration in pre-order, under the function in force at that node; the final current function is the last declared one |
| `Traversal.TraverseChildrenKeys` | parser.py:52-53 | the same for the first i children, which are scanned one after another |
| `Traversal.TraverseStaysInFunction` | parser.py:37-59 | a subtree that declares no function keeps the current function and leaves every key of every other function unchanged |
| `Traversal.TraverseChildrenStayInFunction` | parser.py:52-53 | the same for the first i children |
| `Traversal.FunctionIsolation` | parser.py:37-38 | a function declaration whose body declares no function leaves all references of other functions as they were |
| `Traversal.LoopExitLeavesNoInnerLine` | parser.py:52-59 | after a loop and its children are walked, no reference of the current function lies in [start, end) of the loop |
| `Traversal.NestedLoopsWidenToOuterEnd` | parser.py:52-59 | a reference on line 4 in a while on lines 3-6, nested in a for on lines 2-10, ends on line 10 |
| `Allocation.CheckAllocTerm` | parser.py:61-67 | true exactly when some line contains both "alloc" and "*" followed by the name; the line number argument plays no part |
| `Allocation.PrefixNameAlsoMatches` | parser.py:65 | the line `int *ptr = malloc(8);` is evidence for a variable named `p` |
| `Allocation.GatedFollowsKeys` | parser.py:81-87 | the list holds one record per key that passes the gate, and no record for any other key; records follow the dictionary's order and carry the key's names and its reference's final line |
| `Allocation.GatedHasNoDuplicates` | parser.py:81-87 | no (function, variable) pair appears twice in the list |
| `Allocation.NothingPassesNothingGated` | parser.py:81-87 | when no key passes the gate, the list is empty |
| `Allocation.TraverseFunctions` | parser.py:76-78 | the loop leaves the tracker well-formed and in the state `TraverseUnit` describes, with no deallocations yet |
| `Allocation.RecordDeallocations` | parser.py:81-87 | the loop leaves the dictionary unchanged and the list equal to `Gated` over the keys in order |
| `Allocation.Analyze` | parser.py:69-98 | the document is produced exactly when the list is non-empty, and it holds that list under `deallocations` |
| `Allocation.NoEvidenceNothingWritten` | parser.py:93-98 | a file with no line containing "alloc" yields an empty list, so nothing is written |
| `Injection.ScopeStepMeaning` | ParseInject.py:26-35 | one line fails exactly on a header with a blank prefix before "("; a header sets the name and a count of 1; a line with "{" adds its "{"s and ignores its "}"s; a line without "{" subtracts its "}"s; a line that is no header keeps the function's name whenever one stays in force; the function is None afterwards exactly when it was None and the line is no header, or such a subtraction reached 0 |
| `Injection.HeaderNameIsLastToken` | ParseInject.py:27-29 | the name a header assigns is non-empty, holds no whitespace and no "(", and is the last token before the first "(" |
| `Injection.FreesAfter` | ParseInject.py:39-43 | at most one line per point is written after a line; outside any function nothing is written |
| `Injection.FreesAfterFollowsPoints` | ParseInject.py:39-43 | exactly one free per point whose line number and function match, none for any other point, in the points' order |
| `Injection.FreeComesFromPoint` | ParseInject.py:39-43 | every line written after line i frees the variable of some point with line number i |
| `Injection.WriteFrees` | ParseInject.py:39-43 | the inner loop writes exactly the frees `FreesAfter` describes |
| `Injection.UpdateScope` | ParseInject.py:27-35 | the scope tracking of one iteration computes exactly what `ScopeStep` describes, including the IndexError |
| `Injection.InjectDeallocationCode` | ParseInject.py:11-45 | returns the KeyError when `deallocations` is missing, the IndexError of the first blank header, and otherwise the output `Run` describes |
| `Injection.RunStopsAtError` | ParseInject.py:27-28 | once a header raises, the pass ends with that error |
| `Injection.RunFollowsScopes` | ParseInject.py:25-43 | the pass fails exactly when the scope scan does, with the same error; otherwise it writes one block per line: the line, then the frees for the scope that holds after that line's own update |
| `Injection.InjectedKeepsSource` | ParseInject.py:25-43 | the output splits into one block per input line, which starts with that line and continues only with frees of points for that line number; deleting the inserted lines gives back the input |
| `Injection.OutOfRangePointWritesNothing` | ParseInject.py:39-41 | removing a point whose line number is outside 1..number of lines does not change the result |

## Left out

- The clang front end (`Index`, `CursorKind`, `extent`, `referenced`, `get_children`) is a foreign library. The syntax tree is an input datatype whose nodes carry a kind, a spelling, a start line, an end line, a flag for "references a `VAR_DECL`" and their children.
- File and JSON I/O and every `print` are left out, including the message at parser.py:96. The C file is a sequence of lines, the document is a map from field name to points, and the output file is a sequence of lines.
- The command line of ParseInject.py (lines 48-58) is left out. It reads the JSON file even when `main` wrote none.
- Newline handling of `readlines` is not modelled: each line is an opaque string. `line.count(c)` for one character is the multiset count of that character.
- Malformed records in the document are not modelled: each point has a string function, an integer line and a string variable.
- Traversal.TraverseAst: the start/end parameters that `traverse_ast` passes down are not modelled. Their values are used only at loop nodes, after parser.py:44-45 overwrite them, so the default at parser.py:40 and the passing-down at parser.py:53 have no effect.
- Traversal.WidenReferences: the loop-exit widening is inline in `traverse_ast`. Here it is a separate method called at the same point. In the same way, `main`'s two loops are `Allocation.TraverseFunctions` and `Allocation.RecordDeallocations`, and the scope tracking and inner loop of `inject_deallocation_code` are `Injection.UpdateScope` and `Injection.WriteFrees`.
- Traversal.Traverse: the final line of a key is described through `Add`, `Widen` and the loop-exit lemma, not by a closed formula over the tree.
- Injection.InjectDeallocationCode: on the IndexError the source leaves a partially written output file. The model returns only the error.
- Python's recursion limit on deep trees is not modelled.
