/**
 * The few Python string operations the core relies on: substring containment
 * (`sub in s`), `str.isspace`, `str.split()` without arguments and
 * `s.split(c)[0]`.
 */
module Strings {

  /** `sub` occurs in `s` at index `i`. */
  ghost predicate OccursAt(s: string, sub: string, i: int)
  {
    0 <= i && i + |sub| <= |s| && s[i..i + |sub|] == sub
  }

  lemma OccursAtShift(s: string, sub: string, i: int)
    requires |s| > 0 && 0 <= i
    ensures OccursAt(s[1..], sub, i) <==> OccursAt(s, sub, i + 1)
  {
    if 0 <= i && i + |sub| <= |s| - 1 {
      assert s[1..][i..i + |sub|] == s[i + 1..i + 1 + |sub|];
    }
  }

  /** Python's `sub in s`: plain substring containment (the empty string is in every string). */
  function Contains(s: string, sub: string): (r: bool)
    ensures r <==> exists i :: OccursAt(s, sub, i)
    decreases |s|
  {
    if |sub| > |s| then false
    else if s[..|sub|] == sub then
      assert OccursAt(s, sub, 0);
      true
    else
      var r := Contains(s[1..], sub);
      assert r ==> exists i :: OccursAt(s, sub, i) by {
        if r {
          var i :| OccursAt(s[1..], sub, i);
          OccursAtShift(s, sub, i);
        }
      }
      assert (exists i :: OccursAt(s, sub, i)) ==> r by {
        if exists i :: OccursAt(s, sub, i) {
          var i :| OccursAt(s, sub, i);
          assert i != 0;
          OccursAtShift(s, sub, i - 1);
        }
      }
      r
  }

  /** Python's `str.isspace` on one character. */
  predicate IsSpace(c: char)
  {
    c == ' ' || ('\t' <= c <= '\r') || ('\U{1C}' <= c <= '\U{1F}')
    || c == '\U{85}' || c == '\U{A0}' || c == '\U{1680}'
    || ('\U{2000}' <= c <= '\U{200A}') || c == '\U{2028}' || c == '\U{2029}'
    || c == '\U{202F}' || c == '\U{205F}' || c == '\U{3000}'
  }

  /** Every character of `s` is whitespace (true of the empty string). */
  predicate Blank(s: string)
  {
    forall i :: 0 <= i < |s| ==> IsSpace(s[i])
  }

  /** No character of `s` is whitespace. */
  predicate NoSpace(s: string)
  {
    forall i :: 0 <= i < |s| ==> !IsSpace(s[i])
  }

  /** `s` with every whitespace character deleted. */
  function RemoveSpaces(s: string): string
  {
    if s == [] then [] else Kept(s[0]) + RemoveSpaces(s[1..])
  }

  /** What `RemoveSpaces` keeps of one character. */
  function Kept(c: char): string
  {
    if IsSpace(c) then [] else [c]
  }

  lemma {:induction false} RemoveSpacesAppend(a: string, b: string)
    ensures RemoveSpaces(a + b) == RemoveSpaces(a) + RemoveSpaces(b)
    decreases |a|
  {
    if a == [] {
      assert a + b == b;
    } else {
      assert (a + b)[0] == a[0] && (a + b)[1..] == a[1..] + b;
      RemoveSpacesAppend(a[1..], b);
      assert RemoveSpaces(a + b) == Kept(a[0]) + (RemoveSpaces(a[1..]) + RemoveSpaces(b));
    }
  }

  lemma {:induction false} RemoveSpacesOfWord(w: string)
    requires NoSpace(w)
    ensures RemoveSpaces(w) == w
    decreases |w|
  {
    if w != [] {
      RemoveSpacesOfWord(w[1..]);
    }
  }

  /** The longest prefix of `s` that holds no whitespace. */
  function LeadingWord(s: string): (w: string)
    ensures |w| <= |s| && w == s[..|w|]
    ensures NoSpace(w)
    ensures |w| == |s| || IsSpace(s[|w|])
    decreases |s|
  {
    if s == [] || IsSpace(s[0]) then []
    else [s[0]] + LeadingWord(s[1..])
  }

  /**
   * Python's `s.split()`: the maximal runs of non-whitespace characters,
   * left to right. Leading and trailing whitespace yields no word, so
   * `s.strip().split()` is the same list.
   */
  function Words(s: string): (ws: seq<string>)
    ensures forall j :: 0 <= j < |ws| ==> ws[j] != [] && NoSpace(ws[j])
    decreases |s|
  {
    if s == [] then []
    else if IsSpace(s[0]) then Words(s[1..])
    else
      var w := LeadingWord(s);
      [w] + Words(s[|w|..])
  }

  /** The words of `s` are empty exactly when `s` is blank: the case where `split()[-1]` raises. */
  lemma {:induction false} WordsEmptyIffBlank(s: string)
    ensures Words(s) == [] <==> Blank(s)
    decreases |s|
  {
    if s != [] && IsSpace(s[0]) {
      WordsEmptyIffBlank(s[1..]);
      assert Blank(s) <==> Blank(s[1..]) by {
        if Blank(s[1..]) {
          forall i | 0 <= i < |s| ensures IsSpace(s[i]) {
            if i > 0 { assert s[i] == s[1..][i - 1]; }
          }
        }
      }
    }
  }

  function Concat(ws: seq<string>): string
  {
    if ws == [] then [] else ws[0] + Concat(ws[1..])
  }

  /** Gluing the words back together gives `s` without its whitespace: `split()` loses nothing else. */
  lemma {:induction false} WordsLoseOnlySpaces(s: string)
    ensures Concat(Words(s)) == RemoveSpaces(s)
    decreases |s|
  {
    if s == [] {
    } else if IsSpace(s[0]) {
      WordsLoseOnlySpaces(s[1..]);
      assert Words(s) == Words(s[1..]);
      assert RemoveSpaces(s) == Kept(s[0]) + RemoveSpaces(s[1..]);
      assert Kept(s[0]) == [];
    } else {
      var w := LeadingWord(s);
      var rest := s[|w|..];
      assert Words(s) == [w] + Words(rest);
      assert Concat(Words(s)) == w + Concat(Words(rest));
      WordsLoseOnlySpaces(rest);
      assert s == w + rest;
      RemoveSpacesAppend(w, rest);
      RemoveSpacesOfWord(w);
    }
  }

  /** `w` occurs in `s` at `j`, starts `s` or follows whitespace, and only whitespace follows it. */
  ghost predicate IsFinalRun(s: string, w: string, j: int)
  {
    && OccursAt(s, w, j)
    && (j == 0 || IsSpace(s[j - 1]))
    && Blank(s[j + |w|..])
  }

  /** A final run of the suffix `s[k..]` is one of `s` too, when it does not glue onto a word ending at `k`. */
  lemma FinalRunOfSuffix(s: string, k: int, w: string, j: int)
    requires 0 <= k <= |s|
    requires IsFinalRun(s[k..], w, j)
    requires k == 0 || j > 0 || IsSpace(s[k - 1])
    ensures IsFinalRun(s, w, k + j)
  {
    assert s[k..][j..j + |w|] == s[k + j..k + j + |w|];
    assert s[k..][j + |w|..] == s[k + j + |w|..];
    assert j > 0 ==> s[k..][j - 1] == s[k + j - 1];
  }

  /** The last element of a non-empty list: Python's `ws[-1]`. */
  function Last(ws: seq<string>): string
    requires ws != []
  {
    ws[|ws| - 1]
  }

  /**
   * `s.split()[-1]` is the last run of non-whitespace in `s`: it starts at
   * the beginning of `s` or just after whitespace, and only whitespace
   * follows it. `j` is where it starts.
   */
  lemma {:induction false} LastWordIsFinalRun(s: string) returns (j: int)
    requires Words(s) != []
    ensures IsFinalRun(s, Last(Words(s)), j)
    decreases |s|
  {
    if IsSpace(s[0]) {
      assert Words(s) == Words(s[1..]);
      var j' := LastWordIsFinalRun(s[1..]);
      FinalRunOfSuffix(s, 1, Last(Words(s)), j');
      j := j' + 1;
    } else {
      var w0 := LeadingWord(s);
      var rest := s[|w0|..];
      assert Words(s) == [w0] + Words(rest);
      if Words(rest) == [] {
        WordsEmptyIffBlank(rest);
        assert Last(Words(s)) == w0;
        assert s[..|w0|] == w0;
        j := 0;
      } else {
        assert Last(Words(s)) == Last(Words(rest));
        var j' := LastWordIsFinalRun(rest);
        FinalRunOfSuffix(s, |w0|, Last(Words(s)), j');
        j := |w0| + j';
      }
    }
  }

  /** Python's `s.split(c)[0]`: the text before the first `c`, or all of `s` when there is none. */
  function BeforeFirst(s: string, c: char): (r: string)
    ensures |r| <= |s| && r == s[..|r|]
    ensures c !in r
    ensures |r| < |s| ==> s[|r|] == c
    decreases |s|
  {
    if s == [] || s[0] == c then []
    else [s[0]] + BeforeFirst(s[1..], c)
  }
}
