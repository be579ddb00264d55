/** `String.prototype.nthIndexOf(searchValue, nthIndex, start)`: the position
    of the nth occurrence of a substring, counted from the front for a
    positive `nthIndex` and from the back for a negative one. Like the
    `indexOf` it calls, it works on UTF-16 code units: positions, the start
    and the string's length count those. */
module NthIndex {
  import opened Values

  /** The UTF-16 code units of a JavaScript string. */
  type Units = seq<CodeUnit>

  /** `t` occurs in `s` at position `k`. The empty string occurs everywhere,
      including at `|s|`. */
  predicate MatchAt(s: Units, t: Units, k: int)
  {
    0 <= k && k + |t| <= |s| && s[k..k + |t|] == t
  }

  /** Every position at or after `from` where `t` occurs, in increasing order. */
  function Occurrences(s: Units, t: Units, from: nat): seq<nat>
    decreases |s| + 1 - from
  {
    if from > |s| then []
    else (if MatchAt(s, t, from) then [from] else []) + Occurrences(s, t, from + 1)
  }

  /** The first position at or after `k` where `t` occurs, or -1. */
  function IndexFrom(s: Units, t: Units, k: nat): (r: int)
    ensures r == -1 || (k <= r <= |s| && MatchAt(s, t, r))
    decreases |s| + 1 - k
  {
    if k > |s| then -1 else if MatchAt(s, t, k) then k else IndexFrom(s, t, k + 1)
  }

  /** `String.prototype.indexOf(t, from)`: `from` is clamped into `[0, |s|]`. */
  function IndexOf(s: Units, t: Units, from: int): int
  {
    IndexFrom(s, t, if from < 0 then 0 else if from > |s| then |s| else from)
  }

  /** Where the forward search starts: `start`, or 0 when it is absent. */
  function SearchStart(start: Option<int>): nat
  {
    if start.None? || start.value < 0 then 0 else start.value
  }

  /** The `n`th of the positions `occ`, counted from the front for a positive
      `n` and from the back for a negative one, or -1 when there are too few. */
  function Pick(occ: seq<nat>, n: int): int
  {
    if n > 0 then (if n <= |occ| then occ[n - 1] else -1)
    else if |occ| + n >= 0 && n < 0 then occ[|occ| + n]
    else -1
  }

  /** Specification of `nthIndexOf`. */
  function NthIndexOfSpec(s: string, t: string, nthIndex: int, start: Option<int>): Result<int>
  {
    if nthIndex == 0 then Throws(NthIndexZero)
    else Ok(Pick(Occurrences(Utf16(s), Utf16(t), SearchStart(start)), nthIndex))
  }

  /** The occurrences are exactly the matching positions at or after `from`. */
  lemma {:induction false} OccurrencesMembers(s: Units, t: Units, from: nat)
    ensures forall j :: j in Occurrences(s, t, from) <==> from <= j && MatchAt(s, t, j)
    decreases |s| + 1 - from
  {
    if from <= |s| {
      OccurrencesMembers(s, t, from + 1);
      var head: seq<nat> := if MatchAt(s, t, from) then [from] else [];
      assert Occurrences(s, t, from) == head + Occurrences(s, t, from + 1);
    } else {
      forall j | from <= j && MatchAt(s, t, j) ensures false {
      }
    }
  }

  /** The occurrences are listed in strictly increasing order. */
  lemma {:induction false} OccurrencesIncreasing(s: Units, t: Units, from: nat)
    ensures forall a, b :: 0 <= a < b < |Occurrences(s, t, from)| ==>
      Occurrences(s, t, from)[a] < Occurrences(s, t, from)[b]
    decreases |s| + 1 - from
  {
    if from <= |s| {
      OccurrencesIncreasing(s, t, from + 1);
      OccurrencesMembers(s, t, from + 1);
      var rest := Occurrences(s, t, from + 1);
      assert forall b :: 0 <= b < |rest| ==> rest[b] in rest;
    }
  }

  /** Searching from `k` finds the head of the occurrences from `k`. */
  lemma {:induction false} IndexFromIsFirst(s: Units, t: Units, k: nat)
    ensures IndexFrom(s, t, k) == -1 ==> Occurrences(s, t, k) == []
    ensures IndexFrom(s, t, k) != -1 ==>
      Occurrences(s, t, k) == [IndexFrom(s, t, k)] + Occurrences(s, t, IndexFrom(s, t, k) + 1)
    decreases |s| + 1 - k
  {
    if k <= |s| {
      if MatchAt(s, t, k) {
        assert IndexFrom(s, t, k) == k;
        assert Occurrences(s, t, k) == [k] + Occurrences(s, t, k + 1);
      } else {
        assert IndexFrom(s, t, k) == IndexFrom(s, t, k + 1);
        assert Occurrences(s, t, k) == [] + Occurrences(s, t, k + 1);
        IndexFromIsFirst(s, t, k + 1);
      }
    }
  }

  /** Where the search resumes after position `i`. */
  function Resume(i: int): nat
  {
    if i + 1 < 0 then 0 else i + 1
  }

  /** One step of the search loop: the next match after `i` is the head of
      the occurrences that remain. */
  lemma SearchStep(s: Units, t: Units, i: int)
    requires i < |s|
    ensures IndexOf(s, t, i + 1) == -1 ==> Occurrences(s, t, Resume(i)) == []
    ensures IndexOf(s, t, i + 1) != -1 ==>
      i < IndexOf(s, t, i + 1) <= |s| &&
      Occurrences(s, t, Resume(i)) == [IndexOf(s, t, i + 1)] + Occurrences(s, t, Resume(IndexOf(s, t, i + 1)))
  {
    IndexFromIsFirst(s, t, Resume(i));
  }

  /** One turn of the search loop, in terms of the occurrences still to be
      found: the next match is the next occurrence, or there is none left. */
  lemma SearchAdvance(s: Units, t: Units, i: int, position: seq<nat>, all: seq<nat>)
    requires i < |s| && position + Occurrences(s, t, Resume(i)) == all
    ensures var j := IndexOf(s, t, i + 1);
      && (j == -1 ==> position == all)
      && (j != -1 ==> i < j <= |s| && |position| < |all| && all[|position|] == j
                      && (position + [j]) + Occurrences(s, t, Resume(j)) == all)
  {
    SearchStep(s, t, i);
    var j := IndexOf(s, t, i + 1);
    if j != -1 {
      var rest := Occurrences(s, t, Resume(j));
      assert position + ([j] + rest) == all;
      assert (position + [j]) + rest == position + ([j] + rest);
    }
  }

  /** The `while` loop of `nthIndexOf`: it searches forward from after `i0`,
      recording each occurrence, and stops at the `nthIndex`th one or when
      none is left. */
  method SearchForward(s: Units, searchValue: Units, nthIndex: int, i0: int)
    returns (hit: bool, i: int, position: seq<nat>)
    ensures var all := Occurrences(s, searchValue, Resume(i0));
      && (hit ==> nthIndex > 0 && i == Pick(all, nthIndex))
      && (!hit ==> position == all && (nthIndex > 0 ==> |all| < nthIndex))
  {
    i := i0;
    var l := |s|;
    position := [];
    ghost var all := Occurrences(s, searchValue, Resume(i0));
    while i < l
      invariant position + Occurrences(s, searchValue, Resume(i)) == all
      invariant nthIndex > 0 ==> |position| < nthIndex
      decreases l - i
    {
      SearchAdvance(s, searchValue, i, position, all);
      i := IndexOf(s, searchValue, i + 1);
      if |position| + 1 == nthIndex {
        assert i == -1 ==> |all| == |position|;
        return true, i, position;
      }
      if i == -1 {
        return false, i, position;
      }
      position := position + [i];
    }
    return false, i, position;
  }

  method NthIndexOf(s: string, searchValue: string, nthIndex: int, start: Option<int>)
    returns (r: Result<int>)
    ensures r == NthIndexOfSpec(s, searchValue, nthIndex, start)
  {
    if nthIndex == 0 {
      return Throws(NthIndexZero);
    }
    var i := if start.None? then -1 else start.value - 1;
    assert Resume(i) == SearchStart(start);
    var hit, found, position := SearchForward(Utf16(s), Utf16(searchValue), nthIndex, i);
    if hit {
      return Ok(found);
    }
    if nthIndex < 0 {
      var targetIndex := |position| + nthIndex;
      if targetIndex >= 0 {
        return Ok(position[targetIndex]);
      }
    }
    return Ok(-1);
  }

  /** The code units of a string in the Basic Multilingual Plane, given outright. */
  lemma UnitsOf(s: string, u: Units)
    requires |s| == |u| && forall i :: 0 <= i < |s| ==> s[i] as int == u[i]
    ensures Utf16(s) == u
  {
    Utf16Bmp(s);
  }

  /** The occurrences of `aa` in `aaa`, as code units: they overlap. */
  lemma AaaOccurrences(s: Units, t: Units)
    requires s == [97, 97, 97] && t == [97, 97]
    ensures Occurrences(s, t, 0) == [0, 1]
  {
    assert !MatchAt(s, t, 3) && Occurrences(s, t, 3) == [];
    assert !MatchAt(s, t, 2) && Occurrences(s, t, 2) == [];
    assert s[1..3] == t && MatchAt(s, t, 1);
    assert Occurrences(s, t, 1) == [1];
    assert s[0..2] == t && MatchAt(s, t, 0);
  }

  /** Overlapping occurrences count, and a negative index counts from the end. */
  lemma OverlappingExamples()
    ensures NthIndexOfSpec("aaa", "aa", 2, None) == Ok(1)
    ensures NthIndexOfSpec("aaa", "aa", 3, None) == Ok(-1)
    ensures NthIndexOfSpec("aaa", "aa", 0, None) == Throws(NthIndexZero)
  {
    var s: Units, t: Units := [97, 97, 97], [97, 97];
    UnitsOf("aaa", s);
    UnitsOf("aa", t);
    AaaOccurrences(s, t);
  }

  /** The occurrences of `a` in `abca`, as code units. */
  lemma AbcaOccurrences(s: Units, t: Units)
    requires s == [97, 98, 99, 97] && t == [97]
    ensures Occurrences(s, t, 0) == [0, 3] && Occurrences(s, t, 1) == [3]
  {
    assert !MatchAt(s, t, 4) && Occurrences(s, t, 4) == [];
    assert s[3..4] == t && MatchAt(s, t, 3);
    assert Occurrences(s, t, 3) == [3];
    assert s[2..3] == [99] && !MatchAt(s, t, 2);
    assert Occurrences(s, t, 2) == [3];
    assert s[1..2] == [98] && !MatchAt(s, t, 1);
    assert Occurrences(s, t, 1) == [3];
    assert s[0..1] == [s[0]] == t && MatchAt(s, t, 0);
  }

  /** A negative index counts from the last occurrence, and a start position
      skips the occurrences before it. */
  lemma FromEndExamples()
    ensures NthIndexOfSpec("abca", "a", -1, None) == Ok(3)
    ensures NthIndexOfSpec("abca", "a", 1, Some(1)) == Ok(3)
  {
    var s: Units, t: Units := [97, 98, 99, 97], [97];
    UnitsOf("abca", s);
    UnitsOf("a", t);
    AbcaOccurrences(s, t);
  }

  /** The code units of a grinning face (U+1F600) followed by `a`. */
  lemma GrinThenA()
    ensures Utf16("\U{1F600}a") == [0xD83D, 0xDE00, 97]
  {
    var grin: string := ['\U{1F600}'];
    assert grin[..0] == [];
    assert Encode('\U{1F600}') == [0xD83D, 0xDE00];
    assert Utf16(grin) == [0xD83D, 0xDE00];
    var s: string := "\U{1F600}a";
    assert s[..1] == grin && s[1] == 'a';
    assert Utf16(s) == Utf16(grin) + Encode('a');
  }

  /** A character outside the Basic Multilingual Plane takes two positions,
      so the `a` after one is found at position 2. */
  lemma SurrogatePairExamples()
    ensures NthIndexOfSpec("\U{1F600}a", "a", 1, None) == Ok(2)
    ensures NthIndexOfSpec("\U{1F600}a", "a", 1, Some(2)) == Ok(2)
  {
    var s: Units, t: Units := [0xD83D, 0xDE00, 97], [97];
    GrinThenA();
    UnitsOf("a", t);
    assert !MatchAt(s, t, 3) && Occurrences(s, t, 3) == [];
    assert s[2..3] == t && MatchAt(s, t, 2);
    assert Occurrences(s, t, 2) == [2];
    assert s[1..2] == [0xDE00] && !MatchAt(s, t, 1);
    assert Occurrences(s, t, 1) == [2];
    assert s[0..1] == [0xD83D] && !MatchAt(s, t, 0);
    assert Occurrences(s, t, 0) == [2];
  }
}
