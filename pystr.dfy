/** The two Python string methods the speech pre-processing relies on:
    `str.strip()` with no argument and `str.replace(old, "")`. */
module PyStr {
  import opened Wrappers

  /** The characters for which `c.isspace()` holds: the ones `str.strip()`
      removes when called without an argument. */
  const SpaceChars: set<char> := {
    '\U{9}', '\U{A}', '\U{B}', '\U{C}', '\U{D}', '\U{1C}', '\U{1D}', '\U{1E}',
    '\U{1F}', '\U{20}', '\U{85}', '\U{A0}', '\U{1680}', '\U{2000}', '\U{2001}', '\U{2002}',
    '\U{2003}', '\U{2004}', '\U{2005}', '\U{2006}', '\U{2007}', '\U{2008}', '\U{2009}', '\U{200A}',
    '\U{2028}', '\U{2029}', '\U{202F}', '\U{205F}', '\U{3000}'}

  predicate IsSpace(c: char) {
    c in SpaceChars
  }

  /** Every character of `r` occurs in `s`. */
  ghost predicate CharsFrom(r: string, s: string) {
    forall i :: 0 <= i < |r| ==> r[i] in s
  }

  /** `r` is a suffix of `s` that does not start with whitespace, and only
      whitespace precedes it. */
  ghost predicate LeftStripped(r: string, s: string) {
    && |r| <= |s| && r == s[|s| - |r|..]
    && (forall k :: 0 <= k < |s| - |r| ==> IsSpace(s[k]))
    && (r == [] || !IsSpace(r[0]))
  }

  /** `r` is a prefix of `s` that does not end with whitespace, and only
      whitespace follows it. */
  ghost predicate RightStripped(r: string, s: string) {
    && |r| <= |s| && r == s[..|r|]
    && (forall k :: |r| <= k < |s| ==> IsSpace(s[k]))
    && (r == [] || !IsSpace(r[|r| - 1]))
  }

  /** `s.lstrip()`: drops the leading whitespace and nothing else. */
  function StripLeft(s: string): (r: string)
    ensures LeftStripped(r, s)
    decreases |s|
  {
    if s != [] && IsSpace(s[0]) then
      var r := StripLeft(s[1..]);
      LeftStrippedAfterSpace(r, s);
      r
    else s
  }

  lemma {:induction false} LeftStrippedAfterSpace(r: string, s: string)
    requires s != [] && IsSpace(s[0]) && LeftStripped(r, s[1..])
    ensures LeftStripped(r, s)
  {
    assert s[1..][|s| - 1 - |r|..] == s[|s| - |r|..];
    forall k | 1 <= k < |s| - |r| ensures IsSpace(s[k]) {
      assert s[k] == s[1..][k - 1];
    }
  }

  /** `s.rstrip()`: drops the trailing whitespace and nothing else. */
  function StripRight(s: string): (r: string)
    ensures RightStripped(r, s)
    decreases |s|
  {
    if s != [] && IsSpace(s[|s| - 1]) then
      var r := StripRight(s[..|s| - 1]);
      RightStrippedBeforeSpace(r, s);
      r
    else s
  }

  lemma {:induction false} RightStrippedBeforeSpace(r: string, s: string)
    requires s != [] && IsSpace(s[|s| - 1]) && RightStripped(r, s[..|s| - 1])
    ensures RightStripped(r, s)
  {
    assert s[..|s| - 1][..|r|] == s[..|r|];
    forall k | |r| <= k < |s| - 1 ensures IsSpace(s[k]) {
      assert s[k] == s[..|s| - 1][k];
    }
  }

  /** `r` is the slice of `s` starting at `i` once whitespace is dropped at both
      ends: everything outside the slice is whitespace, and a non-empty slice
      starts and ends with non-whitespace. */
  ghost predicate StrippedAt(r: string, s: string, i: nat) {
    && i + |r| <= |s|
    && r == s[i..i + |r|]
    && (forall k :: 0 <= k < i ==> IsSpace(s[k]))
    && (forall k :: i + |r| <= k < |s| ==> IsSpace(s[k]))
    && (r != [] ==> !IsSpace(r[0]) && !IsSpace(r[|r| - 1]))
  }

  /** `s.strip()`. */
  function Strip(s: string): (r: string)
    ensures StrippedAt(r, s, |s| - |StripLeft(s)|)
    ensures CharsFrom(r, s)
  {
    StripIsSlice(s);
    StripRight(StripLeft(s))
  }

  lemma {:induction false} StripIsSlice(s: string)
    ensures StrippedAt(StripRight(StripLeft(s)), s, |s| - |StripLeft(s)|)
    ensures CharsFrom(StripRight(StripLeft(s)), s)
  {
    var l := StripLeft(s);
    SliceOfSlice(s, l, StripRight(l));
  }

  /** What `StripLeft` and `StripRight` promise, composed: `l` is `s` without
      leading whitespace and `r` is `l` without trailing whitespace. */
  lemma {:induction false} SliceOfSlice(s: string, l: string, r: string)
    requires LeftStripped(l, s) && RightStripped(r, l)
    ensures StrippedAt(r, s, |s| - |l|)
    ensures CharsFrom(r, s)
  {
    var i := |s| - |l|;
    assert r == s[i..i + |r|];
    forall k | i + |r| <= k < |s| ensures IsSpace(s[k]) {
      assert s[k] == l[k - i];
    }
    assert r != [] ==> r[0] == l[0];
    forall k | 0 <= k < |r| ensures r[k] in s {
      assert r[k] == s[i + k];
    }
  }

  /** A text with no whitespace at either end is its own `strip()`. */
  lemma {:induction false} StripUnchanged(s: string)
    requires s != [] && !IsSpace(s[0]) && !IsSpace(s[|s| - 1])
    ensures Strip(s) == s
  {
    assert StripLeft(s) == s;
    assert StripRight(s) == s;
  }

  /** The facts `StrippedAt` lists determine the stripped string: there is only
      one way to strip a string. */
  lemma {:induction false} StrippedAtUnique(r1: string, r2: string, s: string, i: nat, j: nat)
    requires StrippedAt(r1, s, i) && StrippedAt(r2, s, j)
    ensures r1 == r2
  {
    // A non-empty result starts at the first non-whitespace character and ends
    // at the last one; an empty result leaves none.
    assert r1 != [] ==> s[i] == r1[0] && s[i + |r1| - 1] == r1[|r1| - 1];
    assert r2 != [] ==> s[j] == r2[0] && s[j + |r2| - 1] == r2[|r2| - 1];
    assert r1 != [] && r2 != [] ==> i == j && |r1| == |r2|;
    assert r1 == [] ==> forall k :: 0 <= k < |s| ==> IsSpace(s[k]);
    assert r2 == [] ==> forall k :: 0 <= k < |s| ==> IsSpace(s[k]);
  }

  /** An occurrence of `pat` starts at index `i` of `s`. */
  predicate OccursAt(s: string, pat: string, i: nat) {
    i + |pat| <= |s| && s[i..i + |pat|] == pat
  }

  /** Occurrences in `s[1..]` are the occurrences in `s` one position later. */
  lemma {:induction false} OccursInTail(s: string, pat: string)
    requires s != []
    ensures forall k: nat :: 1 <= k ==> (OccursAt(s, pat, k) <==> OccursAt(s[1..], pat, k - 1))
    ensures forall j: nat :: OccursAt(s[1..], pat, j) ==> OccursAt(s, pat, j + 1)
  {
    forall j: nat
      ensures OccursAt(s[1..], pat, j) <==> OccursAt(s, pat, j + 1)
    {
      if j + 1 + |pat| <= |s| {
        assert s[1..][j..j + |pat|] == s[j + 1..j + 1 + |pat|];
      }
    }
  }

  /** `s.replace(pat, "")` for a non-empty `pat`: one left-to-right scan that
      drops each occurrence it meets and resumes after it, so occurrences never
      overlap. */
  function RemoveAll(s: string, pat: string): (r: string)
    requires pat != []
    ensures |r| <= |s|
    ensures CharsFrom(r, s)
    decreases |s|
  {
    if |s| < |pat| then s
    else if s[..|pat|] == pat then RemoveAll(s[|pat|..], pat)
    else [s[0]] + RemoveAll(s[1..], pat)
  }

  /** The first index at which `pat` occurs in `s` (`s.find(pat)`), or `None`. */
  function Find(s: string, pat: string): (r: Option<nat>)
    requires pat != []
    ensures r.Some? ==> r.value + |pat| <= |s|
    decreases |s|
  {
    if |s| < |pat| then None
    else if s[..|pat|] == pat then Some(0)
    else
      match Find(s[1..], pat)
      case None => None
      case Some(j) => Some(j + 1)
  }

  /** `r` is the leftmost occurrence of `pat` in `s`, or `None` when there is none. */
  ghost predicate Leftmost(s: string, pat: string, r: Option<nat>) {
    && (r.Some? ==> OccursAt(s, pat, r.value))
    && (r.Some? ==> forall j :: 0 <= j < r.value ==> !OccursAt(s, pat, j))
    && (r.None? ==> forall j :: 0 <= j < |s| ==> !OccursAt(s, pat, j))
  }

  /** `Find` returns the leftmost occurrence, and `None` only when there is none. */
  lemma {:induction false} FindIsLeftmost(s: string, pat: string)
    requires pat != []
    ensures Leftmost(s, pat, Find(s, pat))
    decreases |s|
  {
    if |s| < |pat| {
    } else if s[..|pat|] == pat {
      assert s[0..|pat|] == s[..|pat|];
    } else {
      FindIsLeftmost(s[1..], pat);
      LeftmostInTail(s, pat, Find(s[1..], pat));
    }
  }

  /** Where no occurrence starts at the first character, the leftmost occurrence
      in the rest, one position later, is the leftmost one in `s`. */
  lemma {:induction false} LeftmostInTail(s: string, pat: string, r: Option<nat>)
    requires pat != [] && |s| >= |pat| && s[..|pat|] != pat
    requires Leftmost(s[1..], pat, r)
    ensures Leftmost(s, pat, if r.None? then None else Some(r.value + 1))
  {
    var t := s[1..];
    assert s[0..|pat|] == s[..|pat|];
    forall j | 0 <= j < |t| && j + |pat| <= |t|
      ensures OccursAt(t, pat, j) <==> OccursAt(s, pat, j + 1)
    {
      assert t[j..j + |pat|] == s[j + 1..j + 1 + |pat|];
    }
    forall j | 1 <= j < |s| && !OccursAt(t, pat, j - 1) ensures !OccursAt(s, pat, j) {
      if j + |pat| <= |s| {
        assert t[j - 1..j - 1 + |pat|] == s[j..j + |pat|];
      }
    }
  }

  /** Replacement stated through searching: find the first occurrence, keep what
      precedes it, and continue after it. */
  function RemoveBySearch(s: string, pat: string): string
    requires pat != []
    decreases |s|
  {
    match Find(s, pat)
    case None => s
    case Some(i) => s[..i] + RemoveBySearch(s[i + |pat|..], pat)
  }

  /** Where no occurrence starts at the first character, the first occurrence is
      the first one of the rest, one position later. */
  lemma {:induction false} FindInTail(s: string, pat: string)
    requires pat != [] && |s| >= |pat| && s[..|pat|] != pat
    ensures Find(s, pat) == if Find(s[1..], pat).None? then None else Some(Find(s[1..], pat).value + 1)
  {
  }

  /** Where no occurrence starts at the first character, cutting by search keeps
      that character and carries on with the rest. */
  lemma {:induction false} SearchSkipsFirst(s: string, pat: string)
    requires pat != [] && |s| >= |pat| && s[..|pat|] != pat
    ensures RemoveBySearch(s, pat) == [s[0]] + RemoveBySearch(s[1..], pat)
  {
    FindInTail(s, pat);
    if Find(s[1..], pat).None? {
      assert s == [s[0]] + s[1..];
    } else {
      SearchSkipsFirstToLaterOccurrence(s, pat);
    }
  }

  lemma {:induction false} SearchSkipsFirstToLaterOccurrence(s: string, pat: string)
    requires pat != [] && |s| >= |pat| && s[..|pat|] != pat
    requires Find(s[1..], pat).Some?
    ensures RemoveBySearch(s, pat) == [s[0]] + RemoveBySearch(s[1..], pat)
  {
    var t := s[1..];
    var i := Find(t, pat).value;
    FindInTail(s, pat);
    CutAt(s, pat, i + 1);
    CutAt(t, pat, i);
    var rest := RemoveBySearch(t[i + |pat|..], pat);
    var u := s[i + 1 + |pat|..];
    assert u == t[i + |pat|..];
    var rest' := RemoveBySearch(u, pat);
    assert rest' == rest;
    KeepFirst(s, i, rest);
    calc {
      RemoveBySearch(s, pat);
      s[..i + 1] + rest';
      s[..i + 1] + rest;
      [s[0]] + (t[..i] + rest);
      [s[0]] + RemoveBySearch(t, pat);
    }
  }

  lemma {:induction false} CutAt(s: string, pat: string, i: nat)
    requires pat != [] && Find(s, pat) == Some(i)
    ensures i + |pat| <= |s|
    ensures RemoveBySearch(s, pat) == s[..i] + RemoveBySearch(s[i + |pat|..], pat)
  {
  }

  lemma {:induction false} KeepFirst(s: string, i: nat, rest: string)
    requires i < |s|
    ensures s[..i + 1] + rest == [s[0]] + (s[1..][..i] + rest)
  {
    assert s[..i + 1] == [s[0]] + s[1..][..i];
  }

  /** The character-by-character scan and the search-based statement agree. */
  lemma {:induction false} RemoveAllIsSearchAndCut(s: string, pat: string)
    requires pat != []
    ensures RemoveAll(s, pat) == RemoveBySearch(s, pat)
    decreases |s|
  {
    if |s| < |pat| {
      assert Find(s, pat).None?;
    } else if s[..|pat|] == pat {
      assert Find(s, pat) == Some(0);
      RemoveAllIsSearchAndCut(s[|pat|..], pat);
    } else {
      RemoveAllIsSearchAndCut(s[1..], pat);
      SearchSkipsFirst(s, pat);
    }
  }

  /** A string with no occurrence of `pat` comes back unchanged. */
  lemma {:induction false} RemoveAllWithoutOccurrence(s: string, pat: string)
    requires pat != []
    requires forall j :: 0 <= j < |s| ==> !OccursAt(s, pat, j)
    ensures RemoveAll(s, pat) == s
    decreases |s|
  {
    if |s| >= |pat| {
      assert !OccursAt(s, pat, 0);
      OccursInTail(s, pat);
      RemoveAllWithoutOccurrence(s[1..], pat);
    }
  }

  /** Where no occurrence starts before index `n`, the first `n` characters are
      kept as they are. */
  lemma {:induction false} RemoveAllKeepsUnmatched(s: string, pat: string, n: nat)
    requires pat != [] && n <= |s|
    requires forall j :: 0 <= j < n ==> !OccursAt(s, pat, j)
    ensures RemoveAll(s, pat) == s[..n] + RemoveAll(s[n..], pat)
    decreases n
  {
    if n > 0 {
      if |s| < |pat| {
        assert s == s[..n] + s[n..];
      } else {
        assert !OccursAt(s, pat, 0);
        assert s[..|pat|] != pat;
        var t := s[1..];
        forall j | 0 <= j < n - 1 ensures !OccursAt(t, pat, j) {
          assert !OccursAt(s, pat, j + 1);
          if j + |pat| <= |t| {
            assert t[j..j + |pat|] == s[j + 1..j + 1 + |pat|];
          }
        }
        RemoveAllKeepsUnmatched(t, pat, n - 1);
        assert t[n - 1..] == s[n..];
        assert s[..n] == [s[0]] + t[..n - 1];
      }
    }
  }

  /** Removing a character the text does not hold leaves the text as it is. */
  lemma {:induction false} RemoveAbsentChar(s: string, c: char)
    requires c !in s
    ensures RemoveAll(s, [c]) == s
  {
    forall j | 0 <= j < |s| ensures !OccursAt(s, [c], j) {
      if j + 1 <= |s| {
        assert s[j..j + 1][0] == s[j];
      }
    }
    RemoveAllWithoutOccurrence(s, [c]);
  }

  /** An occurrence at the very start is cut and the scan resumes after it. */
  lemma CutLeading(pat: string, t: string)
    requires pat != []
    ensures RemoveAll(pat + t, pat) == RemoveAll(t, pat)
  {
    assert (pat + t)[..|pat|] == pat;
    assert (pat + t)[|pat|..] == t;
  }

  /** Replacement is a single pass: cutting an occurrence out can join the text
      around it into a new occurrence, which stays. */
  lemma ReplaceIsSinglePass()
    ensures RemoveAll("aabb", "ab") == "ab"
  {
    var s := "aabb";
    assert s[..2] != "ab" by {
      assert s[..2][1] == 'a';
    }
    assert s[1..] == "abb";
    assert "abb"[..2] == "ab";
    assert "abb"[2..] == "b";
  }

  /** Removing a one-character pattern removes every copy of that character. */
  lemma {:induction false} RemoveCharRemovesAll(s: string, c: char)
    ensures c !in RemoveAll(s, [c])
    decreases |s|
  {
    if |s| >= 1 {
      RemoveCharRemovesAll(s[1..], c);
    }
  }

}
