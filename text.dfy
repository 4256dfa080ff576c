/**
 * The handful of Python `str` operations the scrapers chain together:
 * `lower`, `replace(pat, '')`, `find`, `in`, `strip` and slicing, each with
 * Python's own semantics (negative slice bounds, -1 for "not found",
 * non-overlapping left-to-right replacement).
 */
module Text {

  /** Python's `str.isspace` (also what `\s` matches in a `str` pattern and
      what `str.strip()` removes): the characters CPython counts as whitespace. */
  predicate IsSpace(c: char) {
    ('\t' <= c <= '\r') || ('\U{1C}' <= c <= ' ') || c == '\U{85}' || c == '\U{A0}'
    || c == '\U{1680}' || ('\U{2000}' <= c <= '\U{200A}') || c == '\U{2028}' || c == '\U{2029}'
    || c == '\U{202F}' || c == '\U{205F}' || c == '\U{3000}'
  }

  predicate IsDigit(c: char) {
    '0' <= c <= '9'
  }

  predicate IsLowerAlnum(c: char) {
    ('a' <= c <= 'z') || IsDigit(c)
  }

  ghost predicate AllSpace(s: string) {
    forall k :: 0 <= k < |s| ==> IsSpace(s[k])
  }

  /** `str.lower()` on one character, for the ASCII letters. */
  function LowerChar(c: char): char {
    if 'A' <= c <= 'Z' then (c as int + 32) as char else c
  }

  /** `str.lower()`, character by character. */
  function Lower(s: string): (r: string)
    ensures |r| == |s|
  {
    seq(|s|, i requires 0 <= i < |s| => LowerChar(s[i]))
  }

  /** Lower-casing leaves no ASCII capital, turns each capital into the
      small letter at the same place in the alphabet, and keeps every other
      character where it was. */
  lemma LowerSpec(s: string)
    ensures forall i :: 0 <= i < |s| ==>
      !('A' <= Lower(s)[i] <= 'Z') && (('A' <= s[i] <= 'Z') || Lower(s)[i] == s[i])
      && ('A' <= s[i] <= 'Z' ==> Lower(s)[i] as int - 'a' as int == s[i] as int - 'A' as int)
  {
  }

  /** `pat` starts at index `i` of `s`. */
  predicate OccursAt(s: string, pat: string, i: int) {
    0 <= i && i + |pat| <= |s| && s[i..i + |pat|] == pat
  }

  /** Every character of an occurrence is a character of the text. */
  lemma OccurrenceHasChar(s: string, pat: string, i: int, c: char)
    requires c in pat
    ensures OccursAt(s, pat, i) ==> c in s
  {
    if OccursAt(s, pat, i) {
      var k :| 0 <= k < |pat| && pat[k] == c;
      assert s[i + k] == c;
    }
  }

  /** `s.startswith(pat)`, compared character by character. */
  predicate StartsWith(s: string, pat: string)
    decreases |pat|
  {
    |pat| == 0 || (|s| > 0 && s[0] == pat[0] && StartsWith(s[1..], pat[1..]))
  }

  lemma {:induction false} StartsWithIff(s: string, pat: string)
    ensures StartsWith(s, pat) <==> |pat| <= |s| && s[..|pat|] == pat
    decreases |pat|
  {
    if |pat| > 0 && |s| > 0 {
      StartsWithIff(s[1..], pat[1..]);
      if |pat| <= |s| {
        assert s[..|pat|] == [s[0]] + s[1..][..|pat| - 1];
        assert pat == [pat[0]] + pat[1..];
      }
    }
  }

  /** The index of the first occurrence of `pat` in `s`, or -1. */
  function FindIn(s: string, pat: string): (r: int)
    ensures -1 <= r <= |s|
    decreases |s|
  {
    if |pat| > |s| then -1
    else if StartsWith(s, pat) then 0
    else
      var k := FindIn(s[1..], pat);
      if k == -1 then -1 else k + 1
  }

  /** `s.find(pat, start)`: the lowest index at or after `start` where `pat`
      occurs, or -1 (see FindSpec). */
  function Find(s: string, pat: string, start: nat): (r: int)
    ensures r == -1 || start <= r
  {
    if start > |s| then -1
    else
      var k := FindIn(s[start..], pat);
      if k == -1 then -1 else start + k
  }

  /** An occurrence past the first character is an occurrence in the tail. */
  lemma OccursInTail(s: string, pat: string, i: int)
    requires |s| > 0 && i > 0
    ensures OccursAt(s, pat, i) <==> OccursAt(s[1..], pat, i - 1)
  {
    if i + |pat| <= |s| {
      assert s[1..][i - 1..i - 1 + |pat|] == s[i..i + |pat|];
    }
  }

  lemma {:induction false} FindInSpec(s: string, pat: string)
    ensures var r := FindIn(s, pat);
      (r == -1 ==> forall i :: !OccursAt(s, pat, i))
      && (r != -1 ==> OccursAt(s, pat, r) && forall i :: 0 <= i < r ==> !OccursAt(s, pat, i))
    decreases |s|
  {
    StartsWithIff(s, pat);
    if |pat| <= |s| && !StartsWith(s, pat) {
      var t := s[1..];
      FindInSpec(t, pat);
      assert !OccursAt(s, pat, 0);
      forall i | i > 0
        ensures OccursAt(s, pat, i) <==> OccursAt(t, pat, i - 1)
      {
        OccursInTail(s, pat, i);
      }
    }
  }

  /** An occurrence at or after `start` is an occurrence in `s[start..]`. */
  lemma OccursInSuffix(s: string, pat: string, start: nat, i: int)
    requires start <= |s| && start <= i
    ensures OccursAt(s, pat, i) <==> OccursAt(s[start..], pat, i - start)
  {
    if i + |pat| <= |s| {
      assert s[start..][i - start..i - start + |pat|] == s[i..i + |pat|];
    }
  }

  /** What `find` promises: -1 exactly when `pat` does not occur at or after
      `start`, and otherwise the first such occurrence. */
  lemma FindSpec(s: string, pat: string, start: nat)
    ensures var r := Find(s, pat, start);
      (r == -1 || (start <= r && OccursAt(s, pat, r)))
      && (r == -1 ==> forall i :: start <= i ==> !OccursAt(s, pat, i))
      && (r != -1 ==> forall i :: start <= i < r ==> !OccursAt(s, pat, i))
  {
    if start <= |s| {
      var t := s[start..];
      FindInSpec(t, pat);
      forall i | start <= i
        ensures OccursAt(s, pat, i) <==> OccursAt(t, pat, i - start)
      {
        OccursInSuffix(s, pat, start, i);
      }
    }
  }

  /** `pat in s`. */
  predicate Contains(s: string, pat: string) {
    Find(s, pat, 0) != -1
  }

  lemma ContainsIff(s: string, pat: string)
    ensures Contains(s, pat) <==> exists i :: OccursAt(s, pat, i)
  {
    FindSpec(s, pat, 0);
    if exists i :: OccursAt(s, pat, i) {
      var i :| OccursAt(s, pat, i);
      assert 0 <= i;
    }
  }

  /** `s.replace(pat, '')`: deletes the non-overlapping occurrences of `pat`
      found scanning left to right. */
  function RemoveAll(s: string, pat: string): (r: string)
    requires |pat| > 0
    ensures |r| <= |s|
    decreases |s|
  {
    if |s| < |pat| then s
    else if StartsWith(s, pat) then RemoveAll(s[|pat|..], pat)
    else [s[0]] + RemoveAll(s[1..], pat)
  }

  /** Deleting occurrences only ever removes characters: every character
      left over was in the input, at most as often. */
  lemma {:induction false} RemoveAllShrinks(s: string, pat: string)
    requires |pat| > 0
    ensures |RemoveAll(s, pat)| <= |s|
    ensures multiset(RemoveAll(s, pat)) <= multiset(s)
    decreases |s|
  {
    if |s| >= |pat| {
      if StartsWith(s, pat) {
        StartsWithIff(s, pat);
        assert s == s[..|pat|] + s[|pat|..];
        RemoveAllShrinks(s[|pat|..], pat);
      } else {
        assert s == [s[0]] + s[1..];
        RemoveAllShrinks(s[1..], pat);
      }
    }
  }

  /** A string in which `pat` never occurs comes back unchanged. */
  lemma {:induction false} RemoveAllAbsent(s: string, pat: string)
    requires |pat| > 0
    requires forall i :: !OccursAt(s, pat, i)
    ensures RemoveAll(s, pat) == s
    decreases |s|
  {
    if |s| >= |pat| {
      assert !OccursAt(s, pat, 0);
      StartsWithIff(s, pat);
      forall i ensures !OccursAt(s[1..], pat, i) {
        if OccursAt(s[1..], pat, i) {
          assert s[1..][i..i + |pat|] == s[i + 1..i + 1 + |pat|];
          assert OccursAt(s, pat, i + 1);
        }
      }
      RemoveAllAbsent(s[1..], pat);
      assert s == [s[0]] + s[1..];
    }
  }

  /** `RemoveAllAbsent` for any string: without an occurrence, `replace`
      changes nothing. */
  lemma RemoveAllUnlessPresent(s: string, pat: string)
    requires |pat| > 0
    ensures !Contains(s, pat) ==> RemoveAll(s, pat) == s
  {
    ContainsIff(s, pat);
    if !Contains(s, pat) {
      RemoveAllAbsent(s, pat);
    }
  }

  /** The scan steps past a character where `pat` does not start. */
  lemma ScanPast(s: string, pat: string)
    requires |pat| > 0 && FindIn(s, pat) != -1 && !StartsWith(s, pat)
    ensures FindIn(s, pat) == FindIn(s[1..], pat) + 1 && FindIn(s[1..], pat) != -1
    ensures RemoveAll(s, pat) == [s[0]] + RemoveAll(s[1..], pat)
  {
  }

  lemma ConsSlices(s: string, k: nat, m: nat, x: string)
    requires 0 < k <= m <= |s|
    ensures [s[0]] + (s[1..][..k - 1] + x) == s[..k] + x
    ensures s[1..][m - 1..] == s[m..]
  {
    assert s[..k] == [s[0]] + s[1..][..k - 1];
  }

  /** When `pat` occurs first at `k`, that occurrence is deleted, everything
      before it is kept as it is, and the scan goes on just after it. */
  lemma {:induction false} RemoveAllAtFirst(s: string, pat: string, k: int)
    requires |pat| > 0 && k == FindIn(s, pat) && k != -1
    ensures 0 <= k && k + |pat| <= |s| && RemoveAll(s, pat) == s[..k] + RemoveAll(s[k + |pat|..], pat)
    decreases |s|
  {
    if StartsWith(s, pat) {
      assert s[..0] == [] && s[0 + |pat|..] == s[|pat|..];
    } else {
      ScanPast(s, pat);
      RemoveAllAtFirst(s[1..], pat, k - 1);
      ConsSlices(s, k, k + |pat|, RemoveAll(s[k + |pat|..], pat));
    }
  }

  /** `s.replace(pat, '')` in terms of `s.find(pat)`: the text before the
      first occurrence, then the rest after it with its own occurrences
      deleted. With `RemoveAllAbsent` this determines the result. */
  lemma RemoveAllFirst(s: string, pat: string)
    requires |pat| > 0 && Find(s, pat, 0) != -1
    ensures var k := Find(s, pat, 0);
      k + |pat| <= |s| && RemoveAll(s, pat) == s[..k] + RemoveAll(s[k + |pat|..], pat)
  {
    assert s[0..] == s;
    RemoveAllAtFirst(s, pat, Find(s, pat, 0));
  }

  /** A string holding `pat` loses at least one whole occurrence. */
  lemma RemoveAllPresent(s: string, pat: string)
    requires |pat| > 0
    ensures Contains(s, pat) ==> |RemoveAll(s, pat)| <= |s| - |pat|
  {
    if Contains(s, pat) {
      RemoveAllFirst(s, pat);
    }
  }

  /** Removing a one-character pattern leaves none of that character. */
  lemma {:induction false} RemoveAllChar(s: string, c: char)
    ensures c !in RemoveAll(s, [c])
    decreases |s|
  {
    if |s| >= 1 {
      StartsWithIff(s, [c]);
      RemoveAllChar(s[1..], c);
    }
  }

  /** With a one-character pattern, deletion works character by character,
      so it distributes over concatenation. */
  lemma {:induction false} RemoveCharAppend(a: string, b: string, c: char)
    ensures RemoveAll(a + b, [c]) == RemoveAll(a, [c]) + RemoveAll(b, [c])
    decreases |a|
  {
    if a == [] {
      assert a + b == b;
    } else {
      StartsWithIff(a, [c]);
      StartsWithIff(a + b, [c]);
      assert (a + b)[0] == a[0] && (a + b)[1..] == a[1..] + b;
      RemoveCharAppend(a[1..], b, c);
    }
  }

  /** A string without the character comes back unchanged. */
  lemma {:induction false} RemoveCharAbsent(s: string, c: char)
    requires c !in s
    ensures RemoveAll(s, [c]) == s
    decreases |s|
  {
    if s != [] {
      StartsWithIff(s, [c]);
      RemoveCharAbsent(s[1..], c);
      assert s == [s[0]] + s[1..];
    }
  }

  /** A quoted name loses exactly its two quotes. */
  lemma RemoveQuotes(m: string, r: string, c: char)
    requires c !in m && c !in r
    ensures RemoveAll([c] + m + [c] + r, [c]) == m + r
  {
    var quote := [c];
    StartsWithIff(quote, quote);
    assert RemoveAll(quote, quote) == [];
    RemoveCharAbsent(m, c);
    RemoveCharAbsent(r, c);
    var front := quote + m;
    RemoveCharAppend(quote, m, c);
    assert RemoveAll(front, quote) == m;
    var closed := front + quote;
    RemoveCharAppend(front, quote, c);
    assert RemoveAll(closed, quote) == m;
    RemoveCharAppend(closed, r, c);
  }

  /** Leading whitespace removed. */
  function StripLeft(s: string): (r: string)
    ensures r == [] || !IsSpace(r[0])
    decreases |s|
  {
    if |s| > 0 && IsSpace(s[0]) then StripLeft(s[1..]) else s
  }

  lemma {:induction false} StripLeftSpec(s: string)
    ensures var r := StripLeft(s);
      |r| <= |s| && r == s[|s| - |r|..] && AllSpace(s[..|s| - |r|]) && (r == [] || !IsSpace(r[0]))
    decreases |s|
  {
    if |s| > 0 && IsSpace(s[0]) {
      StripLeftSpec(s[1..]);
    }
  }

  /** Trailing whitespace removed. */
  function StripRight(s: string): (r: string)
    ensures r == [] || !IsSpace(r[|r| - 1])
    decreases |s|
  {
    if |s| > 0 && IsSpace(s[|s| - 1]) then StripRight(s[..|s| - 1]) else s
  }

  lemma {:induction false} StripRightSpec(s: string)
    ensures var r := StripRight(s);
      |r| <= |s| && r == s[..|r|] && AllSpace(s[|r|..]) && (r == [] || !IsSpace(r[|r| - 1]))
    decreases |s|
  {
    if |s| > 0 && IsSpace(s[|s| - 1]) {
      var t := s[..|s| - 1];
      StripRightSpec(t);
      var r := StripRight(t);
      assert s[..|r|] == t[..|r|];
      assert s[|r|..] == t[|r|..] + [s[|s| - 1]];
    }
  }

  /** `s.strip()`: the slice of `s` left once the whitespace at both ends is
      removed; it neither starts nor ends with whitespace. */
  function Strip(s: string): (r: string)
    ensures r == [] || (!IsSpace(r[0]) && !IsSpace(r[|r| - 1]))
    ensures exists i, j :: 0 <= i <= j <= |s| && r == s[i..j] && AllSpace(s[..i]) && AllSpace(s[j..])
  {
    var l := StripLeft(s);
    StripLeftSpec(s);
    var r := StripRight(l);
    StripRightSpec(l);
    var i := |s| - |l|;
    assert r == s[i..i + |r|];
    assert s[i + |r|..] == l[|r|..];
    r
  }

  lemma SliceMultiset(s: string, i: nat, j: nat)
    requires i <= j <= |s|
    ensures multiset(s[i..j]) <= multiset(s)
  {
    assert s == s[..i] + s[i..j] + s[j..];
  }

  lemma StripMultiset(s: string)
    ensures multiset(Strip(s)) <= multiset(s)
  {
    var i, j :| 0 <= i <= j <= |s| && Strip(s) == s[i..j];
    SliceMultiset(s, i, j);
  }

  /** A Python slice bound: negative counts from the end, then clamped to
      `0..n`. */
  function SliceBound(i: int, n: nat): (b: nat)
    ensures b <= n
  {
    var j := if i < 0 then i + n else i;
    if j < 0 then 0 else if j > n then n else j
  }

  /** `s[a:b]` with Python's slice semantics. */
  function PySlice(s: string, a: int, b: int): (r: string)
    ensures 0 <= a <= b <= |s| ==> r == s[a..b]
    ensures 0 <= a && b == -1 ==> r == (if a < |s| - 1 then s[a..|s| - 1] else [])
    ensures exists lo, hi :: 0 <= lo <= hi <= |s| && r == s[lo..hi]
  {
    var lo := SliceBound(a, |s|);
    var hi := SliceBound(b, |s|);
    if lo < hi then s[lo..hi] else s[0..0]
  }

  /** Whatever occurs in a slice of `s` occurs in `s`, shifted by the start. */
  lemma OccursInSlice(s: string, lo: nat, hi: nat, pat: string, i: int)
    requires lo <= hi <= |s|
    requires OccursAt(s[lo..hi], pat, i)
    ensures OccursAt(s, pat, lo + i) && lo + i + |pat| <= hi
  {
    assert 0 <= i && i + |pat| <= hi - lo;
    var t := s[lo..hi];
    var u, w := t[i..i + |pat|], s[lo + i..lo + i + |pat|];
    forall k | 0 <= k < |pat| ensures u[k] == w[k] {
      assert t[i + k] == s[lo + i + k];
    }
    assert u == w;
  }
}
