/** Literal substring search, replacement and counting on strings, with the
    semantics of Python's `str.replace(old, new)` and `str.count(old)` for a
    non-empty `old`: the text is scanned left to right and every occurrence
    that starts after the end of the previous one is taken. */
module Substitution {

  /** `p` occurs in `s` starting at index `i`. */
  predicate OccursAt(s: string, p: string, i: int) {
    0 <= i && i + |p| <= |s| && s[i..i + |p|] == p
  }

  predicate StartsWith(s: string, p: string) {
    |p| <= |s| && s[..|p|] == p
  }

  /** Python's `p in s`. */
  predicate Contains(s: string, p: string) {
    exists i :: 0 <= i <= |s| && OccursAt(s, p, i)
  }

  /** `s.replace(p, r)`. */
  function ReplaceAll(s: string, p: string, r: string): string
    requires p != []
    decreases |s|
  {
    if |s| < |p| then s
    else if s[..|p|] == p then r + ReplaceAll(s[|p|..], p, r)
    else [s[0]] + ReplaceAll(s[1..], p, r)
  }

  /** `s.count(p)`: the number of occurrences `ReplaceAll` replaces. */
  function Count(s: string, p: string): nat
    requires p != []
    decreases |s|
  {
    if |s| < |p| then 0
    else if s[..|p|] == p then 1 + Count(s[|p|..], p)
    else Count(s[1..], p)
  }

  /** A character of an occurrence is a character of the pattern. */
  lemma CharOfOccurrence(s: string, p: string, i: int, k: int)
    requires OccursAt(s, p, i) && i <= k < i + |p|
    ensures s[k] == p[k - i] && s[k] in p
  {
    assert s[i..i + |p|][k - i] == s[k];
  }

  /** Occurrences in a suffix are occurrences in the whole text, shifted. */
  lemma OccursShift(a: string, b: string, p: string, j: int)
    requires 0 <= j
    ensures OccursAt(a + b, p, |a| + j) <==> OccursAt(b, p, j)
  {
    if 0 <= j && j + |p| <= |b| {
      assert (a + b)[|a| + j..|a| + j + |p|] == b[j..j + |p|];
    }
  }

  /** Where the scan does not match, it copies one character and moves on. */
  lemma ReplaceStep(s: string, p: string, r: string)
    requires p != [] && |s| > 0 && !StartsWith(s, p)
    ensures ReplaceAll(s, p, r) == [s[0]] + ReplaceAll(s[1..], p, r)
  {
    if |s| < |p| {
      assert ReplaceAll(s[1..], p, r) == s[1..];
      assert s == [s[0]] + s[1..];
    }
  }

  lemma CountStep(s: string, p: string)
    requires p != [] && |s| > 0 && !StartsWith(s, p)
    ensures Count(s, p) == Count(s[1..], p)
  {
  }

  /** Dropping the first character of such a prefix keeps it free of
      occurrences. */
  lemma SkipTail(a: string, b: string, p: string)
    requires a != []
    requires forall i :: 0 <= i < |a| ==> !OccursAt(a + b, p, i)
    ensures (a + b)[1..] == a[1..] + b
    ensures forall i :: 0 <= i < |a[1..]| ==> !OccursAt(a[1..] + b, p, i)
  {
    assert [a[0]] + (a[1..] + b) == a + b;
    forall i | 0 <= i < |a[1..]| ensures !OccursAt(a[1..] + b, p, i) {
      OccursShift([a[0]], a[1..] + b, p, i);
    }
  }

  /** A prefix in which no occurrence of `p` starts is copied unchanged. */
  lemma {:induction false} ReplaceSkip(a: string, b: string, p: string, r: string)
    requires p != []
    requires forall i :: 0 <= i < |a| ==> !OccursAt(a + b, p, i)
    ensures ReplaceAll(a + b, p, r) == a + ReplaceAll(b, p, r)
    decreases |a|
  {
    if a != [] {
      assert !OccursAt(a + b, p, 0);
      ReplaceStep(a + b, p, r);
      SkipTail(a, b, p);
      ReplaceSkip(a[1..], b, p, r);
      assert [a[0]] + (a[1..] + ReplaceAll(b, p, r)) == a + ReplaceAll(b, p, r);
    } else {
      assert a + b == b;
    }
  }

  /** A prefix in which no occurrence of `p` starts adds nothing to the count. */
  lemma {:induction false} CountSkip(a: string, b: string, p: string)
    requires p != []
    requires forall i :: 0 <= i < |a| ==> !OccursAt(a + b, p, i)
    ensures Count(a + b, p) == Count(b, p)
    decreases |a|
  {
    if a != [] {
      assert !OccursAt(a + b, p, 0);
      CountStep(a + b, p);
      SkipTail(a, b, p);
      CountSkip(a[1..], b, p);
    } else {
      assert a + b == b;
    }
  }

  /** Every replacement changes the length by `|r| - |p|`. */
  lemma {:induction false} ReplaceLength(s: string, p: string, r: string)
    requires p != []
    ensures |ReplaceAll(s, p, r)| == |s| + Count(s, p) * (|r| - |p|)
    decreases |s|
  {
    if |s| < |p| {
    } else if s[..|p|] == p {
      ReplaceLength(s[|p|..], p, r);
      Distribute(Count(s[|p|..], p), |r| - |p|);
    } else {
      ReplaceLength(s[1..], p, r);
    }
  }

  lemma Distribute(c: int, d: int)
    ensures (1 + c) * d == d + c * d
  {
  }

  /** An occurrence after the first character is an occurrence in the rest. */
  lemma ContainsTail(s: string, p: string)
    requires |s| > 0 && !OccursAt(s, p, 0)
    ensures Contains(s, p) <==> Contains(s[1..], p)
  {
    assert [s[0]] + s[1..] == s;
    if Contains(s, p) {
      var i :| 0 <= i <= |s| && OccursAt(s, p, i);
      OccursShift([s[0]], s[1..], p, i - 1);
      assert OccursAt(s[1..], p, i - 1);
    }
    if Contains(s[1..], p) {
      var i :| 0 <= i <= |s[1..]| && OccursAt(s[1..], p, i);
      OccursShift([s[0]], s[1..], p, i);
      assert OccursAt(s, p, i + 1);
    }
  }

  /** The count is positive exactly when the pattern occurs. */
  lemma {:induction false} CountPositiveIff(s: string, p: string)
    requires p != []
    ensures Count(s, p) > 0 <==> Contains(s, p)
    decreases |s|
  {
    if |s| < |p| {
    } else if s[..|p|] == p {
      assert OccursAt(s, p, 0);
    } else {
      CountPositiveIff(s[1..], p);
      ContainsTail(s, p);
    }
  }

  /** Text without the pattern is returned unchanged. */
  lemma {:induction false} ReplaceAbsent(s: string, p: string, r: string)
    requires p != [] && !Contains(s, p)
    ensures ReplaceAll(s, p, r) == s
    decreases |s|
  {
    if |s| >= |p| {
      assert !OccursAt(s, p, 0);
      assert [s[0]] + s[1..] == s;
      forall i | 0 <= i <= |s[1..]| ensures !OccursAt(s[1..], p, i) {
        OccursShift([s[0]], s[1..], p, i);
      }
      ReplaceAbsent(s[1..], p, r);
      assert s == [s[0]] + s[1..];
    }
  }

  /** Text shorter than the pattern is returned unchanged. */
  lemma ReplaceAbsentShort(s: string, p: string, r: string)
    requires p != [] && |s| < |p|
    ensures ReplaceAll(s, p, r) == s
  {
  }

  /** Text with the pattern is changed, whenever the replacement has another length. */
  lemma ReplacePresent(s: string, p: string, r: string)
    requires p != [] && Contains(s, p) && |r| != |p|
    ensures ReplaceAll(s, p, r) != s
  {
    ReplaceLength(s, p, r);
    CountPositiveIff(s, p);
    NonZeroProduct(Count(s, p), |r| - |p|);
  }

  lemma NonZeroProduct(c: int, d: int)
    requires c > 0 && d != 0
    ensures c * d != 0
  {
  }

  /** A prefix of the output is either the same prefix of the input, or it
      already holds the first character of an inserted replacement. */
  lemma {:induction false} ReplacePrefix(t: string, p: string, r: string, k: nat)
    requires p != [] && r != []
    requires k <= |ReplaceAll(t, p, r)|
    ensures (k <= |t| && ReplaceAll(t, p, r)[..k] == t[..k]) || r[0] in ReplaceAll(t, p, r)[..k]
    decreases |t|
  {
    var o := ReplaceAll(t, p, r);
    if k == 0 || |t| < |p| {
    } else if t[..|p|] == p {
      assert o[..k][0] == r[0];
    } else {
      var rest := ReplaceAll(t[1..], p, r);
      assert o == [t[0]] + rest;
      ReplacePrefix(t[1..], p, r, k - 1);
      assert o[..k] == [t[0]] + rest[..k - 1];
      if k - 1 <= |t[1..]| && rest[..k - 1] == t[1..][..k - 1] {
        assert t[..k] == [t[0]] + t[1..][..k - 1];
      }
    }
  }
}
