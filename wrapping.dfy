/** Disabling a marker by wrapping it in a block comment, `/*marker*/`, with a
    replace-all, and what that replace-all does to the rest of the text. */
module Wrapping {
  import opened Substitution

  function Wrap(m: string): string {
    "/*" + m + "*/"
  }

  /** A marker that a wrap can isolate: non-empty and free of `/` and `*`. */
  predicate Inert(m: string) {
    m != [] && '/' !in m && '*' !in m
  }

  /** `q` is compatible with the start of `u`: `u` begins with `q`, or `u` is a
      proper prefix of `q`. */
  predicate Fits(u: string, q: string) {
    if |u| >= |q| then u[..|q|] == q else q[..|u|] == u
  }

  /** No occurrence of `q` can start inside `p`, whatever text follows `p`. */
  predicate NoOverlap(p: string, q: string) {
    forall i :: 0 <= i < |p| ==> !Fits(p[i..], q)
  }

  predicate Disjoint(p: string, q: string) {
    NoOverlap(p, q) && NoOverlap(q, p)
  }

  /** The occurrence of `m` at `i` is the middle of an occurrence of `/*m*/`. */
  predicate WrappedAt(s: string, m: string, i: int) {
    2 <= i && OccursAt(s, Wrap(m), i - 2)
  }

  /** Every occurrence of `m` in `s` is wrapped. */
  ghost predicate AllWrapped(s: string, m: string) {
    forall i :: OccursAt(s, m, i) ==> WrappedAt(s, m, i)
  }

  lemma WrapChars(m: string)
    ensures |Wrap(m)| == |m| + 4
    ensures Wrap(m)[0] == '/' && Wrap(m)[1] == '*'
    ensures Wrap(m)[|m| + 2] == '*' && Wrap(m)[|m| + 3] == '/'
    ensures Wrap(m)[2..|m| + 2] == m
  {
  }

  lemma OccurrenceFits(p: string, q: string, x: string, i: int)
    requires 0 <= i < |p|
    ensures OccursAt(p + x, q, i) ==> Fits(p[i..], q)
  {
    if OccursAt(p + x, q, i) {
      if |p| - i >= |q| {
        assert p[i..][..|q|] == (p + x)[i..i + |q|];
      } else {
        assert q[..|p| - i] == (p + x)[i..i + |q|][..|p| - i] == p[i..];
      }
    }
  }

  /** An occurrence that starts inside a text `NoOverlap` protects cannot exist. */
  lemma OverlapFree(p: string, q: string, x: string)
    requires q != [] && NoOverlap(p, q)
    ensures forall i :: 0 <= i < |p| ==> !OccursAt(p + x, q, i)
  {
    forall i | 0 <= i < |p| ensures OccursAt(p + x, q, i) ==> Fits(p[i..], q) {
      OccurrenceFits(p, q, x, i);
    }
  }

  lemma NoOverlapNotContained(p: string, q: string)
    requires q != [] && NoOverlap(p, q)
    ensures !Contains(p, q)
  {
    OverlapFree(p, q, []);
    assert p + [] == p;
  }

  /** Inside `/*p*/`, an inert `q` can only occur within `p` itself. */
  lemma WrapOccurrence(p: string, q: string, x: string, i: int)
    requires Inert(p) && Inert(q)
    requires 0 <= i < |Wrap(p)| && OccursAt(Wrap(p) + x, q, i)
    ensures 2 <= i && i + |q| <= |p| + 2 && OccursAt(p, q, i - 2)
  {
    var w := Wrap(p);
    var y := w + x;
    WrapChars(p);
    CharOfOccurrence(y, q, i, i);
    assert y[i] != '/' && y[i] != '*';
    assert y[0] == '/' && y[1] == '*' && y[|p| + 2] == '*' && y[|p| + 3] == '/';
    if i + |q| > |p| + 2 {
      CharOfOccurrence(y, q, i, |p| + 2);
      assert false;
    }
    assert y[i..i + |q|] == w[i..i + |q|] == w[2..|p| + 2][i - 2..i - 2 + |q|];
  }

  /** Just after a position where the scan copies a character, no occurrence of
      an inert `q` appears that the input did not have. */
  lemma FrontUnchanged(s: string, p: string, q: string)
    requires Inert(p) && Inert(q) && |s| > 0 && !StartsWith(s, q)
    ensures !OccursAt([s[0]] + ReplaceAll(s[1..], p, Wrap(p)), q, 0)
  {
    var rest := ReplaceAll(s[1..], p, Wrap(p));
    var o := [s[0]] + rest;
    if |q| - 1 <= |rest| {
      ReplacePrefix(s[1..], p, Wrap(p), |q| - 1);
      assert o[..|q|] == [s[0]] + rest[..|q| - 1];
      if |q| <= |s| {
        assert s[..|q|] == [s[0]] + s[1..][..|q| - 1];
      }
      assert Wrap(p)[0] == '/';
    }
  }

  /** A wrapped marker in front of a text keeps every marker wrapped. */
  lemma WrappedHead(m: string, rest: string)
    requires Inert(m) && AllWrapped(rest, m)
    ensures AllWrapped(Wrap(m) + rest, m)
  {
    var w := Wrap(m);
    var o := w + rest;
    WrapChars(m);
    forall i | OccursAt(o, m, i) ensures WrappedAt(o, m, i) {
      if i < |w| {
        WrapOccurrence(m, m, rest, i);
        assert o[0..|w|] == w;
      } else {
        OccursShift(w, rest, m, i - |w|);
        OccursShift(w, rest, w, i - |w| - 2);
      }
    }
  }

  /** A character in front of a text keeps every marker wrapped, unless it
      starts a new occurrence. */
  lemma WrappedCopy(c: char, m: string, rest: string)
    requires AllWrapped(rest, m) && !OccursAt([c] + rest, m, 0)
    ensures AllWrapped([c] + rest, m)
  {
    var o := [c] + rest;
    forall i | OccursAt(o, m, i) ensures WrappedAt(o, m, i) {
      OccursShift([c], rest, m, i - 1);
      OccursShift([c], rest, Wrap(m), i - 3);
    }
  }

  /** The patch leaves no marker naked: every occurrence of `m` in the output
      is wrapped. */
  lemma {:induction false} WrapsEvery(s: string, m: string)
    requires Inert(m)
    ensures AllWrapped(ReplaceAll(s, m, Wrap(m)), m)
    decreases |s|
  {
    var w := Wrap(m);
    if |s| < |m| {
    } else if s[..|m|] == m {
      WrapsEvery(s[|m|..], m);
      WrappedHead(m, ReplaceAll(s[|m|..], m, w));
    } else {
      ReplaceStep(s, m, w);
      WrapsEvery(s[1..], m);
      FrontUnchanged(s, m, m);
      WrappedCopy(s[0], m, ReplaceAll(s[1..], m, w));
    }
  }

  /** A text that starts with `/*m*/` has `m` at index 2. */
  lemma WrapHasMarker(o: string, m: string)
    ensures StartsWith(o, Wrap(m)) ==> OccursAt(o, m, 2)
  {
    WrapChars(m);
    if StartsWith(o, Wrap(m)) {
      assert o[2..2 + |m|] == Wrap(m)[2..|m| + 2];
    }
  }

  /** Removing the wrappers again gives back the original text: the patch
      keeps every other character, in order. */
  lemma {:induction false} UnwrapRoundTrip(s: string, m: string)
    requires Inert(m)
    ensures ReplaceAll(ReplaceAll(s, m, Wrap(m)), Wrap(m), m) == s
    decreases |s|
  {
    var w := Wrap(m);
    var o := ReplaceAll(s, m, w);
    WrapChars(m);
    if |s| < |m| {
    } else if s[..|m|] == m {
      var rest := ReplaceAll(s[|m|..], m, w);
      assert o == w + rest;
      UnwrapRoundTrip(s[|m|..], m);
      assert o[..|w|] == w && o[|w|..] == rest;
      assert s == m + s[|m|..];
    } else {
      var rest := ReplaceAll(s[1..], m, w);
      ReplaceStep(s, m, w);
      assert o == [s[0]] + rest;
      UnwrapRoundTrip(s[1..], m);
      WrapsEvery(s[1..], m);
      OccursShift([s[0]], rest, m, 1);
      assert !WrappedAt(rest, m, 1);
      WrapHasMarker(o, m);
      ReplaceStep(o, w, m);
      assert o[1..] == rest;
      assert s == [s[0]] + s[1..];
    }
  }

  /** `/*m*/` followed by any text holds exactly one more `m` than that text. */
  lemma WrapCount(m: string, x: string)
    requires Inert(m)
    ensures Count(Wrap(m) + x, m) == 1 + Count(x, m)
  {
    WrapChars(m);
    var tail := m + ("*/" + x);
    assert Wrap(m) + x == "/*" + tail;
    forall i | 0 <= i < |"/*"| ensures !OccursAt("/*" + tail, m, i) {
      if OccursAt("/*" + tail, m, i) {
        WrapOccurrence(m, m, x, i);
        assert false;
      }
    }
    CountSkip("/*", tail, m);
    assert tail[..|m|] == m && tail[|m|..] == "*/" + x;
    forall i | 0 <= i < |"*/"| ensures !OccursAt("*/" + x, m, i) {
      if OccursAt("*/" + x, m, i) {
        CharOfOccurrence("*/" + x, m, i, i);
        assert false;
      }
    }
    CountSkip("*/", x, m);
  }

  /** Wrapping keeps the number of occurrences of the marker itself. */
  lemma {:induction false} CountWrapped(s: string, m: string)
    requires Inert(m)
    ensures Count(ReplaceAll(s, m, Wrap(m)), m) == Count(s, m)
    decreases |s|
  {
    var w := Wrap(m);
    var o := ReplaceAll(s, m, w);
    if |s| < |m| {
    } else if s[..|m|] == m {
      var rest := ReplaceAll(s[|m|..], m, w);
      assert o == w + rest;
      CountWrapped(s[|m|..], m);
      WrapCount(m, rest);
    } else {
      var rest := ReplaceAll(s[1..], m, w);
      ReplaceStep(s, m, w);
      CountWrapped(s[1..], m);
      FrontUnchanged(s, m, m);
      CountStep(o, m);
      assert o[1..] == rest;
    }
  }

  /** Wrapping one marker keeps the number of occurrences of another marker
      that cannot overlap it. */
  lemma {:induction false} CountPreserved(c: string, p: string, q: string)
    requires Inert(p) && Inert(q) && Disjoint(p, q)
    ensures Count(ReplaceAll(c, p, Wrap(p)), q) == Count(c, q)
    decreases |c|
  {
    var w := Wrap(p);
    var o := ReplaceAll(c, p, w);
    NoOverlapNotContained(p, q);
    if |c| < |p| {
    } else if c[..|p|] == p {
      var c' := c[|p|..];
      var rest := ReplaceAll(c', p, w);
      assert o == w + rest;
      assert c == p + c';
      forall i | 0 <= i < |w| ensures !OccursAt(w + rest, q, i) {
        if OccursAt(w + rest, q, i) {
          WrapOccurrence(p, q, rest, i);
          assert false;
        }
      }
      CountSkip(w, rest, q);
      OverlapFree(p, q, c');
      CountSkip(p, c', q);
      CountPreserved(c', p, q);
    } else if StartsWith(c, q) {
      var c' := c[|q|..];
      assert c == q + c';
      OverlapFree(q, p, c');
      ReplaceSkip(q, c', p, w);
      var rest := ReplaceAll(c', p, w);
      assert o == q + rest;
      assert (q + rest)[..|q|] == q && (q + rest)[|q|..] == rest;
      CountPreserved(c', p, q);
    } else {
      ReplaceStep(c, p, w);
      FrontUnchanged(c, p, q);
      CountStep(o, q);
      assert o[1..] == ReplaceAll(c[1..], p, w);
      CountPreserved(c[1..], p, q);
    }
  }

  /** An occurrence of `q` that ends before the inserted wrap: its own wrap
      cannot reach into `p`, so it is found unchanged before `/*p*/`. */
  lemma WrapStepBefore(a: string, p: string, b: string, q: string, i: int)
    requires Inert(p) && Inert(q)
    requires AllWrapped(a + p + b, q)
    requires OccursAt(a + Wrap(p) + b, q, i) && i + |q| <= |a|
    ensures WrappedAt(a + Wrap(p) + b, q, i)
  {
    var x := a + p + b;
    var y := a + Wrap(p) + b;
    var wq := Wrap(q);
    WrapChars(q);
    assert y[i..i + |q|] == x[i..i + |q|];
    assert WrappedAt(x, q, i);
    if i + |q| + 2 > |a| {
      CharOfOccurrence(x, wq, i - 2, |a|);
      assert false;
    }
    assert y[i - 2..i + |q| + 2] == x[i - 2..i + |q| + 2];
  }

  /** No occurrence of `q` starts where it would touch the inserted `/*p*/`. */
  lemma WrapStepInside(a: string, p: string, b: string, q: string, i: int)
    requires Inert(p) && Inert(q) && !Contains(p, q)
    requires i + |q| > |a| && i < |a| + |Wrap(p)|
    ensures !OccursAt(a + Wrap(p) + b, q, i)
  {
    var w := Wrap(p);
    var y := a + w + b;
    WrapChars(p);
    if OccursAt(y, q, i) {
      if i < |a| {
        CharOfOccurrence(y, q, i, |a|);
        assert false;
      } else {
        assert y == a + (w + b);
        OccursShift(a, w + b, q, i - |a|);
        WrapOccurrence(p, q, b, i - |a|);
        assert false;
      }
    }
  }

  /** An occurrence of `q` after the inserted `/*p*/` was wrapped before, and
      its wrap cannot reach back into `p`. */
  lemma WrapStepAfter(a: string, p: string, b: string, q: string, i: int)
    requires Inert(p) && Inert(q)
    requires AllWrapped(a + p + b, q)
    requires OccursAt(a + Wrap(p) + b, q, i) && i >= |a| + |Wrap(p)|
    ensures WrappedAt(a + Wrap(p) + b, q, i)
  {
    var w := Wrap(p);
    var x := (a + p) + b;
    var y := (a + w) + b;
    var wq := Wrap(q);
    WrapChars(p);
    WrapChars(q);
    var k := i - |a + w|;
    OccursShift(a + w, b, q, k);
    OccursShift(a + p, b, q, k);
    var j := |a + p| + k;
    assert WrappedAt(x, q, j);
    if j - 2 < |a| + |p| {
      CharOfOccurrence(x, wq, j - 2, |a| + |p| - 1);
      assert false;
    }
    OccursShift(a + p, b, wq, k - 2);
    OccursShift(a + w, b, wq, k - 2);
  }

  /** Replacing `p` by `/*p*/` in the middle of a text keeps every occurrence
      of another inert marker `q` wrapped. */
  lemma WrapStep(a: string, p: string, b: string, q: string)
    requires Inert(p) && Inert(q) && !Contains(p, q)
    requires AllWrapped(a + p + b, q)
    ensures AllWrapped(a + Wrap(p) + b, q)
  {
    var y := a + Wrap(p) + b;
    forall i | OccursAt(y, q, i) ensures WrappedAt(y, q, i) {
      if i + |q| <= |a| {
        WrapStepBefore(a, p, b, q, i);
      } else if i < |a| + |Wrap(p)| {
        WrapStepInside(a, p, b, q, i);
        assert false;
      } else {
        WrapStepAfter(a, p, b, q, i);
      }
    }
  }

  /** Wrapping every `p` in the remainder `t` of a text keeps another marker
      `q` wrapped wherever it was wrapped before. */
  lemma {:induction false} PreservesWrapped(pre: string, t: string, p: string, q: string)
    requires Inert(p) && Inert(q) && !Contains(p, q)
    requires AllWrapped(pre + t, q)
    ensures AllWrapped(pre + ReplaceAll(t, p, Wrap(p)), q)
    decreases |t|
  {
    var w := Wrap(p);
    if |t| < |p| {
    } else if t[..|p|] == p {
      var rest := t[|p|..];
      assert pre + t == pre + p + rest;
      WrapStep(pre, p, rest, q);
      PreservesWrapped(pre + w, rest, p, q);
      assert pre + ReplaceAll(t, p, w) == (pre + w) + ReplaceAll(rest, p, w);
    } else {
      assert (pre + [t[0]]) + t[1..] == pre + t;
      PreservesWrapped(pre + [t[0]], t[1..], p, q);
      ReplaceStep(t, p, w);
      assert pre + ReplaceAll(t, p, w) == (pre + [t[0]]) + ReplaceAll(t[1..], p, w);
    }
  }
}
