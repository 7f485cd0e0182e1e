/** The `Array.prototype` operations the storefront uses: `filter`, `find`
    and `slice`, over immutable sequences. */
module JsArray {
  import opened Options

  /** `a` is `b` with some elements dropped and the rest kept in order. */
  predicate Subsequence<T(==)>(a: seq<T>, b: seq<T>)
    decreases |b|
  {
    if |a| == 0 then true
    else if |b| == 0 then false
    else if a[0] == b[0] then Subsequence(a[1..], b[1..])
    else Subsequence(a, b[1..])
  }

  /** `s.filter(keep)`. Its properties are the lemmas below rather than
      postconditions, so that unrolling it over a literal stays cheap. */
  function Filter<T>(s: seq<T>, keep: T -> bool): seq<T> {
    if |s| == 0 then []
    else if keep(s[0]) then [s[0]] + Filter(s[1..], keep)
    else Filter(s[1..], keep)
  }

  /** `filter` keeps exactly the accepted elements and preserves their order. */
  lemma {:induction false} FilterSpec<T>(s: seq<T>, keep: T -> bool)
    ensures |Filter(s, keep)| <= |s|
    ensures forall k :: 0 <= k < |Filter(s, keep)| ==> Filter(s, keep)[k] in s && keep(Filter(s, keep)[k])
    ensures forall k :: 0 <= k < |s| && keep(s[k]) ==> s[k] in Filter(s, keep)
    ensures Subsequence(Filter(s, keep), s)
  {
    if |s| > 0 {
      FilterSpec(s[1..], keep);
      var r := Filter(s, keep);
      var t := Filter(s[1..], keep);
      if keep(s[0]) {
        assert r[1..] == t;
      }
      assert forall k :: 0 < k < |s| ==> s[k] == s[1..][k - 1];
    }
  }

  /** Filtering distributes over concatenation. */
  lemma {:induction false} FilterConcat<T>(a: seq<T>, b: seq<T>, keep: T -> bool)
    ensures Filter(a + b, keep) == Filter(a, keep) + Filter(b, keep)
  {
    if |a| > 0 {
      FilterConcat(a[1..], b, keep);
      assert (a + b)[1..] == a[1..] + b;
    } else {
      assert a + b == b;
    }
  }

  /** Two tests that agree on every element filter alike. */
  lemma {:induction false} FilterCongruent<T>(s: seq<T>, f: T -> bool, g: T -> bool)
    requires forall k :: 0 <= k < |s| ==> f(s[k]) == g(s[k])
    ensures Filter(s, f) == Filter(s, g)
  {
    if |s| > 0 {
      FilterCongruent(s[1..], f, g);
    }
  }

  /** Keeping everything gives the sequence back. */
  lemma {:induction false} FilterAll<T>(s: seq<T>, keep: T -> bool)
    requires forall k :: 0 <= k < |s| ==> keep(s[k])
    ensures Filter(s, keep) == s
  {
    if |s| > 0 {
      FilterAll(s[1..], keep);
    }
  }

  /** Filtering out a single dropped element between two kept stretches
      leaves the two stretches joined. */
  lemma FilterDropsOne<T>(s: seq<T>, i: int, keep: T -> bool)
    requires 0 <= i < |s| && !keep(s[i])
    requires forall k :: 0 <= k < |s| && k != i ==> keep(s[k])
    ensures Filter(s, keep) == s[..i] + s[i + 1..]
  {
    FilterSplit(s, i, keep);
    FilterSuffixStep(s, i, keep);
    FilterKeepsRange(s, 0, i, keep);
    FilterKeepsRange(s, i + 1, |s|, keep);
  }

  /** Filtering a sequence filters its two halves. */
  lemma FilterSplit<T>(s: seq<T>, i: int, keep: T -> bool)
    requires 0 <= i <= |s|
    ensures Filter(s, keep) == Filter(s[..i], keep) + Filter(s[i..], keep)
  {
    assert s == s[..i] + s[i..];
    FilterConcat(s[..i], s[i..], keep);
  }

  /** A stretch whose every element is kept filters to itself. */
  lemma FilterKeepsRange<T>(s: seq<T>, lo: int, hi: int, keep: T -> bool)
    requires 0 <= lo <= hi <= |s|
    requires forall k :: lo <= k < hi ==> keep(s[k])
    ensures Filter(s[lo..hi], keep) == s[lo..hi]
    ensures lo == 0 ==> Filter(s[..hi], keep) == s[..hi]
    ensures hi == |s| ==> Filter(s[lo..], keep) == s[lo..]
  {
    var t := s[lo..hi];
    forall k | 0 <= k < |t|
      ensures keep(t[k])
    {
      assert t[k] == s[lo + k];
    }
    FilterAll(t, keep);
    if lo == 0 { assert s[..hi] == t; }
    if hi == |s| { assert s[lo..] == t; }
  }

  /** One step of `filter` over a suffix: the element at `k` is kept or dropped,
      then the rest is filtered. */
  lemma FilterSuffixStep<T>(s: seq<T>, k: int, keep: T -> bool)
    requires 0 <= k < |s|
    ensures Filter(s[k..], keep) == (if keep(s[k]) then [s[k]] else []) + Filter(s[k + 1..], keep)
  {
    assert s[k..][1..] == s[k + 1..];
  }

  /** `s.find(f)`: the first element `f` accepts, or `None` (JavaScript's `undefined`). */
  function Find<T>(s: seq<T>, f: T -> bool): Option<T> {
    if |s| == 0 then None
    else if f(s[0]) then Some(s[0])
    else Find(s[1..], f)
  }

  /** `find` returns the element at the first accepted position. */
  lemma {:induction false} FindFirst<T>(s: seq<T>, f: T -> bool, i: int)
    requires 0 <= i < |s| && f(s[i])
    requires forall j :: 0 <= j < i ==> !f(s[j])
    ensures Find(s, f) == Some(s[i])
  {
    if i > 0 {
      FindFirst(s[1..], f, i - 1);
    }
  }

  /** `find` returns `None` when no element is accepted. */
  lemma {:induction false} FindNone<T>(s: seq<T>, f: T -> bool)
    requires forall j :: 0 <= j < |s| ==> !f(s[j])
    ensures Find(s, f) == None
  {
    if |s| > 0 {
      FindNone(s[1..], f);
    }
  }

  /** A `slice` bound as JavaScript normalises it: negative counts from the end,
      and the result is clamped to `[0, len]`. */
  function SliceBound(i: int, len: nat): (b: nat)
    ensures b <= len
    ensures 0 <= i <= len ==> b == i
  {
    if i < 0 then (if len + i < 0 then 0 else len + i)
    else if i > len then len
    else i
  }

  /** `s.slice(start, end)`; never fails, an empty window gives `[]`. */
  function Slice<T>(s: seq<T>, start: int, end: int): (r: seq<T>)
    ensures 0 <= start && start <= end ==> |r| <= end - start
    ensures 0 <= start <= |s| ==> start + |r| <= |s|
    ensures 0 <= start <= |s| ==> forall k :: 0 <= k < |r| ==> r[k] == s[start + k]
    ensures 0 <= start <= end ==> |r| == (if end <= |s| then end - start
                                          else if start <= |s| then |s| - start else 0)
  {
    var lo := SliceBound(start, |s|);
    var hi := SliceBound(end, |s|);
    if lo < hi then s[lo..hi] else []
  }
}
