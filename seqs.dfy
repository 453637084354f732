/** Sequence helpers shared by the crawl, filter and statistics models. */
module Seqs {
  import opened Wrappers

  /** The elements of `s` that satisfy `keep`, in their original order:
      the list an append-if loop (`for x in s: if keep(x): out.append(x)`) builds. */
  function Select<T>(s: seq<T>, keep: T -> bool): (r: seq<T>)
    ensures |r| <= |s|
    ensures forall x :: x in r ==> x in s && keep(x)
    ensures forall x :: x in s && keep(x) ==> x in r
  {
    if s == [] then []
    else
      var init := s[..|s| - 1];
      assert s == init + [s[|s| - 1]];
      Select(init, keep) + (if keep(s[|s| - 1]) then [s[|s| - 1]] else [])
  }

  /** Filtering one more element appends it exactly when it is kept. */
  lemma SelectExtend<T>(s: seq<T>, i: nat, keep: T -> bool)
    requires i < |s|
    ensures Select(s[..i + 1], keep) == Select(s[..i], keep) + (if keep(s[i]) then [s[i]] else [])
  {
    assert s[..i + 1][..i] == s[..i];
  }

  lemma {:induction false} SelectAppend<T>(a: seq<T>, b: seq<T>, keep: T -> bool)
    ensures Select(a + b, keep) == Select(a, keep) + Select(b, keep)
    decreases |b|
  {
    if b == [] {
      assert a + b == a;
    } else {
      var init := b[..|b| - 1];
      assert a + b == (a + init) + [b[|b| - 1]];
      assert (a + b)[..|a + b| - 1] == a + init;
      SelectAppend(a, init, keep);
    }
  }

  /** Selecting keeps every kept element as often as it occurs and drops the rest. */
  lemma {:induction false} SelectMultiplicity<T>(s: seq<T>, keep: T -> bool, x: T)
    ensures multiset(Select(s, keep))[x] == if keep(x) then multiset(s)[x] else 0
    decreases |s|
  {
    if s != [] {
      var init := s[..|s| - 1];
      assert s == init + [s[|s| - 1]];
      SelectMultiplicity(init, keep, x);
    }
  }

  /** When every element is kept, selection is the identity. */
  lemma {:induction false} SelectAll<T>(s: seq<T>, keep: T -> bool)
    requires forall x :: x in s ==> keep(x)
    ensures Select(s, keep) == s
    decreases |s|
  {
    if s != [] {
      var init := s[..|s| - 1];
      assert s == init + [s[|s| - 1]];
      SelectAll(init, keep);
    }
  }

  /** Filtering by `p` and then by `q` is filtering once by both tests. */
  lemma {:induction false} SelectSelect<T>(s: seq<T>, p: T -> bool, q: T -> bool, both: T -> bool)
    requires forall x :: both(x) == (p(x) && q(x))
    ensures Select(Select(s, p), q) == Select(s, both)
    decreases |s|
  {
    if s != [] {
      var init := s[..|s| - 1];
      var last := s[|s| - 1];
      assert s == init + [last];
      SelectSelect(init, p, q, both);
      var tail := if p(last) then [last] else [];
      SelectAppend(Select(init, p), tail, q);
      if p(last) {
        assert [last][..0] == [];
      }
    }
  }

  /** `n` copies of `x`. */
  function Repeat<T>(x: T, n: nat): (r: seq<T>)
    ensures |r| == n
    ensures forall i :: 0 <= i < n ==> r[i] == x
  {
    if n == 0 then [] else Repeat(x, n - 1) + [x]
  }

  /** Every element lies between `lo` and `hi`. */
  predicate Within(s: seq<int>, lo: int, hi: int) {
    forall k :: 0 <= k < |s| ==> lo <= s[k] <= hi
  }

  /** Each element equals the one before it or exceeds it by one. */
  predicate Consecutive(s: seq<int>) {
    forall k :: 0 <= k < |s| - 1 ==> s[k + 1] == s[k] || s[k + 1] == s[k] + 1
  }

  /** A run of one value in range, followed by values in range, is in range. */
  lemma WithinRepeatAppend(x: int, n: nat, b: seq<int>, lo: int, hi: int)
    requires lo <= x <= hi && Within(b, lo, hi)
    ensures Within(Repeat(x, n) + b, lo, hi)
  {
    WithinAppend(Repeat(x, n), b, lo, hi);
  }

  /** A run of one value, followed by values that start at the next one and
      go on consecutively, is consecutive. */
  lemma ConsecutiveRepeatAppend(x: int, n: nat, b: seq<int>)
    requires n > 0 && Consecutive(b) && (|b| > 0 ==> b[0] == x + 1)
    ensures Consecutive(Repeat(x, n) + b)
  {
    ConsecutiveAppend(Repeat(x, n), b);
  }

  /** A run of `n` copies of `x` holds `x` exactly `n` times and nothing else. */
  lemma {:induction false} RepeatMultiplicity<T>(x: T, n: nat, y: T)
    ensures multiset(Repeat(x, n))[y] == if y == x then n else 0
  {
    if n > 0 {
      RepeatMultiplicity(x, n - 1, y);
      assert multiset(Repeat(x, n)) == multiset(Repeat(x, n - 1)) + multiset{x};
    }
  }

  /** The number of times `x` occurs in `s`. */
  function Count<T(==)>(s: seq<T>, x: T): nat {
    if s == [] then 0 else (if s[0] == x then 1 else 0) + Count(s[1..], x)
  }

  /** `Count` is the multiplicity in the multiset of the sequence. */
  lemma {:induction false} CountIsMultiplicity<T>(s: seq<T>, x: T)
    ensures Count(s, x) == multiset(s)[x]
  {
    if s != [] {
      CountIsMultiplicity(s[1..], x);
      assert s == [s[0]] + s[1..];
      assert multiset(s) == multiset{s[0]} + multiset(s[1..]);
    }
  }

  /** A run of at most `m` copies of `x`, followed by values other than `x`
      among which `q` occurs at most `m` times, holds `q` at most `m` times. */
  lemma RepeatAppendCount<T>(x: T, n: nat, b: seq<T>, m: nat, q: T)
    requires n <= m && x !in b && Count(b, q) <= m
    ensures Count(Repeat(x, n) + b, q) <= m
  {
    CountIsMultiplicity(b, q);
    CountIsMultiplicity(Repeat(x, n) + b, q);
    RepeatMultiplicity(x, n, q);
    assert multiset(Repeat(x, n) + b) == multiset(Repeat(x, n)) + multiset(b);
  }

  lemma WithinAppend(a: seq<int>, b: seq<int>, lo: int, hi: int)
    requires Within(a, lo, hi) && Within(b, lo, hi)
    ensures Within(a + b, lo, hi)
  {
    forall k | 0 <= k < |a + b| ensures lo <= (a + b)[k] <= hi {
      if k >= |a| {
        assert (a + b)[k] == b[k - |a|];
      }
    }
  }

  /** Joining two consecutive runs, the second picking up where the first
      stopped, gives a consecutive run. */
  lemma ConsecutiveAppend(a: seq<int>, b: seq<int>)
    requires Consecutive(a) && Consecutive(b)
    requires |a| > 0 && |b| > 0 ==> b[0] == a[|a| - 1] || b[0] == a[|a| - 1] + 1
    ensures Consecutive(a + b)
  {
    forall k | 0 <= k < |a + b| - 1 ensures (a + b)[k + 1] == (a + b)[k] || (a + b)[k + 1] == (a + b)[k] + 1 {
      if k + 1 < |a| {
        assert (a + b)[k] == a[k] && (a + b)[k + 1] == a[k + 1];
      } else if k + 1 == |a| {
        assert (a + b)[k] == a[|a| - 1] && (a + b)[k + 1] == b[0];
      } else {
        assert (a + b)[k] == b[k - |a|] && (a + b)[k + 1] == b[k - |a| + 1];
      }
    }
  }

  /** `[f(x) for x in s]`. */
  function MapSeq<A, B>(s: seq<A>, f: A -> B): (r: seq<B>)
    ensures |r| == |s|
    ensures forall i :: 0 <= i < |s| ==> r[i] == f(s[i])
  {
    if s == [] then []
    else
      var n := |s| - 1;
      assert forall i :: 0 <= i < n ==> s[..n][i] == s[i];
      MapSeq(s[..n], f) + [f(s[n])]
  }

  /** Mapping one more element appends its image. */
  lemma MapSeqExtend<A, B>(s: seq<A>, i: nat, f: A -> B)
    requires i < |s|
    ensures MapSeq(s[..i + 1], f) == MapSeq(s[..i], f) + [f(s[i])]
  {
    assert s[..i + 1][..i] == s[..i];
  }

  lemma {:induction false} MapSeqAppend<A, B>(a: seq<A>, b: seq<A>, f: A -> B)
    ensures MapSeq(a + b, f) == MapSeq(a, f) + MapSeq(b, f)
  {
    assert |MapSeq(a + b, f)| == |MapSeq(a, f) + MapSeq(b, f)|;
    forall i | 0 <= i < |a + b| ensures MapSeq(a + b, f)[i] == (MapSeq(a, f) + MapSeq(b, f))[i] {
      if i >= |a| {
        assert (a + b)[i] == b[i - |a|];
      }
    }
  }

  lemma MapSeqRepeat<A, B>(x: A, n: nat, f: A -> B)
    ensures MapSeq(Repeat(x, n), f) == Repeat(f(x), n)
  {
    assert |MapSeq(Repeat(x, n), f)| == n;
  }

  /** The values `f` yields on `s`, in order, skipping the elements it
      yields None for: what an append loop over the non-None results builds. */
  function FilterMap<A, B>(s: seq<A>, f: A -> Option<B>): (r: seq<B>)
    ensures |r| <= |s|
  {
    if s == [] then []
    else
      var n := |s| - 1;
      FilterMap(s[..n], f) + match f(s[n]) case Some(y) => [y] case None => []
  }

  /** The positions of `s` at which `f` yields a value, ascending. */
  function SomeIndices<A, B>(s: seq<A>, f: A -> Option<B>): (r: seq<nat>)
    ensures forall j :: 0 <= j < |r| ==> r[j] < |s| && f(s[r[j]]).Some?
    ensures forall j, k :: 0 <= j < k < |r| ==> r[j] < r[k]
    ensures forall i :: 0 <= i < |s| && f(s[i]).Some? ==> i in r
  {
    if s == [] then []
    else
      var n := |s| - 1;
      assert forall i :: 0 <= i < n ==> s[..n][i] == s[i];
      SomeIndices(s[..n], f) + if f(s[n]).Some? then [n] else []
  }

  /** The j-th value of `FilterMap` is what `f` yields at the j-th position
      where it yields one. */
  lemma {:induction false} FilterMapIndices<A, B>(s: seq<A>, f: A -> Option<B>)
    ensures |FilterMap(s, f)| == |SomeIndices(s, f)|
    ensures forall j :: 0 <= j < |SomeIndices(s, f)| ==>
              FilterMap(s, f)[j] == f(s[SomeIndices(s, f)[j]]).value
    decreases |s|
  {
    if s != [] {
      var n := |s| - 1;
      var init := s[..n];
      FilterMapIndices(init, f);
      var values, indices := FilterMap(init, f), SomeIndices(init, f);
      assert FilterMap(s, f) == values + match f(s[n]) case Some(y) => [y] case None => [];
      assert SomeIndices(s, f) == indices + if f(s[n]).Some? then [n] else [];
      forall j | 0 <= j < |indices|
        ensures FilterMap(s, f)[j] == f(s[SomeIndices(s, f)[j]]).value
      {
        assert SomeIndices(s, f)[j] == indices[j] && init[indices[j]] == s[indices[j]];
      }
    }
  }

  /** When `f` yields a value everywhere, nothing is skipped. */
  lemma {:induction false} FilterMapTotal<A, B>(s: seq<A>, f: A -> Option<B>)
    requires forall i :: 0 <= i < |s| ==> f(s[i]).Some?
    ensures |FilterMap(s, f)| == |s|
    decreases |s|
  {
    if s != [] {
      var n := |s| - 1;
      assert forall i :: 0 <= i < n ==> s[..n][i] == s[i];
      FilterMapTotal(s[..n], f);
    }
  }
}
