/** Kotlin's `sortedBy` and `sortedByDescending` on a `Double` key, which
    the report code uses to rank communities by conductance and tokens by
    score. Both sorts are stable. A key of None is NaN, which
    `Double.compareTo` orders above every number. */
module Sorting {
  import opened Common

  /** `x.compareTo(y) <= 0` on `Double` keys, NaN being the largest. */
  predicate KeyLe(x: Option<real>, y: Option<real>)
  {
    y.None? || (x.Some? && x.value <= y.value)
  }

  /** Whether key `x` may stand before key `y`: ascending for `sortedBy`,
      descending for `sortedByDescending`. */
  predicate InOrder(x: Option<real>, y: Option<real>, descending: bool)
  {
    if descending then KeyLe(y, x) else KeyLe(x, y)
  }

  predicate SortedBy<T>(xs: seq<T>, key: T -> Option<real>, descending: bool)
  {
    forall i, j :: 0 <= i < j < |xs| ==> InOrder(key(xs[i]), key(xs[j]), descending)
  }

  /** The order of keys is total and transitive. */
  lemma InOrderTotal(x: Option<real>, y: Option<real>, descending: bool)
    ensures InOrder(x, y, descending) || InOrder(y, x, descending)
  {
  }

  lemma InOrderTransitive(x: Option<real>, y: Option<real>, z: Option<real>, descending: bool)
    requires InOrder(x, y, descending) && InOrder(y, z, descending)
    ensures InOrder(x, z, descending)
  {
  }

  /** Inserts `x` after every element that may precede it, so that equal
      keys keep their order of arrival. */
  function Insert<T>(x: T, s: seq<T>, key: T -> Option<real>, descending: bool): (r: seq<T>)
    ensures multiset(r) == multiset(s) + multiset{x}
  {
    if |s| == 0 then [x]
    else if !InOrder(key(s[0]), key(x), descending) then
      assert s == [s[0]] + s[1..];
      [x] + s
    else
      assert s == [s[0]] + s[1..];
      [s[0]] + Insert(x, s[1..], key, descending)
  }

  /** Insertion keeps a sorted sequence sorted. */
  lemma {:induction false} InsertSorted<T>(x: T, s: seq<T>, key: T -> Option<real>, descending: bool)
    requires SortedBy(s, key, descending)
    ensures SortedBy(Insert(x, s, key, descending), key, descending)
    decreases |s|
  {
    if |s| > 0 {
      var r := Insert(x, s, key, descending);
      if !InOrder(key(s[0]), key(x), descending) {
        InOrderTotal(key(s[0]), key(x), descending);
        forall j | 1 <= j < |r| ensures InOrder(key(x), key(r[j]), descending) {
          if j > 1 {
            InOrderTransitive(key(x), key(s[0]), key(s[j - 1]), descending);
          }
        }
      } else {
        var rest := Insert(x, s[1..], key, descending);
        InsertSorted(x, s[1..], key, descending);
        forall j | 0 <= j < |rest| ensures InOrder(key(s[0]), key(rest[j]), descending) {
          assert rest[j] in multiset(rest);
          if rest[j] != x {
            assert rest[j] in s[1..];
          }
        }
        assert r == [s[0]] + rest;
      }
    }
  }

  /** `xs.sortedBy(key)` (or `sortedByDescending`): a stable insertion sort
      that handles the elements in their original order. */
  function SortBy<T>(xs: seq<T>, key: T -> Option<real>, descending: bool): (r: seq<T>)
    ensures multiset(r) == multiset(xs)
  {
    if |xs| == 0 then []
    else
      assert xs == xs[..|xs| - 1] + [xs[|xs| - 1]];
      Insert(xs[|xs| - 1], SortBy(xs[..|xs| - 1], key, descending), key, descending)
  }

  /** The result of the sort is in order. */
  lemma {:induction false} SortSorted<T>(xs: seq<T>, key: T -> Option<real>, descending: bool)
    ensures SortedBy(SortBy(xs, key, descending), key, descending)
    decreases |xs|
  {
    if |xs| > 0 {
      SortSorted(xs[..|xs| - 1], key, descending);
      InsertSorted(xs[|xs| - 1], SortBy(xs[..|xs| - 1], key, descending), key, descending);
    }
  }

  /** Where `Insert` puts `x`: after the leading elements that may precede
      it. */
  function InsertPos<T>(x: T, s: seq<T>, key: T -> Option<real>, descending: bool): (p: nat)
    ensures p <= |s|
  {
    if |s| == 0 || !InOrder(key(s[0]), key(x), descending) then 0
    else 1 + InsertPos(x, s[1..], key, descending)
  }

  /** `r` is `s` with `x` inserted at position `p`. */
  ghost predicate InsertedAt<T>(r: seq<T>, s: seq<T>, x: T, p: nat)
  {
    && p <= |s| && |r| == |s| + 1 && r[p] == x
    && (forall q :: 0 <= q < p ==> r[q] == s[q])
    && (forall q :: p < q < |r| ==> r[q] == s[q - 1])
  }

  /** `Insert` places `x` at `InsertPos`. */
  lemma {:induction false} InsertAt<T>(x: T, s: seq<T>, key: T -> Option<real>, descending: bool)
    ensures InsertedAt(Insert(x, s, key, descending), s, x, InsertPos(x, s, key, descending))
    decreases |s|
  {
    if |s| > 0 && InOrder(key(s[0]), key(x), descending) {
      var tail := s[1..];
      var p := InsertPos(x, tail, key, descending);
      var rest := Insert(x, tail, key, descending);
      InsertAt(x, tail, key, descending);
      var r := [s[0]] + rest;
      assert Insert(x, s, key, descending) == r;
      assert forall q :: 1 <= q < |r| ==> r[q] == rest[q - 1];
      assert forall q :: 1 <= q < |s| ==> s[q] == tail[q - 1];
      assert InsertedAt(r, s, x, p + 1);
    } else if |s| > 0 {
      var r := [x] + s;
      assert Insert(x, s, key, descending) == r;
      assert InsertedAt(r, s, x, 0);
    }
  }

  /** That position lies after every leading element that may precede
      `x` and before the first one that may not. */
  lemma {:induction false} InsertPosBetween<T>(x: T, s: seq<T>, key: T -> Option<real>, descending: bool)
    ensures var p := InsertPos(x, s, key, descending);
            && (forall q :: 0 <= q < p ==> InOrder(key(s[q]), key(x), descending))
            && (p < |s| ==> !InOrder(key(s[p]), key(x), descending))
    decreases |s|
  {
    if |s| > 0 && InOrder(key(s[0]), key(x), descending) {
      var tail := s[1..];
      InsertPosBetween(x, tail, key, descending);
      assert forall q :: 1 <= q < |s| ==> s[q] == tail[q - 1];
    }
  }

  /** A key strictly after `x`'s, followed by a key in order after it:
      the latter is strictly after `x`'s too. */
  lemma StrictlyAfter(a: Option<real>, b: Option<real>, kx: Option<real>, descending: bool)
    requires !InOrder(a, kx, descending) && InOrder(a, b, descending)
    ensures !InOrder(b, kx, descending) && b != kx
  {
  }

  /** Elements with equal keys stand in the order of their first
      positions in `xs`: the sort is stable. */
  ghost predicate StableFor<T>(xs: seq<T>, r: seq<T>, key: T -> Option<real>)
  {
    forall i, j :: 0 <= i < j < |r| && key(r[i]) == key(r[j]) ==> IndexOf(xs, r[i]) < IndexOf(xs, r[j])
  }

  /** `sortedBy` is stable: of two elements with equal keys, the one that
      comes first in the input comes first in the result. */
  lemma {:induction false} SortStable<T>(xs: seq<T>, key: T -> Option<real>, descending: bool)
    requires Distinct(xs)
    ensures StableFor(xs, SortBy(xs, key, descending), key)
    decreases |xs|
  {
    if |xs| > 0 {
      var init := xs[..|xs| - 1];
      var x := xs[|xs| - 1];
      var s := SortBy(init, key, descending);
      DistinctLast(xs);
      SortStable(init, key, descending);
      SortSorted(init, key, descending);
      InsertStable(init, x, s, key, descending);
      assert xs == init + [x];
    }
  }

  /** Stability with respect to the distinct keys of `xs` is stability
      with respect to `xs`: the keys stand in first-occurrence order. */
  lemma StableThroughFirstOccurrences<T(!new)>(xs: seq<T>, r: seq<T>, key: T -> Option<real>)
    requires forall y :: y in r ==> y in xs
    requires StableFor(FirstOccurrences(xs), r, key)
    ensures StableFor(xs, r, key)
  {
    forall i, j | 0 <= i < j < |r| && key(r[i]) == key(r[j])
      ensures IndexOf(xs, r[i]) < IndexOf(xs, r[j])
    {
      assert r[i] in r && r[j] in r;
      FirstOccurrencesRank(xs, r[i], r[j]);
    }
  }

  /** Sorting the distinct elements of `xs` puts elements with equal keys
      in the order of their first occurrences in `xs`. */
  lemma SortFirstOccurrencesStable<T(!new)>(xs: seq<T>, key: T -> Option<real>, descending: bool)
    ensures StableFor(xs, SortBy(FirstOccurrences(xs), key, descending), key)
  {
    SortStable(FirstOccurrences(xs), key, descending);
    SortKeepsElements(FirstOccurrences(xs), key, descending);
    StableThroughFirstOccurrences(xs, SortBy(FirstOccurrences(xs), key, descending), key);
  }

  /** Splitting the last element off a distinct sequence. */
  lemma DistinctLast<T>(xs: seq<T>)
    requires Distinct(xs) && |xs| > 0
    ensures Distinct(xs[..|xs| - 1]) && xs[|xs| - 1] !in xs[..|xs| - 1]
  {
  }

  /** The step of `SortStable`: inserting a new last element keeps the
      result stable. */
  lemma InsertStable<T>(init: seq<T>, x: T, s: seq<T>, key: T -> Option<real>, descending: bool)
    requires SortedBy(s, key, descending) && StableFor(init, s, key)
    requires multiset(s) == multiset(init) && x !in init
    ensures StableFor(init + [x], Insert(x, s, key, descending), key)
  {
    var p := InsertPos(x, s, key, descending);
    var r := Insert(x, s, key, descending);
    InsertAt(x, s, key, descending);
    InsertPosBetween(x, s, key, descending);
    assert InsertedAt(r, s, x, p);
    forall i, j | 0 <= i < j < |r|
      ensures key(r[i]) == key(r[j]) ==> IndexOf(init + [x], r[i]) < IndexOf(init + [x], r[j])
    {
      if j == p {
        assert r[i] == s[i];
        ArrivesLast(init, x, s, i);
      } else if i == p {
        assert r[j] == s[j - 1];
        assert InOrder(key(s[p]), key(s[j - 1]), descending);
        StrictlyAfter(key(s[p]), key(s[j - 1]), key(x), descending);
      } else {
        var a := if i < p then i else i - 1;
        var b := if j < p then j else j - 1;
        assert r[i] == s[a] && r[j] == s[b];
        KeptOrder(init, x, s, a, b, key);
      }
    }
  }

  /** An element of `init` comes before the element appended to it. */
  lemma ArrivesLast<T>(init: seq<T>, x: T, s: seq<T>, i: nat)
    requires i < |s| && multiset(s) == multiset(init) && x !in init
    ensures IndexOf(init + [x], s[i]) < IndexOf(init + [x], x)
  {
    var y := s[i];
    assert y in multiset(s);
    IndexOfNew(init, x);
    IndexOfAppend(init, x, y);
  }

  /** Two elements of a stable `s` keep their order after the input grows
      by one element. */
  lemma KeptOrder<T>(init: seq<T>, x: T, s: seq<T>, a: nat, b: nat, key: T -> Option<real>)
    requires a < b < |s| && StableFor(init, s, key) && multiset(s) == multiset(init)
    ensures key(s[a]) == key(s[b]) ==> IndexOf(init + [x], s[a]) < IndexOf(init + [x], s[b])
  {
    var ya, yb := s[a], s[b];
    assert ya in multiset(s) && yb in multiset(s);
    IndexOfAppend(init, x, s[a]);
    IndexOfAppend(init, x, s[b]);
  }

  /** Sorting reorders and neither drops nor repeats: the result holds the
      same elements, and distinct inputs stay distinct. */
  lemma SortKeepsElements<T>(xs: seq<T>, key: T -> Option<real>, descending: bool)
    ensures |SortBy(xs, key, descending)| == |xs|
    ensures forall x :: x in SortBy(xs, key, descending) <==> x in xs
    ensures Distinct(xs) ==> Distinct(SortBy(xs, key, descending))
  {
    var r := SortBy(xs, key, descending);
    assert |r| == |multiset(r)| == |multiset(xs)| == |xs|;
    assert forall x :: x in r <==> x in multiset(r);
    if Distinct(xs) {
      forall i, j | 0 <= i < j < |r| ensures r[i] != r[j] {
        if r[i] == r[j] {
          DistinctOnce(xs, r[i]);
          TwiceCounted(r, i, j);
        }
      }
    }
  }

  /** An element of a sequence of distinct elements occurs in it once. */
  lemma {:induction false} DistinctOnce<T>(xs: seq<T>, x: T)
    requires Distinct(xs)
    ensures multiset(xs)[x] <= 1
  {
    if |xs| > 0 {
      var init := xs[..|xs| - 1];
      assert xs == init + [xs[|xs| - 1]];
      assert Distinct(init);
      DistinctOnce(init, x);
      if x == xs[|xs| - 1] {
        assert x !in init;
      }
    }
  }

  /** An element found at two positions occurs at least twice. */
  lemma TwiceCounted<T>(xs: seq<T>, i: nat, j: nat)
    requires i < j < |xs| && xs[i] == xs[j]
    ensures multiset(xs)[xs[i]] >= 2
  {
    assert xs == xs[..j] + [xs[j]] + xs[j + 1..];
    assert xs[i] in xs[..j];
  }
}
