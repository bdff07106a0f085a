/** Small value types and string operations shared by the whole model.
    Strings are `seq<char>`; the operations mirror the Kotlin/Java standard
    library calls the analysed code makes (`indexOf`, `substringBefore`,
    `substringAfterLast`, `replace`, `startsWith`, `endsWith`). */
module Common {

  /** A value that may be absent: the model of a nullable reference. */
  datatype Option<+T> = None | Some(value: T)

  predicate StartsWith(s: string, prefix: string)
  {
    |prefix| <= |s| && s[..|prefix|] == prefix
  }

  predicate EndsWith(s: string, suffix: string)
  {
    |suffix| <= |s| && s[|s| - |suffix|..] == suffix
  }

  predicate ContainsChar(s: string, c: char)
  {
    exists i :: 0 <= i < |s| && s[i] == c
  }

  /** `\w` of java.util.regex: an ASCII letter, digit or underscore. */
  predicate IsWordChar(c: char)
  {
    'a' <= c <= 'z' || 'A' <= c <= 'Z' || '0' <= c <= '9' || c == '_'
  }

  /** The characters `.` does not match in java.util.regex by default. */
  predicate IsLineTerminator(c: char)
  {
    c == '\n' || c == '\r' || c == '\U{85}' || c == '\U{2028}' || c == '\U{2029}'
  }

  /** Java's `s.indexOf(c, from)`: the first position at or after `from`
      holding `c`, or None (Java's -1). */
  function IndexOfFrom(s: string, c: char, from: nat): (r: Option<nat>)
    ensures r.Some? ==> from <= r.value < |s| && s[r.value] == c
    decreases |s| - from
  {
    if from >= |s| then None
    else if s[from] == c then Some(from)
    else IndexOfFrom(s, c, from + 1)
  }

  /** No position between `from` and the one `indexOf` finds holds `c`,
      and None means no position at or after `from` does. */
  lemma {:induction false} IndexOfFromFirst(s: string, c: char, from: nat)
    ensures var r := IndexOfFrom(s, c, from);
            && (r.Some? ==> forall k :: from <= k < r.value ==> s[k] != c)
            && (r.None? ==> forall k :: from <= k < |s| ==> s[k] != c)
    decreases |s| - from
  {
    if from < |s| && s[from] != c {
      IndexOfFromFirst(s, c, from + 1);
    }
  }

  /** `indexOf` finds the first `c` at or after `from` and nothing else. */
  lemma IndexOfFromUnique(s: string, c: char, from: nat, p: nat)
    requires from <= p < |s| && s[p] == c
    requires forall k :: from <= k < p ==> s[k] != c
    ensures IndexOfFrom(s, c, from) == Some(p)
  {
    IndexOfFromFirst(s, c, from);
  }

  /** Java's `s.lastIndexOf(c)`. */
  function LastIndexOf(s: string, c: char): (r: Option<nat>)
    ensures r.Some? ==> r.value < |s| && s[r.value] == c
    ensures r.Some? ==> forall k :: r.value < k < |s| ==> s[k] != c
    ensures r.None? ==> forall k :: 0 <= k < |s| ==> s[k] != c
  {
    if |s| == 0 then None
    else if s[|s| - 1] == c then Some(|s| - 1)
    else LastIndexOf(s[..|s| - 1], c)
  }

  /** Kotlin's `s.substringBefore(c)`: the text before the first `c`, or
      all of `s` when it holds no `c`. */
  function SubstringBefore(s: string, c: char): (r: string)
    ensures |r| <= |s| && r == s[..|r|]
    ensures !ContainsChar(r, c)
    ensures |r| < |s| ==> s[|r|] == c
  {
    IndexOfFromFirst(s, c, 0);
    match IndexOfFrom(s, c, 0)
    case Some(i) => s[..i]
    case None => s
  }

  /** `substringBefore` is the only prefix free of `c` that is either all of
      `s` or followed by `c`. */
  lemma SubstringBeforeUnique(s: string, c: char, p: string)
    requires |p| <= |s| && p == s[..|p|] && !ContainsChar(p, c)
    requires |p| == |s| || s[|p|] == c
    ensures SubstringBefore(s, c) == p
  {
    var r := SubstringBefore(s, c);
    assert forall i :: 0 <= i < |p| ==> s[i] == p[i];
    assert forall i :: 0 <= i < |r| ==> s[i] == r[i];
  }

  /** Kotlin's `s.substringAfterLast(c)`: the text after the last `c`, or
      all of `s` when it holds no `c`. */
  function SubstringAfterLast(s: string, c: char): (r: string)
    ensures |r| <= |s| && r == s[|s| - |r|..]
    ensures !ContainsChar(r, c)
    ensures |r| < |s| ==> s[|s| - |r| - 1] == c
  {
    match LastIndexOf(s, c)
    case Some(i) => s[i + 1..]
    case None => s
  }

  /** Kotlin's `s.replace(from, to)` on characters. */
  function ReplaceChar(s: string, from: char, to: char): (r: string)
    ensures |r| == |s|
    ensures forall i :: 0 <= i < |s| ==> r[i] == (if s[i] == from then to else s[i])
  {
    if |s| == 0 then [] else ReplaceChar(s[..|s| - 1], from, to) + [if s[|s| - 1] == from then to else s[|s| - 1]]
  }

  /** Replacing characters works piece by piece. */
  lemma ReplaceCharAppend(a: string, b: string, from: char, to: char)
    ensures ReplaceChar(a + b, from, to) == ReplaceChar(a, from, to) + ReplaceChar(b, from, to)
  {
    var l, r := ReplaceChar(a + b, from, to), ReplaceChar(a, from, to) + ReplaceChar(b, from, to);
    assert forall i :: 0 <= i < |a + b| ==> l[i] == r[i] by {
      forall i | 0 <= i < |a + b| ensures l[i] == r[i] {
        if i < |a| {
          assert (a + b)[i] == a[i];
        } else {
          assert (a + b)[i] == b[i - |a|];
        }
      }
    }
  }

  /** Whether `t` occurs in `s` at position `i`. */
  predicate OccursAt(s: string, t: string, i: nat)
  {
    i + |t| <= |s| && s[i..i + |t|] == t
  }

  /** The first position of `t` in `s`, searching from `from`. */
  function IndexOfString(s: string, t: string, from: nat): (r: Option<nat>)
    ensures r.Some? ==> from <= r.value && OccursAt(s, t, r.value)
    ensures r.Some? ==> forall k :: from <= k < r.value ==> !OccursAt(s, t, k)
    ensures r.None? ==> forall k :: from <= k ==> !OccursAt(s, t, k)
    decreases |s| - from
  {
    if from + |t| > |s| then None
    else if s[from..from + |t|] == t then Some(from)
    else IndexOfString(s, t, from + 1)
  }

  /** Kotlin's `s.substringBefore(delimiter)` for a string delimiter. */
  function SubstringBeforeString(s: string, delimiter: string): (r: string)
    ensures |r| <= |s| && r == s[..|r|]
    ensures (forall k: nat :: !OccursAt(s, delimiter, k)) ==> r == s
    ensures (exists k: nat :: OccursAt(s, delimiter, k)) ==>
      OccursAt(s, delimiter, |r|) && forall k: nat :: k < |r| ==> !OccursAt(s, delimiter, k)
  {
    match IndexOfString(s, delimiter, 0)
    case Some(i) => s[..i]
    case None => s
  }

  /** Number of occurrences of `x` in `xs`. */
  function Count<T(==)>(xs: seq<T>, x: T): (n: nat)
    ensures n <= |xs|
    ensures n > 0 <==> x in xs
  {
    if |xs| == 0 then 0 else Count(xs[..|xs| - 1], x) + (if xs[|xs| - 1] == x then 1 else 0)
  }

  lemma CountAppend<T>(a: seq<T>, b: seq<T>, x: T)
    ensures Count(a + b, x) == Count(a, x) + Count(b, x)
  {
    if |b| == 0 {
      assert a + b == a;
    } else {
      assert (a + b)[..|a + b| - 1] == a + b[..|b| - 1];
      CountAppend(a, b[..|b| - 1], x);
    }
  }

  /** Kotlin's `xs.indexOf(x)`: the first position holding `x`, or `|xs|`
      (Kotlin's -1) when there is none. */
  function IndexOf<T(==)>(xs: seq<T>, x: T): (r: nat)
    ensures r <= |xs|
    ensures r < |xs| <==> x in xs
    ensures r < |xs| ==> xs[r] == x
  {
    if |xs| == 0 then 0
    else if xs[0] == x then 0
    else
      assert x in xs <==> x in xs[1..] by {
        assert xs == [xs[0]] + xs[1..];
      }
      1 + IndexOf(xs[1..], x)
  }

  /** No position before the one `indexOf` returns holds `x`. */
  lemma {:induction false} IndexOfFirst<T>(xs: seq<T>, x: T)
    ensures forall k :: 0 <= k < IndexOf(xs, x) ==> xs[k] != x
  {
    if |xs| > 0 && xs[0] != x {
      IndexOfFirst(xs[1..], x);
      assert forall k :: 1 <= k < IndexOf(xs, x) ==> xs[k] == xs[1..][k - 1];
    }
  }

  /** The first position holding `x` is what `indexOf` returns. */
  lemma IndexOfUnique<T>(xs: seq<T>, x: T, p: nat)
    requires p < |xs| && xs[p] == x
    requires forall k :: 0 <= k < p ==> xs[k] != x
    ensures IndexOf(xs, x) == p
  {
    IndexOfFirst(xs, x);
  }

  /** Appending an element leaves the first positions of the others. */
  lemma IndexOfAppend<T>(xs: seq<T>, y: T, x: T)
    requires x in xs
    ensures IndexOf(xs + [y], x) == IndexOf(xs, x)
  {
    var p := IndexOf(xs, x);
    IndexOfFirst(xs, x);
    assert forall k :: 0 <= k < |xs| ==> (xs + [y])[k] == xs[k];
    IndexOfUnique(xs + [y], x, p);
  }

  /** The entry for `k` in a count map, 0 when absent (Java's
      `getOrDefault(k, 0)`). */
  function Get(m: map<string, int>, k: string): int
  {
    if k in m then m[k] else 0
  }

  /** All elements of `xs` are pairwise different. */
  predicate Distinct<T(==)>(xs: seq<T>)
  {
    forall i, j :: 0 <= i < j < |xs| ==> xs[i] != xs[j]
  }

  /** `fold(mutableMapOf()) { acc, el -> acc.merge(el, 1, Int::plus) }`:
      the number of times each element occurs. */
  function Tally<T(==,!new)>(xs: seq<T>): (r: map<T, int>)
    ensures forall t :: t in r <==> t in xs
    ensures forall t :: t in r ==> r[t] == Count(xs, t)
  {
    if |xs| == 0 then map[]
    else
      var m := Tally(xs[..|xs| - 1]);
      var x := xs[|xs| - 1];
      assert forall t :: t in xs <==> t in xs[..|xs| - 1] || t == x by {
        assert xs == xs[..|xs| - 1] + [x];
      }
      m[x := (if x in m then m[x] else 0) + 1]
  }

  /** The distinct elements of `xs` in order of first occurrence: the key
      order of Kotlin's `groupBy` and of an insertion-ordered map. */
  function FirstOccurrences<T(==,!new)>(xs: seq<T>): (r: seq<T>)
    ensures Distinct(r)
    ensures forall x :: x in r <==> x in xs
    ensures |r| <= |xs|
  {
    if |xs| == 0 then []
    else
      var r := FirstOccurrences(xs[..|xs| - 1]);
      assert forall x :: x in xs <==> x in xs[..|xs| - 1] || x == xs[|xs| - 1] by {
        assert xs == xs[..|xs| - 1] + [xs[|xs| - 1]];
      }
      if xs[|xs| - 1] in r then r else r + [xs[|xs| - 1]]
  }

  /** A new element appended stands at the end. */
  lemma IndexOfNew<T>(xs: seq<T>, x: T)
    requires x !in xs
    ensures IndexOf(xs + [x], x) == |xs|
  {
    assert forall k :: 0 <= k < |xs| ==> (xs + [x])[k] == xs[k];
    IndexOfUnique(xs + [x], x, |xs|);
  }

  /** The elements of `r` come in the order of their first occurrences in
      `xs`. */
  ghost predicate InFirstOccurrenceOrder<T>(xs: seq<T>, r: seq<T>)
  {
    forall i, j :: 0 <= i < j < |r| ==> IndexOf(xs, r[i]) < IndexOf(xs, r[j])
  }

  /** The keys keep the order of their first occurrences: of two keys, the
      one that comes first in `xs` comes first among the keys. */
  lemma {:induction false} FirstOccurrencesOrder<T(!new)>(xs: seq<T>)
    ensures InFirstOccurrenceOrder(xs, FirstOccurrences(xs))
    decreases |xs|
  {
    if |xs| > 0 {
      var init := xs[..|xs| - 1];
      var x := xs[|xs| - 1];
      var r0 := FirstOccurrences(init);
      FirstOccurrencesOrder(init);
      OrderExtends(init, x, r0);
      assert xs == init + [x];
      OrderStep(xs, init, x, r0, FirstOccurrences(xs));
    }
  }

  /** The step of `FirstOccurrences` in terms of the keys of the prefix. */
  lemma OrderStep<T>(xs: seq<T>, init: seq<T>, x: T, r0: seq<T>, r: seq<T>)
    requires xs == init + [x] && r == if x in r0 then r0 else r0 + [x]
    requires InFirstOccurrenceOrder(init + [x], r0)
    requires x !in init ==> InFirstOccurrenceOrder(init + [x], r0 + [x])
    requires x in r0 <==> x in init
    ensures InFirstOccurrenceOrder(xs, r)
  {
  }

  /** Of two distinct elements, the one first in `FirstOccurrences(xs)`
      first occurs earlier in `xs`. */
  lemma FirstOccurrencesRank<T(!new)>(xs: seq<T>, a: T, b: T)
    requires a in xs && b in xs
    requires IndexOf(FirstOccurrences(xs), a) < IndexOf(FirstOccurrences(xs), b)
    ensures IndexOf(xs, a) < IndexOf(xs, b)
  {
    var r := FirstOccurrences(xs);
    FirstOccurrencesOrder(xs);
    var i, j := IndexOf(r, a), IndexOf(r, b);
    assert r[i] == a && r[j] == b;
  }

  /** The step of `FirstOccurrencesOrder`: keys in first-occurrence order
      stay so when an element is appended, and a new element joins them at
      the end. */
  lemma OrderExtends<T>(init: seq<T>, x: T, r0: seq<T>)
    requires forall y :: y in r0 ==> y in init
    requires InFirstOccurrenceOrder(init, r0)
    ensures InFirstOccurrenceOrder(init + [x], r0)
    ensures x !in init ==> InFirstOccurrenceOrder(init + [x], r0 + [x])
  {
    forall y | y in r0 ensures IndexOf(init + [x], y) == IndexOf(init, y) {
      IndexOfAppend(init, x, y);
    }
    if x !in init {
      IndexOfNew(init, x);
      var r := r0 + [x];
      forall i, j | 0 <= i < j < |r| ensures IndexOf(init + [x], r[i]) < IndexOf(init + [x], r[j]) {
        assert r[i] == r0[i] && r0[i] in r0;
        if j < |r0| {
          assert r[j] == r0[j] && r0[j] in r0;
        }
      }
    }
  }


}
