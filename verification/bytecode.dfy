/** The bytecode reference counter of `BytecodeAnalyzer.kt`.

    ASM drives a `ClassAnalyzer` (and the method, field and annotation
    visitors it hands out) over one class file; every callback feeds
    descriptors into ONE shared count map through `addClass`, which counts a
    descriptor only when it is a class type `L<internal-name>;` (section 4.3.2
    of the Java Virtual Machine Specification, SE 11) and ignores primitives,
    `[` array descriptors, `(` method descriptors and null.

    The shared `MutableMap<String, Int>` is the object `CountMap`; its value
    is `Counts`: the keys in insertion order (the map is a LinkedHashMap)
    and the count of each key. The two regular expressions the analyzer uses
    are written out as scanners. */
module Bytecode {
  import opened Common

  // ---------------------------------------------------------------------
  // The regular expression `L\w[\w/$]+;` as a scanner
  // ---------------------------------------------------------------------

  /** The character class `[\w/$]`. */
  predicate IsNameChar(c: char)
  {
    IsWordChar(c) || c == '/' || c == '$'
  }

  /** A whole string matched by `L\w[\w/$]+;`: an object-type descriptor. */
  predicate IsClassDescriptor(d: string)
  {
    && |d| >= 4
    && d[0] == 'L'
    && IsWordChar(d[1])
    && d[|d| - 1] == ';'
    && forall k :: 2 <= k < |d| - 1 ==> IsNameChar(d[k])
  }

  /** The end of the longest run of `[\w/$]` characters starting at `j`. */
  function NameRunEnd(s: string, j: nat): (e: nat)
    requires j <= |s|
    ensures j <= e <= |s|
    ensures forall k :: j <= k < e ==> IsNameChar(s[k])
    ensures e < |s| ==> !IsNameChar(s[e])
    decreases |s| - j
  {
    if j < |s| && IsNameChar(s[j]) then NameRunEnd(s, j + 1) else j
  }

  /** The end (exclusive) of the match of `L\w[\w/$]+;` that starts at `i`,
      if there is one. The greedy `[\w/$]+` takes the whole run of name
      characters; a shorter run would be followed by a name character, not
      by `;`, so backtracking never finds another match. */
  function DescriptorMatchAt(s: string, i: nat): (r: Option<nat>)
    requires i <= |s|
    ensures r.Some? ==> i + 4 <= r.value <= |s| && IsClassDescriptor(s[i..r.value])
  {
    if i + 2 < |s| && s[i] == 'L' && IsWordChar(s[i + 1]) then
      var e := NameRunEnd(s, i + 2);
      if e > i + 2 && e < |s| && s[e] == ';' then Some(e + 1) else None
    else None
  }

  /** `findAll` of `L\w[\w/$]+;` on `s`, searching from `from`: leftmost,
      non-overlapping matches, in order. */
  function DescriptorMatches(s: string, from: nat): (r: seq<string>)
    requires from <= |s|
    ensures forall m :: m in r ==> IsClassDescriptor(m)
    ensures forall m :: m in r ==> exists p :: from <= p && OccursAt(s, m, p)
    decreases |s| - from
  {
    if from == |s| then []
    else match DescriptorMatchAt(s, from)
      case Some(e) =>
        var rest := DescriptorMatches(s, e);
        assert OccursAt(s, s[from..e], from);
        [s[from..e]] + rest
      case None => DescriptorMatches(s, from + 1)
  }

  /** The scanner finds exactly the descriptor that starts at `i`: whenever
      `s[i..j]` is an object-type descriptor, the match at `i` ends at `j`. */
  lemma DescriptorMatchAtComplete(s: string, i: nat, j: nat)
    requires i <= j <= |s|
    requires IsClassDescriptor(s[i..j])
    ensures DescriptorMatchAt(s, i) == Some(j)
  {
    var d := s[i..j];
    assert s[i] == d[0] && s[i + 1] == d[1];
    var e := NameRunEnd(s, i + 2);
    forall k | i + 2 <= k < j - 1
      ensures IsNameChar(s[k])
    {
      assert s[k] == d[k - i];
    }
    assert s[j - 1] == d[|d| - 1] == ';';
    assert !IsNameChar(s[j - 1]);
    assert e == j - 1;
  }

  /** Round trip: a descriptor scanned on its own is found whole, once. */
  lemma {:induction false} DescriptorMatchesItself(d: string)
    requires IsClassDescriptor(d)
    ensures DescriptorMatches(d, 0) == [d]
  {
    assert d[0..|d|] == d;
    DescriptorMatchAtComplete(d, 0, |d|);
    assert DescriptorMatches(d, |d|) == [];
  }

  /** No descriptor starts in `s` at a position in [from, p). */
  predicate NoDescriptorIn(s: string, from: nat, p: nat)
    requires p <= |s|
  {
    forall k, q :: from <= k < p && k <= q <= |s| ==> !IsClassDescriptor(s[k..q])
  }

  /** Positions where no descriptor starts are skipped. */
  lemma {:induction false} DescriptorMatchesSkip(s: string, from: nat, p: nat)
    requires from <= p <= |s| && NoDescriptorIn(s, from, p)
    ensures DescriptorMatches(s, from) == DescriptorMatches(s, p)
    decreases p - from
  {
    if from < p {
      assert DescriptorMatchAt(s, from).None?;
      DescriptorMatchesSkip(s, from + 1, p);
    }
  }

  /** Completeness: the leftmost descriptor at or after `from` is the next
      match, and the search resumes right after it. */
  lemma DescriptorMatchesNext(s: string, from: nat, p: nat, q: nat)
    requires from <= p <= q <= |s| && IsClassDescriptor(s[p..q]) && NoDescriptorIn(s, from, p)
    ensures DescriptorMatches(s, from) == [s[p..q]] + DescriptorMatches(s, q)
  {
    DescriptorMatchesSkip(s, from, p);
    DescriptorMatchAtComplete(s, p, q);
  }

  /** With no descriptor at or after `from` there is no match. */
  lemma DescriptorMatchesNone(s: string, from: nat)
    requires from <= |s| && NoDescriptorIn(s, from, |s|)
    ensures DescriptorMatches(s, from) == []
  {
    DescriptorMatchesSkip(s, from, |s|);
  }

  // ---------------------------------------------------------------------
  // The regular expression `<(.+?)>` and `String.genericTypes()`
  // ---------------------------------------------------------------------

  /** The first `>` at or after `j`, provided no line terminator comes
      before it: where the lazy `.+?` stops. */
  function GroupCloseFrom(s: string, j: nat): (r: Option<nat>)
    ensures r.Some? ==> j <= r.value < |s| && s[r.value] == '>'
    ensures r.Some? ==> forall k :: j <= k < r.value ==> s[k] != '>' && !IsLineTerminator(s[k])
    decreases |s| - j
  {
    if j >= |s| then None
    else if s[j] == '>' then Some(j)
    else if IsLineTerminator(s[j]) then None
    else GroupCloseFrom(s, j + 1)
  }

  /** The captured groups of `findAll` of `<(.+?)>` from `from`, in order. */
  function TypeGroups(s: string, from: nat): (r: seq<string>)
    requires from <= |s|
    ensures forall g :: g in r ==> |g| >= 1 && exists p :: from < p && OccursAt(s, g, p) && s[p - 1] == '<'
    decreases |s| - from
  {
    if from + 1 >= |s| then []
    else if s[from] == '<' && !IsLineTerminator(s[from + 1]) then
      match GroupCloseFrom(s, from + 2)
      case Some(k) =>
        assert OccursAt(s, s[from + 1..k], from + 1);
        [s[from + 1..k]] + TypeGroups(s, k + 1)
      case None => TypeGroups(s, from + 1)
    else TypeGroups(s, from + 1)
  }

  /** `<(.+?)>` can match from the `<` at `k` to the `>` at `e`: at least
      one character between them and no line terminator. */
  predicate GroupSpan(s: string, k: nat, e: nat)
  {
    && k + 2 <= e < |s| && s[k] == '<' && s[e] == '>'
    && forall t :: k < t < e ==> !IsLineTerminator(s[t])
  }

  /** No group starts in `s` at a position in [from, p). */
  predicate NoGroupIn(s: string, from: nat, p: nat)
  {
    forall k, e :: from <= k < p && k < e < |s| ==> !GroupSpan(s, k, e)
  }

  /** The lazy `.+?` stops at the first `>` after the first character. */
  lemma {:induction false} GroupCloseFromFinds(s: string, j: nat, e: nat)
    requires j <= e < |s| && s[e] == '>'
    requires forall t :: j <= t < e ==> s[t] != '>' && !IsLineTerminator(s[t])
    ensures GroupCloseFrom(s, j) == Some(e)
    decreases e - j
  {
    if j < e {
      GroupCloseFromFinds(s, j + 1, e);
    }
  }

  /** Where the lazy `.+?` stops, a group can match. */
  lemma GroupCloseSpans(s: string, k: nat)
    requires k + 1 < |s| && s[k] == '<' && !IsLineTerminator(s[k + 1])
    ensures GroupCloseFrom(s, k + 2).Some? ==> GroupSpan(s, k, GroupCloseFrom(s, k + 2).value)
  {
  }

  /** Where no group starts, the search moves one position on. */
  lemma TypeGroupsStep(s: string, from: nat)
    requires from + 1 < |s|
    requires forall e :: from < e < |s| ==> !GroupSpan(s, from, e)
    ensures TypeGroups(s, from) == TypeGroups(s, from + 1)
  {
    if s[from] == '<' && !IsLineTerminator(s[from + 1]) {
      GroupCloseSpans(s, from);
    }
  }

  /** Positions where no group starts are skipped. */
  lemma {:induction false} TypeGroupsSkip(s: string, from: nat, p: nat)
    requires from <= p <= |s| && NoGroupIn(s, from, p)
    ensures TypeGroups(s, from) == TypeGroups(s, p)
    decreases p - from
  {
    if from < p && from + 1 < |s| {
      TypeGroupsStep(s, from);
      TypeGroupsSkip(s, from + 1, p);
    }
  }

  /** Completeness: the leftmost group at or after `from`, closed at its
      first `>`, is the next one captured, and the search resumes after
      that `>`. */
  lemma TypeGroupsNext(s: string, from: nat, p: nat, e: nat)
    requires from <= p && GroupSpan(s, p, e) && NoGroupIn(s, from, p)
    requires forall t :: p + 2 <= t < e ==> s[t] != '>'
    ensures TypeGroups(s, from) == [s[p + 1..e]] + TypeGroups(s, e + 1)
  {
    TypeGroupsSkip(s, from, p);
    GroupCloseFromFinds(s, p + 2, e);
  }

  /** With no group at or after `from` nothing is captured. */
  lemma TypeGroupsNone(s: string, from: nat)
    requires from <= |s| && NoGroupIn(s, from, |s|)
    ensures TypeGroups(s, from) == []
  {
    TypeGroupsSkip(s, from, |s|);
  }

  /** `String.genericTypes()`: the descriptors found inside the `<…>`
      groups of a generic signature, as a set. */
  function GenericTypes(signature: string): (r: set<string>)
    ensures forall x :: x in r ==> IsClassDescriptor(x)
    ensures forall g, x :: g in TypeGroups(signature, 0) && x in DescriptorMatches(g, 0) ==> x in r
  {
    set g, m | g in TypeGroups(signature, 0) && m in DescriptorMatches(g, 0) :: m
  }

  /** Every generic type is an object-type descriptor that stands in the
      signature right inside some `<…>` group. */
  lemma GenericTypesAreGroupDescriptors(signature: string, x: string)
    requires x in GenericTypes(signature)
    ensures IsClassDescriptor(x)
    ensures exists lt, p :: 0 <= lt < p && lt < |signature| && signature[lt] == '<' && OccursAt(signature, x, p)
  {
    var g :| g in TypeGroups(signature, 0) && x in DescriptorMatches(g, 0);
    var q :| 0 < q && OccursAt(signature, g, q) && signature[q - 1] == '<';
    var p :| 0 <= p && OccursAt(g, x, p);
    SubstringOfSubstring(signature, g, x, q, p);
  }

  lemma SubstringOfSubstring(s: string, g: string, x: string, q: nat, p: nat)
    requires OccursAt(s, g, q) && OccursAt(g, x, p)
    ensures OccursAt(s, x, q + p)
  {
    assert g == s[q..q + |g|];
    forall i | 0 <= i < |x|
      ensures s[q + p + i] == x[i]
    {
      assert x[i] == g[p + i];
    }
    assert s[q + p..q + p + |x|] == x;
  }

  // ---------------------------------------------------------------------
  // `MutableMap<String, Int>.addClass` on the value of the map
  // ---------------------------------------------------------------------

  /** The value of the shared count map: keys in insertion order, and counts. */
  datatype Counts = Counts(order: seq<string>, counts: map<string, int>)
  {
    /** Every key is listed once, in insertion order, and counted at least once. */
    predicate Valid()
    {
      && Distinct(order)
      && counts.Keys == set k | k in order
      && (forall k :: k in counts ==> counts[k] >= 1)
    }
  }

  /** `b` is `a` after further increments: the old keys keep their place at
      the front, and no count went down. */
  predicate Grows(a: Counts, b: Counts)
  {
    && |a.order| <= |b.order| && b.order[..|a.order|] == a.order
    && forall k :: k in a.counts ==> k in b.counts && b.counts[k] >= a.counts[k]
  }

  lemma GrowsTransitive(a: Counts, b: Counts, c: Counts)
    requires Grows(a, b) && Grows(b, c)
    ensures Grows(a, c)
  {
    assert c.order[..|a.order|] == c.order[..|b.order|][..|a.order|];
  }

  /** What one `addClass(className)` call does. */
  datatype Effect = Ignored | Counted(key: string) | Throws

  /** `addClass`: a non-null argument starting with `L` has its first and
      last character dropped and the rest counted; anything else is ignored.
      The argument "L" alone makes `substring(1, 0)` throw. */
  function AddClassEffect(className: Option<string>): (e: Effect)
    ensures e.Counted? <==> className.Some? && |className.value| >= 2 && className.value[0] == 'L'
    ensures e.Throws? <==> className == Some("L")
  {
    match className
    case None => Ignored
    case Some(d) =>
      if |d| > 0 && d[0] == 'L' then
        if |d| >= 2 then Counted(d[1..|d| - 1])
        else
          assert d == [d[0]];
          Throws
      else Ignored
  }

  /** The key counted is the argument between its leading `L` and its last
      character. */
  lemma CountedKey(d: string)
    requires AddClassEffect(Some(d)).Counted?
    ensures d == "L" + AddClassEffect(Some(d)).key + [d[|d| - 1]]
  {
    assert d == [d[0]] + d[1..|d| - 1] + [d[|d| - 1]];
  }

  /** `merge(key, 1, Int::plus)` on a LinkedHashMap. */
  function Bump(c: Counts, key: string): (r: Counts)
    requires c.Valid()
    ensures r.Valid()
  {
    if key in c.counts then Counts(c.order, c.counts[key := c.counts[key] + 1])
    else Counts(c.order + [key], c.counts[key := 1])
  }

  /** The result of feeding descriptors to `addClass` one after another:
      the new value, and whether every call returned normally. */
  datatype Outcome = Outcome(counts: Counts, ok: bool)

  /** `ds.forEach { addClass(it) }`: the calls run in order, and an
      exception ends the sequence, keeping what was counted before it. */
  function AddAll(c: Counts, ds: seq<Option<string>>): (r: Outcome)
    requires c.Valid()
    ensures r.counts.Valid()
    decreases |ds|
  {
    if |ds| == 0 then Outcome(c, true)
    else match AddClassEffect(ds[0])
      case Ignored => AddAll(c, ds[1..])
      case Throws => Outcome(c, false)
      case Counted(k) => AddAll(Bump(c, k), ds[1..])
  }

  /** The keys the descriptors `ds` increment, one entry per increment. */
  function CountedKeys(ds: seq<Option<string>>): (r: seq<string>)
    ensures |r| <= |ds|
  {
    if |ds| == 0 then []
    else match AddClassEffect(ds[0])
      case Counted(k) => [k] + CountedKeys(ds[1..])
      case _ => CountedKeys(ds[1..])
  }

  predicate NeverThrows(ds: seq<Option<string>>)
  {
    forall i :: 0 <= i < |ds| ==> !AddClassEffect(ds[i]).Throws?
  }

  /** Null, primitives, arrays (`[`) and method descriptors (`(`) leave the
      map alone: only an argument starting with `L` is counted. */
  lemma {:induction false} NonClassTypesIgnored(c: Counts, d: Option<string>)
    requires c.Valid()
    requires d.None? || |d.value| == 0 || d.value[0] != 'L'
    ensures AddAll(c, [d]) == Outcome(c, true)
  {
    assert AddClassEffect(d) == Ignored;
    assert [d][1..] == [];
  }

  /** `addClass("L…;")` adds exactly one to the key with the first and last
      character dropped, inserting it with 1 (at the end of the key order)
      when absent; every other entry is unchanged. */
  lemma {:induction false} AddClassIncrementsKey(c: Counts, d: string)
    requires c.Valid()
    requires |d| >= 2 && d[0] == 'L'
    ensures var r := AddAll(c, [Some(d)]);
      && r.ok
      && r.counts.counts == c.counts[d[1..|d| - 1] := Get(c.counts, d[1..|d| - 1]) + 1]
      && r.counts.order == if d[1..|d| - 1] in c.counts then c.order else c.order + [d[1..|d| - 1]]
  {
    assert [Some(d)][1..] == [];
  }

  /** Feeding descriptors never removes a key, never moves one, and never
      lowers a count. */
  lemma {:induction false} AddAllGrows(c: Counts, ds: seq<Option<string>>)
    requires c.Valid()
    ensures Grows(c, AddAll(c, ds).counts)
    decreases |ds|
  {
    if |ds| > 0 {
      match AddClassEffect(ds[0])
      case Ignored => AddAllGrows(c, ds[1..]);
      case Throws =>
      case Counted(k) =>
        var b := Bump(c, k);
        assert Grows(c, b);
        AddAllGrows(b, ds[1..]);
        GrowsTransitive(c, b, AddAll(b, ds[1..]).counts);
    }
  }

  /** The calls all return normally exactly when none of them throws. */
  lemma {:induction false} AddAllOk(c: Counts, ds: seq<Option<string>>)
    requires c.Valid()
    ensures AddAll(c, ds).ok <==> NeverThrows(ds)
    decreases |ds|
  {
    if |ds| > 0 {
      match AddClassEffect(ds[0])
      case Ignored => AddAllOk(c, ds[1..]);
      case Throws =>
      case Counted(k) => AddAllOk(Bump(c, k), ds[1..]);
      assert NeverThrows(ds) <==> !AddClassEffect(ds[0]).Throws? && NeverThrows(ds[1..]) by {
        if NeverThrows(ds[1..]) && !AddClassEffect(ds[0]).Throws? {
          forall i | 0 <= i < |ds| ensures !AddClassEffect(ds[i]).Throws? {
            if i > 0 { assert ds[i] == ds[1..][i - 1]; }
          }
        }
      }
    }
  }

  /** When no call throws, each key's count grows by exactly the number of
      descriptors that name it. */
  lemma {:induction false} AddAllCounts(c: Counts, ds: seq<Option<string>>, key: string)
    requires c.Valid()
    requires NeverThrows(ds)
    ensures Get(AddAll(c, ds).counts.counts, key) == Get(c.counts, key) + Count(CountedKeys(ds), key)
    decreases |ds|
  {
    if |ds| > 0 {
      assert NeverThrows(ds[1..]) by {
        forall i | 0 <= i < |ds[1..]| ensures !AddClassEffect(ds[1..][i]).Throws? {
          assert ds[1..][i] == ds[i + 1];
        }
      }
      match AddClassEffect(ds[0])
      case Ignored => AddAllCounts(c, ds[1..], key);
      case Throws =>
      case Counted(k) =>
        AddAllCounts(Bump(c, k), ds[1..], key);
        CountAppend([k], CountedKeys(ds[1..]), key);
    }
  }

  // ---------------------------------------------------------------------
  // The descriptors each visitor callback feeds to `addClass`
  // ---------------------------------------------------------------------

  /** Kotlin string interpolation of a nullable string. */
  function Interpolated(s: Option<string>): string
  {
    match s
    case None => "null"
    case Some(v) => v
  }

  /** `"L$name;"`: an internal name wrapped as an object-type descriptor. */
  function Wrapped(name: Option<string>): string
  {
    "L" + Interpolated(name) + ";"
  }

  /** `(if (t?.startsWith("[") == true) t else "L$t;")`, the operand rule of
      `visitTypeInsn` and of the owner in `visitMethodInsn`. */
  function OperandDescriptor(t: Option<string>): Option<string>
  {
    if t.Some? && StartsWith(t.value, "[") then t else Some(Wrapped(t))
  }

  /** One `addClass(result.value)` per match of `L\w[\w/$]+;` in a
      nullable descriptor. */
  function MatchDescriptors(d: Option<string>): (r: seq<Option<string>>)
    ensures forall i :: 0 <= i < |r| ==> r[i].Some? && IsClassDescriptor(r[i].value)
  {
    match d
    case None => []
    case Some(s) =>
      var ms := DescriptorMatches(s, 0);
      seq(|ms|, i requires 0 <= i < |ms| => Some(ms[i]))
  }

  /** `visit`: the superclass, then each interface. */
  function HeaderDescriptors(superName: Option<string>, interfaces: Option<seq<string>>): seq<Option<string>>
  {
    var ifs := if interfaces.Some? then interfaces.value else [];
    [Some(Wrapped(superName))] + WrappedEach(ifs)
  }

  /** Each interface wrapped as an object-type descriptor, in order. */
  function WrappedEach(ifs: seq<string>): (ds: seq<Option<string>>)
    ensures |ds| == |ifs|
  {
    if |ifs| == 0 then [] else [Some(Wrapped(Some(ifs[0])))] + WrappedEach(ifs[1..])
  }

  /** The constant part of an annotation value that `AnnotationAnalyzer.visit`
      looks at: a String, an ASM `Type`, or any other value. */
  datatype AnnotationValue = StringValue(text: string) | TypeValue(typeDescriptor: string) | OtherValue

  function AnnotationValueDescriptors(v: AnnotationValue): seq<Option<string>>
  {
    match v
    case StringValue(text) => MatchDescriptors(Some(text))
    case TypeValue(t) => [Some(t)]
    case OtherValue => []
  }

  lemma WrappedKey(name: Option<string>)
    ensures AddClassEffect(Some(Wrapped(name))) == Counted(Interpolated(name))
  {
    var w := Wrapped(name);
    assert w[1..|w| - 1] == Interpolated(name);
  }

  /** `visitTypeInsn` and the owner of `visitMethodInsn`: an operand already
      in array form is passed on unchanged and never counted; any other
      operand is wrapped and counted once under its own name ("null" for a
      null operand). */
  lemma TypeOperandCounted(c: Counts, t: Option<string>)
    requires c.Valid()
    ensures t.Some? && StartsWith(t.value, "[") ==> AddAll(c, [OperandDescriptor(t)]) == Outcome(c, true)
    ensures !(t.Some? && StartsWith(t.value, "[")) ==>
      AddAll(c, [OperandDescriptor(t)]).counts.counts == c.counts[Interpolated(t) := Get(c.counts, Interpolated(t)) + 1]
  {
    if t.Some? && StartsWith(t.value, "[") {
      NonClassTypesIgnored(c, t);
    } else {
      WrappedKey(t);
      AddClassIncrementsKey(c, Wrapped(t));
    }
  }

  /** `visitInvokeDynamicInsn` passes the whole method descriptor, which
      starts with `(`, so it counts nothing. */
  lemma InvokeDynamicCountsNothing(c: Counts, descriptor: string)
    requires c.Valid()
    requires StartsWith(descriptor, "(")
    ensures AddAll(c, [Some(descriptor)]) == Outcome(c, true)
  {
    NonClassTypesIgnored(c, Some(descriptor));
  }

  lemma {:induction false} MatchKeys(d: Option<string>)
    ensures NeverThrows(MatchDescriptors(d))
    ensures |CountedKeys(MatchDescriptors(d))| == |MatchDescriptors(d)|
  {
    var ds := MatchDescriptors(d);
    CountedKeysOfDescriptors(ds);
  }

  lemma {:induction false} CountedKeysOfDescriptors(ds: seq<Option<string>>)
    requires forall i :: 0 <= i < |ds| ==> ds[i].Some? && IsClassDescriptor(ds[i].value)
    ensures NeverThrows(ds)
    ensures |CountedKeys(ds)| == |ds|
    decreases |ds|
  {
    if |ds| > 0 {
      CountedKeysOfDescriptors(ds[1..]);
    }
  }

  /** A method descriptor adds one increment per match of `L\w[\w/$]+;`:
      the counts grow by as much as there are matches, and nothing throws. */
  lemma MethodDescriptorIncrements(c: Counts, descriptor: Option<string>)
    requires c.Valid()
    ensures var r := AddAll(c, MatchDescriptors(descriptor));
      r.ok && forall k :: Get(r.counts.counts, k) == Get(c.counts, k) + Count(CountedKeys(MatchDescriptors(descriptor)), k)
    ensures |CountedKeys(MatchDescriptors(descriptor))| == |MatchDescriptors(descriptor)|
  {
    MatchKeys(descriptor);
    AddAllOk(c, MatchDescriptors(descriptor));
    forall k ensures Get(AddAll(c, MatchDescriptors(descriptor)).counts.counts, k)
                  == Get(c.counts, k) + Count(CountedKeys(MatchDescriptors(descriptor)), k) {
      AddAllCounts(c, MatchDescriptors(descriptor), k);
    }
  }

  /** Wrapped interfaces are each counted under their own name. */
  lemma {:induction false} CountedWrapped(ifs: seq<string>)
    ensures CountedKeys(WrappedEach(ifs)) == ifs
    decreases |ifs|
  {
    if |ifs| > 0 {
      var ds := WrappedEach(ifs);
      CountedWrapped(ifs[1..]);
      WrappedKey(Some(ifs[0]));
      assert ds[0] == Some(Wrapped(Some(ifs[0]))) && ds[1..] == WrappedEach(ifs[1..]);
      assert CountedKeys(ds) == [ifs[0]] + CountedKeys(ds[1..]);
      assert ifs == [ifs[0]] + ifs[1..];
    }
  }

  /** No wrapped interface makes `addClass` throw. */
  lemma WrappedNeverThrows(ifs: seq<string>)
    ensures NeverThrows(WrappedEach(ifs))
    decreases |ifs|
  {
    var ds := WrappedEach(ifs);
    forall i | 0 <= i < |ds| ensures !AddClassEffect(ds[i]).Throws? {
      WrappedAt(ifs, i);
      WrappedKey(Some(ifs[i]));
    }
  }

  lemma {:induction false} WrappedAt(ifs: seq<string>, i: nat)
    requires i < |ifs|
    ensures WrappedEach(ifs)[i] == Some(Wrapped(Some(ifs[i])))
    decreases |ifs|
  {
    if i > 0 {
      WrappedAt(ifs[1..], i - 1);
    }
  }

  /** `visit` counts the superclass once (a null superclass under the key
      "null") and each interface once, and never throws. */
  lemma VisitHeaderCounts(c: Counts, superName: Option<string>, interfaces: Option<seq<string>>, key: string)
    requires c.Valid()
    ensures var r := AddAll(c, HeaderDescriptors(superName, interfaces));
      && r.ok
      && Get(r.counts.counts, key) == Get(c.counts, key)
           + (if key == Interpolated(superName) then 1 else 0)
           + Count(if interfaces.Some? then interfaces.value else [], key)
  {
    var ifs := if interfaces.Some? then interfaces.value else [];
    var ds := HeaderDescriptors(superName, interfaces);
    CountedWrapped(ifs);
    WrappedNeverThrows(ifs);
    WrappedKey(superName);
    assert ds[1..] == WrappedEach(ifs);
    assert CountedKeys(ds) == [Interpolated(superName)] + ifs;
    assert NeverThrows(ds);
    AddAllOk(c, ds);
    AddAllCounts(c, ds, key);
    CountAppend([Interpolated(superName)], ifs, key);
  }

  /** `AnnotationAnalyzer.visit`: a String value counts its regex matches,
      a `Type` value its descriptor, any other value nothing. */
  lemma AnnotationValueCounts(c: Counts, v: AnnotationValue)
    requires c.Valid()
    ensures v.OtherValue? ==> AddAll(c, AnnotationValueDescriptors(v)) == Outcome(c, true)
    ensures v.StringValue? ==> AddAll(c, AnnotationValueDescriptors(v)).ok
    ensures v.TypeValue? ==> AnnotationValueDescriptors(v) == [Some(v.typeDescriptor)]
  {
    if v.StringValue? {
      MethodDescriptorIncrements(c, Some(v.text));
    }
  }

  // ---------------------------------------------------------------------
  // The shared map and the visitors
  // ---------------------------------------------------------------------

  /** The `MutableMap<String, Int>` that every visitor of one class writes
      into. */
  class CountMap {
    var order: seq<string>
    var counts: map<string, int>

    function Value(): Counts
      reads this
    {
      Counts(order, counts)
    }

    ghost predicate Valid()
      reads this
    {
      Value().Valid()
    }

    constructor ()
      ensures Valid() && Value() == Counts([], map[])
    {
      order := [];
      counts := map[];
    }

    /** `classes.addClass(className)`; `ok` is false when it throws. */
    method AddClass(className: Option<string>) returns (ok: bool)
      requires Valid()
      modifies this
      ensures Valid()
      ensures Outcome(Value(), ok) == AddAll(old(Value()), [className])
    {
      assert [className][1..] == [];
      match AddClassEffect(className) {
        case Ignored =>
          ok := true;
        case Throws =>
          ok := false;
        case Counted(k) =>
          if k in counts {
            counts := counts[k := counts[k] + 1];
          } else {
            order := order + [k];
            counts := counts[k := 1];
          }
          ok := true;
      }
    }

    /** `forEach { addClass(it) }` over a list of descriptors, ending at the
        first call that throws. */
    method AddEach(ds: seq<Option<string>>) returns (ok: bool)
      requires Valid()
      modifies this
      ensures Valid()
      ensures Outcome(Value(), ok) == AddAll(old(Value()), ds)
      ensures Grows(old(Value()), Value())
    {
      AddAllGrows(Value(), ds);
      var i := 0;
      ok := true;
      while i < |ds|
        invariant 0 <= i <= |ds|
        invariant Valid()
        invariant AddAll(old(Value()), ds) == AddAll(Value(), ds[i..])
      {
        assert ds[i..][1..] == ds[i + 1..];
        ok := AddClass(ds[i]);
        if !ok {
          return;
        }
        i := i + 1;
      }
    }

    /** `addClass(t)` for an object-type descriptor `t`. */
    method AddDescriptor(t: string)
      requires Valid() && IsClassDescriptor(t)
      modifies this
      ensures Valid() && Grows(old(Value()), Value())
      ensures counts == old(counts)[t[1..|t| - 1] := Get(old(counts), t[1..|t| - 1]) + 1]
    {
      ghost var before := Value();
      AddClassIncrementsKey(before, t);
      var added := AddEach([Some(t)]);
      assert Value() == AddAll(before, [Some(t)]).counts;
    }

    /** `forEach { addClass(it) }` over a set of object-type descriptors
        (a HashSet, iterated in no particular order): each adds one to its
        own key, and none throws. */
    method AddEachDescriptorOf(ts: set<string>) returns (ok: bool)
      requires Valid()
      requires forall t :: t in ts ==> IsClassDescriptor(t)
      modifies this
      ensures Valid() && ok
      ensures Grows(old(Value()), Value())
      ensures AddsOneEach(old(counts), counts, ts)
    {
      var todo := ts;
      ghost var done: set<string> := {};
      while todo != {}
        invariant Valid()
        invariant todo + done == ts && todo !! done
        invariant Grows(old(Value()), Value())
        invariant AddsOneEach(old(counts), counts, done)
        decreases todo
      {
        var t :| t in todo;
        ghost var before := Value();
        AddDescriptor(t);
        GrowsTransitive(old(Value()), before, Value());
        GenericTypeStep(old(counts), before.counts, counts, done, t);
        todo := todo - {t};
        done := done + {t};
      }
      ok := true;
    }
  }

  /** The visitor of annotation values; nested annotations and arrays get a
      new visitor one level deeper over the same map. */
  class AnnotationAnalyzer {
    const classes: CountMap
    const level: nat

    constructor (classes: CountMap, level: nat)
      ensures this.classes == classes && this.level == level
    {
      this.classes := classes;
      this.level := level;
    }

    method Visit(value: AnnotationValue) returns (ok: bool)
      requires classes.Valid()
      modifies classes
      ensures classes.Valid() && Grows(old(classes.Value()), classes.Value())
      ensures Outcome(classes.Value(), ok) == AddAll(old(classes.Value()), AnnotationValueDescriptors(value))
    {
      ok := classes.AddEach(AnnotationValueDescriptors(value));
    }

    method VisitEnum(descriptor: Option<string>) returns (ok: bool)
      requires classes.Valid()
      modifies classes
      ensures classes.Valid() && Grows(old(classes.Value()), classes.Value())
      ensures Outcome(classes.Value(), ok) == AddAll(old(classes.Value()), [descriptor])
    {
      ok := classes.AddEach([descriptor]);
    }

    /** A nested annotation: its descriptor is counted and its members go to
        a new visitor writing into the same map. */
    method VisitAnnotation(descriptor: Option<string>) returns (ok: bool, nested: AnnotationAnalyzer)
      requires classes.Valid()
      modifies classes
      ensures classes.Valid() && Grows(old(classes.Value()), classes.Value())
      ensures Outcome(classes.Value(), ok) == AddAll(old(classes.Value()), [descriptor])
      ensures fresh(nested) && nested.classes == classes && nested.level == level + 1
    {
      ok := classes.AddEach([descriptor]);
      nested := new AnnotationAnalyzer(classes, level + 1);
    }

    /** An array value: nothing is counted; its elements go to a new visitor
        writing into the same map. */
    method VisitArray() returns (nested: AnnotationAnalyzer)
      ensures fresh(nested) && nested.classes == classes && nested.level == level + 1
    {
      nested := new AnnotationAnalyzer(classes, level + 1);
    }
  }

  class FieldAnalyzer {
    const classes: CountMap
    const annotationAnalyzer: AnnotationAnalyzer

    constructor (classes: CountMap)
      ensures this.classes == classes && annotationAnalyzer.classes == classes
    {
      this.classes := classes;
      annotationAnalyzer := new AnnotationAnalyzer(classes, 0);
    }

    method VisitAnnotation(descriptor: Option<string>) returns (ok: bool, av: AnnotationAnalyzer)
      requires classes.Valid()
      modifies classes
      ensures classes.Valid() && Grows(old(classes.Value()), classes.Value())
      ensures Outcome(classes.Value(), ok) == AddAll(old(classes.Value()), [descriptor])
      ensures av == annotationAnalyzer
    {
      ok := classes.AddEach([descriptor]);
      av := annotationAnalyzer;
    }
  }

  class MethodAnalyzer {
    const classes: CountMap
    const annotationAnalyzer: AnnotationAnalyzer

    constructor (classes: CountMap)
      ensures this.classes == classes && annotationAnalyzer.classes == classes
    {
      this.classes := classes;
      annotationAnalyzer := new AnnotationAnalyzer(classes, 0);
    }

    method VisitTypeInsn(operand: Option<string>) returns (ok: bool)
      requires classes.Valid()
      modifies classes
      ensures classes.Valid() && Grows(old(classes.Value()), classes.Value())
      ensures Outcome(classes.Value(), ok) == AddAll(old(classes.Value()), [OperandDescriptor(operand)])
    {
      ok := classes.AddEach([OperandDescriptor(operand)]);
    }

    method VisitFieldInsn(owner: Option<string>, descriptor: Option<string>) returns (ok: bool)
      requires classes.Valid()
      modifies classes
      ensures classes.Valid() && Grows(old(classes.Value()), classes.Value())
      ensures Outcome(classes.Value(), ok) == AddAll(old(classes.Value()), [Some(Wrapped(owner)), descriptor])
    {
      ok := classes.AddEach([Some(Wrapped(owner)), descriptor]);
    }

    method VisitMethodInsn(owner: Option<string>, descriptor: Option<string>) returns (ok: bool)
      requires classes.Valid()
      modifies classes
      ensures classes.Valid() && Grows(old(classes.Value()), classes.Value())
      ensures Outcome(classes.Value(), ok) == AddAll(old(classes.Value()), [OperandDescriptor(owner)] + MatchDescriptors(descriptor))
    {
      ok := classes.AddEach([OperandDescriptor(owner)] + MatchDescriptors(descriptor));
    }

    method VisitInvokeDynamicInsn(descriptor: Option<string>) returns (ok: bool)
      requires classes.Valid()
      modifies classes
      ensures classes.Valid() && Grows(old(classes.Value()), classes.Value())
      ensures Outcome(classes.Value(), ok) == AddAll(old(classes.Value()), [descriptor])
    {
      ok := classes.AddEach([descriptor]);
    }

    method VisitLocalVariable(descriptor: Option<string>) returns (ok: bool)
      requires classes.Valid()
      modifies classes
      ensures classes.Valid() && Grows(old(classes.Value()), classes.Value())
      ensures Outcome(classes.Value(), ok) == AddAll(old(classes.Value()), [descriptor])
    {
      ok := classes.AddEach([descriptor]);
    }

    /** `visitLocalVariableAnnotation`, `visitAnnotation`,
        `visitInsnAnnotation`, `visitParameterAnnotation`,
        `visitTypeAnnotation` and `visitTryCatchAnnotation` all count the
        annotation's descriptor and hand out the method's annotation visitor. */
    method VisitAnyAnnotation(descriptor: Option<string>) returns (ok: bool, av: AnnotationAnalyzer)
      requires classes.Valid()
      modifies classes
      ensures classes.Valid() && Grows(old(classes.Value()), classes.Value())
      ensures Outcome(classes.Value(), ok) == AddAll(old(classes.Value()), [descriptor])
      ensures av == annotationAnalyzer
    {
      ok := classes.AddEach([descriptor]);
      av := annotationAnalyzer;
    }

    method VisitTryCatchBlock(catchType: Option<string>) returns (ok: bool)
      requires classes.Valid()
      modifies classes
      ensures classes.Valid() && Grows(old(classes.Value()), classes.Value())
      ensures Outcome(classes.Value(), ok) == AddAll(old(classes.Value()), [Some(Wrapped(catchType))])
    {
      ok := classes.AddEach([Some(Wrapped(catchType))]);
    }
  }

  class ClassAnalyzer {
    var source: Option<string>
    var className: Option<string>  // `lateinit`: None until `visit`
    const classes: CountMap
    const methodAnalyzer: MethodAnalyzer
    const fieldAnalyzer: FieldAnalyzer
    const annotationAnalyzer: AnnotationAnalyzer

    /** Every visitor handed out shares this analyzer's map. */
    ghost predicate Valid()
      reads this, classes
    {
      && classes.Valid()
      && methodAnalyzer.classes == classes
      && methodAnalyzer.annotationAnalyzer.classes == classes
      && fieldAnalyzer.classes == classes
      && fieldAnalyzer.annotationAnalyzer.classes == classes
      && annotationAnalyzer.classes == classes
    }

    constructor ()
      ensures Valid() && fresh(classes)
      ensures classes.Value() == Counts([], map[]) && source == None && className == None
    {
      var m := new CountMap();
      classes := m;
      methodAnalyzer := new MethodAnalyzer(m);
      fieldAnalyzer := new FieldAnalyzer(m);
      annotationAnalyzer := new AnnotationAnalyzer(m, 0);
      source := None;
      className := None;
    }

    method VisitSource(source: Option<string>)
      modifies this
      ensures this.source == source && className == old(className)
    {
      this.source := source;
    }

    /** `visit`: records the class name and counts the superclass and the
        interfaces. */
    method Visit(name: string, superName: Option<string>, interfaces: Option<seq<string>>) returns (ok: bool)
      requires Valid()
      modifies this, classes
      ensures Valid() && Grows(old(classes.Value()), classes.Value())
      ensures className == Some(name) && source == old(source)
      ensures Outcome(classes.Value(), ok) == AddAll(old(classes.Value()), HeaderDescriptors(superName, interfaces))
    {
      className := Some(name);
      ok := classes.AddEach(HeaderDescriptors(superName, interfaces));
    }

    /** `visitField`: the field's descriptor, then each generic type of its
        signature (a set, so in no particular order). */
    method VisitField(descriptor: Option<string>, signature: Option<string>) returns (ok: bool, fv: FieldAnalyzer)
      requires Valid()
      modifies classes
      ensures Valid() && Grows(old(classes.Value()), classes.Value())
      ensures var first := AddAll(old(classes.Value()), [descriptor]);
        && ok == first.ok
        && (!ok || signature.None? ==> classes.Value() == first.counts)
        && (ok && signature.Some? ==> AddsOneEach(first.counts.counts, classes.counts, GenericTypes(signature.value)))
      ensures fv == fieldAnalyzer
    {
      fv := fieldAnalyzer;
      ok := classes.AddEach([descriptor]);
      if !ok || signature.None? {
        return;
      }
      forall t | t in GenericTypes(signature.value)
        ensures IsClassDescriptor(t)
      {
        GenericTypesAreGroupDescriptors(signature.value, t);
      }
      ok := classes.AddEachDescriptorOf(GenericTypes(signature.value));
    }

    method VisitMethod(descriptor: Option<string>) returns (mv: MethodAnalyzer)
      requires Valid()
      modifies classes
      ensures Valid() && Grows(old(classes.Value()), classes.Value())
      ensures Outcome(classes.Value(), true) == AddAll(old(classes.Value()), MatchDescriptors(descriptor))
      ensures mv == methodAnalyzer
    {
      MethodDescriptorIncrements(classes.Value(), descriptor);
      var done_ := classes.AddEach(MatchDescriptors(descriptor));
      mv := methodAnalyzer;
    }

    /** `visitAnnotation` and `visitTypeAnnotation`. */
    method VisitAnyAnnotation(descriptor: Option<string>) returns (ok: bool, av: AnnotationAnalyzer)
      requires Valid()
      modifies classes
      ensures Valid() && Grows(old(classes.Value()), classes.Value())
      ensures Outcome(classes.Value(), ok) == AddAll(old(classes.Value()), [descriptor])
      ensures av == annotationAnalyzer
    {
      ok := classes.AddEach([descriptor]);
      av := annotationAnalyzer;
    }
  }

  /** `now` is `first` with one more for the key of each descriptor in `ds`. */
  ghost predicate AddsOneEach(first: map<string, int>, now: map<string, int>, ds: set<string>)
  {
    forall k :: Get(now, k) == Get(first, k) + (if ("L" + k + ";") in ds then 1 else 0)
  }

  /** One more generic type of a field signature adds one to its own key. */
  lemma GenericTypeStep(first: map<string, int>, before: map<string, int>, after: map<string, int>, done: set<string>, t: string)
    requires |t| >= 2 && t[0] == 'L' && t[|t| - 1] == ';' && t !in done
    requires AddsOneEach(first, before, done)
    requires after == before[t[1..|t| - 1] := Get(before, t[1..|t| - 1]) + 1]
    ensures AddsOneEach(first, after, done + {t})
  {
    var key := t[1..|t| - 1];
    assert t == "L" + key + ";";
    forall k ensures Get(after, k) == Get(first, k) + (if ("L" + k + ";") in done + {t} then 1 else 0) {
      var w := "L" + k + ";";
      assert w[1..|w| - 1] == k;
    }
  }

  /** One callback that ASM's `ClassReader` makes on the visitors. */
  datatype Event =
    | SourceEvent(source: Option<string>)
    | HeaderEvent(name: string, superName: Option<string>, interfaces: Option<seq<string>>)
    | FieldEvent(descriptor: Option<string>, signature: Option<string>)
    | MethodEvent(descriptor: Option<string>)
    | ClassAnnotationEvent(descriptor: Option<string>)
    | FieldAnnotationEvent(descriptor: Option<string>)
    | TypeInsnEvent(operand: Option<string>)
    | FieldInsnEvent(owner: Option<string>, descriptor: Option<string>)
    | MethodInsnEvent(owner: Option<string>, descriptor: Option<string>)
    | InvokeDynamicEvent(descriptor: Option<string>)
    | LocalVariableEvent(descriptor: Option<string>)
    | MethodAnnotationEvent(descriptor: Option<string>)
    | TryCatchEvent(catchType: Option<string>)
    | AnnotationValueEvent(value: AnnotationValue)
    | AnnotationEnumEvent(descriptor: Option<string>)
    | NestedAnnotationEvent(descriptor: Option<string>)
    | AnnotationArrayEvent

  /** Feeds a sequence of callbacks to a fresh analyzer's visitors, as
      `ClassReader.accept` would, stopping at the first exception. Over any
      sequence of callbacks the shared map only grows: keys keep their
      place, counts never go down, and every count stays at least 1. */
  method Replay(ca: ClassAnalyzer, events: seq<Event>) returns (ok: bool)
    requires ca.Valid()
    modifies ca, ca.classes
    ensures ca.Valid() && Grows(old(ca.classes.Value()), ca.classes.Value())
  {
    var annotations := ca.annotationAnalyzer;
    var i := 0;
    ok := true;
    while i < |events|
      invariant 0 <= i <= |events|
      invariant ca.Valid() && annotations.classes == ca.classes
      invariant Grows(old(ca.classes.Value()), ca.classes.Value())
    {
      ghost var before := ca.classes.Value();
      match events[i] {
        case SourceEvent(s) => ca.VisitSource(s);
        case HeaderEvent(n, s, ifs) => ok := ca.Visit(n, s, ifs);
        case FieldEvent(d, s) => var v; ok, v := ca.VisitField(d, s);
        case MethodEvent(d) => var v := ca.VisitMethod(d);
        case ClassAnnotationEvent(d) => var v; ok, v := ca.VisitAnyAnnotation(d);
        case FieldAnnotationEvent(d) => var v; ok, v := ca.fieldAnalyzer.VisitAnnotation(d);
        case TypeInsnEvent(t) => ok := ca.methodAnalyzer.VisitTypeInsn(t);
        case FieldInsnEvent(o, d) => ok := ca.methodAnalyzer.VisitFieldInsn(o, d);
        case MethodInsnEvent(o, d) => ok := ca.methodAnalyzer.VisitMethodInsn(o, d);
        case InvokeDynamicEvent(d) => ok := ca.methodAnalyzer.VisitInvokeDynamicInsn(d);
        case LocalVariableEvent(d) => ok := ca.methodAnalyzer.VisitLocalVariable(d);
        case MethodAnnotationEvent(d) => var v; ok, v := ca.methodAnalyzer.VisitAnyAnnotation(d);
        case TryCatchEvent(t) => ok := ca.methodAnalyzer.VisitTryCatchBlock(t);
        case AnnotationValueEvent(v) => ok := annotations.Visit(v);
        case AnnotationEnumEvent(d) => ok := annotations.VisitEnum(d);
        case NestedAnnotationEvent(d) => ok, annotations := annotations.VisitAnnotation(d);
        case AnnotationArrayEvent => annotations := annotations.VisitArray();
      }
      GrowsTransitive(old(ca.classes.Value()), before, ca.classes.Value());
      if !ok {
        return;
      }
      i := i + 1;
    }
  }
}
