/** `SmaliAnalyzer.java`: the dependency map built from decompiled smali
    text. A line scanner pulls class names out of `L…;` spans (recursing
    into generic arguments), each line's distinct names are filtered and
    counted by simple name, and a file's counts are merged into a nested
    map `class -> dependency -> count`. A `$`-free view of that map is
    offered when inner classes are not being processed.

    The `CodeUtils` helpers and the `Filter` objects are not part of this
    model; they appear as function-valued fields. */
module Smali {
  import opened Common

  /** The `CodeUtils` helpers the analyzer calls. */
  datatype CodeUtils = CodeUtils(
    classSimpleName: string -> string,
    endGenericIndex: (string, int) -> int,
    isClassAnonymous: string -> bool,
    anonymousNearestOuter: string -> string,
    isClassGenerated: string -> bool,
    isClassInner: string -> bool,
    outerClass: string -> string)

  /** The parts of the command-line `Filters` the analyzer reads. */
  datatype Filters = Filters(isProcessingInner: bool)

  // ---------------------------------------------------------------------
  // The line scanner of `parseAndAddClassNames`
  // ---------------------------------------------------------------------

  /** The character class `[\w\d/$<>]`. */
  predicate IsClassNameChar(c: char)
  {
    IsWordChar(c) || c == '/' || c == '$' || c == '<' || c == '>'
  }

  /** `className.matches("[\\w\\d/$<>]*")`. */
  predicate IsClassNameText(s: string)
  {
    forall i :: 0 <= i < |s| ==> IsClassNameChar(s[i])
  }

  /** `n` is read at the `L` at position `i` of `line`: it is the text
      between that `L` and the next `;`, or the part of it before a `<`. */
  predicate NameAt(line: string, i: nat, n: string)
  {
    && i < |line| && line[i] == 'L'
    && match IndexOfFrom(line, ';', i)
       case None => false
       case Some(j) =>
         && i + 1 + |n| <= j
         && line[i + 1..i + 1 + |n|] == n
         && (i + 1 + |n| == j || line[i + 1 + |n|] == '<')
  }

  /** Every name of a successful scan is class-name text read at some `L`
      of `line`. */
  ghost predicate ReadFrom(line: string, r: Option<set<string>>)
  {
    r.Some? ==> forall n :: n in r.value ==> IsClassNameText(n) && exists k: nat :: NameAt(line, k, n)
  }

  /** Both scans succeed, and their names are pooled; an exception in
      either is an exception of the whole. */
  function Join(a: Option<set<string>>, b: Option<set<string>>): (r: Option<set<string>>)
    ensures r.Some? <==> a.Some? && b.Some?
  {
    if a.Some? && b.Some? then Some(a.value + b.value) else None
  }

  /** The names the scanner adds from position `index` (an `L`) on, or
      None when Java would throw: `charAt` past a trailing `<`, or a
      `getEndGenericIndex` result outside the line. */
  function ScanFrom(line: string, index: Option<nat>, endGeneric: (string, int) -> int): Option<set<string>>
    requires index.Some? ==> index.value < |line| && line[index.value] == 'L'
    decreases |line|, if index.Some? then |line| - index.value else 0, 2
  {
    if index.None? then Some({})
    else
      match IndexOfFrom(line, ';', index.value)
      case None => Some({})
      case Some(colon) => ScanCandidate(line, index.value, colon, endGeneric)
  }

  /** One pass of the loop over the candidate between the `L` at `i` and
      the next `;`: text with another character is skipped, a name whose
      first `<` ends it throws, `<L` enters the generic branch, and any
      other name is taken whole. */
  function ScanCandidate(line: string, i: nat, colon: nat, endGeneric: (string, int) -> int): Option<set<string>>
    requires i < |line| && line[i] == 'L' && IndexOfFrom(line, ';', i) == Some(colon)
    decreases |line|, |line| - i, 1
  {
    var name := line[i + 1..colon];
    if !IsClassNameText(name) then ScanFrom(line, IndexOfFrom(line, 'L', i + 1), endGeneric)
    else
      var generic := IndexOfFrom(name, '<', 0);
      if generic.Some? && generic.value + 1 == |name| then None
      else if generic.Some? && name[generic.value + 1] == 'L' then ScanGeneric(line, i, colon, generic.value, endGeneric)
      else Join(Some({name}), ScanFrom(line, IndexOfFrom(line, 'L', colon), endGeneric))
  }

  /** The generic branch: the arguments between the `<` and the index
      `getEndGenericIndex` reports are scanned on their own, the name is cut
      before the `<`, and scanning resumes at the next `L` after the
      arguments. */
  function ScanGeneric(line: string, i: nat, colon: nat, sg: nat, endGeneric: (string, int) -> int): Option<set<string>>
    requires i < |line| && line[i] == 'L' && IndexOfFrom(line, ';', i) == Some(colon)
    requires sg + 1 < |line[i + 1..colon]| && line[i + 1..colon][sg] == '<'
    decreases |line|, |line| - i, 0
  {
    var start := i + sg + 1;
    var end := endGeneric(line, start);
    if !(start + 1 <= end <= |line|) then None
    else
      var arguments := line[start + 1..end];
      Join(Join(ScanFrom(arguments, IndexOfFrom(arguments, 'L', 0), endGeneric), Some({line[i + 1..colon][..sg]})),
           ScanFrom(line, IndexOfFrom(line, 'L', end), endGeneric))
  }

  /** The names `parseAndAddClassNames` collects from one line. Every one
      is class-name text that stands right after an `L` of the line and
      runs up to the next `;` or a `<` before it: the scanner invents no
      names, including those found inside generic arguments. */
  function ClassNames(line: string, endGeneric: (string, int) -> int): (r: Option<set<string>>)
    ensures ReadFrom(line, r)
  {
    ScanFromReads(line, IndexOfFrom(line, 'L', 0), endGeneric);
    ScanFrom(line, IndexOfFrom(line, 'L', 0), endGeneric)
  }

  lemma {:induction false} ScanFromReads(line: string, index: Option<nat>, endGeneric: (string, int) -> int)
    requires index.Some? ==> index.value < |line| && line[index.value] == 'L'
    ensures ReadFrom(line, ScanFrom(line, index, endGeneric))
    decreases |line|, if index.Some? then |line| - index.value else 0, 1
  {
    if index.Some? {
      var i := index.value;
      match IndexOfFrom(line, ';', i)
      case None =>
      case Some(colon) =>
        var name := line[i + 1..colon];
        if !IsClassNameText(name) {
          ScanFromReads(line, IndexOfFrom(line, 'L', i + 1), endGeneric);
        } else {
          var generic := IndexOfFrom(name, '<', 0);
          if generic.Some? && generic.value + 1 == |name| {
          } else if generic.Some? && name[generic.value + 1] == 'L' {
            ScanGenericReads(line, i, colon, generic.value, endGeneric);
          } else {
            NameAtWhole(line, i, colon);
            ScanFromReads(line, IndexOfFrom(line, 'L', colon), endGeneric);
          }
        }
    }
  }

  lemma {:induction false} ScanGenericReads(line: string, i: nat, colon: nat, sg: nat, endGeneric: (string, int) -> int)
    requires i < |line| && line[i] == 'L' && IndexOfFrom(line, ';', i) == Some(colon)
    requires sg + 1 < |line[i + 1..colon]| && line[i + 1..colon][sg] == '<'
    requires IsClassNameText(line[i + 1..colon])
    ensures ReadFrom(line, ScanGeneric(line, i, colon, sg, endGeneric))
    decreases |line|, |line| - i, 0
  {
    var start := i + sg + 1;
    var end := endGeneric(line, start);
    if start + 1 <= end <= |line| {
      var arguments := line[start + 1..end];
      var inner := ScanFrom(arguments, IndexOfFrom(arguments, 'L', 0), endGeneric);
      var rest := ScanFrom(line, IndexOfFrom(line, 'L', end), endGeneric);
      ScanFromReads(arguments, IndexOfFrom(arguments, 'L', 0), endGeneric);
      ReadShift(line, start + 1, end, inner);
      ScanFromReads(line, IndexOfFrom(line, 'L', end), endGeneric);
      NameAtPrefix(line, i, colon, sg);
      ReadJoin(line, inner, Some({line[i + 1..colon][..sg]}));
      ReadJoin(line, Join(inner, Some({line[i + 1..colon][..sg]})), rest);
      ScanGenericUnfold(line, i, colon, sg, start, end, endGeneric);
    } else {
      ScanGenericUnfold(line, i, colon, sg, start, end, endGeneric);
    }
  }

  lemma ScanGenericUnfold(line: string, i: nat, colon: nat, sg: nat, start: nat, end: int, endGeneric: (string, int) -> int)
    requires i < |line| && line[i] == 'L' && IndexOfFrom(line, ';', i) == Some(colon)
    requires sg + 1 < |line[i + 1..colon]| && line[i + 1..colon][sg] == '<'
    requires start == i + sg + 1 && end == endGeneric(line, start)
    ensures !(start + 1 <= end <= |line|) ==> ScanGeneric(line, i, colon, sg, endGeneric).None?
    ensures start + 1 <= end <= |line| ==>
            ScanGeneric(line, i, colon, sg, endGeneric)
            == Join(Join(ScanFrom(line[start + 1..end], IndexOfFrom(line[start + 1..end], 'L', 0), endGeneric),
                         Some({line[i + 1..colon][..sg]})),
                    ScanFrom(line, IndexOfFrom(line, 'L', end), endGeneric))
  {
    if start + 1 <= end <= |line| {
      var arguments := line[start + 1..end];
      assert ScanGeneric(line, i, colon, sg, endGeneric)
             == Join(Join(ScanFrom(arguments, IndexOfFrom(arguments, 'L', 0), endGeneric),
                          Some({line[i + 1..colon][..sg]})),
                     ScanFrom(line, IndexOfFrom(line, 'L', end), endGeneric));
    }
  }

  /** Pooling two scans reads nothing new. */
  lemma ReadJoin(line: string, a: Option<set<string>>, b: Option<set<string>>)
    requires ReadFrom(line, a) && ReadFrom(line, b)
    ensures ReadFrom(line, Join(a, b))
  {
  }

  /** Names read inside a slice of the line are read in the line. */
  lemma ReadShift(line: string, a: nat, b: nat, r: Option<set<string>>)
    requires a <= b <= |line| && ReadFrom(line[a..b], r)
    ensures ReadFrom(line, r)
  {
    if r.Some? {
      forall n | n in r.value ensures exists k: nat :: NameAt(line, k, n) {
        var k: nat :| NameAt(line[a..b], k, n);
        NameAtShift(line, a, b, k, n);
      }
    }
  }

  lemma NameAtWhole(line: string, i: nat, colon: nat)
    requires i < |line| && line[i] == 'L' && IndexOfFrom(line, ';', i) == Some(colon)
    ensures NameAt(line, i, line[i + 1..colon])
  {
  }

  lemma NameAtPrefix(line: string, i: nat, colon: nat, sg: nat)
    requires i < |line| && line[i] == 'L' && IndexOfFrom(line, ';', i) == Some(colon)
    requires sg < |line[i + 1..colon]| && line[i + 1..colon][sg] == '<'
    requires IsClassNameText(line[i + 1..colon])
    ensures NameAt(line, i, line[i + 1..colon][..sg])
    ensures ReadFrom(line, Some({line[i + 1..colon][..sg]}))
  {
    var p := line[i + 1..colon][..sg];
    assert line[i + 1 + sg] == '<';
    assert p == line[i + 1..i + 1 + sg];
    assert NameAt(line, i, p);
    assert forall q :: 0 <= q < |p| ==> p[q] == line[i + 1..colon][q];
    assert IsClassNameText(p);
  }

  /** A name read inside a slice of the line is read in the line itself:
      the first `;` after an `L` of the slice is the first `;` after it in
      the line. */
  lemma NameAtShift(line: string, a: nat, b: nat, k: nat, n: string)
    requires a <= b <= |line| && NameAt(line[a..b], k, n)
    ensures NameAt(line, a + k, n)
  {
    var sub := line[a..b];
    var j := IndexOfFrom(sub, ';', k).value;
    IndexOfFromFirst(sub, ';', k);
    assert forall q :: a + k <= q < a + j ==> line[q] == sub[q - a];
    IndexOfFromUnique(line, ';', a + k, a + j);
    assert line[a + k + 1..a + k + 1 + |n|] == sub[k + 1..k + 1 + |n|];
  }

  /** Without a `;` after the `L` the scan ends with what it has. */
  lemma ScanStops(line: string, i: nat, endGeneric: (string, int) -> int)
    requires i < |line| && line[i] == 'L' && IndexOfFrom(line, ';', i).None?
    ensures ScanFrom(line, Some(i), endGeneric) == Some({})
  {
  }

  /** A span that is not class-name text is skipped: the scan resumes at
      the next `L`. */
  lemma ScanSkips(line: string, i: nat, colon: nat, endGeneric: (string, int) -> int)
    requires i < |line| && line[i] == 'L' && IndexOfFrom(line, ';', i) == Some(colon)
    requires !IsClassNameText(line[i + 1..colon])
    ensures ScanFrom(line, Some(i), endGeneric) == ScanFrom(line, IndexOfFrom(line, 'L', i + 1), endGeneric)
  {
  }

  /** A name whose first `<` is its last character makes `charAt` throw. */
  lemma ScanThrowsOnTrailingBracket(line: string, i: nat, colon: nat, sg: nat, endGeneric: (string, int) -> int)
    requires i < |line| && line[i] == 'L' && IndexOfFrom(line, ';', i) == Some(colon)
    requires IsClassNameText(line[i + 1..colon])
    requires IndexOfFrom(line[i + 1..colon], '<', 0) == Some(sg) && sg + 1 == |line[i + 1..colon]|
    ensures ScanFrom(line, Some(i), endGeneric).None?
  {
  }

  /** A name with `<L` continues in the generic branch: the scan throws
      when the reported end of the arguments lies outside the line, and
      otherwise pools the names of the arguments, the name cut before the
      `<` and the names after the arguments. */
  lemma ScanEntersGeneric(line: string, i: nat, colon: nat, sg: nat, start: nat, end: int, endGeneric: (string, int) -> int)
    requires i < |line| && line[i] == 'L' && IndexOfFrom(line, ';', i) == Some(colon)
    requires IsClassNameText(line[i + 1..colon])
    requires IndexOfFrom(line[i + 1..colon], '<', 0) == Some(sg) && sg + 1 < |line[i + 1..colon]|
    requires line[i + 1..colon][sg + 1] == 'L'
    requires start == i + sg + 1 && end == endGeneric(line, start)
    ensures !(start + 1 <= end <= |line|) ==> ScanFrom(line, Some(i), endGeneric).None?
    ensures start + 1 <= end <= |line| ==>
            ScanFrom(line, Some(i), endGeneric)
            == Join(Join(ClassNames(line[start + 1..end], endGeneric), Some({line[i + 1..colon][..sg]})),
                    ScanFrom(line, IndexOfFrom(line, 'L', end), endGeneric))
  {
    GenericBranch(line, i, colon, sg, endGeneric);
    ScanGenericUnfold(line, i, colon, sg, start, end, endGeneric);
    if start + 1 <= end <= |line| {
      var arguments := line[start + 1..end];
      assert ClassNames(arguments, endGeneric) == ScanFrom(arguments, IndexOfFrom(arguments, 'L', 0), endGeneric);
    }
  }

  /** The scan at an `L` whose name holds `<L` is the generic branch. */
  lemma GenericBranch(line: string, i: nat, colon: nat, sg: nat, endGeneric: (string, int) -> int)
    requires i < |line| && line[i] == 'L' && IndexOfFrom(line, ';', i) == Some(colon)
    requires IsClassNameText(line[i + 1..colon])
    requires IndexOfFrom(line[i + 1..colon], '<', 0) == Some(sg) && sg + 1 < |line[i + 1..colon]|
    requires line[i + 1..colon][sg + 1] == 'L'
    ensures ScanFrom(line, Some(i), endGeneric) == ScanGeneric(line, i, colon, sg, endGeneric)
  {
    var name := line[i + 1..colon];
    assert IndexOfFrom(name, '<', 0) == Some(sg) && name[sg + 1] == 'L';
  }

  /** Any other valid name is read whole and the scan resumes at the next
      `L` from the `;`. */
  lemma ScanReadsName(line: string, i: nat, colon: nat, sg: Option<nat>, endGeneric: (string, int) -> int)
    requires i < |line| && line[i] == 'L' && IndexOfFrom(line, ';', i) == Some(colon)
    requires IsClassNameText(line[i + 1..colon])
    requires sg == IndexOfFrom(line[i + 1..colon], '<', 0)
    requires sg.Some? ==> sg.value + 1 != |line[i + 1..colon]| && line[i + 1..colon][sg.value + 1] != 'L'
    ensures ScanFrom(line, Some(i), endGeneric)
            == Join(Some({line[i + 1..colon]}), ScanFrom(line, IndexOfFrom(line, 'L', colon), endGeneric))
  {
    var name := line[i + 1..colon];
    assert IsClassNameText(name) && IndexOfFrom(name, '<', 0) == sg;
  }

  /** The generic branch in terms of the names collected so far: once the
      arguments have been scanned into `inner`, the scan continues after
      them with the name cut before the `<` added. */
  lemma GenericStep(line: string, i: nat, colon: nat, sg: nat, start: nat, end: int, generic: string,
                    names: set<string>, inner: set<string>, endGeneric: (string, int) -> int)
    requires i < |line| && line[i] == 'L' && IndexOfFrom(line, ';', i) == Some(colon)
    requires IsClassNameText(line[i + 1..colon])
    requires IndexOfFrom(line[i + 1..colon], '<', 0) == Some(sg) && sg + 1 < |line[i + 1..colon]|
    requires line[i + 1..colon][sg + 1] == 'L'
    requires start == i + sg + 1 && end == endGeneric(line, start) && start + 1 <= end <= |line|
    requires generic == line[start + 1..end]
    requires Some(inner) == Join(Some(names), ClassNames(generic, endGeneric))
    ensures Join(Some(names), ScanFrom(line, Some(i), endGeneric))
            == Join(Some(inner + {line[i + 1..colon][..sg]}), ScanFrom(line, IndexOfFrom(line, 'L', end), endGeneric))
  {
    var rest := ScanFrom(line, IndexOfFrom(line, 'L', end), endGeneric);
    ScanEntersGeneric(line, i, colon, sg, start, end, endGeneric);
    JoinShift(names, ClassNames(generic, endGeneric).value, {line[i + 1..colon][..sg]}, rest);
  }

  /** A plain name in terms of the names collected so far. */
  lemma NameStep(line: string, i: nat, colon: nat, sg: Option<nat>, names: set<string>, endGeneric: (string, int) -> int)
    requires i < |line| && line[i] == 'L' && IndexOfFrom(line, ';', i) == Some(colon)
    requires IsClassNameText(line[i + 1..colon])
    requires sg == IndexOfFrom(line[i + 1..colon], '<', 0)
    requires sg.Some? ==> sg.value + 1 != |line[i + 1..colon]| && line[i + 1..colon][sg.value + 1] != 'L'
    ensures Join(Some(names), ScanFrom(line, Some(i), endGeneric))
            == Join(Some(names + {line[i + 1..colon]}), ScanFrom(line, IndexOfFrom(line, 'L', colon), endGeneric))
  {
    ScanReadsName(line, i, colon, sg, endGeneric);
    JoinShift(names, {}, {line[i + 1..colon]}, ScanFrom(line, IndexOfFrom(line, 'L', colon), endGeneric));
  }

  /** Names already collected can be moved across a join. */
  lemma JoinShift(names: set<string>, a: set<string>, b: set<string>, rest: Option<set<string>>)
    ensures Join(Some(names), Join(Join(Some(a), Some(b)), rest)) == Join(Some(names + a + b), rest)
    ensures Join(Some(names), Join(Some(b), rest)) == Join(Some(names + b), rest)
  {
    if rest.Some? {
      assert names + (a + b + rest.value) == names + a + b + rest.value;
      assert names + (b + rest.value) == names + b + rest.value;
    }
  }

  // ---------------------------------------------------------------------
  // Count maps
  // ---------------------------------------------------------------------

  /** Every entry of `b` merged into `a` with `Integer::sum`. */
  function MergeAll(a: map<string, int>, b: map<string, int>): (r: map<string, int>)
    ensures r.Keys == a.Keys + b.Keys
    ensures forall k :: Get(r, k) == Get(a, k) + Get(b, k)
  {
    map k | k in a.Keys + b.Keys :: Get(a, k) + Get(b, k)
  }

  /** The dependency map of `c`, empty when `c` has none yet. */
  function DependenciesOf(deps: map<string, map<string, int>>, c: string): map<string, int>
  {
    if c in deps then deps[c] else map[]
  }

  /** The state `addDependencies(c, list)` leaves. */
  function AddedTo(deps: map<string, map<string, int>>, c: string, list: map<string, int>): map<string, map<string, int>>
  {
    if c in deps then deps[c := MergeAll(deps[c], list)] else deps[c := list]
  }

  /** After `addDependencies(c, list)` the count of every dependency of `c`
      has grown by exactly its count in `list` (from 0 when absent), and
      every other class is untouched. */
  lemma AddedToCounts(deps: map<string, map<string, int>>, c: string, list: map<string, int>)
    ensures var r := AddedTo(deps, c, list);
            && c in r && r[c].Keys == DependenciesOf(deps, c).Keys + list.Keys
            && (forall d :: Get(r[c], d) == Get(DependenciesOf(deps, c), d) + Get(list, d))
            && (forall k :: k != c ==> (k in r <==> k in deps) && (k in deps ==> r[k] == deps[k]))
  {
  }

  /** Two count maps with the same keys and the same counts are equal. */
  lemma SameCounts(a: map<string, int>, b: map<string, int>)
    requires a.Keys == b.Keys && forall k :: Get(a, k) == Get(b, k)
    ensures a == b
  {
    assert forall k :: k in a ==> a[k] == Get(a, k) == Get(b, k) == b[k];
  }

  /** A dependency map without the names holding `$`. */
  function WithoutInner(m: map<string, int>): (r: map<string, int>)
    ensures forall d :: d in r <==> d in m && !ContainsChar(d, '$')
    ensures forall d :: d in r ==> r[d] == m[d]
  {
    map d | d in m && !ContainsChar(d, '$') :: m[d]
  }

  /** Whether `getFilteredDependencies` keeps class `k`. */
  predicate KeepsClass(deps: map<string, map<string, int>>, k: string)
  {
    k in deps && !ContainsChar(k, '$') && |WithoutInner(deps[k])| > 0
  }

  /** The `$`-free view `getFilteredDependencies` builds. */
  function FilteredView(deps: map<string, map<string, int>>): (r: map<string, map<string, int>>)
    ensures forall k :: k in r <==> KeepsClass(deps, k)
    ensures forall k :: k in r ==> k in deps && r[k] == WithoutInner(deps[k])
  {
    map k | k in deps && KeepsClass(deps, k) :: WithoutInner(deps[k])
  }

  /** The filtered view of the classes in `keys` only. */
  ghost function FilteredOf(deps: map<string, map<string, int>>, keys: set<string>): map<string, map<string, int>>
  {
    map k | k in keys && KeepsClass(deps, k) :: WithoutInner(deps[k])
  }

  /** Taking one more class into the view adds its entry exactly when the
      view keeps it; over all classes it is the whole view. */
  lemma FilteredOfAdd(deps: map<string, map<string, int>>, keys: set<string>, key: string)
    ensures FilteredOf(deps, keys + {key})
            == if KeepsClass(deps, key) then FilteredOf(deps, keys)[key := WithoutInner(deps[key])]
               else FilteredOf(deps, keys)
    ensures FilteredOf(deps, deps.Keys) == FilteredView(deps)
  {
  }

  /** Moving one element from the pending set to the visited ones. */
  lemma TakeOne(all: set<string>, todo: set<string>, key: string)
    requires key in todo && todo <= all
    ensures (all - todo) + {key} == all - (todo - {key})
    ensures |todo - {key}| < |todo|
  {
  }

  /** A map with the `$`-free keys and their counts is `WithoutInner`. */
  lemma IsWithoutInner(m: map<string, int>, r: map<string, int>)
    requires forall d :: d in r <==> d in m && !ContainsChar(d, '$')
    requires forall d :: d in r ==> r[d] == m[d]
    ensures r == WithoutInner(m)
  {
  }

  /** The filtered view holds no name with `$`, is a sub-map of the
      original with identical counts, has no empty dependency map, and
      drops nothing else. */
  lemma FilteredViewProperties(deps: map<string, map<string, int>>)
    ensures var r := FilteredView(deps);
            && (forall k :: k in r ==> k in deps && !ContainsChar(k, '$') && |r[k]| > 0)
            && (forall k, d :: k in r && d in r[k] ==> !ContainsChar(d, '$') && d in deps[k] && r[k][d] == deps[k][d])
            && (forall k, d :: k in deps && !ContainsChar(k, '$') && d in deps[k] && !ContainsChar(d, '$') ==> k in r && d in r[k])
  {
    var r := FilteredView(deps);
    forall k, d | k in deps && !ContainsChar(k, '$') && d in deps[k] && !ContainsChar(d, '$')
      ensures k in r
    {
      assert d in WithoutInner(deps[k]);
    }
  }

  // ---------------------------------------------------------------------
  // The analyzer
  // ---------------------------------------------------------------------

  class SmaliAnalyzer {
    const projectPath: string
    /** None is Java's null `filters`. */
    const filters: Option<Filters>
    /** None is a null filter, which accepts everything. */
    const pathFilter: Option<string -> bool>
    const classFilter: Option<string -> bool>
    const utils: CodeUtils
    var dependencies: map<string, map<string, int>>

    constructor(projectPath: string, filters: Option<Filters>, pathFilter: Option<string -> bool>,
                classFilter: Option<string -> bool>, utils: CodeUtils)
      ensures this.projectPath == projectPath && this.filters == filters
      ensures this.pathFilter == pathFilter && this.classFilter == classFilter && this.utils == utils
      ensures dependencies == map[]
    {
      this.projectPath := projectPath;
      this.filters := filters;
      this.pathFilter := pathFilter;
      this.classFilter := classFilter;
      this.utils := utils;
      dependencies := map[];
    }

    /** `getClassSimpleName`. */
    function SimpleName(fullClassName: string): string
    {
      utils.classSimpleName(fullClassName)
    }

    predicate IsPathFilterOk(path: string)
    {
      pathFilter.None? || pathFilter.value(path)
    }

    predicate IsClassFilterOk(className: string)
    {
      classFilter.None? || classFilter.value(className)
    }

    /** `isClassOk`: not anonymous, not generated, not the file's own
        class. */
    predicate IsClassOk(simpleClassName: string, fileName: string)
    {
      !utils.isClassAnonymous(simpleClassName) && !utils.isClassGenerated(simpleClassName)
      && fileName != simpleClassName
    }

    /** Whether a name read from a line of the file is counted. */
    predicate Counted(fullClassName: string, fileName: string, thisClassName: string)
    {
      IsPathFilterOk(fullClassName) && IsClassFilterOk(SimpleName(fullClassName))
      && IsClassOk(SimpleName(fullClassName), fileName) && thisClassName != SimpleName(fullClassName)
    }

    /** The distinct full names of a line that count towards `simple`. */
    function Hits(names: set<string>, fileName: string, thisClassName: string, simple: string): set<string>
    {
      set f | f in names && Counted(f, fileName, thisClassName) && SimpleName(f) == simple
    }

    /** The simple names a line counts. */
    function Simples(names: set<string>, fileName: string, thisClassName: string): set<string>
    {
      set f | f in names && Counted(f, fileName, thisClassName) :: SimpleName(f)
    }

    /** What one line adds to the file's counts: one per distinct full name
        that passes the filters, under its simple name. */
    function LineCounts(names: set<string>, fileName: string, thisClassName: string): (r: map<string, int>)
      ensures r.Keys == Simples(names, fileName, thisClassName)
      ensures forall s :: Get(r, s) == |Hits(names, fileName, thisClassName, s)|
      ensures CountsKept(r, fileName, thisClassName)
    {
      var r := map s | s in Simples(names, fileName, thisClassName) :: |Hits(names, fileName, thisClassName, s)|;
      assert CountsKept(r, fileName, thisClassName) by {
        forall s | s in r ensures r[s] >= 1 && Kept(s, fileName, thisClassName) {
          var f :| f in names && Counted(f, fileName, thisClassName) && SimpleName(f) == s;
          assert f in Hits(names, fileName, thisClassName, s);
        }
      }
      r
    }

    /** A simple name the filters let through: accepted by the class
        filter, neither anonymous nor generated, and neither the file's
        class nor the class being read. */
    predicate Kept(simple: string, fileName: string, thisClassName: string)
    {
      IsClassFilterOk(simple) && IsClassOk(simple, fileName) && thisClassName != simple
    }

    /** Every key of a count map is a kept simple name counted at least
        once. */
    predicate CountsKept(r: map<string, int>, fileName: string, thisClassName: string)
    {
      forall s :: s in r ==> r[s] >= 1 && Kept(s, fileName, thisClassName)
    }

    /** The counts of the lines, in order; a line whose scan throws adds
        nothing. */
    function LinesCounts(lines: seq<string>, fileName: string, thisClassName: string): map<string, int>
    {
      if |lines| == 0 then map[]
      else
        var before := LinesCounts(lines[..|lines| - 1], fileName, thisClassName);
        match ClassNames(lines[|lines| - 1], utils.endGenericIndex)
        case None => before
        case Some(names) => MergeAll(before, LineCounts(names, fileName, thisClassName))
    }

    /** Only kept names are counted, each at least once. */
    lemma {:induction false} LinesCountsKept(lines: seq<string>, fileName: string, thisClassName: string)
      ensures CountsKept(LinesCounts(lines, fileName, thisClassName), fileName, thisClassName)
    {
      if |lines| > 0 {
        var before := LinesCounts(lines[..|lines| - 1], fileName, thisClassName);
        LinesCountsKept(lines[..|lines| - 1], fileName, thisClassName);
        match ClassNames(lines[|lines| - 1], utils.endGenericIndex)
        case None =>
        case Some(names) =>
          var line := LineCounts(names, fileName, thisClassName);
          forall s | s in MergeAll(before, line) ensures MergeAll(before, line)[s] >= 1 && Kept(s, fileName, thisClassName) {
            assert Get(MergeAll(before, line), s) == Get(before, s) + Get(line, s);
          }
      }
    }

    /** The file's counts, including the edge from an inner class to its
        outer class. */
    function FileCounts(lines: seq<string>, fileName: string, thisClassName: string): (r: map<string, int>)
      ensures utils.isClassInner(fileName) ==>
        Get(r, utils.outerClass(fileName)) == Get(LinesCounts(lines, fileName, thisClassName), utils.outerClass(fileName)) + 1
      ensures !utils.isClassInner(fileName) ==> r == LinesCounts(lines, fileName, thisClassName)
      ensures LinesCounts(lines, fileName, thisClassName).Keys <= r.Keys
      ensures forall k :: k in r && (!utils.isClassInner(fileName) || k != utils.outerClass(fileName)) ==>
        k in LinesCounts(lines, fileName, thisClassName) && r[k] == LinesCounts(lines, fileName, thisClassName)[k]
    {
      var counts := LinesCounts(lines, fileName, thisClassName);
      if utils.isClassInner(fileName) then
        counts[utils.outerClass(fileName) := Get(counts, utils.outerClass(fileName)) + 1]
      else counts
    }

    /** The class name used for filtering: the file name without its
        extension, or the nearest outer class of an anonymous class. */
    function FileName(name: string): string
      requires ContainsChar(name, '.')
    {
      var base := name[..LastIndexOf(name, '.').value];
      if utils.isClassAnonymous(base) then utils.anonymousNearestOuter(base) else base
    }

    /** The file name of a class: whatever follows the last `.` is dropped,
        and an anonymous class is counted under its nearest outer class. */
    lemma FileNameOfFile(base: string, extension: string)
      requires !ContainsChar(extension, '.')
      ensures ContainsChar(base + "." + extension, '.')
      ensures FileName(base + "." + extension)
              == if utils.isClassAnonymous(base) then utils.anonymousNearestOuter(base) else base
    {
      var name := base + "." + extension;
      assert name[|base|] == '.';
      assert forall k :: |base| < k < |name| ==> name[k] == extension[k - |base| - 1];
      assert LastIndexOf(name, '.') == Some(|base|);
      assert name[..|base|] == base;
    }

    /** The dotted class name from the file's path below the project
        directory, without `.smali`: one character per character of the
        relative path, with no `/` left. */
    function ThisClassName(path: string): (r: string)
      requires |projectPath| + 1 <= |path| - 6
      ensures |r| == |path| - 6 - |projectPath| - 1
      ensures !ContainsChar(r, '/')
    {
      ReplaceChar(path[|projectPath| + 1..|path| - 6], '/', '.')
    }

    /** For a file `<projectPath>/<relative>.smali` the class name is the
        relative path with `/` turned into `.`. */
    lemma ThisClassNameOfFile(relative: string)
      ensures ThisClassName(projectPath + "/" + relative + ".smali") == ReplaceChar(relative, '/', '.')
    {
      var path := projectPath + "/" + relative + ".smali";
      assert path[|projectPath| + 1..|path| - 6] == relative;
    }

    /** `parseAndAddClassNames`: adds the names of `line` to
        `classNames`; None when the scan throws. */
    method ParseAndAddClassNames(classNames: set<string>, line: string) returns (r: Option<set<string>>)
      ensures r == Join(Some(classNames), ClassNames(line, utils.endGenericIndex))
      decreases |line|, 1
    {
      var endGeneric := utils.endGenericIndex;
      ghost var target := Join(Some(classNames), ClassNames(line, endGeneric));
      var names := classNames;
      var index := IndexOfFrom(line, 'L', 0);
      while index.Some?
        invariant index.Some? ==> index.value < |line| && line[index.value] == 'L'
        invariant target == Join(Some(names), ScanFrom(line, index, endGeneric))
        decreases if index.Some? then |line| - index.value else 0
      {
        var i := index.value;
        var colonIndex := IndexOfFrom(line, ';', i);
        if colonIndex.None? {
          ScanStops(line, i, endGeneric);
          assert names + {} == names;
          break;
        }
        if IsClassNameText(line[i + 1..colonIndex.value]) {
          var added, next := AddClassName(names, line, i, colonIndex.value);
          if added.None? {
            return None;
          }
          names := added.value;
          index := next;
        } else {
          ScanSkips(line, i, colonIndex.value, endGeneric);
          index := IndexOfFrom(line, 'L', i + 1);
        }
      }
      assert names + {} == names;
      r := Some(names);
    }

    /** One pass of that loop over a span that is class-name text: the
        name is added, cut before the `<` of a generic type whose
        arguments are scanned first, and `next` is the `L` where the scan
        resumes. None when the scan throws. */
    method AddClassName(names: set<string>, line: string, i: nat, colon: nat) returns (r: Option<set<string>>, next: Option<nat>)
      requires i < |line| && line[i] == 'L' && IndexOfFrom(line, ';', i) == Some(colon)
      requires IsClassNameText(line[i + 1..colon])
      ensures r.Some? && next.Some? ==> i < next.value < |line| && line[next.value] == 'L'
      ensures r.None? ==> ScanFrom(line, Some(i), utils.endGenericIndex).None?
      ensures r.Some? ==> Join(Some(names), ScanFrom(line, Some(i), utils.endGenericIndex))
                          == Join(r, ScanFrom(line, next, utils.endGenericIndex))
      decreases |line|, 0
    {
      var endGeneric := utils.endGenericIndex;
      var className := line[i + 1..colon];
      var startGenericIndex := IndexOfFrom(className, '<', 0);
      if startGenericIndex.Some? && startGenericIndex.value + 1 == |className| {
        ScanThrowsOnTrailingBracket(line, i, colon, startGenericIndex.value, endGeneric);
        return None, None;
      }
      if startGenericIndex.Some? && className[startGenericIndex.value + 1] == 'L' {
        var start := i + startGenericIndex.value + 1;
        var end := endGeneric(line, start);
        ScanEntersGeneric(line, i, colon, startGenericIndex.value, start, end, endGeneric);
        if !(start + 1 <= end <= |line|) {
          return None, None;
        }
        var generic := line[start + 1..end];
        var inner := ParseAndAddClassNames(names, generic);
        if inner.None? {
          return None, None;
        }
        GenericStep(line, i, colon, startGenericIndex.value, start, end, generic, names, inner.value, endGeneric);
        next := IndexOfFrom(line, 'L', end);
        r := Some(inner.value + {className[..startGenericIndex.value]});
      } else {
        NameStep(line, i, colon, startGenericIndex, names, endGeneric);
        next := IndexOfFrom(line, 'L', colon);
        r := Some(names + {className});
      }
    }

    /** The `for (String fullClassName : classNames)` loop: merges one
        line's counts into the file's `dependencyNames`. */
    method CountLine(dependencyNames: map<string, int>, classNames: set<string>, fileName: string, thisClassName: string)
      returns (r: map<string, int>)
      ensures r == MergeAll(dependencyNames, LineCounts(classNames, fileName, thisClassName))
    {
      r := dependencyNames;
      var todo := classNames;
      assert classNames - todo == {};
      while todo != {}
        invariant todo <= classNames
        invariant CountsSoFar(r, dependencyNames, classNames - todo, fileName, thisClassName)
        decreases |todo|
      {
        var fullClassName :| fullClassName in todo;
        ghost var before := r;
        r := CountName(r, fullClassName, fileName, thisClassName);
        CountsStep(before, dependencyNames, classNames - todo, fullClassName, fileName, thisClassName);
        assert classNames - (todo - {fullClassName}) == (classNames - todo) + {fullClassName};
        todo := todo - {fullClassName};
      }
      assert classNames - todo == classNames;
      CountsDone(r, dependencyNames, classNames, fileName, thisClassName);
    }

    /** The loop invariant of `CountLine`: the names of `done` have been
        counted into `start`. */
    ghost predicate CountsSoFar(r: map<string, int>, start: map<string, int>, done: set<string>, fileName: string, thisClassName: string)
    {
      && (forall s :: s in r <==> s in start || s in Simples(done, fileName, thisClassName))
      && (forall s :: Get(r, s) == Get(start, s) + |Hits(done, fileName, thisClassName, s)|)
    }

    lemma CountsStep(r: map<string, int>, start: map<string, int>, done: set<string>, f: string, fileName: string, thisClassName: string)
      requires f !in done && CountsSoFar(r, start, done, fileName, thisClassName)
      ensures CountsSoFar(if Counted(f, fileName, thisClassName) then r[SimpleName(f) := Get(r, SimpleName(f)) + 1] else r,
                          start, done + {f}, fileName, thisClassName)
    {
      HitsStep(done, f, fileName, thisClassName);
    }

    lemma CountsDone(r: map<string, int>, start: map<string, int>, names: set<string>, fileName: string, thisClassName: string)
      requires CountsSoFar(r, start, names, fileName, thisClassName)
      ensures r == MergeAll(start, LineCounts(names, fileName, thisClassName))
    {
      SameCounts(r, MergeAll(start, LineCounts(names, fileName, thisClassName)));
    }

    /** The body of the loop over a line's names: the name counts once
        under its simple name when every filter accepts it. */
    method CountName(dependencyNames: map<string, int>, fullClassName: string, fileName: string, thisClassName: string)
      returns (r: map<string, int>)
      ensures Counted(fullClassName, fileName, thisClassName) ==>
        r == dependencyNames[SimpleName(fullClassName) := Get(dependencyNames, SimpleName(fullClassName)) + 1]
      ensures !Counted(fullClassName, fileName, thisClassName) ==> r == dependencyNames
    {
      r := dependencyNames;
      if IsPathFilterOk(fullClassName) {
        var simpleClassName := SimpleName(fullClassName);
        if IsClassFilterOk(simpleClassName) && IsClassOk(simpleClassName, fileName) && thisClassName != simpleClassName {
          r := r[simpleClassName := Get(r, simpleClassName) + 1];
        }
      }
    }

    lemma HitsStep(done: set<string>, f: string, fileName: string, thisClassName: string)
      requires f !in done
      ensures Simples(done + {f}, fileName, thisClassName)
           == Simples(done, fileName, thisClassName) + (if Counted(f, fileName, thisClassName) then {SimpleName(f)} else {})
      ensures forall s :: |Hits(done + {f}, fileName, thisClassName, s)|
                 == |Hits(done, fileName, thisClassName, s)| + (if Counted(f, fileName, thisClassName) && SimpleName(f) == s then 1 else 0)
    {
      forall s ensures |Hits(done + {f}, fileName, thisClassName, s)|
           == |Hits(done, fileName, thisClassName, s)| + (if Counted(f, fileName, thisClassName) && SimpleName(f) == s then 1 else 0)
      {
        if Counted(f, fileName, thisClassName) && SimpleName(f) == s {
          assert Hits(done + {f}, fileName, thisClassName, s) == Hits(done, fileName, thisClassName, s) + {f};
        } else {
          assert Hits(done + {f}, fileName, thisClassName, s) == Hits(done, fileName, thisClassName, s);
        }
      }
    }

    /** `addDependencies`: stores `list` for a new class, otherwise merges
        it entry by entry into the class's map. */
    method AddDependencies(className: string, dependenciesList: map<string, int>)
      modifies this
      ensures dependencies == AddedTo(old(dependencies), className, dependenciesList)
    {
      var deps := dependencies;
      if className !in deps {
        dependencies := deps[className := dependenciesList];
      } else {
        var depList := MergeInto(deps[className], dependenciesList);
        dependencies := deps[className := depList];
      }
    }

    /** The loop of `addDependencies` over the new list's keys, each merged
        into the stored map with `Integer::sum`. */
    method MergeInto(depList: map<string, int>, dependenciesList: map<string, int>) returns (r: map<string, int>)
      ensures r == MergeAll(depList, dependenciesList)
    {
      r := depList;
      var todo := dependenciesList.Keys;
      while todo != {}
        invariant todo <= dependenciesList.Keys
        invariant forall d :: d in r <==> d in depList || (d in dependenciesList && d !in todo)
        invariant forall d :: Get(r, d) == Get(depList, d) + (if d in dependenciesList && d !in todo then dependenciesList[d] else 0)
        decreases |todo|
      {
        var dep :| dep in todo;
        r := r[dep := Get(r, dep) + dependenciesList[dep]];
        todo := todo - {dep};
      }
      MergeDone(r, depList, dependenciesList);
    }

    /** A map with the keys of both maps and the summed counts is their
        merge. */
    lemma MergeDone(r: map<string, int>, a: map<string, int>, b: map<string, int>)
      requires forall d :: d in r <==> d in a || d in b
      requires forall d :: Get(r, d) == Get(a, d) + Get(b, d)
      ensures r == MergeAll(a, b)
    {
      SameCounts(r, MergeAll(a, b));
    }

    /** `processSmaliFile` on a file's name, path and lines. */
    method ProcessSmaliFile(name: string, path: string, lines: seq<string>)
      requires ContainsChar(name, '.')
      requires |projectPath| + 1 <= |path| - 6
      modifies this
      ensures var fileName := FileName(name);
              var counts := FileCounts(lines, fileName, ThisClassName(path));
              dependencies == if !IsClassFilterOk(fileName) || |counts| == 0 then old(dependencies)
                              else AddedTo(old(dependencies), ThisClassName(path), counts)
    {
      var fileName := name[..LastIndexOf(name, '.').value];
      if utils.isClassAnonymous(fileName) {
        fileName := utils.anonymousNearestOuter(fileName);
      }
      if !IsClassFilterOk(fileName) {
        return;
      }
      var thisClassName := ReplaceChar(path[|projectPath| + 1..|path| - 6], '/', '.');
      var dependencyNames := CountFile(lines, fileName, thisClassName);
      if |dependencyNames| > 0 {
        AddDependencies(thisClassName, dependencyNames);
      }
    }

    /** The loop of `processSmaliFile` over the file's lines, then the
        edge from an inner class to its outer class. */
    method CountFile(lines: seq<string>, fileName: string, thisClassName: string) returns (dependencyNames: map<string, int>)
      ensures dependencyNames == FileCounts(lines, fileName, thisClassName)
    {
      dependencyNames := map[];
      var i := 0;
      while i < |lines|
        invariant 0 <= i <= |lines|
        invariant dependencyNames == LinesCounts(lines[..i], fileName, thisClassName)
      {
        LinesCountsStep(lines, i, fileName, thisClassName);
        dependencyNames := ProcessLine(dependencyNames, lines[i], fileName, thisClassName);
        i := i + 1;
      }
      assert lines[..|lines|] == lines;
      if utils.isClassInner(fileName) {
        var outer := utils.outerClass(fileName);
        dependencyNames := dependencyNames[outer := Get(dependencyNames, outer) + 1];
      }
    }

    /** The body of the loop over the lines: the names of the line are
        counted, or nothing when the scan throws. */
    method ProcessLine(dependencyNames: map<string, int>, line: string, fileName: string, thisClassName: string)
      returns (r: map<string, int>)
      ensures r == match ClassNames(line, utils.endGenericIndex)
                   case None => dependencyNames
                   case Some(names) => MergeAll(dependencyNames, LineCounts(names, fileName, thisClassName))
    {
      ghost var scanned := ClassNames(line, utils.endGenericIndex);
      var classNames := ParseAndAddClassNames({}, line);
      r := dependencyNames;
      if classNames.Some? {
        assert classNames.value == {} + scanned.value == scanned.value;
        r := CountLine(dependencyNames, classNames.value, fileName, thisClassName);
      }
    }

    /** One more line of the file adds that line's counts. */
    lemma LinesCountsStep(lines: seq<string>, i: nat, fileName: string, thisClassName: string)
      requires i < |lines|
      ensures LinesCounts(lines[..i + 1], fileName, thisClassName)
              == match ClassNames(lines[i], utils.endGenericIndex)
                 case None => LinesCounts(lines[..i], fileName, thisClassName)
                 case Some(names) => MergeAll(LinesCounts(lines[..i], fileName, thisClassName), LineCounts(names, fileName, thisClassName))
    {
      assert lines[..i + 1][..i] == lines[..i] && lines[..i + 1][i] == lines[i];
    }

    /** `getFilteredDependencies`. */
    method GetFilteredDependencies() returns (r: map<string, map<string, int>>)
      ensures r == FilteredView(dependencies)
    {
      var deps := dependencies;
      r := map[];
      var todo := deps.Keys;
      while todo != {}
        invariant todo <= deps.Keys
        invariant r == FilteredOf(deps, deps.Keys - todo)
        decreases |todo|
      {
        var key :| key in todo;
        FilteredOfAdd(deps, deps.Keys - todo, key);
        TakeOne(deps.Keys, todo, key);
        if !ContainsChar(key, '$') {
          var dependencySet := InnerFree(deps[key]);
          if |dependencySet| > 0 {
            r := r[key := dependencySet];
          }
        }
        todo := todo - {key};
      }
      FilteredOfAdd(deps, deps.Keys, "");
    }

    /** The inner loop of `getFilteredDependencies`. */
    method InnerFree(m: map<string, int>) returns (r: map<string, int>)
      ensures r == WithoutInner(m)
    {
      r := map[];
      var todo := m.Keys;
      while todo != {}
        invariant todo <= m.Keys
        invariant forall d :: d in r <==> d in m.Keys - todo && !ContainsChar(d, '$')
        invariant forall d :: d in r ==> r[d] == m[d]
        decreases |todo|
      {
        var dependency :| dependency in todo;
        TakeOne(m.Keys, todo, dependency);
        if !ContainsChar(dependency, '$') {
          r := r[dependency := m[dependency]];
        }
        todo := todo - {dependency};
      }
      IsWithoutInner(m, r);
    }

    /** `getDependencies`: the whole map when there are no filters or inner
        classes are processed, the `$`-free view otherwise. */
    method GetDependencies() returns (r: map<string, map<string, int>>)
      ensures filters.None? || filters.value.isProcessingInner ==> r == dependencies
      ensures filters.Some? && !filters.value.isProcessingInner ==> r == FilteredView(dependencies)
    {
      if filters.None? || filters.value.isProcessingInner {
        return dependencies;
      }
      r := GetFilteredDependencies();
    }
  }
}
