/** `LobzikProjectDependencyGraphTask.kt`: the per-project class dependency
    graph. Class names are canonicalised to dotted top-level names (inner
    classes collapse into their outer class), both ends of every dependency
    must pass the package-prefix and ignored-class filters, and repeated
    (source, target) pairs are merged into one row whose weight is the sum. */
module ProjectDependencyGraph {
  import opened Common
  import opened ClassDependencies

  /** `canonicalize`: slashes become dots and everything from the first `$`
      on is dropped. */
  function Canonicalize(className: string): (r: string)
    ensures !ContainsChar(r, '/') && !ContainsChar(r, '$')
    ensures |r| <= |className|
  {
    var dotted := ReplaceChar(className, '/', '.');
    var r := SubstringBefore(dotted, '$');
    assert forall i :: 0 <= i < |r| ==> r[i] == dotted[i];
    r
  }

  /** Canonicalising is the same as cutting the name at its first `$` and
      then turning slashes into dots. */
  lemma CanonicalizeCutsAtFirstDollar(className: string)
    ensures Canonicalize(className) == ReplaceChar(SubstringBefore(className, '$'), '/', '.')
  {
    var dotted := ReplaceChar(className, '/', '.');
    var outer := SubstringBefore(className, '$');
    var p := ReplaceChar(outer, '/', '.');
    assert p == dotted[..|p|] by {
      assert forall i :: 0 <= i < |p| ==> p[i] == dotted[i];
    }
    assert !ContainsChar(p, '$') by {
      assert forall i :: 0 <= i < |p| ==> p[i] != '$';
    }
    SubstringBeforeUnique(dotted, '$', p);
  }

  /** An inner class is attributed to its outer class. */
  lemma InnerClassCollapses(outer: string, inner: string)
    ensures Canonicalize(outer + "$" + inner) == Canonicalize(outer)
  {
    var s := outer + "$" + inner;
    var q := SubstringBefore(outer, '$');
    assert q == s[..|q|];
    assert s[|q|] == '$';
    SubstringBeforeUnique(s, '$', q);
    CanonicalizeCutsAtFirstDollar(s);
    CanonicalizeCutsAtFirstDollar(outer);
  }

  /** Canonical names are fixed points of canonicalisation. */
  lemma CanonicalizeIdempotent(className: string)
    ensures Canonicalize(Canonicalize(className)) == Canonicalize(className)
  {
    var c := Canonicalize(className);
    assert ReplaceChar(c, '/', '.') == c;
    SubstringBeforeUnique(c, '$', c);
  }

  /** `getClassSimpleName`: the text before the first `<`, after its last
      `.`. */
  function SimpleName(fullClassName: string): (r: string)
    ensures !ContainsChar(r, '.') && !ContainsChar(r, '<')
    ensures |r| <= |fullClassName|
    ensures var raw := SubstringBefore(fullClassName, '<');
            EndsWith(raw, r) && (|r| == |raw| || raw[|raw| - |r| - 1] == '.')
  {
    var raw := SubstringBefore(fullClassName, '<');
    var r := SubstringAfterLast(raw, '.');
    assert forall i :: 0 <= i < |r| ==> r[i] == raw[|raw| - |r| + i];
    r
  }

  /** `String.isOk`: starts with the package prefix and no ignored-class
      pattern matches the simple name. Each pattern is the whole-string
      match of one `Regex`. */
  predicate IsOk(name: string, prefix: string, ignored: seq<string -> bool>)
  {
    StartsWith(name, prefix) && forall i :: 0 <= i < |ignored| ==> !ignored[i](SimpleName(name))
  }

  /** `parseClassDependencies` with this task's canonicalisation and
      filter. */
  function Parse(files: seq<AnalyzedClass>, prefix: string, ignored: seq<string -> bool>): (r: seq<ClassDependency>)
    ensures forall d :: d in r ==> IsOk(d.name, prefix, ignored) && IsOk(d.dependsOn, prefix, ignored)
    ensures forall d :: d in r ==> !ContainsChar(d.name, '$') && !ContainsChar(d.dependsOn, '$')
  {
    var r := ParseClassDependencies(files, Canonicalize, s => IsOk(s, prefix, ignored));
    assert forall d :: d in r ==> exists f :: f in files && d.name == Canonicalize(f.className);
    assert forall d :: d in r ==> exists k :: d.dependsOn == Canonicalize(k) by {
      forall d | d in r ensures exists k :: d.dependsOn == Canonicalize(k) {
        ParsedTargetIsCanonical(files, Canonicalize, s => IsOk(s, prefix, ignored), d);
      }
    }
    r
  }

  /** Every produced target is the canonical form of some analyzer key. */
  lemma {:induction false} ParsedTargetIsCanonical(files: seq<AnalyzedClass>, canonicalize: string -> string,
                                                   isOk: string -> bool, d: ClassDependency)
    requires d in ParseClassDependencies(files, canonicalize, isOk)
    ensures exists k :: d.dependsOn == canonicalize(k)
    decreases |files|
  {
    var f := files[0];
    if d in FileDependencies(f, canonicalize, isOk) {
      var k :| k in f.classes.order && d.dependsOn == canonicalize(k) && d.times == Get(f.classes.counts, k);
    } else {
      ParsedTargetIsCanonical(files[1..], canonicalize, isOk, d);
    }
  }

  /** A class's reference to its own inner class is kept as a
      self-dependency: nothing removes rows whose source equals the
      target. */
  lemma SelfDependencyKept(files: seq<AnalyzedClass>, i: nat, inner: string,
                           prefix: string, ignored: seq<string -> bool>)
    requires i < |files| && files[i].className + "$" + inner in files[i].classes.order
    requires IsOk(Canonicalize(files[i].className), prefix, ignored)
    ensures var source := Canonicalize(files[i].className);
            ClassDependency(source, source, Get(files[i].classes.counts, files[i].className + "$" + inner))
            in Parse(files, prefix, ignored)
  {
    InnerClassCollapses(files[i].className, inner);
    EntryYieldsDependency(files, i, files[i].className + "$" + inner, Canonicalize, s => IsOk(s, prefix, ignored));
  }

  /** The (source, target) pair a row is grouped by. */
  function Key(d: ClassDependency): (string, string)
  {
    (d.name, d.dependsOn)
  }

  function Keys(deps: seq<ClassDependency>): (r: seq<(string, string)>)
    ensures |r| == |deps| && forall i :: 0 <= i < |deps| ==> r[i] == Key(deps[i])
  {
    seq(|deps|, i requires 0 <= i < |deps| => Key(deps[i]))
  }

  /** `value.sumOf { it.times }` for the group of `key`. */
  function TimesOf(deps: seq<ClassDependency>, key: (string, string)): int
  {
    if |deps| == 0 then 0
    else TimesOf(deps[..|deps| - 1], key) + (if Key(deps[|deps| - 1]) == key then deps[|deps| - 1].times else 0)
  }

  /** The sum of all weights. */
  function TotalTimes(deps: seq<ClassDependency>): int
  {
    if |deps| == 0 then 0 else TotalTimes(deps[..|deps| - 1]) + deps[|deps| - 1].times
  }

  /** One merged row per key of `keys`. */
  function Merged(keys: seq<(string, string)>, deps: seq<ClassDependency>): (r: seq<ClassDependency>)
    ensures |r| == |keys| && Keys(r) == keys
    ensures forall i :: 0 <= i < |keys| ==> r[i].times == TimesOf(deps, keys[i])
  {
    var r := seq(|keys|, i requires 0 <= i < |keys| => ClassDependency(keys[i].0, keys[i].1, TimesOf(deps, keys[i])));
    assert Keys(r) == keys;
    r
  }

  /** `flattenClasses`: one row per distinct (source, target) pair, carrying
      the sum of the pair's weights. */
  function FlattenClasses(deps: seq<ClassDependency>): (r: seq<ClassDependency>)
    ensures |r| <= |deps|
    ensures Distinct(Keys(r))
    ensures forall key :: key in Keys(r) <==> key in Keys(deps)
    ensures forall d :: d in r ==> d.times == TimesOf(deps, Key(d))
  {
    var r := Merged(FirstOccurrences(Keys(deps)), deps);
    assert forall d :: d in r ==> d.times == TimesOf(deps, Key(d)) by {
      forall d | d in r ensures d.times == TimesOf(deps, Key(d)) {
        var i :| 0 <= i < |r| && r[i] == d;
        assert Keys(r)[i] == Key(d);
      }
    }
    r
  }

  /** Weighted sum of the groups named by `keys`. */
  function SumOver(keys: seq<(string, string)>, deps: seq<ClassDependency>): int
  {
    if |keys| == 0 then 0 else SumOver(keys[..|keys| - 1], deps) + TimesOf(deps, keys[|keys| - 1])
  }

  lemma {:induction false} TotalOfMerged(keys: seq<(string, string)>, deps: seq<ClassDependency>)
    ensures TotalTimes(Merged(keys, deps)) == SumOver(keys, deps)
    decreases |keys|
  {
    if |keys| > 0 {
      var init := keys[..|keys| - 1];
      assert Merged(keys, deps)[..|keys| - 1] == Merged(init, deps);
      TotalOfMerged(init, deps);
    }
  }

  /** A key no row carries has weight 0. */
  lemma {:induction false} TimesOfAbsent(deps: seq<ClassDependency>, key: (string, string))
    requires key !in Keys(deps)
    ensures TimesOf(deps, key) == 0
    decreases |deps|
  {
    if |deps| > 0 {
      var init := deps[..|deps| - 1];
      assert forall k :: k in Keys(init) ==> k in Keys(deps) by {
        forall k | k in Keys(init) ensures k in Keys(deps) {
          var j :| 0 <= j < |init| && Keys(init)[j] == k;
          assert Keys(deps)[j] == k;
        }
      }
      assert Keys(deps)[|deps| - 1] == Key(deps[|deps| - 1]);
      TimesOfAbsent(init, key);
    }
  }

  /** Appending one row adds its weight to the sum over distinct keys
      exactly when its key is among them. */
  lemma {:induction false} SumOverAppend(keys: seq<(string, string)>, deps: seq<ClassDependency>, x: ClassDependency)
    requires Distinct(keys)
    ensures SumOver(keys, deps + [x]) == SumOver(keys, deps) + (if Key(x) in keys then x.times else 0)
    decreases |keys|
  {
    if |keys| > 0 {
      var init := keys[..|keys| - 1];
      assert (deps + [x])[..|deps|] == deps;
      assert forall k :: k in keys <==> k in init || k == keys[|keys| - 1] by {
        assert keys == init + [keys[|keys| - 1]];
      }
      assert keys[|keys| - 1] !in init;
      SumOverAppend(init, deps, x);
    }
  }

  lemma {:induction false} SumOverFirstOccurrences(deps: seq<ClassDependency>)
    ensures SumOver(FirstOccurrences(Keys(deps)), deps) == TotalTimes(deps)
    decreases |deps|
  {
    if |deps| > 0 {
      var init := deps[..|deps| - 1];
      var x := deps[|deps| - 1];
      assert deps == init + [x];
      assert Keys(deps)[..|deps| - 1] == Keys(init);
      var f0 := FirstOccurrences(Keys(init));
      SumOverFirstOccurrences(init);
      SumOverAppend(f0, init, x);
      if Key(x) !in f0 {
        TimesOfAbsent(init, Key(x));
      }
    }
  }

  /** Merging never changes the total weight of the graph. */
  lemma FlattenPreservesTotal(deps: seq<ClassDependency>)
    ensures TotalTimes(FlattenClasses(deps)) == TotalTimes(deps)
  {
    TotalOfMerged(FirstOccurrences(Keys(deps)), deps);
    SumOverFirstOccurrences(deps);
  }

  /** Every merged row stands for at least one input row with the same
      source and target. */
  lemma FlattenedRowHasOrigin(deps: seq<ClassDependency>, d: ClassDependency)
    requires d in FlattenClasses(deps)
    ensures exists e :: e in deps && e.name == d.name && e.dependsOn == d.dependsOn
  {
    var r := FlattenClasses(deps);
    var i :| 0 <= i < |r| && r[i] == d;
    assert Keys(r)[i] == Key(d);
    assert Key(d) in Keys(deps);
    var j :| 0 <= j < |deps| && Keys(deps)[j] == Key(d);
    assert deps[j] in deps;
  }

  /** The rows the task writes: the filtered class files analysed, parsed
      and flattened. */
  function ProjectDependencies(files: seq<AnalyzedClass>, prefix: string, ignored: seq<string -> bool>): (r: seq<ClassDependency>)
    ensures Distinct(Keys(r))
    ensures forall d :: d in r ==> IsOk(d.name, prefix, ignored) && IsOk(d.dependsOn, prefix, ignored)
    ensures forall d :: d in r ==> !ContainsChar(d.name, '$') && !ContainsChar(d.dependsOn, '$')
    ensures TotalTimes(r) == TotalTimes(Parse(files, prefix, ignored))
  {
    var deps := Parse(files, prefix, ignored);
    var r := FlattenClasses(deps);
    forall d | d in r
      ensures IsOk(d.name, prefix, ignored) && IsOk(d.dependsOn, prefix, ignored)
      ensures !ContainsChar(d.name, '$') && !ContainsChar(d.dependsOn, '$')
    {
      FlattenedRowHasOrigin(deps, d);
    }
    FlattenPreservesTotal(deps);
    r
  }
}
