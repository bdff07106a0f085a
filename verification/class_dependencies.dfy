/** The extraction pipeline shared by `LobzikProjectDependencyGraphTask.kt`
    and `LobzikListProjectClassesTask.kt`: every class file is analysed, its
    class name canonicalised and tested against the scope filter, and each
    entry of the analyzer's count map whose canonical target is in scope
    becomes one `ClassDependency`. The two tasks differ only in their
    `canonicalize` and `isOk`, which are parameters here. */
module ClassDependencies {
  import opened Common
  import opened Bytecode

  /** What the analyzer leaves behind for one class file: `className` (set by
      `visit`) and the shared count map. */
  datatype AnalyzedClass = AnalyzedClass(className: string, classes: Counts)

  /** One CSV row: `name` depends on `dependsOn`, `times` times. */
  datatype ClassDependency = ClassDependency(name: string, dependsOn: string, times: int)

  /** A file of the input file trees. */
  datatype FileEntry = FileEntry(name: string, isFile: bool)

  /** The class-file name rule: ends with `.class` and is not
      `module-info.class`. */
  predicate IsClassFileName(name: string)
  {
    EndsWith(name, ".class") && name != "module-info.class"
  }

  /** `FileCollection.filterToClassFiles()`: the regular files whose name
      passes the class-file name rule, in their original order. */
  function FilterToClassFiles(files: seq<FileEntry>): (r: seq<FileEntry>)
    ensures forall f :: f in r <==> f in files && f.isFile && IsClassFileName(f.name)
    ensures |r| <= |files|
  {
    if |files| == 0 then []
    else
      var rest := FilterToClassFiles(files[1..]);
      if files[0].isFile && IsClassFileName(files[0].name) then [files[0]] + rest else rest
  }

  /** The filter keeps the original order: filtering two lists one after
      the other gives the two results concatenated. */
  lemma {:induction false} FilterToClassFilesAppend(a: seq<FileEntry>, b: seq<FileEntry>)
    ensures FilterToClassFiles(a + b) == FilterToClassFiles(a) + FilterToClassFiles(b)
    decreases |a|
  {
    if |a| == 0 {
      assert a + b == b;
    } else {
      assert (a + b)[0] == a[0];
      assert (a + b)[1..] == a[1..] + b;
      FilterToClassFilesAppend(a[1..], b);
    }
  }

  /** A single file is kept exactly when it is a regular class file. */
  lemma FilterToClassFilesEntry(f: FileEntry)
    ensures FilterToClassFiles([f]) == if f.isFile && IsClassFileName(f.name) then [f] else []
  {
    assert [f][1..] == [];
    assert FilterToClassFiles([f][1..]) == [];
  }

  /** `analyzer.classes.mapNotNull { … }`: one dependency of `source` per
      map entry, in the map's insertion order, kept when the canonical
      target is in scope. */
  function DependenciesOf(source: string, order: seq<string>, counts: map<string, int>,
                          canonicalize: string -> string, isOk: string -> bool): (r: seq<ClassDependency>)
    ensures |r| <= |order|
    ensures forall d :: d in r ==>
      && d.name == source
      && isOk(d.dependsOn)
      && exists k :: k in order && d.dependsOn == canonicalize(k) && d.times == Get(counts, k)
    ensures forall k :: k in order && isOk(canonicalize(k)) ==>
      ClassDependency(source, canonicalize(k), Get(counts, k)) in r
  {
    if |order| == 0 then []
    else
      var rest := DependenciesOf(source, order[1..], counts, canonicalize, isOk);
      var target := canonicalize(order[0]);
      assert forall k :: k in order[1..] ==> k in order;
      if isOk(target) then [ClassDependency(source, target, Get(counts, order[0]))] + rest else rest
  }

  /** The rows follow the map's insertion order: the entries of two parts
      of the key order give their rows one after the other. */
  lemma {:induction false} DependenciesOfAppend(source: string, a: seq<string>, b: seq<string>, counts: map<string, int>,
                                                canonicalize: string -> string, isOk: string -> bool)
    ensures DependenciesOf(source, a + b, counts, canonicalize, isOk)
         == DependenciesOf(source, a, counts, canonicalize, isOk) + DependenciesOf(source, b, counts, canonicalize, isOk)
    decreases |a|
  {
    if |a| == 0 {
      assert a + b == b;
    } else {
      assert (a + b)[0] == a[0];
      assert (a + b)[1..] == a[1..] + b;
      DependenciesOfAppend(source, a[1..], b, counts, canonicalize, isOk);
    }
  }

  /** One map entry gives exactly one row, carrying its own count, when its
      canonical target is in scope, and none otherwise: rows are never
      merged. */
  lemma DependenciesOfEntry(source: string, k: string, counts: map<string, int>,
                            canonicalize: string -> string, isOk: string -> bool)
    ensures DependenciesOf(source, [k], counts, canonicalize, isOk)
         == if isOk(canonicalize(k)) then [ClassDependency(source, canonicalize(k), Get(counts, k))] else []
  {
    assert [k][1..] == [];
    assert DependenciesOf(source, [k][1..], counts, canonicalize, isOk) == [];
  }

  /** No merging happens at this stage: when every target is in scope,
      each map entry gives exactly one row. */
  lemma {:induction false} EveryEntryKept(source: string, order: seq<string>, counts: map<string, int>,
                                          canonicalize: string -> string, isOk: string -> bool)
    requires forall k :: k in order ==> isOk(canonicalize(k))
    ensures |DependenciesOf(source, order, counts, canonicalize, isOk)| == |order|
    decreases |order|
  {
    if |order| > 0 {
      assert order[0] in order;
      assert forall k :: k in order[1..] ==> k in order;
      EveryEntryKept(source, order[1..], counts, canonicalize, isOk);
    }
  }

  /** What one analysed class file contributes: nothing when its canonical
      name is out of scope. */
  function FileDependencies(c: AnalyzedClass, canonicalize: string -> string, isOk: string -> bool): (r: seq<ClassDependency>)
    ensures !isOk(canonicalize(c.className)) ==> r == []
    ensures forall d :: d in r ==> d.name == canonicalize(c.className) && isOk(d.name) && isOk(d.dependsOn)
  {
    var source := canonicalize(c.className);
    if isOk(source) then DependenciesOf(source, c.classes.order, c.classes.counts, canonicalize, isOk) else []
  }

  /** `parseClassDependencies`: `files.flatMap { … }`. */
  function ParseClassDependencies(files: seq<AnalyzedClass>, canonicalize: string -> string, isOk: string -> bool): (r: seq<ClassDependency>)
    ensures forall d :: d in r ==> isOk(d.name) && isOk(d.dependsOn)
    ensures forall d :: d in r ==> exists f :: f in files && d.name == canonicalize(f.className)
  {
    if |files| == 0 then []
    else
      var rest := ParseClassDependencies(files[1..], canonicalize, isOk);
      assert forall f :: f in files[1..] ==> f in files;
      FileDependencies(files[0], canonicalize, isOk) + rest
  }

  /** The rows come out file by file, in file order: parsing two lists of
      files one after the other gives the two results concatenated. */
  lemma {:induction false} ParseAppend(a: seq<AnalyzedClass>, b: seq<AnalyzedClass>,
                                       canonicalize: string -> string, isOk: string -> bool)
    ensures ParseClassDependencies(a + b, canonicalize, isOk)
         == ParseClassDependencies(a, canonicalize, isOk) + ParseClassDependencies(b, canonicalize, isOk)
    decreases |a|
  {
    if |a| == 0 {
      assert a + b == b;
    } else {
      assert (a + b)[1..] == a[1..] + b;
      ParseAppend(a[1..], b, canonicalize, isOk);
    }
  }

  /** A class file whose canonical name fails the scope filter contributes
      no dependency, wherever it stands among the files. */
  lemma RejectedSourceContributesNothing(a: seq<AnalyzedClass>, f: AnalyzedClass, b: seq<AnalyzedClass>,
                                         canonicalize: string -> string, isOk: string -> bool)
    requires !isOk(canonicalize(f.className))
    ensures ParseClassDependencies(a + [f] + b, canonicalize, isOk)
         == ParseClassDependencies(a, canonicalize, isOk) + ParseClassDependencies(b, canonicalize, isOk)
  {
    SingleFile(f, canonicalize, isOk);
    ParseAppend(a + [f], b, canonicalize, isOk);
    ParseAppend(a, [f], canonicalize, isOk);
  }

  /** Parsing a single file yields that file's own contribution. */
  lemma SingleFile(f: AnalyzedClass, canonicalize: string -> string, isOk: string -> bool)
    ensures ParseClassDependencies([f], canonicalize, isOk) == FileDependencies(f, canonicalize, isOk)
  {
    assert [f][1..] == [];
    assert ParseClassDependencies([f][1..], canonicalize, isOk) == [];
  }

  /** Every entry of an in-scope file's map whose canonical target is in
      scope yields a dependency carrying exactly the analyzer's count. */
  lemma {:induction false} EntryYieldsDependency(files: seq<AnalyzedClass>, i: nat, k: string,
                                                 canonicalize: string -> string, isOk: string -> bool)
    requires i < |files| && k in files[i].classes.order
    requires isOk(canonicalize(files[i].className)) && isOk(canonicalize(k))
    ensures ClassDependency(canonicalize(files[i].className), canonicalize(k), Get(files[i].classes.counts, k))
            in ParseClassDependencies(files, canonicalize, isOk)
    decreases i
  {
    var d := ClassDependency(canonicalize(files[i].className), canonicalize(k), Get(files[i].classes.counts, k));
    if i == 0 {
      assert d in FileDependencies(files[0], canonicalize, isOk);
    } else {
      assert files[1..][i - 1] == files[i];
      EntryYieldsDependency(files[1..], i - 1, k, canonicalize, isOk);
      assert d in ParseClassDependencies(files[1..], canonicalize, isOk);
    }
  }
}
