/** `LobzikListProjectClassesTask.kt`: the per-project class listing. It
    shares the extraction pipeline of the dependency graph task but keeps
    inner classes apart (only slashes become dots), tests the filters
    against the full dotted name, and writes one row per analyzer entry
    without merging. */
module ListProjectClasses {
  import opened Common
  import opened ClassDependencies
  import ProjectDependencyGraph

  /** `canonicalize`: slashes become dots; `$` and everything else stay. */
  function Canonicalize(className: string): (r: string)
    ensures |r| == |className| && !ContainsChar(r, '/')
    ensures forall i :: 0 <= i < |r| ==> (r[i] == '$' <==> className[i] == '$')
  {
    ReplaceChar(className, '/', '.')
  }

  /** The per-project graph's name of a class is this task's name cut at
      the first `$`: the listing refines the graph. */
  lemma GraphNameIsPrefixOfListedName(className: string)
    ensures StartsWith(Canonicalize(className), ProjectDependencyGraph.Canonicalize(className))
  {
  }

  /** Inner classes keep their own name: the `$` and the inner part
      survive canonicalisation. */
  lemma InnerClassKept(outer: string, inner: string)
    ensures Canonicalize(outer + "$" + inner) == Canonicalize(outer) + "$" + Canonicalize(inner)
  {
    ReplaceCharAppend(outer + "$", inner, '/', '.');
    ReplaceCharAppend(outer, "$", '/', '.');
    assert ReplaceChar("$", '/', '.') == "$" by {
      assert ReplaceChar("$", '/', '.')[0] == '$';
    }
  }

  /** `String.isOk`: starts with the package prefix and no ignored-class
      pattern matches the full name. */
  predicate IsOk(name: string, prefix: string, ignored: seq<string -> bool>)
  {
    StartsWith(name, prefix) && forall i :: 0 <= i < |ignored| ==> !ignored[i](name)
  }

  /** `parseClassDependencies` with this task's canonicalisation and filter:
      the rows the task writes, unmerged and in production order. */
  function Parse(files: seq<AnalyzedClass>, prefix: string, ignored: seq<string -> bool>): (r: seq<ClassDependency>)
    ensures forall d :: d in r ==> IsOk(d.name, prefix, ignored) && IsOk(d.dependsOn, prefix, ignored)
    ensures forall d :: d in r ==> !ContainsChar(d.name, '/') && !ContainsChar(d.dependsOn, '/')
  {
    var r := ParseClassDependencies(files, Canonicalize, s => IsOk(s, prefix, ignored));
    forall d | d in r ensures !ContainsChar(d.dependsOn, '/') {
      ProjectDependencyGraph.ParsedTargetIsCanonical(files, Canonicalize, s => IsOk(s, prefix, ignored), d);
    }
    r
  }

  /** A reference to an inner class in scope is listed under the inner
      class's own name, with the analyzer's count. */
  lemma InnerClassDependencyListed(files: seq<AnalyzedClass>, i: nat, outer: string, inner: string,
                                   prefix: string, ignored: seq<string -> bool>)
    requires i < |files| && outer + "$" + inner in files[i].classes.order
    requires IsOk(Canonicalize(files[i].className), prefix, ignored)
    requires IsOk(Canonicalize(outer) + "$" + Canonicalize(inner), prefix, ignored)
    ensures ClassDependency(Canonicalize(files[i].className), Canonicalize(outer) + "$" + Canonicalize(inner),
                            Get(files[i].classes.counts, outer + "$" + inner))
            in Parse(files, prefix, ignored)
  {
    InnerClassKept(outer, inner);
    EntryYieldsDependency(files, i, outer + "$" + inner, Canonicalize, s => IsOk(s, prefix, ignored));
  }

  /** `ZipFile.asSequenceOfClassFiles`: the archive entries passing the
      class-file name rule, in archive order. */
  function ZipClassEntries(names: seq<string>): (r: seq<string>)
    ensures forall n :: n in r <==> n in names && IsClassFileName(n)
    ensures |r| <= |names|
  {
    if |names| == 0 then []
    else
      var rest := ZipClassEntries(names[1..]);
      if IsClassFileName(names[0]) then [names[0]] + rest else rest
  }

  function Names(files: seq<FileEntry>): seq<string>
  {
    if |files| == 0 then [] else [files[0].name] + Names(files[1..])
  }

  /** For regular files the archive filter and the file-tree filter apply
      the same rule and keep the same names in the same order. */
  lemma {:induction false} ZipAndTreeFiltersAgree(files: seq<FileEntry>)
    requires forall i :: 0 <= i < |files| ==> files[i].isFile
    ensures ZipClassEntries(Names(files)) == Names(FilterToClassFiles(files))
    decreases |files|
  {
    if |files| > 0 {
      assert forall i :: 0 <= i < |files[1..]| ==> files[1..][i] == files[i + 1];
      ZipAndTreeFiltersAgree(files[1..]);
      assert Names(files)[1..] == Names(files[1..]);
    }
  }
}
