/** `LobzikAggregateDependenciesTask.kt`: the per-project dependency CSV
    files are concatenated into one node list and one edge list. Each
    project's module name is the artifact's file name before
    `_dependency_graph`. */
module Aggregate {
  import opened Common

  /** One parsed CSV file: its file name and its rows keyed by header. */
  datatype CsvFile = CsvFile(name: string, rows: seq<map<string, string>>)

  /** A CSV row tagged with the module it came from. */
  datatype Tagged = Tagged(moduleName: string, entry: map<string, string>)

  /** One row of the nodes CSV: `Id`, `Label`, `Module`. A missing
      `Source` column stays missing (Kotlin's null). */
  datatype NodeRow = NodeRow(id: Option<string>, shortName: Option<string>, moduleName: string)

  /** One row of the edges CSV: `Source`, `Target`, `Weight`, copied. */
  datatype EdgeRow = EdgeRow(source: Option<string>, target: Option<string>, weight: Option<string>)

  const Suffix: string := "_dependency_graph"

  /** `name.substringBefore("_dependency_graph")`: the module name is what
      precedes the first occurrence of the suffix, or the whole name. */
  function ModuleId(fileName: string): (r: string)
    ensures StartsWith(fileName, r)
    ensures (exists k: nat :: OccursAt(fileName, Suffix, k)) ==>
      OccursAt(fileName, Suffix, |r|) && forall k: nat :: k < |r| ==> !OccursAt(fileName, Suffix, k)
    ensures (forall k: nat :: !OccursAt(fileName, Suffix, k)) ==> r == fileName
  {
    SubstringBeforeString(fileName, Suffix)
  }

  /** `t` cannot occur where a character other than its first stands. */
  lemma NotOccursAt(s: string, t: string, k: nat)
    requires 0 < |t| && k < |s| && s[k] != t[0]
    ensures !OccursAt(s, t, k)
  {
    if k + |t| <= |s| {
      assert s[k..k + |t|][0] == s[k];
    }
  }

  /** The artifact of a module is named after it: for a module name
      without `_`, whatever follows the suffix, the name is recovered. */
  lemma ModuleIdOfArtifact(m: string, ext: string)
    requires !ContainsChar(m, '_')
    ensures ModuleId(m + Suffix + ext) == m
  {
    var s := m + Suffix + ext;
    assert OccursAt(s, Suffix, |m|) by {
      assert s[|m|..|m| + |Suffix|] == Suffix;
    }
    forall k: nat | k < |m| ensures !OccursAt(s, Suffix, k) {
      assert s[k] == m[k];
      NotOccursAt(s, Suffix, k);
    }
    assert |ModuleId(s)| == |m|;
    assert s[..|m|] == m;
  }

  function Lookup(entry: map<string, string>, column: string): Option<string>
  {
    if column in entry then Some(entry[column]) else None
  }

  /** `inputFiles.files.flatMap { … }`: every row of every file, in order,
      tagged with its file's module. */
  function Aggregated(files: seq<CsvFile>): (r: seq<Tagged>)
    ensures |r| == TotalRows(files)
    ensures forall t :: t in r ==> exists f :: f in files && t.moduleName == ModuleId(f.name) && t.entry in f.rows
  {
    if |files| == 0 then []
    else
      var f := files[0];
      var here := seq(|f.rows|, i requires 0 <= i < |f.rows| => Tagged(ModuleId(f.name), f.rows[i]));
      assert forall t :: t in here ==> t.moduleName == ModuleId(f.name) && t.entry in f.rows;
      assert forall g :: g in files[1..] ==> g in files;
      here + Aggregated(files[1..])
  }

  function TotalRows(files: seq<CsvFile>): nat
  {
    if |files| == 0 then 0 else |files[0].rows| + TotalRows(files[1..])
  }

  /** Row `i` of file `j` lands right after the rows of the files before
      it, tagged with its own file's module. */
  lemma {:induction false} AggregatedAt(files: seq<CsvFile>, j: nat, i: nat)
    requires j < |files| && i < |files[j].rows|
    ensures TotalRows(files[..j]) + i < |Aggregated(files)|
    ensures Aggregated(files)[TotalRows(files[..j]) + i] == Tagged(ModuleId(files[j].name), files[j].rows[i])
    decreases j
  {
    if j > 0 {
      assert files[1..][..j - 1] == files[..j][1..];
      AggregatedAt(files[1..], j - 1, i);
    }
  }

  /** The node a tagged row stands for: its `Source`, labelled with the
      text after the last `.`. */
  function NodeOf(t: Tagged): (n: NodeRow)
    ensures n.id.None? <==> n.shortName.None?
    ensures n.id.Some? ==> EndsWith(n.id.value, n.shortName.value) && !ContainsChar(n.shortName.value, '.')
    ensures n.id.Some? ==> |n.shortName.value| == |n.id.value| || n.id.value[|n.id.value| - |n.shortName.value| - 1] == '.'
    ensures n.moduleName == t.moduleName
  {
    var id := Lookup(t.entry, "Source");
    var n := NodeRow(id, if id.Some? then Some(SubstringAfterLast(id.value, '.')) else None, t.moduleName);
    n
  }

  /** The nodes CSV: the distinct (module, source) pairs, as a set
      (`mapTo(HashSet())`), so its write order is not fixed. */
  function NodeRows(rows: seq<Tagged>): (r: set<NodeRow>)
    ensures forall n :: n in r <==> exists i :: 0 <= i < |rows| && n == NodeOf(rows[i])
  {
    set i | 0 <= i < |rows| :: NodeOf(rows[i])
  }

  /** Duplicate (module, source) pairs collapse: there are never more nodes
      than rows. */
  lemma {:induction false} NodeRowsBound(rows: seq<Tagged>)
    ensures |NodeRows(rows)| <= |rows|
    decreases |rows|
  {
    if |rows| > 0 {
      var init := rows[..|rows| - 1];
      NodeRowsBound(init);
      assert NodeRows(rows) == NodeRows(init) + {NodeOf(rows[|rows| - 1])} by {
        forall n ensures n in NodeRows(rows) <==> n in NodeRows(init) + {NodeOf(rows[|rows| - 1])} {
          if n in NodeRows(init) {
            var i :| 0 <= i < |init| && n == NodeOf(init[i]);
            assert rows[i] == init[i];
          }
          if n in NodeRows(rows) && n != NodeOf(rows[|rows| - 1]) {
            var i :| 0 <= i < |rows| && n == NodeOf(rows[i]);
            assert init[i] == rows[i];
          }
        }
      }
    }
  }

  /** The same class seen from two modules gives two nodes: node identity
      includes the module. */
  lemma SameSourceTwoModules(rows: seq<Tagged>, i: nat, j: nat)
    requires i < |rows| && j < |rows| && rows[i].moduleName != rows[j].moduleName
    requires Lookup(rows[i].entry, "Source") == Lookup(rows[j].entry, "Source")
    ensures NodeOf(rows[i]) in NodeRows(rows) && NodeOf(rows[j]) in NodeRows(rows)
    ensures NodeOf(rows[i]) != NodeOf(rows[j]) && NodeOf(rows[i]).id == NodeOf(rows[j]).id
  {
  }

  /** The edges CSV: every row copied in order, never merged. */
  function EdgeRows(rows: seq<Tagged>): (r: seq<EdgeRow>)
    ensures |r| == |rows|
    ensures forall i :: 0 <= i < |rows| ==>
      r[i].source == Lookup(rows[i].entry, "Source") && r[i].target == Lookup(rows[i].entry, "Target")
      && r[i].weight == Lookup(rows[i].entry, "Weight")
  {
    seq(|rows|, i requires 0 <= i < |rows| => EdgeRow(Lookup(rows[i].entry, "Source"), Lookup(rows[i].entry, "Target"), Lookup(rows[i].entry, "Weight")))
  }

  /** Every source of an edge is the id of a node of the same row's module. */
  lemma EdgeSourcesAreNodes(rows: seq<Tagged>, i: nat)
    requires i < |rows|
    ensures EdgeRows(rows)[i].source == NodeOf(rows[i]).id && NodeOf(rows[i]) in NodeRows(rows)
  {
  }

  /** The module tags do not influence the edges: renaming the input files
      leaves the edges CSV unchanged. */
  lemma {:induction false} EdgesIgnoreFileNames(a: seq<CsvFile>, b: seq<CsvFile>)
    requires |a| == |b| && forall i :: 0 <= i < |a| ==> a[i].rows == b[i].rows
    ensures EdgeRows(Aggregated(a)) == EdgeRows(Aggregated(b))
    decreases |a|
  {
    if |a| > 0 {
      EdgesIgnoreFileNames(a[1..], b[1..]);
      EdgeRowsAppend(Aggregated(a)[..|a[0].rows|], Aggregated(a[1..]));
      EdgeRowsAppend(Aggregated(b)[..|b[0].rows|], Aggregated(b[1..]));
      assert Aggregated(a) == Aggregated(a)[..|a[0].rows|] + Aggregated(a[1..]);
      assert Aggregated(b) == Aggregated(b)[..|b[0].rows|] + Aggregated(b[1..]);
      assert EdgeRows(Aggregated(a)[..|a[0].rows|]) == EdgeRows(Aggregated(b)[..|b[0].rows|]);
    }
  }

  lemma EdgeRowsAppend(x: seq<Tagged>, y: seq<Tagged>)
    ensures EdgeRows(x + y) == EdgeRows(x) + EdgeRows(y)
  {
    assert forall i :: 0 <= i < |x + y| ==> (x + y)[i] == if i < |x| then x[i] else y[i - |x|];
  }

  /** The node of row `row` of file `f`. */
  function FileNode(f: CsvFile, row: map<string, string>): NodeRow
  {
    NodeOf(Tagged(ModuleId(f.name), row))
  }

  /** Row `i` of file `j` is copied, column by column, to the edge that
      follows the rows of the files before it. */
  predicate EdgesCopied(files: seq<CsvFile>, edges: seq<EdgeRow>)
  {
    forall j, i :: 0 <= j < |files| && 0 <= i < |files[j].rows| ==>
      var k := TotalRows(files[..j]) + i;
      k < |edges| && edges[k] == EdgeRow(Lookup(files[j].rows[i], "Source"), Lookup(files[j].rows[i], "Target"),
                                         Lookup(files[j].rows[i], "Weight"))
  }

  /** `aggregate`: both CSV outputs of the merged inputs. There is one edge
      row per input row across all files, copied in file order and row
      order; the nodes are the distinct (module, source) pairs of all
      rows. */
  function Aggregate(files: seq<CsvFile>): (r: (set<NodeRow>, seq<EdgeRow>))
    ensures |r.1| == TotalRows(files)
    ensures EdgesCopied(files, r.1)
    ensures r.0 == set f, row | f in files && row in f.rows :: FileNode(f, row)
    ensures |r.0| <= TotalRows(files)
  {
    var rows := Aggregated(files);
    NodeRowsBound(rows);
    EdgesOfFiles(files);
    NodesOfFiles(files);
    (NodeRows(rows), EdgeRows(rows))
  }

  /** Row `i` of file `j` is copied to the edge at its aggregated position. */
  lemma EdgesOfFiles(files: seq<CsvFile>)
    ensures EdgesCopied(files, EdgeRows(Aggregated(files)))
  {
    forall j, i | 0 <= j < |files| && 0 <= i < |files[j].rows|
      ensures var k := TotalRows(files[..j]) + i;
              k < |EdgeRows(Aggregated(files))|
              && EdgeRows(Aggregated(files))[k] == EdgeRow(Lookup(files[j].rows[i], "Source"), Lookup(files[j].rows[i], "Target"),
                                                           Lookup(files[j].rows[i], "Weight"))
    {
      EdgeAt(files, j, i);
    }
  }

  lemma EdgeAt(files: seq<CsvFile>, j: nat, i: nat)
    requires j < |files| && i < |files[j].rows|
    ensures var k := TotalRows(files[..j]) + i;
            k < |EdgeRows(Aggregated(files))|
            && EdgeRows(Aggregated(files))[k] == EdgeRow(Lookup(files[j].rows[i], "Source"), Lookup(files[j].rows[i], "Target"),
                                                         Lookup(files[j].rows[i], "Weight"))
  {
    var rows := Aggregated(files);
    var k := TotalRows(files[..j]) + i;
    AggregatedAt(files, j, i);
    var row := files[j].rows[i];
    assert rows[k].entry == row;
    assert EdgeRows(rows)[k] == EdgeRow(Lookup(row, "Source"), Lookup(row, "Target"), Lookup(row, "Weight"));
  }


  /** The node set is the set of nodes of every row of every file. */
  lemma NodesOfFiles(files: seq<CsvFile>)
    ensures NodeRows(Aggregated(files)) == set f, row | f in files && row in f.rows :: FileNode(f, row)
  {
    var rows := Aggregated(files);
    var want := set f, row | f in files && row in f.rows :: FileNode(f, row);
    forall n | n in NodeRows(rows) ensures n in want {
      var k :| 0 <= k < |rows| && n == NodeOf(rows[k]);
      assert rows[k] in rows;
      var f :| f in files && rows[k].moduleName == ModuleId(f.name) && rows[k].entry in f.rows;
      assert n == FileNode(f, rows[k].entry);
    }
    forall n | n in want ensures n in NodeRows(rows) {
      var f, row :| f in files && row in f.rows && n == FileNode(f, row);
      var j :| 0 <= j < |files| && files[j] == f;
      var i :| 0 <= i < |f.rows| && f.rows[i] == row;
      AggregatedAt(files, j, i);
      assert n == NodeOf(rows[TotalRows(files[..j]) + i]);
    }
  }
}
