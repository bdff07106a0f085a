/** The clustered class graph the report is computed on, shared by both
    `GraphRoutine.kt` files. Gephi's graph becomes plain data. A node
    carries its id, its label, its `module` attribute and the community
    that modularity clustering gave it. An edge carries its two end nodes
    and its weight. The clustering itself is an input. */
module Graph {
  import opened Common

  /** A class node; `name` is its label. `moduleName` is None when the
      node has no `module` attribute; `community` is None when the node was
      outside the clustered view and so has no modularity class. */
  datatype Node = Node(id: string, name: string, moduleName: Option<string>, community: Option<int>)

  /** A directed dependency edge of the whole graph. */
  datatype Edge = Edge(source: Node, target: Node, weight: real)

  /** The routine's settings: the monolith module's id and the feature
      module patterns. `matches(pattern, value)` is Kotlin's
      `pattern.toRegex().matches(value)`, a full match. */
  datatype Routine = Routine(monolithModule: string, featureModules: seq<string>, matches: (string, string) -> bool)

  // ---------------------------------------------------------------------
  // Module filter
  // ---------------------------------------------------------------------

  /** `patterns.map { it.toRegex() }.any { it.matches(value) }`. */
  function AnyMatches(patterns: seq<string>, matches: (string, string) -> bool, value: string): (r: bool)
    ensures r <==> exists i :: 0 <= i < |patterns| && matches(patterns[i], value)
  {
    if |patterns| == 0 then false
    else
      var init := patterns[..|patterns| - 1];
      var rest := AnyMatches(init, matches, value);
      assert forall i :: 0 <= i < |init| ==> init[i] == patterns[i];
      rest || matches(patterns[|patterns| - 1], value)
  }

  /** `filterMonolithOrFeatures(value)`: the module is the monolith or a
      feature module. */
  function FilterMonolithOrFeatures(routine: Routine, value: string): (r: bool)
    ensures r <==> value == routine.monolithModule
                   || exists i :: 0 <= i < |routine.featureModules| && routine.matches(routine.featureModules[i], value)
  {
    value == routine.monolithModule || AnyMatches(routine.featureModules, routine.matches, value)
  }

  // ---------------------------------------------------------------------
  // Communities
  // ---------------------------------------------------------------------

  /** `visible.groupBy { community }[c]`: the visible nodes of community
      `c`, in their order in the view. */
  function Members(visible: seq<Node>, c: int): (r: seq<Node>)
    ensures |r| <= |visible|
    ensures forall n :: n in r <==> n in visible && n.community == Some(c)
  {
    if |visible| == 0 then []
    else
      var init := visible[..|visible| - 1];
      var n := visible[|visible| - 1];
      assert visible == init + [n];
      Members(init, c) + (if n.community == Some(c) then [n] else [])
  }

  /** The community of each visible node, in view order. Every visible
      node has a community (the `as Int` cast would fail otherwise). */
  function Communities(visible: seq<Node>): (r: seq<int>)
    requires forall i :: 0 <= i < |visible| ==> visible[i].community.Some?
    ensures |r| == |visible|
    ensures forall i :: 0 <= i < |visible| ==> visible[i].community == Some(r[i])
  {
    seq(|visible|, i requires 0 <= i < |visible| => visible[i].community.value)
  }

  /** The keys of that `groupBy`: each community once, in the order in
      which its first member stands in the view. */
  function CommunityKeys(visible: seq<Node>): (r: seq<int>)
    requires forall i :: 0 <= i < |visible| ==> visible[i].community.Some?
    ensures Distinct(r)
    ensures forall c :: c in r <==> exists i :: 0 <= i < |visible| && visible[i].community == Some(c)
    ensures InFirstOccurrenceOrder(Communities(visible), r)
  {
    var cs := Communities(visible);
    FirstOccurrencesOrder(cs);
    assert forall c :: c in cs <==> exists i :: 0 <= i < |visible| && visible[i].community == Some(c) by {
      forall c ensures c in cs <==> exists i :: 0 <= i < |visible| && visible[i].community == Some(c) {
        if c in cs {
          var i :| 0 <= i < |cs| && cs[i] == c;
          assert visible[i].community == Some(c);
        }
      }
    }
    FirstOccurrences(cs)
  }

  /** Every key has members, and every visible node lies in the group of
      its own community and in no other. */
  lemma {:induction false} GroupsPartition(visible: seq<Node>)
    requires forall i :: 0 <= i < |visible| ==> visible[i].community.Some?
    ensures forall c :: c in CommunityKeys(visible) ==> |Members(visible, c)| > 0
    ensures forall i :: 0 <= i < |visible| ==> visible[i] in Members(visible, visible[i].community.value)
  {
    forall c | c in CommunityKeys(visible) ensures |Members(visible, c)| > 0 {
      var i :| 0 <= i < |visible| && visible[i].community == Some(c);
      assert visible[i] in Members(visible, c);
    }
  }

  // ---------------------------------------------------------------------
  // Out-edges and dependency cuts
  // ---------------------------------------------------------------------

  /** `graph.getOutEdges(n)`: the edges leaving `n`, in edge order. */
  function OutEdges(edges: seq<Edge>, n: Node): (r: seq<Edge>)
    ensures |r| <= |edges|
    ensures forall e :: e in r <==> e in edges && e.source == n
  {
    if |edges| == 0 then []
    else
      var init := edges[..|edges| - 1];
      var e := edges[|edges| - 1];
      assert edges == init + [e];
      OutEdges(init, n) + (if e.source == n then [e] else [])
  }

  /** `members.flatMap { graph.getOutEdges(it) }`: the out-edges of a
      community, member by member. */
  function MembersOutEdges(members: seq<Node>, edges: seq<Edge>): (r: seq<Edge>)
    ensures forall e :: e in r <==> e in edges && e.source in members
  {
    if |members| == 0 then []
    else
      var init := members[..|members| - 1];
      var n := members[|members| - 1];
      assert members == init + [n];
      MembersOutEdges(init, edges) + OutEdges(edges, n)
  }

  /** The out-edges of community `c`'s members. */
  function CommunityOutEdges(visible: seq<Node>, edges: seq<Edge>, c: int): seq<Edge>
  {
    MembersOutEdges(Members(visible, c), edges)
  }

  /** An edge the report lists as a dependency to break: it leaves the
      community for a node outside it that belongs to the monolith. */
  predicate IsCut(members: seq<Node>, monolith: string, e: Edge)
  {
    e.target !in members && e.target.moduleName == Some(monolith)
  }

  /** The (source label, target label) pairs of the cut edges among `es`,
      in order. */
  function CutPairs(es: seq<Edge>, members: seq<Node>, monolith: string): (r: seq<(string, string)>)
    ensures forall p :: p in r <==> exists e :: e in es && IsCut(members, monolith, e) && p == (e.source.name, e.target.name)
  {
    if |es| == 0 then []
    else
      var init := es[..|es| - 1];
      var e := es[|es| - 1];
      assert es == init + [e];
      CutPairs(init, members, monolith) + (if IsCut(members, monolith, e) then [(e.source.name, e.target.name)] else [])
  }

  /** `dependenciesCuts` of a community: for each member its out-edges to
      monolith nodes outside the community, as label pairs. Empty exactly
      when the report says no dependency needs breaking. */
  function DependenciesCuts(members: seq<Node>, edges: seq<Edge>, monolith: string): (r: seq<(string, string)>)
    ensures forall p :: p in r <==> exists e :: e in edges && e.source in members && IsCut(members, monolith, e)
                                                && p == (e.source.name, e.target.name)
    ensures |r| == 0 <==> forall e :: e in edges && e.source in members ==> !IsCut(members, monolith, e)
  {
    var r := CutPairs(MembersOutEdges(members, edges), members, monolith);
    assert |r| == 0 <== forall e :: e in edges && e.source in members ==> !IsCut(members, monolith, e) by {
      if |r| > 0 {
        assert r[0] in r;
      }
    }
    assert |r| == 0 ==> forall e :: e in edges && e.source in members ==> !IsCut(members, monolith, e) by {
      forall e | e in edges && e.source in members && IsCut(members, monolith, e) ensures |r| > 0 {
        assert (e.source.name, e.target.name) in r;
      }
    }
    r
  }

  /** Whether a community has a member in the monolith module (the report
      renders only such communities). */
  predicate HasMonolithMember(members: seq<Node>, monolith: string)
  {
    exists i :: 0 <= i < |members| && members[i].moduleName == Some(monolith)
  }

  // ---------------------------------------------------------------------
  // Neighbourhood filter
  // ---------------------------------------------------------------------

  /** Every endpoint of the edges among `edges` that touch `nodes`
      (`nodes.flatMap { graph.getEdges(it).flatMap { listOf(source, target) } }`). */
  function Endpoints(nodes: set<Node>, edges: seq<Edge>): set<Node>
  {
    if |edges| == 0 then {}
    else
      var e := edges[|edges| - 1];
      Endpoints(nodes, edges[..|edges| - 1])
        + (if e.source in nodes || e.target in nodes then {e.source, e.target} else {})
  }

  /** A node is an endpoint exactly when some edge touching `nodes` ends
      at it. */
  lemma {:induction false} EndpointsSpec(nodes: set<Node>, edges: seq<Edge>, n: Node)
    ensures n in Endpoints(nodes, edges) <==>
            exists e :: e in edges && (e.source in nodes || e.target in nodes) && (n == e.source || n == e.target)
    decreases |edges|
  {
    if |edges| > 0 {
      var init := edges[..|edges| - 1];
      var e := edges[|edges| - 1];
      assert edges == init + [e];
      EndpointsSpec(nodes, init, n);
    }
  }

  /** The nodes next to `nodes` that are not in it. */
  function Neighbourhood(nodes: set<Node>, edges: seq<Edge>): set<Node>
  {
    Endpoints(nodes, edges) - nodes
  }

  /** `NodeCollectionFilter`: shows a community's nodes together with their
      direct neighbours. `neighbourhood` is Kotlin's `lateinit` field,
      usable once `Init` has run; `edges` records the graph it was
      computed from. */
  class NodeCollectionFilter {
    const nodes: set<Node>
    var neighbourhood: set<Node>
    var initialized: bool
    ghost var edges: seq<Edge>

    /** The neighbourhood, once computed, belongs to the recorded graph. */
    ghost predicate Valid()
      reads this
    {
      initialized ==> neighbourhood == Neighbourhood(nodes, edges)
    }

    constructor (nodes: set<Node>)
      ensures this.nodes == nodes && !initialized && Valid()
    {
      this.nodes := nodes;
      neighbourhood := {};
      initialized := false;
      edges := [];
    }

    /** `init(graph)`: computes the neighbourhood of the graph's edges and
        answers whether the graph has any node. */
    method Init(graphNodes: seq<Node>, graphEdges: seq<Edge>) returns (nonEmpty: bool)
      modifies this
      ensures initialized && edges == graphEdges && Valid()
      ensures neighbourhood * nodes == {}
      ensures nonEmpty <==> |graphNodes| != 0
    {
      neighbourhood := Neighbourhood(nodes, graphEdges);
      edges := graphEdges;
      initialized := true;
      nonEmpty := |graphNodes| != 0;
    }

    /** `evaluate(graph, n)`: the node is one of the filter's nodes or the
        endpoint of an edge touching them. */
    function Evaluate(n: Node): (r: bool)
      reads this
      requires Valid() && initialized
      ensures r <==> n in nodes || exists e :: e in edges && (e.source in nodes || e.target in nodes)
                                                && (n == e.source || n == e.target)
    {
      EndpointsSpec(nodes, edges, n);
      n in nodes || n in neighbourhood
    }
  }
}
