/** The post-clustering metrics of the report in
    `src/main/kotlin/xyz/mishkun/lobzik/graph/GraphRoutine.kt`: weighted
    cut, monolith cut and conductance per community, the order in which
    communities are rendered and tabulated, and the community graph's
    edge weights. Weights are exact reals; the `Double` sums of the source
    round. */
module GraphRoutine {
  import opened Common
  import opened Sorting
  import opened Graph

  // ---------------------------------------------------------------------
  // Weight sums
  // ---------------------------------------------------------------------

  /** `es.filter(keep).sumOf { it.weight }`. */
  function SumWeights(es: seq<Edge>, keep: Edge -> bool): real
  {
    if |es| == 0 then 0.0
    else SumWeights(es[..|es| - 1], keep) + (if keep(es[|es| - 1]) then es[|es| - 1].weight else 0.0)
  }

  predicate NonNegativeWeights(es: seq<Edge>)
  {
    forall i :: 0 <= i < |es| ==> es[i].weight >= 0.0
  }

  /** A filter that keeps fewer edges sums to no more, when no weight is
      negative; the sum itself is then never negative. */
  lemma {:induction false} SumWeightsMonotone(es: seq<Edge>, fewer: Edge -> bool, more: Edge -> bool)
    requires NonNegativeWeights(es)
    requires forall i :: 0 <= i < |es| && fewer(es[i]) ==> more(es[i])
    ensures 0.0 <= SumWeights(es, fewer) <= SumWeights(es, more)
    decreases |es|
  {
    if |es| > 0 {
      SumWeightsMonotone(es[..|es| - 1], fewer, more);
    }
  }

  /** A filter that keeps nothing sums to zero. */
  lemma {:induction false} SumWeightsNone(es: seq<Edge>, keep: Edge -> bool)
    requires forall i :: 0 <= i < |es| ==> !keep(es[i])
    ensures SumWeights(es, keep) == 0.0
    decreases |es|
  {
    if |es| > 0 {
      SumWeightsNone(es[..|es| - 1], keep);
    }
  }

  // ---------------------------------------------------------------------
  // Cut, monolith cut and conductance
  // ---------------------------------------------------------------------

  /** The edges counted in `modulesCut` of community `c`: the target's
      module is in scope and the target lies in another community. */
  function CutFilter(routine: Routine, c: int): Edge -> bool
  {
    (e: Edge) => e.target.moduleName.Some? && FilterMonolithOrFeatures(routine, e.target.moduleName.value)
         && e.target.community != Some(c)
  }

  /** The edges counted in `modulesMonolithCut` of community `c`: the
      target lies in another community and in the monolith. */
  function MonolithCutFilter(routine: Routine, c: int): Edge -> bool
  {
    (e: Edge) => e.target.community != Some(c) && e.target.moduleName == Some(routine.monolithModule)
  }

  function Everything(): Edge -> bool
  {
    (e: Edge) => true
  }

  /** Out-edges of a community carry the weights of the graph's edges. */
  lemma OutEdgesNonNegative(visible: seq<Node>, edges: seq<Edge>, c: int)
    requires NonNegativeWeights(edges)
    ensures NonNegativeWeights(CommunityOutEdges(visible, edges, c))
  {
    var es := CommunityOutEdges(visible, edges, c);
    forall i | 0 <= i < |es| ensures es[i].weight >= 0.0 {
      assert es[i] in es;
      var j :| 0 <= j < |edges| && edges[j] == es[i];
    }
  }

  /** `modulesCut[c]`: the weight of the out-edges of `c` that leave the
      community for a module in scope; with non-negative weights it is
      part of the total out-weight. */
  function Cut(routine: Routine, visible: seq<Node>, edges: seq<Edge>, c: int): (r: real)
    ensures NonNegativeWeights(edges) ==> 0.0 <= r <= TotalWeight(visible, edges, c)
  {
    var es := CommunityOutEdges(visible, edges, c);
    assert NonNegativeWeights(edges) ==> 0.0 <= SumWeights(es, CutFilter(routine, c)) <= SumWeights(es, Everything()) by {
      if NonNegativeWeights(edges) {
        OutEdgesNonNegative(visible, edges, c);
        SumWeightsMonotone(es, CutFilter(routine, c), Everything());
      }
    }
    SumWeights(es, CutFilter(routine, c))
  }

  /** `modulesMonolithCut[c]`: the weight of the out-edges of `c` that
      leave the community for the monolith; with non-negative weights it
      is part of the cut. */
  function MonolithCut(routine: Routine, visible: seq<Node>, edges: seq<Edge>, c: int): (r: real)
    ensures NonNegativeWeights(edges) ==> 0.0 <= r <= Cut(routine, visible, edges, c)
  {
    var es := CommunityOutEdges(visible, edges, c);
    assert NonNegativeWeights(edges) ==> 0.0 <= SumWeights(es, MonolithCutFilter(routine, c)) <= SumWeights(es, CutFilter(routine, c)) by {
      if NonNegativeWeights(edges) {
        OutEdgesNonNegative(visible, edges, c);
        SumWeightsMonotone(es, MonolithCutFilter(routine, c), CutFilter(routine, c));
      }
    }
    SumWeights(es, MonolithCutFilter(routine, c))
  }

  /** The total weight of the out-edges of `c`: zero for a community
      without out-edges, and never negative when no weight is. */
  function TotalWeight(visible: seq<Node>, edges: seq<Edge>, c: int): (r: real)
    ensures |CommunityOutEdges(visible, edges, c)| == 0 ==> r == 0.0
    ensures NonNegativeWeights(edges) ==> 0.0 <= r
  {
    var es := CommunityOutEdges(visible, edges, c);
    assert NonNegativeWeights(edges) ==> 0.0 <= SumWeights(es, Everything()) by {
      if NonNegativeWeights(edges) {
        OutEdgesNonNegative(visible, edges, c);
        SumWeightsMonotone(es, Everything(), Everything());
      }
    }
    SumWeights(es, Everything())
  }

  /** `modulesConductance[c]`: cut over total out-weight. None stands for
      the NaN of a division by a zero total. */
  function Conductance(routine: Routine, visible: seq<Node>, edges: seq<Edge>, c: int): (r: Option<real>)
    ensures r.None? <==> TotalWeight(visible, edges, c) == 0.0
  {
    var total := TotalWeight(visible, edges, c);
    if total == 0.0 then None else Some(Cut(routine, visible, edges, c) / total)
  }

  /** With non-negative weights, conductance lies in [0,1] and is 0
      exactly when the cut is; a zero total comes with a zero cut (0/0). */
  lemma ConductanceBounds(routine: Routine, visible: seq<Node>, edges: seq<Edge>, c: int)
    requires NonNegativeWeights(edges)
    ensures TotalWeight(visible, edges, c) == 0.0 ==> Cut(routine, visible, edges, c) == 0.0
    ensures var r := Conductance(routine, visible, edges, c);
            r.Some? ==> 0.0 <= r.value <= 1.0
    ensures var r := Conductance(routine, visible, edges, c);
            r.Some? ==> (r.value == 0.0 <==> Cut(routine, visible, edges, c) == 0.0)
  {
    RatioInUnit(Cut(routine, visible, edges, c), TotalWeight(visible, edges, c));
  }

  /** A part of a non-zero whole gives a ratio in [0,1], zero exactly
      when the part is. */
  lemma RatioInUnit(part: real, whole: real)
    requires 0.0 <= part <= whole
    ensures whole != 0.0 ==> 0.0 <= part / whole <= 1.0
    ensures whole != 0.0 ==> (part / whole == 0.0 <==> part == 0.0)
  {
  }

  /** Every edge of the monolith cut is a dependency the report asks to
      break, so a community with nothing to break has no monolith cut. */
  lemma NoCutsNoMonolithCut(routine: Routine, visible: seq<Node>, edges: seq<Edge>, c: int)
    requires |DependenciesCuts(Members(visible, c), edges, routine.monolithModule)| == 0
    ensures MonolithCut(routine, visible, edges, c) == 0.0
  {
    var members := Members(visible, c);
    var es := CommunityOutEdges(visible, edges, c);
    var keep := MonolithCutFilter(routine, c);
    forall i | 0 <= i < |es| ensures !keep(es[i]) {
      var e := es[i];
      assert e in es;
      if keep(e) {
        assert e.target !in members;
        assert !IsCut(members, routine.monolithModule, e);
      }
    }
    SumWeightsNone(es, keep);
  }

  // ---------------------------------------------------------------------
  // Report order
  // ---------------------------------------------------------------------

  /** A community's conductance as the sort key. */
  function ConductanceKey(routine: Routine, visible: seq<Node>, edges: seq<Edge>): int -> Option<real>
  {
    c => Conductance(routine, visible, edges, c)
  }

  /** The communities of `cs` that have a member in the monolith, in order
      (the `continue` of the rendering loop skips the others). */
  function KeepMonolithCommunities(cs: seq<int>, visible: seq<Node>, monolith: string): (r: seq<int>)
    ensures forall c :: c in r <==> c in cs && HasMonolithMember(Members(visible, c), monolith)
  {
    if |cs| == 0 then []
    else
      var init := cs[..|cs| - 1];
      var c := cs[|cs| - 1];
      assert cs == init + [c];
      KeepMonolithCommunities(init, visible, monolith)
        + (if HasMonolithMember(Members(visible, c), monolith) then [c] else [])
  }

  /** Keeping some communities keeps their order and their distinctness. */
  lemma {:induction false} KeepPreservesOrder(cs: seq<int>, visible: seq<Node>, monolith: string, key: int -> Option<real>)
    requires SortedBy(cs, key, false) && Distinct(cs)
    ensures SortedBy(KeepMonolithCommunities(cs, visible, monolith), key, false)
    ensures Distinct(KeepMonolithCommunities(cs, visible, monolith))
    decreases |cs|
  {
    if |cs| > 0 {
      var init := cs[..|cs| - 1];
      var c := cs[|cs| - 1];
      assert SortedBy(init, key, false) && Distinct(init);
      KeepPreservesOrder(init, visible, monolith, key);
      var rest := KeepMonolithCommunities(init, visible, monolith);
      if HasMonolithMember(Members(visible, c), monolith) {
        var r := rest + [c];
        forall i | 0 <= i < |rest| ensures InOrder(key(rest[i]), key(c), false) && rest[i] != c {
          assert rest[i] in rest;
          var j :| 0 <= j < |init| && init[j] == rest[i];
          assert cs[j] == rest[i];
        }
        assert forall i :: 0 <= i < |rest| ==> r[i] == rest[i];
      }
    }
  }

  /** Keeping some communities keeps elements with equal keys in their
      relative order. */
  lemma {:induction false} KeepStable(xs: seq<int>, cs: seq<int>, visible: seq<Node>, monolith: string, key: int -> Option<real>)
    requires StableFor(xs, cs, key)
    ensures StableFor(xs, KeepMonolithCommunities(cs, visible, monolith), key)
    decreases |cs|
  {
    if |cs| > 0 {
      var init := cs[..|cs| - 1];
      var c := cs[|cs| - 1];
      assert forall i :: 0 <= i < |init| ==> init[i] == cs[i];
      KeepStable(xs, init, visible, monolith, key);
      var rest := KeepMonolithCommunities(init, visible, monolith);
      if HasMonolithMember(Members(visible, c), monolith) {
        var r := rest + [c];
        forall i | 0 <= i < |rest| && key(rest[i]) == key(c)
          ensures IndexOf(xs, rest[i]) < IndexOf(xs, c)
        {
          assert rest[i] in rest;
          var k :| 0 <= k < |init| && init[k] == rest[i];
          assert cs[k] == rest[i];
        }
        assert forall i :: 0 <= i < |rest| ==> r[i] == rest[i];
      }
    }
  }

  /** The communities in the order `monolithModulesRendered` renders them:
      exactly those with a monolith member, each once, from the lowest
      conductance up (NaN last); communities of equal conductance in the
      order in which their first members stand in the view. */
  function RenderOrder(routine: Routine, visible: seq<Node>, edges: seq<Edge>): (r: seq<int>)
    requires forall i :: 0 <= i < |visible| ==> visible[i].community.Some?
    ensures SortedBy(r, ConductanceKey(routine, visible, edges), false)
    ensures StableFor(Communities(visible), r, ConductanceKey(routine, visible, edges))
    ensures Distinct(r)
    ensures forall c :: c in r <==> (c in CommunityKeys(visible)
                                     && HasMonolithMember(Members(visible, c), routine.monolithModule))
  {
    var sorted := SortBy(CommunityKeys(visible), ConductanceKey(routine, visible, edges), false);
    KeepSorted(CommunityKeys(visible), visible, routine.monolithModule, ConductanceKey(routine, visible, edges));
    SortFirstOccurrencesStable(Communities(visible), ConductanceKey(routine, visible, edges), false);
    KeepStable(Communities(visible), sorted, visible, routine.monolithModule, ConductanceKey(routine, visible, edges));
    KeepMonolithCommunities(sorted, visible, routine.monolithModule)
  }

  /** Sorting distinct communities and then keeping those with a monolith
      member gives each kept community once, in key order. */
  lemma KeepSorted(keys: seq<int>, visible: seq<Node>, monolith: string, key: int -> Option<real>)
    requires Distinct(keys)
    ensures var r := KeepMonolithCommunities(SortBy(keys, key, false), visible, monolith);
            && SortedBy(r, key, false)
            && Distinct(r)
            && forall c :: c in r <==> (c in keys && HasMonolithMember(Members(visible, c), monolith))
  {
    SortSorted(keys, key, false);
    SortKeepsElements(keys, key, false);
    KeepPreservesOrder(SortBy(keys, key, false), visible, monolith, key);
  }

  /** The rows of `modulesTable` (and the points of its plot): every
      community once, from the lowest conductance up; communities of equal
      conductance in the order in which their first members stand in the
      view. */
  function TableOrder(routine: Routine, visible: seq<Node>, edges: seq<Edge>): (r: seq<int>)
    requires forall i :: 0 <= i < |visible| ==> visible[i].community.Some?
    ensures SortedBy(r, ConductanceKey(routine, visible, edges), false)
    ensures StableFor(Communities(visible), r, ConductanceKey(routine, visible, edges))
    ensures Distinct(r)
    ensures |r| == |CommunityKeys(visible)|
    ensures forall c :: c in r <==> c in CommunityKeys(visible)
  {
    var key := ConductanceKey(routine, visible, edges);
    SortSorted(CommunityKeys(visible), key, false);
    SortKeepsElements(CommunityKeys(visible), key, false);
    SortFirstOccurrencesStable(Communities(visible), key, false);
    SortBy(CommunityKeys(visible), key, false)
  }

  // ---------------------------------------------------------------------
  // Monolith class counts of the table
  // ---------------------------------------------------------------------

  /** `members.count { it in monolithNodes }`. */
  function MonolithClasses(members: seq<Node>, monolith: string): (n: nat)
    ensures n <= |members|
  {
    if |members| == 0 then 0
    else MonolithClasses(members[..|members| - 1], monolith)
         + (if members[|members| - 1].moduleName == Some(monolith) then 1 else 0)
  }

  /** `members.count { it !in monolithNodes }`. */
  function NonMonolithClasses(members: seq<Node>, monolith: string): nat
  {
    if |members| == 0 then 0
    else NonMonolithClasses(members[..|members| - 1], monolith)
         + (if members[|members| - 1].moduleName == Some(monolith) then 0 else 1)
  }

  /** The two columns add up to the community's size, and the first is
      positive exactly for the communities that are rendered. */
  lemma {:induction false} ClassCountsSplit(members: seq<Node>, monolith: string)
    ensures MonolithClasses(members, monolith) + NonMonolithClasses(members, monolith) == |members|
    ensures MonolithClasses(members, monolith) > 0 <==> HasMonolithMember(members, monolith)
    decreases |members|
  {
    if |members| > 0 {
      var init := members[..|members| - 1];
      ClassCountsSplit(init, monolith);
      if HasMonolithMember(members, monolith) && members[|members| - 1].moduleName != Some(monolith) {
        var i :| 0 <= i < |members| && members[i].moduleName == Some(monolith);
        assert init[i] == members[i];
      }
      if HasMonolithMember(init, monolith) {
        var i :| 0 <= i < |init| && init[i].moduleName == Some(monolith);
        assert members[i] == init[i];
      }
    }
  }

  // ---------------------------------------------------------------------
  // Community graph
  // ---------------------------------------------------------------------

  /** `getAttribute(projectColumn).toString()`: a missing module reads as
      the text "null". */
  function ModuleText(m: Option<string>): string
  {
    match m
    case Some(s) => s
    case None => "null"
  }

  /** Whether an out-edge of community `c` leads into community `t`: the
      target is in `t`, a community other than `c` and 0, and in the
      monolith. */
  predicate LeadsInto(e: Edge, c: int, t: int, monolith: string)
  {
    e.target.community == Some(t) && t != c && t != 0 && ModuleText(e.target.moduleName) == monolith
  }

  /** What the `mapNotNull` of `moduleMap` makes of one edge: its target's
      community when that is neither `c` nor 0 and the target is in the
      monolith, and nothing otherwise. */
  function TargetOf(e: Edge, c: int, monolith: string): (r: seq<int>)
    ensures |r| <= 1
  {
    match e.target.community
    case Some(t) => if t != c && t != 0 && ModuleText(e.target.moduleName) == monolith then [t] else []
    case None => []
  }

  /** The `mapNotNull` of `moduleMap` over the edges `es`. */
  function TargetCommunities(es: seq<Edge>, c: int, monolith: string): (r: seq<int>)
    ensures |r| <= |es|
  {
    if |es| == 0 then []
    else TargetCommunities(es[..|es| - 1], c, monolith) + TargetOf(es[|es| - 1], c, monolith)
  }

  /** `moduleMap[c]`. */
  function ModuleMap(routine: Routine, visible: seq<Node>, edges: seq<Edge>, c: int): seq<int>
  {
    TargetCommunities(CommunityOutEdges(visible, edges, c), c, routine.monolithModule)
  }

  /** The number of edges among `es` that lead into community `t`. */
  function EdgesInto(es: seq<Edge>, c: int, t: int, monolith: string): nat
  {
    if |es| == 0 then 0
    else EdgesInto(es[..|es| - 1], c, t, monolith) + (if LeadsInto(es[|es| - 1], c, t, monolith) then 1 else 0)
  }

  /** A target community occurs once per edge leading into it, and never
      is `c` itself or community 0. */
  lemma {:induction false} TargetCommunitiesCount(es: seq<Edge>, c: int, monolith: string, t: int)
    ensures Count(TargetCommunities(es, c, monolith), t) == EdgesInto(es, c, t, monolith)
    ensures t == c || t == 0 ==> t !in TargetCommunities(es, c, monolith)
    decreases |es|
  {
    if |es| > 0 {
      var init := es[..|es| - 1];
      var e := es[|es| - 1];
      TargetCommunitiesCount(init, c, monolith, t);
      CountAppend(TargetCommunities(init, c, monolith), TargetOf(e, c, monolith), t);
      TargetOfCount(e, c, monolith, t);
    }
  }

  lemma TargetOfCount(e: Edge, c: int, monolith: string, t: int)
    ensures Count(TargetOf(e, c, monolith), t) == if LeadsInto(e, c, t, monolith) then 1 else 0
  {
    var step := TargetOf(e, c, monolith);
    if |step| == 1 {
      assert step[..0] == [];
    }
  }

  /** The community graph's edges out of community `c`: the fold of
      `moduleMap[c]` into a map from target community to weight. It has
      no self-edge and no edge into community 0, and the edge c→t weighs
      the number of out-edges of c's members that lead into t. */
  function CommunityEdges(routine: Routine, visible: seq<Node>, edges: seq<Edge>, c: int): (w: map<int, int>)
    ensures c !in w && 0 !in w
    ensures forall t :: t in w <==> EdgesInto(CommunityOutEdges(visible, edges, c), c, t, routine.monolithModule) > 0
    ensures forall t :: t in w ==> w[t] == EdgesInto(CommunityOutEdges(visible, edges, c), c, t, routine.monolithModule)
  {
    var es := CommunityOutEdges(visible, edges, c);
    var targets := ModuleMap(routine, visible, edges, c);
    TargetCommunitiesCount(es, c, routine.monolithModule, c);
    TargetCommunitiesCount(es, c, routine.monolithModule, 0);
    assert forall t :: Count(targets, t) == EdgesInto(es, c, t, routine.monolithModule) by {
      forall t ensures Count(targets, t) == EdgesInto(es, c, t, routine.monolithModule) {
        TargetCommunitiesCount(es, c, routine.monolithModule, t);
      }
    }
    Tally(targets)
  }
}
