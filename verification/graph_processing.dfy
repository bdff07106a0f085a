/** The post-clustering metrics of the report in
    `graph-processing/src/main/kotlin/xyz/mishkun/lobzik/graph/GraphRoutine.kt`:
    an unweighted conductance per community, and every community rendered
    and tabulated from the highest conductance down. */
module ProcessingGraphRoutine {
  import opened Common
  import opened Sorting
  import opened Graph

  /** The number of edges among `es` whose target lies outside community
      `c` (`count { target community != c }`). */
  function CrossingEdges(es: seq<Edge>, c: int): (n: nat)
    ensures n <= |es|
  {
    if |es| == 0 then 0
    else CrossingEdges(es[..|es| - 1], c) + (if es[|es| - 1].target.community != Some(c) then 1 else 0)
  }

  /** No crossing edge is counted exactly when every edge stays inside. */
  lemma {:induction false} NoCrossingEdges(es: seq<Edge>, c: int)
    ensures CrossingEdges(es, c) == 0 <==> forall i :: 0 <= i < |es| ==> es[i].target.community == Some(c)
    decreases |es|
  {
    if |es| > 0 {
      var init := es[..|es| - 1];
      NoCrossingEdges(init, c);
      assert forall i :: 0 <= i < |init| ==> init[i] == es[i];
    }
  }

  /** `modulesConductance[c]`: crossing out-edges over all out-edges, as a
      `Double`. None stands for the NaN of a community without out-edges;
      otherwise the ratio lies in [0,1]. */
  function Conductance(visible: seq<Node>, edges: seq<Edge>, c: int): (r: Option<real>)
    ensures r.None? <==> |CommunityOutEdges(visible, edges, c)| == 0
    ensures r.Some? ==> 0.0 <= r.value <= 1.0
  {
    var es := CommunityOutEdges(visible, edges, c);
    if |es| == 0 then None
    else
      CountRatio(CrossingEdges(es, c), |es|);
      Some(CrossingEdges(es, c) as real / |es| as real)
  }

  /** The conductance is 0 exactly when no out-edge leaves the
      community. */
  lemma ConductanceZero(visible: seq<Node>, edges: seq<Edge>, c: int)
    ensures var r := Conductance(visible, edges, c);
            var es := CommunityOutEdges(visible, edges, c);
            r.Some? ==> (r.value == 0.0 <==> forall i :: 0 <= i < |es| ==> es[i].target.community == Some(c))
  {
    var es := CommunityOutEdges(visible, edges, c);
    NoCrossingEdges(es, c);
    if |es| > 0 {
      CountRatio(CrossingEdges(es, c), |es|);
    }
  }

  /** A count out of a positive total gives a ratio in [0,1], zero
      exactly when the count is. */
  lemma CountRatio(part: nat, whole: nat)
    requires part <= whole && whole > 0
    ensures 0.0 <= part as real / whole as real <= 1.0
    ensures part as real / whole as real == 0.0 <==> part == 0
  {
  }

  /** A community's conductance as the sort key. */
  function ConductanceKey(visible: seq<Node>, edges: seq<Edge>): int -> Option<real>
  {
    c => Conductance(visible, edges, c)
  }

  /** The order in which communities are rendered and in which the table
      lists them: `sortedByDescending` on conductance, every community
      once, from the highest conductance down (NaN first, as
      `Double.compareTo` ranks it highest); communities of equal
      conductance in the order in which their first members stand in the
      view. */
  function ReportOrder(visible: seq<Node>, edges: seq<Edge>): (r: seq<int>)
    requires forall i :: 0 <= i < |visible| ==> visible[i].community.Some?
    ensures SortedBy(r, ConductanceKey(visible, edges), true)
    ensures StableFor(Communities(visible), r, ConductanceKey(visible, edges))
    ensures Distinct(r)
    ensures |r| == |CommunityKeys(visible)|
    ensures forall c :: c in r <==> c in CommunityKeys(visible)
  {
    var key := ConductanceKey(visible, edges);
    SortSorted(CommunityKeys(visible), key, true);
    SortKeepsElements(CommunityKeys(visible), key, true);
    SortFirstOccurrencesStable(Communities(visible), key, true);
    SortBy(CommunityKeys(visible), key, true)
  }
}
