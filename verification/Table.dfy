/**
 A least-cost table over cells (words consumed, segments consumed), filled by offering each cell the cost
 of the edges that lead to it. Nothing here depends on what the edges are.
 */
module Table {
  import opened Common

  /** The source's "infinite" distance. */
  const INF: int := 1_000_000_000

  type Distances = array2<int>
  type Parents = array2<Option<(nat, nat)>>

  /** `edges(s, i, end, c)`: segment `s` may consume the words from `i` to `end` at cost `c`. */
  type Edges = (nat, nat, nat, int) -> bool

  /** `(p, q)` comes before `(i, s)` in the order the cells are visited. */
  predicate Before(p: nat, q: nat, i: nat, s: nat) {
    p < i || (p == i && q < s)
  }

  ghost predicate Shaped(n: nat, m: nat, dp: Distances, parent: Parents) {
    dp.Length0 == parent.Length0 == n + 1 && dp.Length1 == parent.Length1 == m + 1
  }

  /** A finite cell is the origin, or one edge after its parent, which was visited before `(i, s)`. */
  ghost predicate CellSound(edges: Edges, dp: Distances, parent: Parents, i: nat, s: nat, e: nat, t: nat)
    requires e < dp.Length0 && t < dp.Length1 && dp.Length0 == parent.Length0 && dp.Length1 == parent.Length1
    reads dp, parent
  {
    if INF <= dp[e, t] then dp[e, t] == INF && parent[e, t].None?
    else if t == 0 then e == 0 && dp[e, t] == 0 && parent[e, t].None?
    else
      parent[e, t].Some? && parent[e, t].value.1 == t - 1 &&
      var p := parent[e, t].value.0;
      && p <= e && Before(p, t - 1, i, s)
      && 0 <= dp[p, t - 1] <= dp[e, t]
      && edges(t - 1, p, e, dp[e, t] - dp[p, t - 1])
  }

  ghost predicate Sound(edges: Edges, n: nat, m: nat, dp: Distances, parent: Parents, i: nat, s: nat)
    requires Shaped(n, m, dp, parent)
    reads dp, parent
  {
    && dp[0, 0] == 0
    && forall e: nat, t: nat | e <= n && t <= m :: CellSound(edges, dp, parent, i, s, e, t)
  }

  lemma SoundLater(edges: Edges, n: nat, m: nat, dp: Distances, parent: Parents, i: nat, s: nat, i': nat, s': nat)
    requires Shaped(n, m, dp, parent) && Sound(edges, n, m, dp, parent, i, s)
    requires i < i' || (i == i' && s <= s')
    ensures Sound(edges, n, m, dp, parent, i', s')
  {
    forall e: nat, t: nat | e <= n && t <= m
      ensures CellSound(edges, dp, parent, i', s', e, t)
    {
      assert CellSound(edges, dp, parent, i, s, e, t);
    }
  }

  /** Every edge out of `(p, q)` has been offered. */
  ghost predicate Relaxed(edges: Edges, n: nat, m: nat, dp: Distances, p: nat, q: nat)
    requires dp.Length0 == n + 1 && dp.Length1 == m + 1 && p <= n && q < m
    reads dp
  {
    forall end: nat, c: int | end <= n && edges(q, p, end, c) :: dp[p, q] < INF ==> dp[end, q + 1] <= dp[p, q] + c
  }

  ghost predicate RelaxedBefore(edges: Edges, n: nat, m: nat, dp: Distances, i: nat, s: nat)
    requires dp.Length0 == n + 1 && dp.Length1 == m + 1
    reads dp
  {
    forall p: nat, q: nat | p <= n && q < m && Before(p, q, i, s) :: Relaxed(edges, n, m, dp, p, q)
  }

  /** Every row above that of the parent of `(e, s + 1)` would have been dearer: of equal offers the first is kept. */
  ghost predicate FirstParent(edges: Edges, dp: Distances, parent: Parents, e: nat, s: nat)
    requires e < dp.Length0 && s + 1 < dp.Length1 && dp.Length0 == parent.Length0 && dp.Length1 == parent.Length1
    reads dp, parent
  {
    parent[e, s + 1].Some? ==>
      forall q: nat, c: int | edges(s, q, e, c) && q < parent[e, s + 1].value.0 && q < dp.Length0 ::
        dp[q, s] < INF ==> dp[e, s + 1] < dp[q, s] + c
  }

  ghost predicate Earliest(edges: Edges, n: nat, m: nat, dp: Distances, parent: Parents)
    requires Shaped(n, m, dp, parent)
    reads dp, parent
  {
    forall e: nat, s: nat | e <= n && s < m :: FirstParent(edges, dp, parent, e, s)
  }

  /** What a completed run leaves behind. */
  ghost predicate Solved(edges: Edges, n: nat, m: nat, dp: Distances, parent: Parents)
    reads dp, parent
  {
    && Shaped(n, m, dp, parent)
    && Sound(edges, n, m, dp, parent, n + 1, 0)
    && RelaxedBefore(edges, n, m, dp, n + 1, 0)
    && Earliest(edges, n, m, dp, parent)
  }

  /** Only cells of column `s + 1` from row `i` down have changed, and only downwards. */
  twostate predicate Lowered(dp: Distances, i: nat, s: nat)
    reads dp
  {
    forall e: nat, t: nat | e < dp.Length0 && t < dp.Length1 ::
      dp[e, t] <= old(dp[e, t]) && (t != s + 1 || e < i ==> dp[e, t] == old(dp[e, t]))
  }

  /** Every edge out of the cells before `(i, s)` has been offered, and of equal offers the first was kept. */
  ghost predicate Offered(edges: Edges, n: nat, m: nat, dp: Distances, parent: Parents, i: nat, s: nat)
    requires Shaped(n, m, dp, parent)
    reads dp, parent
  {
    RelaxedBefore(edges, n, m, dp, i, s) && Earliest(edges, n, m, dp, parent)
  }

  /** What rows above `i` have offered a cell bounds it. */
  lemma OffersBound(edges: Edges, n: nat, m: nat, dp: Distances, i: nat, s: nat, end: nat)
    requires dp.Length0 == n + 1 && dp.Length1 == m + 1 && i <= end <= n && s < m
    requires RelaxedBefore(edges, n, m, dp, i, s)
    ensures forall q: nat, c: int | edges(s, q, end, c) && q < i :: dp[q, s] < INF ==> dp[end, s + 1] <= dp[q, s] + c
  {
    forall q: nat, c: int | edges(s, q, end, c) && q < i ensures dp[q, s] < INF ==> dp[end, s + 1] <= dp[q, s] + c {
      assert Relaxed(edges, n, m, dp, q, s);
    }
  }

  /** Offers cell `(end, s + 1)` the cost of one edge out of `(i, s)`. */
  method Offer(ghost edges: Edges, ghost n: nat, ghost m: nat, dp: Distances, parent: Parents,
               i: nat, s: nat, end: nat, c: nat)
    requires Shaped(n, m, dp, parent) && i <= end <= n && s < m
    requires Sound(edges, n, m, dp, parent, i, s + 1) && Offered(edges, n, m, dp, parent, i, s)
    requires dp[i, s] < INF && edges(s, i, end, c)
    modifies dp, parent
    ensures Sound(edges, n, m, dp, parent, i, s + 1) && Offered(edges, n, m, dp, parent, i, s) && Lowered(dp, i, s)
    ensures dp[end, s + 1] <= dp[i, s] + c
  {
    assert CellSound(edges, dp, parent, i, s + 1, i, s);
    if dp[i, s] + c < dp[end, s + 1] {
      OffersBound(edges, n, m, dp, i, s, end);
      dp[end, s + 1] := dp[i, s] + c;
      parent[end, s + 1] := Some((i, s));
      assert forall e: nat, t: nat {:trigger CellSound(edges, dp, parent, i, s + 1, e, t)} | e <= n && t <= m ::
        old(CellSound(edges, dp, parent, i, s + 1, e, t)) ==> CellSound(edges, dp, parent, i, s + 1, e, t);
      assert FirstParent(edges, dp, parent, end, s);
      assert forall e: nat, t: nat {:trigger FirstParent(edges, dp, parent, e, t)}
        | e <= n && t < m && !(e == end && t == s) ::
        old(FirstParent(edges, dp, parent, e, t)) && old(CellSound(edges, dp, parent, i, s + 1, e, t + 1)) ==>
        FirstParent(edges, dp, parent, e, t);
      assert forall p: nat, q: nat {:trigger Relaxed(edges, n, m, dp, p, q)} | p <= n && q < m && Before(p, q, i, s) ::
        old(Relaxed(edges, n, m, dp, p, q)) ==> Relaxed(edges, n, m, dp, p, q);
    }
  }

  // ---------------------------------------------------------------------------
  // Segmentations: the independent definition
  // ---------------------------------------------------------------------------

  /** `steps[k]` says where the span of segment `k` ends and what it costs. */
  datatype Step = Step(end: nat, cost: nat)

  function StartOf(steps: seq<Step>, k: nat): nat
    requires k <= |steps|
  {
    if k == 0 then 0 else steps[k - 1].end
  }

  function EndOf(steps: seq<Step>): nat {
    StartOf(steps, |steps|)
  }

  function TotalCost(steps: seq<Step>): nat {
    if steps == [] then 0 else TotalCost(steps[..|steps| - 1]) + steps[|steps| - 1].cost
  }

  ghost predicate StepLegal(edges: Edges, n: nat, steps: seq<Step>, k: nat)
    requires k < |steps|
  {
    StartOf(steps, k) <= steps[k].end <= n && edges(k, StartOf(steps, k), steps[k].end, steps[k].cost)
  }

  ghost predicate Legal(edges: Edges, n: nat, m: nat, steps: seq<Step>) {
    |steps| <= m && forall k | 0 <= k < |steps| :: StepLegal(edges, n, steps, k)
  }

  /** A segmentation is legal exactly when its prefix is and its last step is an edge. */
  lemma LegalLast(edges: Edges, n: nat, m: nat, init: seq<Step>, last: Step)
    ensures Legal(edges, n, m, init + [last]) <==>
      && Legal(edges, n, m, init) && |init| < m
      && EndOf(init) <= last.end <= n && edges(|init|, EndOf(init), last.end, last.cost)
    ensures TotalCost(init + [last]) == TotalCost(init) + last.cost
  {
    var steps := init + [last];
    assert steps[..|init|] == init;
    assert StartOf(steps, |init|) == EndOf(init);
    assert |init| < m ==> (StepLegal(edges, n, steps, |init|) <==>
      EndOf(init) <= last.end <= n && edges(|init|, EndOf(init), last.end, last.cost));
    assert forall k | 0 <= k < |init| :: StepLegal(edges, n, steps, k) == StepLegal(edges, n, init, k);
  }

  lemma EdgeWasOffered(edges: Edges, n: nat, m: nat, dp: Distances, parent: Parents, p: nat, q: nat, end: nat, c: int)
    requires Solved(edges, n, m, dp, parent) && p <= n && q < m && end <= n && edges(q, p, end, c)
    ensures dp[p, q] < INF ==> dp[end, q + 1] <= dp[p, q] + c
  {
    assert Before(p, q, n + 1, 0);
    assert Relaxed(edges, n, m, dp, p, q);
  }

  /** No segmentation is cheaper than the cell it ends in. */
  lemma {:induction false} CellIsLowerBound(
      edges: Edges, n: nat, m: nat, dp: Distances, parent: Parents, steps: seq<Step>)
    requires Solved(edges, n, m, dp, parent) && Legal(edges, n, m, steps) && TotalCost(steps) < INF
    ensures EndOf(steps) <= n && dp[EndOf(steps), |steps|] <= TotalCost(steps)
    decreases |steps|
  {
    if steps == [] {
      assert dp[0, 0] == 0;
    } else {
      var init, last := steps[..|steps| - 1], steps[|steps| - 1];
      assert steps == init + [last];
      LegalLast(edges, n, m, init, last);
      CellIsLowerBound(edges, n, m, dp, parent, init);
      EdgeWasOffered(edges, n, m, dp, parent, EndOf(init), |init|, last.end, last.cost);
    }
  }

  lemma ParentIsEdge(edges: Edges, n: nat, m: nat, dp: Distances, parent: Parents, e: nat, t: nat)
    requires Solved(edges, n, m, dp, parent) && e <= n && t <= m && dp[e, t] < INF
    ensures t == 0 ==> e == 0 && dp[e, t] == 0 && parent[e, t].None?
    ensures t > 0 ==>
      && parent[e, t].Some? && parent[e, t].value.1 == t - 1 && parent[e, t].value.0 <= e
      && var p := parent[e, t].value.0;
         0 <= dp[p, t - 1] <= dp[e, t] && edges(t - 1, p, e, dp[e, t] - dp[p, t - 1])
  {
    assert CellSound(edges, dp, parent, n + 1, 0, e, t);
  }

  /** The cell reached by step `k` points back at the cell the step starts from. */
  ghost predicate PointsBack(parent: Parents, steps: seq<Step>, k: nat)
    requires k < |steps|
    reads parent
  {
    && steps[k].end < parent.Length0 && k + 1 < parent.Length1
    && parent[steps[k].end, k + 1] == Some((StartOf(steps, k), k))
  }

  /** The parent pointers lead back along the segmentation, from its last cell to the origin. */
  ghost predicate PointersFollow(n: nat, m: nat, parent: Parents, steps: seq<Step>)
    reads parent
  {
    && parent.Length0 == n + 1 && parent.Length1 == m + 1 && |steps| <= m && parent[0, 0].None?
    && forall k | 0 <= k < |steps| :: PointsBack(parent, steps, k)
  }

  lemma PointersExtend(n: nat, m: nat, parent: Parents, init: seq<Step>, last: Step)
    requires PointersFollow(n, m, parent, init) && |init| < m && last.end <= n
    requires parent[last.end, |init| + 1] == Some((EndOf(init), |init|))
    ensures PointersFollow(n, m, parent, init + [last])
  {
    var steps := init + [last];
    forall k | 0 <= k < |steps|
      ensures PointsBack(parent, steps, k)
    {
      if k < |init| {
        assert PointsBack(parent, init, k) && steps[k] == init[k] && StartOf(steps, k) == StartOf(init, k);
      } else {
        assert StartOf(steps, k) == EndOf(init);
      }
    }
  }

  /** The segmentation the parent pointers spell out from cell `(e, t)` back to the origin. */
  ghost function Trace(edges: Edges, n: nat, m: nat, dp: Distances, parent: Parents, e: nat, t: nat): (steps: seq<Step>)
    requires Solved(edges, n, m, dp, parent) && e <= n && t <= m && dp[e, t] < INF
    reads dp, parent
    ensures Legal(edges, n, m, steps) && |steps| == t && EndOf(steps) == e && TotalCost(steps) == dp[e, t]
    ensures PointersFollow(n, m, parent, steps)
    decreases t
  {
    ParentIsEdge(edges, n, m, dp, parent, e, t);
    if t == 0 then []
    else
      var p := parent[e, t].value.0;
      var init := Trace(edges, n, m, dp, parent, p, t - 1);
      var last := Step(e, dp[e, t] - dp[p, t - 1]);
      LegalLast(edges, n, m, init, last);
      PointersExtend(n, m, parent, init, last);
      init + [last]
  }

  /** The two are alike from the end back, up to a segment that starts earlier in `a`. */
  predicate ReachesBack(a: seq<Step>, b: seq<Step>)
    requires |a| == |b|
  {
    a == [] ||
    var last := |a| - 1;
    StartOf(a, last) < StartOf(b, last) || (StartOf(a, last) == StartOf(b, last) && ReachesBack(a[..last], b[..last]))
  }

  /** The last step of a cheapest segmentation starts where the parent pointer leads, or later. */
  lemma LastStepStartsLater(
      edges: Edges, n: nat, m: nat, dp: Distances, parent: Parents, init: seq<Step>, last: Step)
    requires Solved(edges, n, m, dp, parent) && Legal(edges, n, m, init + [last]) && last.end <= n && |init| < m
    requires TotalCost(init + [last]) == dp[last.end, |init| + 1] < INF
    ensures Legal(edges, n, m, init) && EndOf(init) <= n && TotalCost(init) == dp[EndOf(init), |init|] < INF
    ensures parent[last.end, |init| + 1].Some? && parent[last.end, |init| + 1].value.0 <= EndOf(init)
  {
    LegalLast(edges, n, m, init, last);
    CellIsLowerBound(edges, n, m, dp, parent, init);
    EdgeWasOffered(edges, n, m, dp, parent, EndOf(init), |init|, last.end, last.cost);
    ParentIsEdge(edges, n, m, dp, parent, last.end, |init| + 1);
    assert FirstParent(edges, dp, parent, last.end, |init|);
  }

  /** Of the cheapest segmentations into the same cell, the traced one reaches back furthest from the end. */
  lemma {:induction false} TraceReachesBack(
      edges: Edges, n: nat, m: nat, dp: Distances, parent: Parents, e: nat, t: nat, steps: seq<Step>)
    requires Solved(edges, n, m, dp, parent) && e <= n && t <= m && dp[e, t] < INF
    requires Legal(edges, n, m, steps) && |steps| == t && EndOf(steps) == e && TotalCost(steps) == dp[e, t]
    ensures ReachesBack(Trace(edges, n, m, dp, parent, e, t), steps)
    decreases t
  {
    if t > 0 {
      var init, last := steps[..t - 1], steps[t - 1];
      assert steps == init + [last];
      LastStepStartsLater(edges, n, m, dp, parent, init, last);
      var p := parent[e, t].value.0;
      var best := Trace(edges, n, m, dp, parent, e, t);
      ParentIsEdge(edges, n, m, dp, parent, e, t);
      assert best[..t - 1] == Trace(edges, n, m, dp, parent, p, t - 1);
      if p == EndOf(init) {
        TraceReachesBack(edges, n, m, dp, parent, p, t - 1, init);
      }
    }
  }

  /**
   `dp[e, t]` is the least cost over all segmentations of `t` segments ending at `e`, and infinite when there is
   none.
   */
  lemma CellIsLeastCost(edges: Edges, n: nat, m: nat, dp: Distances, parent: Parents, e: nat, t: nat)
    requires Solved(edges, n, m, dp, parent) && e <= n && t <= m
    ensures dp[e, t] < INF <==>
      exists steps :: Legal(edges, n, m, steps) && |steps| == t && EndOf(steps) == e && TotalCost(steps) < INF
    ensures forall steps | Legal(edges, n, m, steps) && |steps| == t && EndOf(steps) == e && TotalCost(steps) < INF ::
      dp[e, t] <= TotalCost(steps)
    ensures dp[e, t] < INF ==>
      exists steps :: Legal(edges, n, m, steps) && |steps| == t && EndOf(steps) == e && TotalCost(steps) == dp[e, t]
  {
    forall steps | Legal(edges, n, m, steps) && |steps| == t && EndOf(steps) == e && TotalCost(steps) < INF
      ensures dp[e, t] <= TotalCost(steps)
    {
      CellIsLowerBound(edges, n, m, dp, parent, steps);
    }
    if dp[e, t] < INF {
      var steps := Trace(edges, n, m, dp, parent, e, t);
    }
  }

  // ---------------------------------------------------------------------------
  // Walking back
  // ---------------------------------------------------------------------------

  /** One hop of the traceback: from `(pi, ps)` to `(ci, cs)`. */
  datatype Hop = Hop(pi: nat, ps: nat, ci: nat, cs: nat)

  /** `hop` is step `k` of the segmentation. */
  ghost predicate HopOf(steps: seq<Step>, k: nat, hop: Hop) {
    k < |steps| && hop == Hop(StartOf(steps, k), k, steps[k].end, k + 1)
  }

  lemma PointerAt(n: nat, m: nat, parent: Parents, steps: seq<Step>, s: nat)
    requires PointersFollow(n, m, parent, steps) && s <= |steps|
    ensures StartOf(steps, s) <= n
    ensures parent[StartOf(steps, s), s] == if s == 0 then None else Some((StartOf(steps, s - 1), s - 1))
  {
    if s > 0 {
      var k: nat := s - 1;
      assert PointsBack(parent, steps, k);
    }
  }

  /** The hops of steps `s` onwards, last one first. */
  ghost function HopsBack(steps: seq<Step>, s: nat): (hops: seq<Hop>)
    requires s <= |steps|
    ensures |hops| == |steps| - s
    decreases |steps| - s
  {
    if s == |steps| then [] else HopsBack(steps, s + 1) + [Hop(StartOf(steps, s), s, steps[s].end, s + 1)]
  }

  lemma {:induction false} HopsBackAt(steps: seq<Step>, s: nat, k: nat)
    requires s <= k < |steps|
    ensures HopOf(steps, k, HopsBack(steps, s)[|steps| - 1 - k])
    decreases |steps| - s
  {
    if s + 1 < |steps| {
      HopsBackAt(steps, s + 1, if s == k then k + 1 else k);
    } else {
      assert HopsBack(steps, s + 1) == [];
    }
  }

  /** Walks the parent pointers back to the origin; the hops come out in reading order. */
  method WalkBack(ghost n: nat, ghost m: nat, parent: Parents, endI: nat, endS: nat, ghost steps: seq<Step>)
    returns (hops: seq<Hop>)
    requires PointersFollow(n, m, parent, steps) && |steps| == endS && EndOf(steps) == endI
    ensures |hops| == |steps| && forall k | 0 <= k < |hops| :: HopOf(steps, k, hops[k])
  {
    var back: seq<Hop> := [];
    var i: nat, s: nat := endI, endS;
    PointerAt(n, m, parent, steps, s);
    while parent[i, s].Some?
      invariant s <= |steps| && i == StartOf(steps, s) <= n
      invariant parent[i, s] == if s == 0 then None else Some((StartOf(steps, s - 1), s - 1))
      invariant back == HopsBack(steps, s)
      decreases s
    {
      var (pi, ps) := parent[i, s].value;
      PointerAt(n, m, parent, steps, ps);
      back := back + [Hop(pi, ps, i, s)];
      i, s := pi, ps;
    }
    hops := seq(|back|, k requires 0 <= k < |back| => back[|back| - 1 - k]);
    forall k | 0 <= k < |steps| ensures HopOf(steps, k, hops[k]) {
      HopsBackAt(steps, 0, k);
    }
  }
}
