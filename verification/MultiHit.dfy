/**
 Pruning the damage combinations of a multi-hit move with the bar readings seen between the hits. Damage adds up
 within a segment of readings; a heal starts a new segment.
 */
module MultiHit {
  import opened Common
  import opened HpBar

  /** Two neighbouring readings of the target's bar. */
  type Delta = (int, int)

  predicate IsHeal(d: Delta) {
    d.1 > d.0
  }

  /** The constraint a hit's reading puts on the damage dealt since `segStart`. */
  datatype HitReading = HitReading(anchor: int, newVal: int, segStart: nat)

  /** The number of damage readings. */
  function HitCount(deltas: seq<Delta>): nat {
    if deltas == [] then 0
    else HitCount(deltas[..|deltas| - 1]) + if IsHeal(deltas[|deltas| - 1]) then 0 else 1
  }

  /** The reading the current segment starts from: after the latest heal, or the first of all. */
  function SegmentAnchor(deltas: seq<Delta>): int
    requires deltas != []
  {
    var last := |deltas| - 1;
    if IsHeal(deltas[last]) then deltas[last].1
    else if last == 0 then deltas[0].0
    else SegmentAnchor(deltas[..last])
  }

  /** The number of hits before the current segment. */
  function SegmentStart(deltas: seq<Delta>): (n: nat)
    ensures n <= HitCount(deltas)
  {
    var last := |deltas| - 1;
    if deltas == [] then 0
    else if IsHeal(deltas[last]) then HitCount(deltas[..last])
    else SegmentStart(deltas[..last])
  }

  /** One constraint for each damage reading, taken at its place in the readings. */
  function HitReadings(deltas: seq<Delta>): (hits: seq<HitReading>)
    ensures |hits| == HitCount(deltas)
    ensures forall i | 0 <= i < |hits| :: hits[i].segStart <= i
  {
    if deltas == [] then []
    else
      var last := |deltas| - 1;
      var init := HitReadings(deltas[..last]);
      if IsHeal(deltas[last]) then init
      else init + [HitReading(SegmentAnchor(deltas), deltas[last].1, SegmentStart(deltas))]
  }

  /** The source's three parallel lists. */
  method SegmentHpDeltasIntoHits(deltas: seq<Delta>)
    returns (anchors: seq<int>, newVals: seq<int>, segStarts: seq<nat>)
    ensures |anchors| == |newVals| == |segStarts| == HitCount(deltas)
    ensures forall i | 0 <= i < |anchors| ::
      HitReading(anchors[i], newVals[i], segStarts[i]) == HitReadings(deltas)[i]
  {
    anchors, newVals, segStarts := [], [], [];
    var segAnchor := if deltas != [] then deltas[0].0 else 0;
    var segStart := 0;
    for k := 0 to |deltas|
      invariant |anchors| == |newVals| == |segStarts| == HitCount(deltas[..k])
      invariant forall i | 0 <= i < |anchors| ::
        HitReading(anchors[i], newVals[i], segStarts[i]) == HitReadings(deltas[..k])[i]
      invariant segStart == SegmentStart(deltas[..k])
      invariant deltas != [] ==> segAnchor == if k == 0 then deltas[0].0 else SegmentAnchor(deltas[..k])
    {
      assert deltas[..k + 1][..k] == deltas[..k];
      var (frm, to) := deltas[k];
      if to > frm {
        segAnchor := to;
        segStart := |anchors|;
      } else {
        anchors := anchors + [segAnchor];
        newVals := newVals + [to];
        segStarts := segStarts + [segStart];
      }
    }
    assert deltas[..|deltas|] == deltas;
  }

  /** Whether the damage dealt in a segment is consistent with the readings at its start and now. */
  predicate HitPasses(cumulative: int, anchor: int, newVal: int, useHpRange: bool, maxHp: int) {
    if useHpRange then
      && HpRange(newVal, maxHp).1 + cumulative >= HpRange(anchor, maxHp).0
      && (newVal == 0 || HpRange(newVal, maxHp).0 + cumulative <= HpRange(anchor, maxHp).1)
    else if newVal == 0 then anchor - cumulative <= 0
    else anchor - cumulative == newVal
  }

  // ---------------------------------------------------------------------------
  // The pruned product
  // ---------------------------------------------------------------------------

  /** How a mover's damage combinations are pruned. */
  datatype Pruning = Pruning(apply: bool, hits: seq<HitReading>, useHpRange: bool, maxHp: int)
  {
    /** The damages up to hit `i` agree with the reading after hit `i`, if there is one. */
    predicate Allows(damages: seq<int>, i: nat)
      requires i < |damages|
    {
      apply && i < |hits| && hits[i].segStart <= i ==>
        HitPasses(Sum(damages[hits[i].segStart..i + 1]), hits[i].anchor, hits[i].newVal, useHpRange, maxHp)
    }

    /** The damages agree with every reading. */
    predicate AllowsAll(damages: seq<int>) {
      forall i | 0 <= i < |damages| :: Allows(damages, i)
    }

    /** The combination takes each hit's damage from that hit's damages and agrees with every reading. */
    predicate Survives(sets: seq<seq<int>>, damages: seq<int>) {
      && |damages| <= |sets|
      && forall i | 0 <= i < |damages| :: damages[i] in sets[i] && Allows(damages, i)
    }
  }

  lemma SurvivesExtends(p: Pruning, sets: seq<seq<int>>, init: seq<int>, d: int)
    requires |init| < |sets|
    ensures p.Survives(sets, init + [d]) <==>
      p.Survives(sets, init) && d in sets[|init|] && p.Allows(init + [d], |init|)
  {
    var all := init + [d];
    assert forall i | 0 <= i < |init| :: all[i] == init[i] && all[..i + 1] == init[..i + 1];
    forall i | 0 <= i < |init| ensures p.Allows(all, i) == p.Allows(init, i) {
      if i < |p.hits| && p.hits[i].segStart <= i {
        assert all[p.hits[i].segStart..i + 1] == init[p.hits[i].segStart..i + 1];
      }
    }
    if p.Survives(sets, all) {
      assert forall i | 0 <= i < |init| :: all[i] in sets[i] && p.Allows(all, i);
      assert all[|init|] == d;
    }
  }

  /** The ways to extend a combination by one of the damages `ds` that its reading does not refute. */
  function Extensions(p: Pruning, partial: seq<int>, ds: seq<int>): seq<seq<int>> {
    if ds == [] then []
    else
      var t := partial + [ds[|ds| - 1]];
      Extensions(p, partial, ds[..|ds| - 1]) + if p.Allows(t, |partial|) then [t] else []
  }

  lemma {:induction false} ExtensionsMembers(p: Pruning, partial: seq<int>, ds: seq<int>, t: seq<int>)
    ensures t in Extensions(p, partial, ds) <==>
      |t| == |partial| + 1 && t[..|partial|] == partial && t[|partial|] in ds && p.Allows(t, |partial|)
  {
    if ds != [] {
      var init, last := ds[..|ds| - 1], ds[|ds| - 1];
      ExtensionsMembers(p, partial, init, t);
      assert ds == init + [last];
      assert |t| == |partial| + 1 && t[..|partial|] == partial && t[|partial|] == last ==> t == partial + [last];
    }
  }

  lemma {:induction false} ExtensionsDistinct(p: Pruning, partial: seq<int>, ds: seq<int>)
    requires Distinct(ds)
    ensures Distinct(Extensions(p, partial, ds))
  {
    if ds != [] {
      var init, last := ds[..|ds| - 1], ds[|ds| - 1];
      ExtensionsDistinct(p, partial, init);
      ExtensionsMembers(p, partial, init, partial + [last]);
      assert (partial + [last])[|partial|] == last;
    }
  }

  lemma AllowsLast(p: Pruning, partial: seq<int>, d: int)
    requires p.apply && |partial| < |p.hits| && p.hits[|partial|].segStart <= |partial|
    ensures var hit := p.hits[|partial|];
            p.Allows(partial + [d], |partial|) <==>
            HitPasses(Sum(partial[hit.segStart..]) + d, hit.anchor, hit.newVal, p.useHpRange, p.maxHp)
  {
    var from := p.hits[|partial|].segStart;
    var segment := (partial + [d])[from..|partial| + 1];
    assert segment == partial[from..] + [d];
    SumAppend(partial[from..], d);
  }

  method ExtendOne(p: Pruning, partial: seq<int>, ds: seq<int>) returns (next: seq<seq<int>>)
    requires |partial| < |p.hits| ==> p.hits[|partial|].segStart <= |partial|
    ensures next == Extensions(p, partial, ds)
  {
    next := [];
    var i := |partial|;
    for k := 0 to |ds|
      invariant next == Extensions(p, partial, ds[..k])
    {
      assert ds[..k + 1][..k] == ds[..k];
      if p.apply && i < |p.hits| {
        AllowsLast(p, partial, ds[k]);
        var cumulative := Sum(partial[p.hits[i].segStart..]) + ds[k];
        if !HitPasses(cumulative, p.hits[i].anchor, p.hits[i].newVal, p.useHpRange, p.maxHp) { continue; }
      }
      next := next + [partial + [ds[k]]];
    }
    assert ds[..|ds|] == ds;
  }

  lemma SurvivesPrefix(p: Pruning, sets: seq<seq<int>>, t: seq<int>)
    requires t != [] && p.Survives(sets, t)
    ensures p.Survives(sets, t[..|t| - 1])
  {
    var init := t[..|t| - 1];
    assert t == init + [t[|t| - 1]];
    SurvivesExtends(p, sets, init, t[|t| - 1]);
  }

  /** The combinations of `i` damages, each once. */
  ghost predicate ListsSurvivors(p: Pruning, sets: seq<seq<int>>, partials: seq<seq<int>>, i: nat) {
    Distinct(partials) && forall t :: t in partials <==> |t| == i && p.Survives(sets, t)
  }

  function AllExtensions(p: Pruning, partials: seq<seq<int>>, ds: seq<int>): seq<seq<int>> {
    if partials == [] then []
    else
      AllExtensions(p, partials[..|partials| - 1], ds) + Extensions(p, partials[|partials| - 1], ds)
  }

  lemma {:induction false} AllExtensionsMembers(p: Pruning, partials: seq<seq<int>>, ds: seq<int>, i: nat, t: seq<int>)
    requires forall u | u in partials :: |u| == i
    ensures t in AllExtensions(p, partials, ds) <==>
      |t| == i + 1 && t[..i] in partials && t[i] in ds && p.Allows(t, i)
  {
    if partials != [] {
      var init, last := partials[..|partials| - 1], partials[|partials| - 1];
      assert partials == init + [last];
      AllExtensionsMembers(p, init, ds, i, t);
      ExtensionsMembers(p, last, ds, t);
    }
  }

  lemma {:induction false} AllExtensionsDistinct(p: Pruning, partials: seq<seq<int>>, ds: seq<int>, i: nat)
    requires forall u | u in partials :: |u| == i
    requires Distinct(partials) && Distinct(ds)
    ensures Distinct(AllExtensions(p, partials, ds))
  {
    if partials != [] {
      var init, last := partials[..|partials| - 1], partials[|partials| - 1];
      assert partials == init + [last];
      AllExtensionsDistinct(p, init, ds, i);
      ExtensionsDistinct(p, last, ds);
      forall t | t in Extensions(p, last, ds) ensures t !in AllExtensions(p, init, ds) {
        ExtensionsMembers(p, last, ds, t);
        AllExtensionsMembers(p, init, ds, i, t);
      }
      DistinctConcat(AllExtensions(p, init, ds), Extensions(p, last, ds));
    }
  }

  method ExtendAll(p: Pruning, sets: seq<seq<int>>, partials: seq<seq<int>>, i: nat) returns (next: seq<seq<int>>)
    requires i < |sets| && Distinct(sets[i]) && ListsSurvivors(p, sets, partials, i)
    requires i < |p.hits| ==> p.hits[i].segStart <= i
    ensures ListsSurvivors(p, sets, next, i + 1)
  {
    next := [];
    for k := 0 to |partials|
      invariant next == AllExtensions(p, partials[..k], sets[i])
    {
      assert partials[k] in partials;
      assert partials[..k + 1][..k] == partials[..k];
      var extended := ExtendOne(p, partials[k], sets[i]);
      next := next + extended;
    }
    assert partials[..|partials|] == partials;
    ExtensionsAreSurvivors(p, sets, partials, i);
  }

  lemma ExtensionsAreSurvivors(p: Pruning, sets: seq<seq<int>>, partials: seq<seq<int>>, i: nat)
    requires i < |sets| && Distinct(sets[i]) && ListsSurvivors(p, sets, partials, i)
    ensures ListsSurvivors(p, sets, AllExtensions(p, partials, sets[i]), i + 1)
  {
    AllExtensionsDistinct(p, partials, sets[i], i);
    forall t ensures t in AllExtensions(p, partials, sets[i]) <==> |t| == i + 1 && p.Survives(sets, t) {
      AllExtensionsMembers(p, partials, sets[i], i, t);
      if |t| == i + 1 {
        assert t == t[..i] + [t[i]];
        SurvivesExtends(p, sets, t[..i], t[i]);
      }
    }
  }

  /** The source's pruned cartesian product: exactly the combinations that agree with every reading, each once. */
  method PrunedProduct(p: Pruning, sets: seq<seq<int>>) returns (partials: seq<seq<int>>)
    requires forall i | 0 <= i < |sets| :: Distinct(sets[i])
    requires forall i | 0 <= i < |p.hits| :: p.hits[i].segStart <= i
    ensures ListsSurvivors(p, sets, partials, |sets|)
  {
    partials := [[]];
    for i := 0 to |sets|
      invariant ListsSurvivors(p, sets, partials, i)
    {
      partials := ExtendAll(p, sets, partials, i);
      if partials == [] {
        assert forall t :: !(|t| == i + 1 && p.Survives(sets, t)) by {
          assert forall t :: t !in partials;
        }
        NoneLonger(p, sets, i + 1);
        break;
      }
    }
  }

  /** When no combination of some length survives, no longer one does. */
  lemma {:induction false} NoneLonger(p: Pruning, sets: seq<seq<int>>, n: nat)
    requires forall t :: !(|t| == n && p.Survives(sets, t))
    ensures forall t :: !(|t| >= n && p.Survives(sets, t))
  {
    forall t | p.Survives(sets, t) ensures |t| < n {
      NotLonger(p, sets, n, t);
    }
  }

  lemma {:induction false} NotLonger(p: Pruning, sets: seq<seq<int>>, n: nat, t: seq<int>)
    requires forall u :: !(|u| == n && p.Survives(sets, u))
    requires p.Survives(sets, t)
    ensures |t| < n
    decreases |t|
  {
    if |t| > n {
      SurvivesPrefix(p, sets, t);
      NotLonger(p, sets, n, t[..|t| - 1]);
    }
  }
}
