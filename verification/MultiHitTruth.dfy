/**
 The true damages of a multi-hit move against the pruning. The log keeps only readings that change, so the true
 combination survives exactly when each seen hit's reading can be explained by the damages its place in the log
 selects: those of other hits when one went unseen, and none when a creature too weak for a pixel misleads the bar's
 inverse.
 */
module MultiHitTruth {
  import opened Common
  import opened HpBar
  import HpCount
  import HpFilm
  import opened MultiHit
  import Stability

  /** What happened to the target so far: hits, which may overkill, and recoveries. */
  datatype History = Start | Hit(before: History, damage: nat) | Recover(before: History, amount: nat)

  function TrueDamages(h: History): seq<int> {
    match h
    case Start => []
    case Hit(before, d) => TrueDamages(before) + [d as int]
    case Recover(before, _) => TrueDamages(before)
  }

  function Subtract(hp: int, damage: int): int {
    if damage >= hp then 0 else hp - damage
  }

  /** The creature being hit: on side 0 its exact HP is read, on side 1 its pixels. */
  datatype Target = Target(side: int, maxHp: int, start: int)
  {
    predicate Valid() {
      maxHp >= 1 && 0 <= start <= maxHp
    }

    function HpAfter(h: History): int {
      match h
      case Start => start
      case Hit(before, d) => Subtract(HpAfter(before), d)
      case Recover(before, a) => HpAfter(before) + a
    }

    function ShownAfter(h: History): int
      requires Valid()
    {
      Shown(side, HpAfter(h), maxHp)
    }

    /** What the bar shows at first and after each event. */
    function Readings(h: History): (readings: seq<int>)
      requires Valid()
      ensures readings != [] && readings[|readings| - 1] == ShownAfter(h)
    {
      if h.Start? then [ShownAfter(h)] else Readings(h.before) + [ShownAfter(h)]
    }

    /**
     The log keeps a reading only when it differs from the one before, so an event the bar does not show leaves no
     trace.
     */
    function Logged(h: History): seq<Delta>
      requires Valid()
    {
      HpCount.Pairs(HpCount.Destutter(Readings(h)))
    }

    /** The HP stays within bounds. */
    predicate Plays(h: History) {
      !h.Start? ==> Plays(h.before) && 0 <= HpAfter(h) <= maxHp
    }

    /** The last event shows on the bar. */
    predicate Visible(h: History)
      requires Valid()
    {
      !h.Start? && ShownAfter(h) != ShownAfter(h.before)
    }

    /** The hits that show on the bar. */
    function SeenHits(h: History): (n: nat)
      requires Valid()
      ensures n <= |TrueDamages(h)|
    {
      if h.Start? then 0 else SeenHits(h.before) + if h.Hit? && Visible(h) then 1 else 0
    }

    /** The HP behind the reading the current segment is anchored at: after the latest recovery that shows. */
    function AnchorHp(h: History): int
      requires Valid()
    {
      if h.Start? then start
      else if h.Recover? && Visible(h) then HpAfter(h)
      else AnchorHp(h.before)
    }

    /** The hits seen before that recovery. */
    function AnchorIndex(h: History): (n: nat)
      requires Valid()
      ensures n <= SeenHits(h)
    {
      if h.Start? then 0
      else if h.Recover? && Visible(h) then SeenHits(h.before)
      else AnchorIndex(h.before)
    }

    /**
     The damage that the reading after the latest seen hit is compared with. The n-th seen hit counts as the n-th hit
     of the move, so these are the true damages only when no hit went unseen.
     */
    function Selected(h: History): int
      requires Valid()
    {
      Sum(TrueDamages(h)[AnchorIndex(h)..SeenHits(h)])
    }

    /** HPs that the program takes to read like `anchorHp` and like `hp` differ by the damage. */
    predicate Explains(anchorHp: int, hp: int, damage: int)
      requires Valid()
    {
      if side == 0 then Subtract(anchorHp, damage) == hp
      else
        exists a | 0 <= a <= maxHp ::
          InRange(a, HpToK(anchorHp, maxHp), maxHp) && InRange(Subtract(a, damage), HpToK(hp, maxHp), maxHp)
    }

    /** The reading after each seen hit can be explained by the damage it is compared with. */
    predicate WellRead(h: History)
      requires Valid()
    {
      !h.Start? ==>
        WellRead(h.before) && (h.Hit? && Visible(h) ==> Explains(AnchorHp(h), HpAfter(h), Selected(h)))
    }

    /** Every event so far shows on the bar. */
    predicate AllSeen(h: History)
      requires Valid()
    {
      !h.Start? ==> AllSeen(h.before) && Visible(h)
    }

    /** No event that goes unseen comes before a hit that is seen. */
    predicate Aligned(h: History)
      requires Valid()
    {
      !h.Start? ==> Aligned(h.before) && (h.Hit? && Visible(h) ==> AllSeen(h.before))
    }

    /** The HP at the start of the current segment. */
    function SegmentHp(h: History): int {
      match h
      case Start => start
      case Hit(before, _) => SegmentHp(before)
      case Recover(_, _) => HpAfter(h)
    }

    /** The damage dealt in the current segment. */
    function SegmentDamage(h: History): nat {
      match h
      case Start => 0
      case Hit(before, d) => SegmentDamage(before) + d
      case Recover(_, _) => 0
    }

    /**
     The bar's inverse misleads: a creature too weak for a pixel is knocked out by less than a pixel's worth, or
     a creature in range is left too weak for a pixel and the lower end of one pixel overshoots.
     */
    predicate Misjudged(segmentHp: int, damage: int)
      requires Valid()
    {
      side != 0 &&
      var left := Subtract(segmentHp, damage);
      if left == 0 then Faint(segmentHp, maxHp) && PIXELS * damage < maxHp
      else
        && Faint(left, maxHp) && !Faint(segmentHp, maxHp)
        && HpRange(1, maxHp).0 + damage > HpRange(HpToK(segmentHp, maxHp), maxHp).1
    }

    /** No seen hit of the history is misjudged. */
    predicate WellJudged(h: History)
      requires Valid()
    {
      !h.Start? ==>
        WellJudged(h.before) && (h.Hit? && Visible(h) ==> !Misjudged(SegmentHp(h), SegmentDamage(h)))
    }

    /** Some HP along the way is too weak for a pixel. */
    predicate EverFaint(h: History) {
      Faint(HpAfter(h), maxHp) || (!h.Start? && EverFaint(h.before))
    }

    /** The pruning that the log of the history gives rise to. */
    function TruePruning(h: History): Pruning
      requires Valid()
    {
      Pruning(true, HitReadings(Logged(h)), side != 0, maxHp)
    }
  }

  /** A bar is empty exactly when the creature is down. */
  lemma ShownZero(side: int, hp: int, maxHp: int)
    requires maxHp >= 1 && 0 <= hp <= maxHp
    ensures Shown(side, hp, maxHp) == 0 <==> hp == 0
  {
  }

  /** The range of one pixel when a living creature can be too weak for it. */
  lemma FaintRange(hp: int, maxHp: int)
    requires Faint(hp, maxHp) && maxHp >= 1
    ensures HpToK(hp, maxHp) == 1 && hp < HpRange(1, maxHp).0 <= HpRange(1, maxHp).1
    ensures 2 * HpRange(1, maxHp).0 <= HpRange(1, maxHp).1 + 2
  {
    var lo := HpRange(1, maxHp).0;
    OnlyOnePixelIsInexact(hp, maxHp);
    CeilDivIsLeast(maxHp, PIXELS, hp);
    CeilDivIsLeast(maxHp, PIXELS, lo - 1);
    CeilDivIsLeast(2 * maxHp, PIXELS, 2 * lo - 2);
    CeilDivIsLeast(2 * maxHp, PIXELS, lo);
    CeilDivIsLeast(maxHp, PIXELS, maxHp);
  }

  /** One hit's reading refutes the damage truly dealt exactly when the bar misleads. */
  lemma HitPassesTruth(t: Target, segmentHp: int, damage: nat)
    requires t.Valid() && 0 <= segmentHp <= t.maxHp
    ensures HitPasses(damage, Shown(t.side, segmentHp, t.maxHp),
                      Shown(t.side, Subtract(segmentHp, damage), t.maxHp), t.side != 0, t.maxHp)
            <==> !t.Misjudged(segmentHp, damage)
  {
    var left := Subtract(segmentHp, damage);
    ShownZero(t.side, left, t.maxHp);
    ShownZero(t.side, segmentHp, t.maxHp);
    if t.side != 0 {
      var kOld, kNew := HpToK(segmentHp, t.maxHp), HpToK(left, t.maxHp);
      RangeInvertsBar(segmentHp, kOld, t.maxHp);
      RangeInvertsBar(left, kNew, t.maxHp);
      if Faint(segmentHp, t.maxHp) {
        FaintRange(segmentHp, t.maxHp);
        CeilDivIsLeast(t.maxHp, PIXELS, damage);
      }
      if Faint(left, t.maxHp) {
        FaintRange(left, t.maxHp);
      }
    }
  }

  /** A bar shows some HP that the program takes to read so. */
  lemma RangeNotEmpty(hp: int, maxHp: int)
    requires maxHp >= 1 && 0 <= hp <= maxHp
    ensures HpRange(HpToK(hp, maxHp), maxHp).0 <= HpRange(HpToK(hp, maxHp), maxHp).1
  {
    RangeInvertsBar(hp, HpToK(hp, maxHp), maxHp);
    if Faint(hp, maxHp) {
      FaintRange(hp, maxHp);
    }
  }

  /** Any pixel stands for HPs of 1 to the maximum. */
  lemma PixelsAreAlive(k: int, maxHp: int)
    requires k >= 1 && maxHp >= 1
    ensures 1 <= HpRange(k, maxHp).0 && HpRange(k, maxHp).1 <= maxHp
  {
    CeilDivIsLeast(k * maxHp, PIXELS, 0);
    assert 0 < k * maxHp;
  }

  /** A hit's reading allows a damage exactly when HPs that read like the anchor and like now differ by it. */
  lemma HitPassesIff(t: Target, anchorHp: int, hp: int, damage: nat)
    requires t.Valid() && 0 <= anchorHp <= t.maxHp && 0 <= hp <= t.maxHp
    ensures HitPasses(damage, Shown(t.side, anchorHp, t.maxHp), Shown(t.side, hp, t.maxHp), t.side != 0, t.maxHp)
            <==> t.Explains(anchorHp, hp, damage)
  {
    ShownZero(t.side, hp, t.maxHp);
    if t.side != 0 {
      RangeNotEmpty(anchorHp, t.maxHp);
      RangeNotEmpty(hp, t.maxHp);
      IntervalsMeet(HpToK(anchorHp, t.maxHp), HpToK(hp, t.maxHp), damage, t.maxHp);
    }
  }

  lemma IntervalsMeet(kOld: int, kNew: int, damage: nat, maxHp: int)
    requires maxHp >= 1 && kOld >= 0 && kNew >= 0
    requires HpRange(kOld, maxHp).0 <= HpRange(kOld, maxHp).1 && HpRange(kNew, maxHp).0 <= HpRange(kNew, maxHp).1
    ensures HitPasses(damage, kOld, kNew, true, maxHp) <==>
      exists a | 0 <= a <= maxHp :: InRange(a, kOld, maxHp) && InRange(Subtract(a, damage), kNew, maxHp)
  {
    var (lo, hi) := HpRange(kOld, maxHp);
    var (newLo, newHi) := HpRange(kNew, maxHp);
    if kOld > 0 { PixelsAreAlive(kOld, maxHp); }
    if kNew > 0 { PixelsAreAlive(kNew, maxHp); }
    if HitPasses(damage, kOld, kNew, true, maxHp) {
      var a := if kNew > 0 && lo <= newLo + damage then newLo + damage else lo;
      assert InRange(a, kOld, maxHp) && InRange(Subtract(a, damage), kNew, maxHp);
    }
  }

  /** One more reading, and what it does to the segments. */
  lemma OneMoreDelta(deltas: seq<Delta>, d: Delta)
    ensures HitReadings(deltas + [d]) ==
            HitReadings(deltas) +
            if IsHeal(d) then [] else [HitReading(SegmentAnchor(deltas + [d]), d.1, SegmentStart(deltas + [d]))]
    ensures SegmentAnchor(deltas + [d]) ==
            if IsHeal(d) then d.1 else if deltas == [] then d.0 else SegmentAnchor(deltas)
    ensures SegmentStart(deltas + [d]) == if IsHeal(d) then HitCount(deltas) else SegmentStart(deltas)
    ensures HitCount(deltas + [d]) == HitCount(deltas) + if IsHeal(d) then 0 else 1
  {
    assert (deltas + [d])[..|deltas|] == deltas;
  }

  lemma SegmentSum(damages: seq<int>, from: nat, d: int)
    requires from <= |damages|
    ensures Sum((damages + [d])[from..]) == Sum(damages[from..]) + d
  {
    assert (damages + [d])[from..] == damages[from..] + [d];
    SumAppend(damages[from..], d);
  }

  lemma SumIsNotNegative(damages: seq<int>)
    requires forall i | 0 <= i < |damages| :: damages[i] >= 0
    ensures Sum(damages) >= 0
  {
    if damages != [] {
      SumIsNotNegative(damages[1..]);
    }
  }

  lemma TrueDamagesNotNegative(h: History)
    ensures forall i | 0 <= i < |TrueDamages(h)| :: TrueDamages(h)[i] >= 0
  {
  }

  lemma HpStaysInBounds(t: Target, h: History)
    requires t.Valid() && t.Plays(h)
    ensures 0 <= t.HpAfter(h) <= t.maxHp
  {
  }

  /** A seen hit reads as damage and a seen recovery as a heal. */
  lemma ReadsAsHeal(t: Target, h: History)
    requires t.Valid() && t.Plays(h) && t.Visible(h)
    ensures IsHeal((t.ShownAfter(h.before), t.ShownAfter(h))) <==> h.Recover?
  {
    assert 0 <= t.HpAfter(h.before) by { HpStaysInBounds(t, h.before); }
    if h.Hit? {
      ShownIsMonotone(t.side, t.HpAfter(h), t.HpAfter(h.before), t.maxHp);
    } else {
      ShownIsMonotone(t.side, t.HpAfter(h.before), t.HpAfter(h), t.maxHp);
    }
  }

  /** A seen event is logged; an unseen one is not. */
  lemma LoggedStep(t: Target, h: History)
    requires t.Valid() && !h.Start?
    ensures t.Logged(h) ==
            t.Logged(h.before) + if t.Visible(h) then [(t.ShownAfter(h.before), t.ShownAfter(h))] else []
  {
    var init, now := t.Readings(h.before), t.ShownAfter(h);
    var log := HpCount.Destutter(init);
    HpCount.DestutterAppend(init, now);
    HpCount.DestutterLast(init);
    HpCount.PairsAppend(log, now);
    assert t.Visible(h) ==> HpCount.Destutter(t.Readings(h)) == log + [now];
    assert !t.Visible(h) ==> HpCount.Destutter(t.Readings(h)) == log;
  }

  /** What has been read off a log so far. */
  ghost predicate LogIs(t: Target, h: History, log: seq<Delta>)
    requires t.Valid()
  {
    && HitCount(log) == t.SeenHits(h) && SegmentStart(log) == t.AnchorIndex(h)
    && Shown(t.side, t.AnchorHp(h), t.maxHp) == if log == [] then t.ShownAfter(h) else SegmentAnchor(log)
  }

  /** A seen event, logged. */
  lemma SeenStep(t: Target, h: History, log: seq<Delta>)
    requires t.Valid() && t.Plays(h) && t.Visible(h) && LogIs(t, h.before, log)
    ensures var d := (t.ShownAfter(h.before), t.ShownAfter(h));
            LogIs(t, h, log + [d]) &&
            HitReadings(log + [d]) == HitReadings(log) +
              if h.Hit? then [HitReading(Shown(t.side, t.AnchorHp(h), t.maxHp), t.ShownAfter(h),
                  t.AnchorIndex(h))] else []
  {
    ReadsAsHeal(t, h);
    OneMoreDelta(log, (t.ShownAfter(h.before), t.ShownAfter(h)));
  }

  /** The log splits into segments at the seen recoveries, with one constraint for each seen hit. */
  lemma {:induction false} SegmentsFollowEvents(t: Target, h: History)
    requires t.Valid() && t.Plays(h)
    ensures 0 <= t.AnchorHp(h) <= t.maxHp && LogIs(t, h, t.Logged(h))
  {
    if !h.Start? {
      SegmentsFollowEvents(t, h.before);
      LoggedStep(t, h);
      if t.Visible(h) {
        SeenStep(t, h, t.Logged(h.before));
      } else {
        assert t.Logged(h) == t.Logged(h.before);
      }
    } else {
      assert t.Logged(h) == [];
    }
  }

  /** The constraint a seen hit adds; other events add none. */
  lemma ReadingsStep(t: Target, h: History)
    requires t.Valid() && t.Plays(h) && !h.Start?
    ensures HitReadings(t.Logged(h)) ==
            HitReadings(t.Logged(h.before)) +
            if h.Hit? && t.Visible(h)
            then [HitReading(Shown(t.side, t.AnchorHp(h), t.maxHp), t.ShownAfter(h), t.AnchorIndex(h))] else []
  {
    SegmentsFollowEvents(t, h.before);
    LoggedStep(t, h);
    if t.Visible(h) {
      SeenStep(t, h, t.Logged(h.before));
    } else {
      assert t.Logged(h) == t.Logged(h.before);
    }
  }

  // ---------------------------------------------------------------------------
  // Which readings refute the truth
  // ---------------------------------------------------------------------------

  /** A further hit is checked against the readings there are. */
  lemma SurvivesWithHit(p: Pruning, sets: seq<seq<int>>, damages: seq<int>, d: int)
    requires p.apply && |p.hits| <= |damages| < |sets| && d in sets[|damages|]
    ensures p.Survives(sets, damages + [d]) <==> p.Survives(sets, damages)
  {
    SurvivesExtends(p, sets, damages, d);
  }

  /** A further reading judges the damages that its place in the log selects. */
  lemma SurvivesWithReading(p: Pruning, q: Pruning, sets: seq<seq<int>>, damages: seq<int>, r: HitReading)
    requires p.apply && q.apply && p.useHpRange == q.useHpRange && p.maxHp == q.maxHp
    requires p.hits == q.hits + [r] && |q.hits| < |damages| && r.segStart <= |q.hits|
    ensures p.Survives(sets, damages) <==>
      q.Survives(sets, damages) &&
      HitPasses(Sum(damages[r.segStart..|q.hits| + 1]), r.anchor, r.newVal, p.useHpRange, p.maxHp)
  {
    var j := |q.hits|;
    assert forall i | 0 <= i < j :: p.hits[i] == q.hits[i];
    forall i | 0 <= i < |damages| && i != j ensures p.Allows(damages, i) == q.Allows(damages, i) {
    }
    assert q.Allows(damages, j);
    assert p.hits[j] == r;
    if p.Survives(sets, damages) {
      assert p.Allows(damages, j);
      assert forall i | 0 <= i < |damages| :: p.Allows(damages, i) && damages[i] in sets[i];
    }
  }

  /** The true damages of a history survive its log. */
  predicate TruthSurvives(t: Target, h: History, sets: seq<seq<int>>)
    requires t.Valid()
  {
    t.TruePruning(h).Survives(sets, TrueDamages(h))
  }

  /** The reading after a seen hit refutes the truth exactly when the selected damages do not explain it. */
  lemma ReadingJudged(t: Target, h: History)
    requires t.Valid() && t.Plays(h) && h.Hit?
    ensures HitPasses(t.Selected(h), Shown(t.side, t.AnchorHp(h), t.maxHp), t.ShownAfter(h), t.side != 0, t.maxHp)
            <==> t.Explains(t.AnchorHp(h), t.HpAfter(h), t.Selected(h))
  {
    SegmentsFollowEvents(t, h);
    TrueDamagesNotNegative(h);
    SumIsNotNegative(TrueDamages(h)[t.AnchorIndex(h)..t.SeenHits(h)]);
    HitPassesIff(t, t.AnchorHp(h), t.HpAfter(h), t.Selected(h));
  }

  lemma HitSurvives(t: Target, h: History, sets: seq<seq<int>>)
    requires t.Valid() && t.Plays(h) && h.Hit? && |TrueDamages(h)| <= |sets|
    requires h.damage in sets[|TrueDamages(h.before)|]
    ensures TruthSurvives(t, h, sets) <==>
      && TruthSurvives(t, h.before, sets)
      && (t.Visible(h) ==> t.Explains(t.AnchorHp(h), t.HpAfter(h), t.Selected(h)))
  {
    var p, q := t.TruePruning(h), t.TruePruning(h.before);
    ReadingsStep(t, h);
    assert |q.hits| == t.SeenHits(h.before) by { SegmentsFollowEvents(t, h.before); }
    SurvivesWithHit(q, sets, TrueDamages(h.before), h.damage);
    if t.Visible(h) {
      var r := HitReading(Shown(t.side, t.AnchorHp(h), t.maxHp), t.ShownAfter(h), t.AnchorIndex(h));
      SurvivesWithReading(p, q, sets, TrueDamages(h), r);
      ReadingJudged(t, h);
    } else {
      assert p.hits == q.hits;
    }
  }

  /** A recovery adds no constraint. */
  lemma RecoveryAddsNothing(t: Target, h: History)
    requires t.Valid() && t.Plays(h) && h.Recover?
    ensures t.TruePruning(h) == t.TruePruning(h.before) && TrueDamages(h) == TrueDamages(h.before)
  {
    ReadingsStep(t, h);
  }

  /**
   The true damages survive the pruning if and only if the reading after every seen hit can be explained by the
   damages its place in the log selects.
   */
  lemma {:induction false} TruthSurvivesIff(t: Target, h: History, sets: seq<seq<int>>)
    requires t.Valid() && t.Plays(h) && |TrueDamages(h)| <= |sets|
    requires forall i | 0 <= i < |TrueDamages(h)| :: TrueDamages(h)[i] in sets[i]
    ensures TruthSurvives(t, h, sets) <==> t.WellRead(h)
  {
    match h {
      case Start =>
      case Hit(before, d) =>
        var damages := TrueDamages(before);
        assert TrueDamages(h)[..|damages|] == damages && TrueDamages(h)[|damages|] == d;
        assert forall i | 0 <= i < |damages| :: damages[i] == TrueDamages(h)[i];
        TruthSurvivesIff(t, before, sets);
        HitSurvives(t, h, sets);
      case Recover(before, _) =>
        TruthSurvivesIff(t, before, sets);
        RecoveryAddsNothing(t, h);
    }
  }

  /** Readings that follow leave the constraints so far in place. */
  lemma {:induction false} HitReadingsPrefix(log: seq<Delta>, later: seq<Delta>)
    ensures HitReadings(log) <= HitReadings(log + later)
    decreases |later|
  {
    if later == [] {
      assert log + later == log;
    } else {
      var init, last := later[..|later| - 1], later[|later| - 1];
      HitReadingsPrefix(log, init);
      OneMoreDelta(log + init, last);
      assert (log + init) + [last] == log + later;
    }
  }

  /** The target's readings of the turn: those of the history, and after them any others once every hit was seen. */
  predicate TurnLog(t: Target, h: History, deltas: seq<Delta>)
    requires t.Valid()
  {
    t.Logged(h) <= deltas && (deltas == t.Logged(h) || t.SeenHits(h) == |TrueDamages(h)|)
  }

  /** What the bar shows after the move does not matter once every hit was seen. */
  lemma LaterReadingsIgnored(t: Target, h: History, deltas: seq<Delta>, sets: seq<seq<int>>)
    requires t.Valid() && t.Plays(h) && TurnLog(t, h, deltas)
    ensures Pruning(true, HitReadings(deltas), t.side != 0, t.maxHp).Survives(sets, TrueDamages(h)) <==>
      TruthSurvives(t, h, sets)
  {
    var p, q := Pruning(true, HitReadings(deltas), t.side != 0, t.maxHp), t.TruePruning(h);
    if deltas != t.Logged(h) {
      var log := t.Logged(h);
      assert log + deltas[|log|..] == deltas;
      HitReadingsPrefix(log, deltas[|log|..]);
      SegmentsFollowEvents(t, h);
      assert forall i | 0 <= i < |q.hits| :: p.hits[i] == q.hits[i];
      forall i | 0 <= i < |TrueDamages(h)| ensures p.Allows(TrueDamages(h), i) == q.Allows(TrueDamages(h), i) {
      }
    }
  }

  // ---------------------------------------------------------------------------
  // When nothing goes unseen
  // ---------------------------------------------------------------------------

  /** Within a segment damage adds up. */
  lemma {:induction false} SegmentAddsUp(t: Target, h: History)
    requires t.Valid() && t.Plays(h)
    ensures 0 <= t.SegmentHp(h) <= t.maxHp
    ensures t.HpAfter(h) == Subtract(t.SegmentHp(h), t.SegmentDamage(h))
  {
    if !h.Start? {
      SegmentAddsUp(t, h.before);
    }
  }

  /** While every event is seen, the log selects exactly the damages of the segment. */
  lemma {:induction false} AllSeenSelects(t: Target, h: History)
    requires t.Valid() && t.AllSeen(h)
    ensures t.AnchorHp(h) == t.SegmentHp(h) && t.SeenHits(h) == |TrueDamages(h)|
    ensures t.Selected(h) == t.SegmentDamage(h)
  {
    if !h.Start? {
      AllSeenSelects(t, h.before);
      var damages := TrueDamages(h.before);
      if h.Hit? {
        SegmentSum(damages, t.AnchorIndex(h), h.damage);
        assert damages[t.AnchorIndex(h)..] == damages[t.AnchorIndex(h)..|damages|];
        assert (damages + [h.damage])[t.AnchorIndex(h)..] == TrueDamages(h)[t.AnchorIndex(h)..t.SeenHits(h)];
      }
    }
  }

  /**
   When no unseen event comes before a seen hit, the readings explain the damages exactly when no seen hit is
   misjudged: always for the player's exact readings, and whenever no HP is too weak for a pixel.
   */
  lemma {:induction false} AlignedIsWellRead(t: Target, h: History)
    requires t.Valid() && t.Plays(h) && t.Aligned(h)
    ensures t.WellRead(h) <==> t.WellJudged(h)
    ensures t.side == 0 || !t.EverFaint(h) ==> t.WellJudged(h)
  {
    if !h.Start? {
      AlignedIsWellRead(t, h.before);
      if h.Hit? && t.Visible(h) {
        AllSeenSelects(t, h);
        SegmentAddsUp(t, h);
        SegmentHpOccurs(t, h);
        HitPassesIff(t, t.SegmentHp(h), t.HpAfter(h), t.SegmentDamage(h));
        HitPassesTruth(t, t.SegmentHp(h), t.SegmentDamage(h));
      }
    }
  }

  lemma SegmentHpOccurs(t: Target, h: History)
    ensures Faint(t.SegmentHp(h), t.maxHp) ==> t.EverFaint(h)
  {
  }

  /** Every event changes the HP. */
  predicate AllMatter(t: Target, h: History) {
    !h.Start? ==> AllMatter(t, h.before) && t.HpAfter(h) != t.HpAfter(h.before)
  }

  /** The player's exact HP shows every event that matters, so then the true damages survive. */
  lemma ExactTruthSurvives(t: Target, h: History, sets: seq<seq<int>>)
    requires t.Valid() && t.Plays(h) && t.side == 0 && AllMatter(t, h) && |TrueDamages(h)| <= |sets|
    requires forall i | 0 <= i < |TrueDamages(h)| :: TrueDamages(h)[i] in sets[i]
    ensures TruthSurvives(t, h, sets)
  {
    ExactIsSeen(t, h);
    AlignedIsWellRead(t, h);
    TruthSurvivesIff(t, h, sets);
  }

  lemma ExactIsSeen(t: Target, h: History)
    requires t.Valid() && t.side == 0 && AllMatter(t, h)
    ensures t.AllSeen(h) && t.Aligned(h)
  {
  }

  /** The log that the capture loop keeps of a clearly filmed history is the one assumed here. */
  lemma LoggedFromFilm(t: Target, h: History, required: int, rests: seq<HpFilm.Rest>)
    requires t.Valid() && HpFilm.Values(rests) == t.Readings(h)
    requires forall r | r in rests :: r.held >= Stability.Needed(required)
    ensures HpCount.Pairs(Stability.Confirmations(required, HpFilm.Film(rests))) == t.Logged(h)
  {
    HpFilm.ClearFilmIsLogged(required, rests);
  }

  // ---------------------------------------------------------------------------
  // Inputs the pruning gets wrong
  // ---------------------------------------------------------------------------

  /** 6 HP of 100, hit for 5 and for 1. */
  const FAINT_TARGET: Target := Target(1, 100, 6)
  const FAINT_HITS: History := Hit(Hit(Start, 5), 1)

  /** The bar shows 2, 1, 0; but one pixel is taken for 3 HP or more, 5 below which is above any HP of two pixels. */
  lemma FaintTargetIsMisjudged()
    ensures FAINT_TARGET.Plays(FAINT_HITS) && FAINT_TARGET.Logged(FAINT_HITS) == [(2, 1), (1, 0)]
    ensures TrueDamages(FAINT_HITS) == [5, 1] && FAINT_TARGET.AllSeen(FAINT_HITS) && !FAINT_TARGET.WellRead(FAINT_HITS)
  {
    var t, first := FAINT_TARGET, Hit(Start, 5);
    assert t.HpAfter(first) == 1 && t.HpAfter(FAINT_HITS) == 0;
    assert t.Logged(Start) == [];
    LoggedStep(t, first);
    LoggedStep(t, FAINT_HITS);
    assert TrueDamages(first) == [5];
    AllSeenSelects(t, first);
    FaintRanges();
  }

  lemma FaintRanges()
    ensures HpToK(6, 100) == 2 && HpToK(1, 100) == 1
    ensures HpRange(2, 100) == (5, 6) && HpRange(1, 100) == (3, 4)
  {
  }

  /** 51 HP of 100, hit for 1 and for 10. */
  const STURDY_TARGET: Target := Target(1, 100, 51)
  const UNSEEN_HIT: History := Hit(Hit(Start, 1), 10)

  /**
   The bar shows 24, 24, 19, so only the second hit is logged, and its reading is compared with the first's damage.
   */
  lemma UnseenHitShiftsReadings()
    ensures STURDY_TARGET.Plays(UNSEEN_HIT) && STURDY_TARGET.Logged(UNSEEN_HIT) == [(24, 19)]
    ensures TrueDamages(UNSEEN_HIT) == [1, 10] && !STURDY_TARGET.EverFaint(UNSEEN_HIT)
    ensures STURDY_TARGET.WellJudged(UNSEEN_HIT) && !STURDY_TARGET.WellRead(UNSEEN_HIT)
  {
    var t, first := STURDY_TARGET, Hit(Start, 1);
    assert t.HpAfter(first) == 50 && t.HpAfter(UNSEEN_HIT) == 40;
    assert t.Logged(Start) == [];
    LoggedStep(t, first);
    LoggedStep(t, UNSEEN_HIT);
    assert TrueDamages(first) == [1];
    assert TrueDamages(UNSEEN_HIT)[0..1] == [1] && Sum([1]) == 1;
    SturdyRanges();
  }

  lemma SturdyRanges()
    ensures HpToK(51, 100) == HpToK(50, 100) == 24 && HpToK(40, 100) == 19
    ensures HpRange(24, 100) == (50, 52) && HpRange(19, 100) == (40, 41)
  {
  }
}
