/** A move that really hit several times: the sweep keeps its damages, unless the bar misled the pruning. */
module TrueHits {
  import opened Common
  import opened MultiHit
  import opened MultiHitTruth
  import opened SweepConfig
  import opened MoverRolls
  import opened PhaseLoop
  import opened SweepExactness

  /** The sweep goes on with rolls that stand for the damages truly dealt. */
  ghost predicate KeepsTruth<S(!new)>(
      engine: Engine<S>, movers: seq<Mover>, decided: seq<Entry>, crits: seq<bool>, damages: seq<int>)
    requires |decided| < |movers| && movers[|decided|].hitCount > 0 && |crits| == movers[|decided|].hitCount
  {
    exists rolls: seq<nat> ::
      && |rolls| == movers[|decided|].hitCount
      && Represents(QueryOf(engine, movers, decided, crits), PruningOf(movers[|decided|]), rolls, damages)
      && ExtendsWith(engine, movers, decided, EntryOf(rolls, crits), crits)
  }

  /** The mover hits the target as in the history, which is what the target's log of the turn starts with. */
  predicate IsHitBy(m: Mover, t: Target, h: History, crits: seq<bool>) {
    && m.hitCount > 1 && IsCritAssignment(m.hitCount, CritCount(m), crits)
    && t.Valid() && t.Plays(h) && TurnLog(t, h, m.deltas) && m.maxHp == t.maxHp
    && 0 <= t.side <= 1 && t.side == 1 - m.slot.0
    && |TrueDamages(h)| == m.hitCount
  }

  /** The readings allow the damages truly dealt if and only if every seen hit's reading can be explained. */
  lemma AllowedIffWellRead(m: Mover, t: Target, h: History, crits: seq<bool>)
    requires IsHitBy(m, t, h, crits)
    ensures PruningOf(m).AllowsAll(TrueDamages(h)) <==> t.WellRead(h)
  {
    var sets := seq(|TrueDamages(h)|, i requires 0 <= i < |TrueDamages(h)| => [TrueDamages(h)[i]]);
    TruthSurvivesIff(t, h, sets);
    LaterReadingsIgnored(t, h, m.deltas, sets);
    assert PruningOf(m) == Pruning(true, HitReadings(m.deltas), t.side != 0, t.maxHp);
  }

  /** Whatever the simulator, the true damages are lost when a reading cannot be explained. */
  lemma KeptIsWellRead<S(!new)>(
      engine: Engine<S>, movers: seq<Mover>, decided: seq<Entry>, crits: seq<bool>, t: Target, h: History)
    requires |decided| < |movers| && IsHitBy(movers[|decided|], t, h, crits)
    requires KeepsTruth(engine, movers, decided, crits, TrueDamages(h))
    ensures t.WellRead(h)
  {
    var m := movers[|decided|];
    var r: seq<nat> :| |r| == m.hitCount &&
      Represents(QueryOf(engine, movers, decided, crits), PruningOf(m), r, TrueDamages(h));
    AllowedIffWellRead(m, t, h, crits);
  }

  /**
   When every hit deals in its probe the damage it truly dealt, the true damages are kept if and only if the reading
   after every seen hit can be explained by the damages its place in the log selects; when no unseen event comes
   before a seen hit, that is if and only if no seen hit is misjudged.
   */
  lemma TrueHitsAreKept<S(!new)>(
      engine: Engine<S>, movers: seq<Mover>, decided: seq<Entry>, crits: seq<bool>, rolls: seq<nat>, t: Target,
      h: History)
    requires |decided| < |movers| && IsHitBy(movers[|decided|], t, h, crits) && |rolls| == |TrueDamages(h)|
    requires forall i | 0 <= i < |rolls| :: (
      rolls[i] < ROLLS && QueryOf(engine, movers, decided, crits).DamageAt(i, rolls[i]) == Some(TrueDamages(h)[i]))
    ensures KeepsTruth(engine, movers, decided, crits, TrueDamages(h)) <==> t.WellRead(h)
    ensures t.Aligned(h) ==> (KeepsTruth(engine, movers, decided, crits, TrueDamages(h)) <==> t.WellJudged(h))
  {
    var m := movers[|decided|];
    var q := QueryOf(engine, movers, decided, crits);
    if KeepsTruth(engine, movers, decided, crits, TrueDamages(h)) {
      KeptIsWellRead(engine, movers, decided, crits, t, h);
    }
    if t.WellRead(h) {
      TruthIsKept(engine, movers, decided, crits, rolls, t, h);
    }
    if t.Aligned(h) {
      AlignedIsWellRead(t, h);
    }
  }

  lemma TruthIsKept<S(!new)>(
      engine: Engine<S>, movers: seq<Mover>, decided: seq<Entry>, crits: seq<bool>, rolls: seq<nat>, t: Target,
      h: History)
    requires |decided| < |movers| && IsHitBy(movers[|decided|], t, h, crits) && |rolls| == |TrueDamages(h)|
    requires forall i | 0 <= i < |rolls| :: (
      rolls[i] < ROLLS && QueryOf(engine, movers, decided, crits).DamageAt(i, rolls[i]) == Some(TrueDamages(h)[i]))
    requires t.WellRead(h)
    ensures KeepsTruth(engine, movers, decided, crits, TrueDamages(h))
  {
    var m := movers[|decided|];
    var q := QueryOf(engine, movers, decided, crits);
    AllowedIffWellRead(m, t, h, crits);
    var first := FirstRolls(q, rolls, TrueDamages(h), |rolls|);
    assert Represents(q, PruningOf(m), first, TrueDamages(h));
    assert Chosen(q, PruningOf(m), first);
    assert ExtendsWith(engine, movers, decided, EntryOf(first, crits), crits);
  }

  /**
   A two-hit move of the player whose first hit is too weak to show: the sweep loses the truth, whatever the
   simulator.
   */
  lemma UnseenHitLosesTruth<S(!new)>(engine: Engine<S>, movers: seq<Mover>, decided: seq<Entry>, crits: seq<bool>)
    requires |decided| < |movers|
    requires var m := movers[|decided|];
             && m.slot.0 == 0 && m.hitCount == 2 && IsCritAssignment(2, CritCount(m), crits)
             && m.maxHp == 100 && m.deltas == [(24, 19)]
    ensures !KeepsTruth(engine, movers, decided, crits, [1, 10])
  {
    UnseenHitShiftsReadings();
    if KeepsTruth(engine, movers, decided, crits, [1, 10]) {
      KeptIsWellRead(engine, movers, decided, crits, STURDY_TARGET, UNSEEN_HIT);
    }
  }

  /** A two-hit move of the player that leaves its target too weak for a pixel loses the truth as well. */
  lemma FaintTargetLosesTruth<S(!new)>(engine: Engine<S>, movers: seq<Mover>, decided: seq<Entry>, crits: seq<bool>)
    requires |decided| < |movers|
    requires var m := movers[|decided|];
             && m.slot.0 == 0 && m.hitCount == 2 && IsCritAssignment(2, CritCount(m), crits)
             && m.maxHp == 100 && m.deltas == [(2, 1), (1, 0)]
    ensures !KeepsTruth(engine, movers, decided, crits, [5, 1])
  {
    FaintTargetIsMisjudged();
    if KeepsTruth(engine, movers, decided, crits, [5, 1]) {
      KeptIsWellRead(engine, movers, decided, crits, FAINT_TARGET, FAINT_HITS);
    }
  }
}
