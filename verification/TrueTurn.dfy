/**
 The turn that was really played, from the sweep to the end-of-turn checks: when it is among the survivors, and that
 the checks on the HP records keep it exactly when every watched creature's run and final HP are ones the bar does
 not mislead about.
 */
module TrueTurn {
  import opened Common
  import opened HpBar
  import opened HpCount
  import opened MultiHitTruth
  import opened PhaseLoop
  import opened SweepConfig
  import opened SweepExactness
  import opened SweepRefinement
  import opened StepEngine
  import opened TrueHits

  /** A creature watched through the turn: its record, its name and its real HPs, one after each of its changes. */
  datatype Watched = Watched(record: HpDeltaSeq, species: string, hps: seq<int>)

  /** What a final state tells: the events logged on the way, and the HP of the creature of each record. */
  datatype Reader<!S> = Reader(events: S -> seq<SimEvent>, hp: (S, nat) -> int)

  function SubjectOf<S(!new)>(reader: Reader<S>, state: S, w: Watched, i: nat): Subject {
    Subject(w.record, w.species, reader.hp(state, i))
  }

  /** A creature that can have been watched: on side 1 its HPs fit its bar. */
  predicate Plausible(w: Watched) {
    w.record.side == 0 || (w.record.maxHp >= 1 && forall i | 0 <= i < |w.hps| :: 0 <= w.hps[i] <= w.record.maxHp)
  }

  /** The state is the one the real HPs lead to, and the record is what the bar showed of them. */
  predicate Truthful<S(!new)>(reader: Reader<S>, state: S, w: Watched, i: nat) {
    Plausible(w) && Recorded(reader.events(state), SubjectOf(reader, state, w, i), w.hps)
  }

  /** The sweep's checks of the record: the final HP matches, and the counts of changes agree. */
  predicate ChecksPass<S(!new)>(reader: Reader<S>, state: S, w: Watched, i: nat) {
    && Plausible(w)
    && MatchesLast(w.record, reader.hp(state, i))
    && CountsAgree(reader.events(state), SubjectOf(reader, state, w, i))
  }

  /** The creature did not end a turn in which its bar moved too weak for a pixel, and its run passes. */
  predicate KeepsRecord<S(!new)>(reader: Reader<S>, state: S, w: Watched) {
    && Plausible(w) && |w.hps| == |Changes(reader.events(state), w.record.side, w.species)| + 1
    && (w.record.deltas == [] || w.record.side == 0 || !Faint(w.hps[|w.hps| - 1], w.record.maxHp))
    && RunPasses(w.record.side, w.record.maxHp, w.hps, Changes(reader.events(state), w.record.side, w.species))
  }

  lemma PairsEnd(log: seq<int>)
    requires |log| >= 2
    ensures Pairs(log) != [] && Pairs(log)[|Pairs(log)| - 1].1 == log[|log| - 1]
  {
    var init, last := log[..|log| - 1], log[|log| - 1];
    PairsAppend(init, last);
    assert init + [last] == log;
  }

  /** A record that is not empty ends in what the bar showed last. */
  lemma RecordEnds(readings: seq<int>)
    requires readings != [] && Pairs(Destutter(readings)) != []
    ensures var deltas := Pairs(Destutter(readings)); deltas[|deltas| - 1].1 == readings[|readings| - 1]
  {
    DestutterLast(readings);
    PairsEnd(Destutter(readings));
  }

  /** The checks of the true state keep a record exactly when the bar does not mislead about it. */
  lemma ChecksPassIff<S(!new)>(reader: Reader<S>, state: S, w: Watched, i: nat)
    requires Truthful(reader, state, w, i)
    ensures ChecksPass(reader, state, w, i) <==> KeepsRecord(reader, state, w)
  {
    RunAgreesIff(reader.events(state), SubjectOf(reader, state, w, i), w.hps);
    if w.record.deltas != [] {
      RecordEnds(ShownAll(w.record.side, w.hps, w.record.maxHp));
      TrueOutcomeMatches(w.record, reader.hp(state, i));
    }
  }

  ghost predicate AllTruthful<S(!new)>(reader: Reader<S>, state: S, watched: seq<Watched>) {
    forall i | 0 <= i < |watched| :: Truthful(reader, state, watched[i], i)
  }

  ghost predicate AllPass<S(!new)>(reader: Reader<S>, state: S, watched: seq<Watched>) {
    forall i | 0 <= i < |watched| :: ChecksPass(reader, state, watched[i], i)
  }

  ghost predicate AllKept<S(!new)>(reader: Reader<S>, state: S, watched: seq<Watched>) {
    forall i | 0 <= i < |watched| :: KeepsRecord(reader, state, watched[i])
  }

  lemma AllPassIff<S(!new)>(reader: Reader<S>, state: S, watched: seq<Watched>)
    requires AllTruthful(reader, state, watched)
    ensures AllPass(reader, state, watched) <==> AllKept(reader, state, watched)
  {
    forall i | 0 <= i < |watched|
      ensures ChecksPass(reader, state, watched[i], i) <==> KeepsRecord(reader, state, watched[i])
    {
      ChecksPassIff(reader, state, watched[i], i);
    }
  }

  // ---------------------------------------------------------------------------
  // Single hits, step by step
  // ---------------------------------------------------------------------------

  /** Draws that play the same turn go through the same states, so their simulations complete alike. */
  lemma SameTurnCompletes<S(!new)>(
      m: Machine<S>, movers: seq<Mover>, confused: Option<Slot>, x: seq<Draw>, y: seq<Draw>,
      r: Option<RollSpec>, q: Option<RollSpec>)
    requires WellPlaced(movers, confused) && AreDraws(movers, x) && AreDraws(movers, y)
    requires Play(m, movers, AllForced(movers, x), confused, r).Some?
    requires Play(m, movers, AllForced(movers, x), confused, r) == Play(m, movers, AllForced(movers, y), confused, q)
    requires CompletesUndecided(EngineOf(m, movers, confused), movers, AllForced(movers, y))
    ensures CompletesUndecided(EngineOf(m, movers, confused), movers, AllForced(movers, x))
  {
    var a, b := AllForced(movers, x), AllForced(movers, y);
    forall k: nat | k < |movers| ensures HitsAt(m, movers, a, k) == HitsAt(m, movers, b, k) {
      LoggedDamage(m, movers, a, confused, k, |movers|);
      LoggedDamage(m, movers, b, confused, k, |movers|);
    }
    assert SameHits(m, movers, a, b);
    forall k: nat | k < |movers| ensures CompletesAfter(EngineOf(m, movers, confused), movers, a, k) {
      assert CompletesAfter(EngineOf(m, movers, confused), movers, b, k);
      SameHitsCompleteAlike(m, movers, confused, x, y, k);
    }
  }

  /** After the same hits, the simulations with later movers undecided deal the same hits. */
  lemma UndecidedHitAlike<S(!new)>(
      m: Machine<S>, movers: seq<Mover>, a: seq<Entry>, b: seq<Entry>, u: seq<Entry>, v: seq<Entry>, k: nat)
    requires |a| == |b| == |u| == |v| == |movers| && k < |movers| && SameHits(m, movers, a, b)
    requires forall j | 0 <= j <= k :: u[j] == a[j] && v[j] == b[j]
    requires forall j | k < j < |movers| :: u[j] == v[j]
    ensures SameHits(m, movers, u, v)
  {
    PrefixDecides(m, movers, u, a, k + 1);
    PrefixDecides(m, movers, v, b, k + 1);
    SameHitsSameStates(m, movers, a, b, k + 1);
    forall j: nat | j < |movers| ensures HitsAt(m, movers, u, j) == HitsAt(m, movers, v, j) {
      if j <= k {
        PrefixDecides(m, movers, u, a, j);
        PrefixDecides(m, movers, v, b, j);
        assert HitsAt(m, movers, a, j) == HitsAt(m, movers, b, j);
      } else {
        SuffixFollows(m, movers, u, v, k + 1, j);
      }
    }
  }

  lemma DrawIsDecided(movers: seq<Mover>, draws: seq<Draw>, j: nat)
    requires AreDraws(movers, draws) && j < |draws|
    ensures AllForced(movers, draws)[j] != UNDECIDED
  {
    assert IsDraw(movers[j], draws[j]);
    ForcedHit(movers[j], draws[j], 0);
  }

  lemma SameHitsCompleteAlike<S(!new)>(
      m: Machine<S>, movers: seq<Mover>, confused: Option<Slot>, x: seq<Draw>, y: seq<Draw>, k: nat)
    requires WellPlaced(movers, confused) && AreDraws(movers, x) && AreDraws(movers, y) && k < |movers|
    requires SameHits(m, movers, AllForced(movers, x), AllForced(movers, y))
    ensures CompletesAfter(EngineOf(m, movers, confused), movers, AllForced(movers, x), k) <==>
            CompletesAfter(EngineOf(m, movers, confused), movers, AllForced(movers, y), k)
  {
    var a, b := AllForced(movers, x), AllForced(movers, y);
    var u, v := Padded(a[..k] + [a[k]], |movers|), Padded(b[..k] + [b[k]], |movers|);
    RunPlays(m, movers, confused, a[..k] + [a[k]], NoSelfHit);
    RunPlays(m, movers, confused, b[..k] + [b[k]], NoSelfHit);
    UndecidedHitAlike(m, movers, a, b, u, v, k);
    forall j | 0 <= j < |movers| ensures (u[j] == UNDECIDED) == (v[j] == UNDECIDED) {
      if j <= k {
        DrawIsDecided(movers, x, j);
        DrawIsDecided(movers, y, j);
      }
    }
    SameHitsSameTurn(m, movers, u, v, confused, None);
  }

  /** What finds a turn plays it. */
  lemma FoundIsPlayed<S(!new)>(
      m: Machine<S>, movers: seq<Mover>, confused: Option<Slot>, entries: seq<Entry>, turn: Turn<S>)
    returns (roll: Option<RollSpec>)
    requires WellPlaced(movers, confused) && |entries| == |movers|
    requires AssignmentFinds(EngineOf(m, movers, confused), movers, SelfHits(confused), entries, turn)
    ensures Play(m, movers, entries, confused, roll) == Some(turn)
  {
    assert Padded(entries, |movers|) == entries;
    var self := NoSelfHit;
    if SelfHits(confused) != {} {
      var slot, r: nat :|
        slot in SelfHits(confused) && SelfHitFinds(EngineOf(m, movers, confused), movers, entries, slot, r, turn);
      self := SelfHit(slot, Sixteenth(r));
    }
    roll := ForcedRoll(self);
    RunPlays(m, movers, confused, entries, self);
  }

  /**
   The turn really played, when movers hit once: the sweep finds it if and only if every simulation on the way to it,
   with later movers undecided, completes; and it passes the checks if and only if the bar misleads about none of the
   watched creatures.
   */
  lemma TrueTurnIsKept<S(!new)>(
      m: Machine<S>, movers: seq<Mover>, confused: Option<Slot>, draws: seq<Draw>, selves: SelfRolls, turn: Turn<S>,
      reader: Reader<S>, watched: seq<Watched>)
    requires WellPlaced(movers, confused) && HitOnce(movers)
    requires BruteForceBy(EngineOf(m, movers, confused), movers, SelfHits(confused), draws, selves, turn)
    requires AllTruthful(reader, turn.state, watched)
    ensures SweepFinds(EngineOf(m, movers, confused), movers, SelfHits(confused), turn) <==>
            CompletesUndecided(EngineOf(m, movers, confused), movers, AllForced(movers, draws))
    ensures AllPass(reader, turn.state, watched) <==> AllKept(reader, turn.state, watched)
  {
    var engine, selfHits := EngineOf(m, movers, confused), SelfHits(confused);
    var entries := AllForced(movers, draws);
    SelvesAreOne(engine, movers, selfHits, entries, selves, turn);
    StepsRollsExchange(m, movers, confused);
    SweepIsStepwise(engine, movers, selfHits, turn);
    if CompletesUndecided(engine, movers, entries) {
      assert StepwiseBy(engine, movers, selfHits, draws, turn);
    }
    if StepwiseFinds(engine, movers, selfHits, turn) {
      var others :| StepwiseBy(engine, movers, selfHits, others, turn);
      var r := FoundIsPlayed(m, movers, confused, entries, turn);
      var q := FoundIsPlayed(m, movers, confused, AllForced(movers, others), turn);
      SameTurnCompletes(m, movers, confused, draws, others, r, q);
    }
    AllPassIff(reader, turn.state, watched);
  }

  // ---------------------------------------------------------------------------
  // Single and multiple hits together
  // ---------------------------------------------------------------------------

  /** The history of a mover's hits on its target. */
  datatype Hits = Hits(target: Target, history: History)

  /** The mover truly dealt these damages: a mover that hits several times dealt them as in its history. */
  predicate TrulyDealt(m: Mover, d: Draw, damages: seq<int>, hits: Hits) {
    m.hitCount > 1 ==> IsHitBy(m, hits.target, hits.history, d.crits) && damages == TrueDamages(hits.history)
  }

  /** The readings between a mover's hits can be explained. */
  predicate HitsWellRead(m: Mover, hits: Hits) {
    m.hitCount > 1 ==> hits.target.Valid() && hits.target.WellRead(hits.history)
  }

  /** What was truly drawn: every mover's hits land in the simulations that probe them as they truly did. */
  ghost predicate TrulyDrawn<S(!new)>(
      engine: Engine<S>, movers: seq<Mover>, draws: seq<Draw>, damages: seq<seq<int>>, hits: seq<Hits>)
  {
    && AreDraws(movers, draws) && |damages| == |hits| == |draws|
    && forall k | 0 <= k < |draws| :: TrulyDrawnAt(engine, movers, draws, damages, hits, k)
  }

  ghost predicate TrulyDrawnAt<S(!new)>(
      engine: Engine<S>, movers: seq<Mover>, draws: seq<Draw>, damages: seq<seq<int>>, hits: seq<Hits>, k: nat)
    requires AreDraws(movers, draws) && k < |draws| == |damages| == |hits|
  {
    assert IsDraw(movers[k], draws[k]);
    && SeenAs(engine, movers, AllForced(movers, draws)[..k], draws[k], damages[k])
    && TrulyDealt(movers[k], draws[k], damages[k], hits[k])
  }

  ghost predicate AllWellRead(movers: seq<Mover>, hits: seq<Hits>) {
    |hits| == |movers| && forall k | 0 <= k < |movers| :: HitsWellRead(movers[k], hits[k])
  }

  /** Some survivor has the turn, with rolls that stand for the damages. */
  ghost predicate FindsWith<S(!new)>(
      engine: Engine<S>, movers: seq<Mover>, selfHits: set<Slot>, turn: Turn<S>, damages: seq<seq<int>>)
    requires AllHit(movers)
  {
    exists s :: FoundWith(engine, movers, selfHits, turn, damages, s)
  }

  ghost predicate FoundWith<S(!new)>(
      engine: Engine<S>, movers: seq<Mover>, selfHits: set<Slot>, turn: Turn<S>, damages: seq<seq<int>>, s: Survivor<S>)
    requires AllHit(movers)
  {
    && IsSurvivor(engine, movers, selfHits, s) && s.turn == turn && DealsAll(engine, movers, s.entries, damages)
  }

  /** The readings allow a mover's true damages exactly when they can be explained; single hits are not pruned. */
  lemma AllowedIff(m: Mover, d: Draw, damages: seq<int>, hits: Hits)
    requires IsDraw(m, d) && TrulyDealt(m, d, damages, hits)
    ensures PruningOf(m).AllowsAll(damages) <==> HitsWellRead(m, hits)
  {
    if m.hitCount > 1 {
      AllowedIffWellRead(m, hits.target, hits.history, d.crits);
    }
  }

  lemma WellReadIsAdmitted<S(!new)>(
      engine: Engine<S>, movers: seq<Mover>, draws: seq<Draw>, damages: seq<seq<int>>, hits: seq<Hits>)
    requires TrulyDrawn(engine, movers, draws, damages, hits) && AllWellRead(movers, hits)
    ensures AdmitsAll(engine, movers, draws, damages)
  {
    forall k | 0 <= k < |draws| ensures AdmitsAt(engine, movers, [], draws, damages, k) {
      assert TrulyDrawnAt(engine, movers, draws, damages, hits, k) && IsDraw(movers[k], draws[k]);
      assert [] + AllForced(movers, draws)[0..k] == AllForced(movers, draws)[..k];
      assert HitsWellRead(movers[k], hits[k]);
      AllowedIff(movers[k], draws[k], damages[k], hits[k]);
    }
  }

  lemma DealtIsWellRead<S(!new)>(
      engine: Engine<S>, movers: seq<Mover>, p: seq<Entry>, k: nat, d: Draw, damages: seq<int>, hits: Hits)
    requires k < |p| <= |movers| && Deals(engine, movers, p, k, damages)
    requires IsDraw(movers[k], d) && TrulyDealt(movers[k], d, damages, hits)
    ensures HitsWellRead(movers[k], hits)
  {
    var dealt :| IsDealt(engine, movers, p, k, dealt, damages);
    AllowedIff(movers[k], d, damages, hits);
  }

  /**
   The turn really played, when movers hit once or several times and the simulator may stop: the sweep finds it, with
   the damages truly dealt, if and only if the readings between the hits of every mover that hits several times can be
   explained.
   */
  lemma MixedTurnIsFound<S(!new)>(
      engine: Engine<S>, movers: seq<Mover>, selfHits: set<Slot>, draws: seq<Draw>, damages: seq<seq<int>>,
      hits: seq<Hits>, turn: Turn<S>)
    requires AllHit(movers) && RollsExchange(engine, movers, selfHits)
    requires TrulyDrawn(engine, movers, draws, damages, hits)
    requires AssignmentFinds(engine, movers, selfHits, AllForced(movers, draws), turn)
    ensures FindsWith(engine, movers, selfHits, turn, damages) <==> AllWellRead(movers, hits)
  {
    if AllWellRead(movers, hits) {
      WellReadIsAdmitted(engine, movers, draws, damages, hits);
      var s := AdmittedSurvive(engine, movers, selfHits, draws, damages, turn);
      assert FoundWith(engine, movers, selfHits, turn, damages, s);
    }
    if FindsWith(engine, movers, selfHits, turn, damages) {
      var s :| FoundWith(engine, movers, selfHits, turn, damages, s);
      forall k | 0 <= k < |movers| ensures HitsWellRead(movers[k], hits[k]) {
        assert TrulyDrawnAt(engine, movers, draws, damages, hits, k) && IsDraw(movers[k], draws[k]);
        DealtIsWellRead(engine, movers, s.entries, k, draws[k], damages[k], hits[k]);
      }
    }
  }

  /** The same for every deterministic step per mover, with the checks on the HP records. */
  lemma MixedTurnIsKept<S(!new)>(
      m: Machine<S>, movers: seq<Mover>, confused: Option<Slot>, draws: seq<Draw>, damages: seq<seq<int>>,
      hits: seq<Hits>, selves: SelfRolls, turn: Turn<S>, reader: Reader<S>, watched: seq<Watched>)
    requires WellPlaced(movers, confused) && AllHit(movers)
    requires BruteForceBy(EngineOf(m, movers, confused), movers, SelfHits(confused), draws, selves, turn)
    requires TrulyDrawn(EngineOf(m, movers, confused), movers, draws, damages, hits)
    requires AllTruthful(reader, turn.state, watched)
    ensures FindsWith(EngineOf(m, movers, confused), movers, SelfHits(confused), turn, damages) <==>
            AllWellRead(movers, hits)
    ensures AllPass(reader, turn.state, watched) <==> AllKept(reader, turn.state, watched)
  {
    var engine, selfHits := EngineOf(m, movers, confused), SelfHits(confused);
    StepsRollsExchange(m, movers, confused);
    SelvesAreOne(engine, movers, selfHits, AllForced(movers, draws), selves, turn);
    MixedTurnIsFound(engine, movers, selfHits, draws, damages, hits, turn);
    AllPassIff(reader, turn.state, watched);
  }

  /** Every mover acts and all its hits land. */
  ghost predicate AllLand<S(!new)>(m: Machine<S>, movers: seq<Mover>, entries: seq<Entry>)
    requires |entries| == |movers|
  {
    forall k: nat | k < |movers| ::
      m.acts(k, StateBefore(m, movers, entries, k)) && |HitsAt(m, movers, entries, k)| == movers[k].hitCount
  }

  function AllHits<S(!new)>(m: Machine<S>, movers: seq<Mover>, entries: seq<Entry>): seq<seq<int>>
    requires |entries| == |movers|
  {
    seq(|movers|, k requires 0 <= k < |movers| => HitsAt(m, movers, entries, k))
  }

  lemma LandedIsSeen<S(!new)>(
      m: Machine<S>, movers: seq<Mover>, confused: Option<Slot>, draws: seq<Draw>, k: nat)
    requires WellPlaced(movers, confused) && AreDraws(movers, draws) && k < |draws| && Monotone(m) && NeverStops(m)
    requires AllLand(m, movers, AllForced(movers, draws)) && IsDraw(movers[k], draws[k])
    ensures SeenAs(EngineOf(m, movers, confused), movers, AllForced(movers, draws)[..k], draws[k],
              HitsAt(m, movers, AllForced(movers, draws), k))
  {
    var all := AllForced(movers, draws);
    var p := all[..k];
    PrefixDecides(m, movers, Padded(p, |movers|), all, k);
    forall i: nat | i < |draws[k].rolls|
      ensures ProbeOf(EngineOf(m, movers, confused), movers, p)(Forced(ProbeDraw(draws[k], i))).Some?
    {
      NeverStopsCompletes(m, movers, confused, p, Forced(ProbeDraw(draws[k], i)));
    }
    TrueHitsAreSeen(m, movers, confused, p, draws[k], StateBefore(m, movers, all, k));
  }

  /**
   Without assuming anything about the probes: when a higher roll does no less damage, less damage lets no fewer hits
   land, and nothing stops, a turn in which every hit landed is found with its damages if and only if the readings can
   be explained.
   */
  lemma LandedTurnIsFound<S(!new)>(
      m: Machine<S>, movers: seq<Mover>, confused: Option<Slot>, draws: seq<Draw>, hits: seq<Hits>, selves: SelfRolls,
      turn: Turn<S>)
    requires WellPlaced(movers, confused) && AllHit(movers) && Monotone(m) && NeverStops(m)
    requires BruteForceBy(EngineOf(m, movers, confused), movers, SelfHits(confused), draws, selves, turn)
    requires AllLand(m, movers, AllForced(movers, draws)) && |hits| == |draws|
    requires forall k | 0 <= k < |draws| ::
      TrulyDealt(movers[k], draws[k], HitsAt(m, movers, AllForced(movers, draws), k), hits[k])
    ensures
      var damages := AllHits(m, movers, AllForced(movers, draws));
      FindsWith(EngineOf(m, movers, confused), movers, SelfHits(confused), turn, damages) <==> AllWellRead(movers, hits)
  {
    var engine, selfHits, all := EngineOf(m, movers, confused), SelfHits(confused), AllForced(movers, draws);
    forall k | 0 <= k < |draws| ensures TrulyDrawnAt(engine, movers, draws, AllHits(m, movers, all), hits, k) {
      assert IsDraw(movers[k], draws[k]);
      LandedIsSeen(m, movers, confused, draws, k);
    }
    StepsRollsExchange(m, movers, confused);
    SelvesAreOne(engine, movers, selfHits, all, selves, turn);
    MixedTurnIsFound(engine, movers, selfHits, draws, AllHits(m, movers, all), hits, turn);
  }

  /** The player's creatures, watched exactly and with damage at most clamped, never cost the true turn. */
  lemma PlayersRecordIsKept<S(!new)>(reader: Reader<S>, state: S, w: Watched, i: nat)
    requires Truthful(reader, state, w, i) && w.record.side == 0
    requires PlayedOut(w.hps, Changes(reader.events(state), 0, w.species))
    ensures KeepsRecord(reader, state, w)
  {
    ExactRunAgrees(reader.events(state), SubjectOf(reader, state, w, i), w.hps);
    RunAgreesIff(reader.events(state), SubjectOf(reader, state, w, i), w.hps);
  }
}
