/**
 The sweep against brute force, for movers that hit once. Trying one roll for each distinct damage, mover by mover,
 finds every turn that trying all sixteen rolls of every mover finds, as long as a roll acts only through the damage
 it is seen to do and no simulation stops because a later mover is still on its placeholder.
 */
module SweepRefinement {
  import opened Common
  import opened SweepConfig
  import opened MoverRolls
  import opened PhaseLoop
  import opened SweepExactness

  predicate HitOnce(movers: seq<Mover>) {
    forall m | m in movers :: m.hitCount == 1
  }

  // ---------------------------------------------------------------------------
  // Which single hits the sweep follows
  // ---------------------------------------------------------------------------

  /** With later movers undecided, every simulation on the way to the entries completes. */
  ghost predicate CompletesUndecided<S(!new)>(engine: Engine<S>, movers: seq<Mover>, entries: seq<Entry>)
    requires |entries| == |movers|
  {
    forall k: nat | k < |entries| :: CompletesAfter(engine, movers, entries, k)
  }

  ghost predicate CompletesAfter<S(!new)>(engine: Engine<S>, movers: seq<Mover>, entries: seq<Entry>, k: nat)
    requires k < |entries| == |movers|
  {
    Run(engine, movers, entries[..k] + [entries[k]], NoSelfHit).Some?
  }

  /** What a single hit is seen to do: the damage logged for it, or none when nothing was logged. */
  function SingleDamage<S(!new)>(turn: Turn<S>, m: Mover): int {
    var hits := HitsBy(turn, m);
    if hits == [] then 0 else hits[0]
  }

  /** A single hit is admitted exactly when the simulation that probes it completes, with the damage that shows. */
  lemma SingleIsAdmitted<S(!new)>(engine: Engine<S>, movers: seq<Mover>, p: seq<Entry>, d: Draw, damages: seq<int>)
    requires |p| < |movers| && movers[|p|].hitCount == 1 && IsDraw(movers[|p|], d)
    ensures Admits(engine, movers, p, d, damages) <==>
      var turn := Run(engine, movers, p + [Forced(d)], NoSelfHit);
      turn.Some? && damages == [SingleDamage(turn.value, movers[|p|])]
  {
    assert OnlyHit(1, 0, d.rolls[0]) == d.rolls;
  }

  /** Some assignment of rolls finds the turn, and every simulation on the way to it completes. */
  ghost predicate StepwiseFinds<S(!new)>(engine: Engine<S>, movers: seq<Mover>, selfHits: set<Slot>, turn: Turn<S>) {
    exists draws :: StepwiseBy(engine, movers, selfHits, draws, turn)
  }

  ghost predicate StepwiseBy<S(!new)>(
      engine: Engine<S>, movers: seq<Mover>, selfHits: set<Slot>, draws: seq<Draw>, turn: Turn<S>)
  {
    && AreDraws(movers, draws) && CompletesUndecided(engine, movers, AllForced(movers, draws))
    && AssignmentFinds(engine, movers, selfHits, AllForced(movers, draws), turn)
  }

  lemma {:induction false} SinglesAreAdmitted<S(!new)>(engine: Engine<S>, movers: seq<Mover>, draws: seq<Draw>)
    returns (damages: seq<seq<int>>)
    requires HitOnce(movers) && AreDraws(movers, draws)
    requires CompletesUndecided(engine, movers, AllForced(movers, draws))
    ensures AdmitsAll(engine, movers, draws, damages)
  {
    damages := [];
    var all := AllForced(movers, draws);
    for k := 0 to |draws|
      invariant |damages| == k
      invariant forall j | 0 <= j < k ::
        IsDraw(movers[j], draws[j]) && Admits(engine, movers, all[..j], draws[j], damages[j])
    {
      assert movers[k] in movers && IsDraw(movers[k], draws[k]) && CompletesAfter(engine, movers, all, k);
      var dealt := [SingleDamage(Run(engine, movers, all[..k] + [all[k]], NoSelfHit).value, movers[k])];
      SingleIsAdmitted(engine, movers, all[..k], draws[k], dealt);
      damages := damages + [dealt];
    }
    forall j | 0 <= j < |draws| ensures AdmitsAt(engine, movers, [], draws, damages, j) {
      assert [] + all[0..j] == all[..j];
    }
  }

  lemma AdmittedComplete<S(!new)>(
      engine: Engine<S>, movers: seq<Mover>, draws: seq<Draw>, damages: seq<seq<int>>)
    requires HitOnce(movers) && AreDraws(movers, draws) && AdmitsAll(engine, movers, draws, damages)
    ensures CompletesUndecided(engine, movers, AllForced(movers, draws))
  {
    var all := AllForced(movers, draws);
    forall k: nat | k < |draws| ensures CompletesAfter(engine, movers, all, k) {
      assert movers[k] in movers && IsDraw(movers[k], draws[k]);
      assert AdmitsAt(engine, movers, [], draws, damages, k) && [] + all[0..k] == all[..k];
      SingleIsAdmitted(engine, movers, all[..k], draws[k], damages[k]);
    }
  }

  /**
   However many creatures are confused, and whichever simulations stop, the sweep finds a turn if and only if some
   rolls find it, one confused creature rolling at a time, on the way to which every simulation completes.
   */
  lemma SweepIsStepwise<S(!new)>(engine: Engine<S>, movers: seq<Mover>, selfHits: set<Slot>, turn: Turn<S>)
    requires HitOnce(movers) && RollsExchange(engine, movers, selfHits)
    ensures SweepFinds(engine, movers, selfHits, turn) <==> StepwiseFinds(engine, movers, selfHits, turn)
  {
    SweepFindsIff(engine, movers, selfHits, turn);
    if AdmittedFinds(engine, movers, selfHits, turn) {
      var draws, damages :| AdmittedBy(engine, movers, selfHits, draws, damages, turn);
      AdmittedComplete(engine, movers, draws, damages);
      assert StepwiseBy(engine, movers, selfHits, draws, turn);
    }
    if StepwiseFinds(engine, movers, selfHits, turn) {
      var draws :| StepwiseBy(engine, movers, selfHits, draws, turn);
      var damages := SinglesAreAdmitted(engine, movers, draws);
      assert AdmittedBy(engine, movers, selfHits, draws, damages, turn);
    }
  }

  // ---------------------------------------------------------------------------
  // When no simulation stops early
  // ---------------------------------------------------------------------------

  /** A turn that completes also completes with the later movers undecided. */
  ghost predicate UndecidedCompletes<S(!new)>(
      engine: Engine<S>, movers: seq<Mover>, p: seq<Entry>, e: Entry, rest: seq<Entry>, self: SelfHit)
    requires |p| + 1 + |rest| == |movers|
  {
    Run(engine, movers, p + [e] + rest, self).Some? ==> Run(engine, movers, p + [e], NoSelfHit).Some?
  }

  /** No simulation stops for a placeholder that would complete without it. */
  ghost predicate PlaceholdersComplete<S(!new)>(engine: Engine<S>, movers: seq<Mover>, selfHits: set<Slot>) {
    forall p, e, rest, self | |p| + 1 + |rest| == |movers| && IsSelfHit(selfHits, self) ::
      UndecidedCompletes(engine, movers, p, e, rest, self)
  }

  /** One mover, or one confused creature, and nobody else: then there are no placeholders. */
  lemma AloneIsComplete<S(!new)>(engine: Engine<S>, movers: seq<Mover>, selfHits: set<Slot>)
    requires |movers| + |selfHits| <= 1
    ensures PlaceholdersComplete(engine, movers, selfHits)
  {
    forall p, e, rest, self | |p| + 1 + |rest| == |movers| && IsSelfHit(selfHits, self)
      ensures UndecidedCompletes(engine, movers, p, e, rest, self)
    {
      assert p == [] && rest == [] && p + [e] + rest == p + [e];
      assert selfHits == {};
    }
  }

  /** Some rolls for every mover, and for one of the confused creatures if there are any, pass with the turn. */
  ghost predicate OneAtATimeFinds<S(!new)>(engine: Engine<S>, movers: seq<Mover>, selfHits: set<Slot>, turn: Turn<S>) {
    exists draws :: OneAtATimeBy(engine, movers, selfHits, draws, turn)
  }

  ghost predicate OneAtATimeBy<S(!new)>(
      engine: Engine<S>, movers: seq<Mover>, selfHits: set<Slot>, draws: seq<Draw>, turn: Turn<S>)
  {
    AreDraws(movers, draws) && AssignmentFinds(engine, movers, selfHits, AllForced(movers, draws), turn)
  }

  lemma FoundComplete<S(!new)>(
      engine: Engine<S>, movers: seq<Mover>, selfHits: set<Slot>, entries: seq<Entry>, turn: Turn<S>)
    requires PlaceholdersComplete(engine, movers, selfHits) && |entries| == |movers|
    requires AssignmentFinds(engine, movers, selfHits, entries, turn)
    ensures CompletesUndecided(engine, movers, entries)
  {
    var self := NoSelfHit;
    if selfHits != {} {
      var slot, r: nat :| slot in selfHits && SelfHitFinds(engine, movers, entries, slot, r, turn);
      self := SelfHit(slot, Sixteenth(r));
    }
    forall k: nat | k < |entries| ensures CompletesAfter(engine, movers, entries, k) {
      assert entries[..k] + [entries[k]] + entries[k + 1..] == entries;
      assert UndecidedCompletes(engine, movers, entries[..k], entries[k], entries[k + 1..], self);
    }
  }

  /** When no simulation stops early, the sweep finds exactly the turns in which one confused creature rolls. */
  lemma SweepIsOneAtATime<S(!new)>(engine: Engine<S>, movers: seq<Mover>, selfHits: set<Slot>, turn: Turn<S>)
    requires HitOnce(movers) && RollsExchange(engine, movers, selfHits) &&
        PlaceholdersComplete(engine, movers, selfHits)
    ensures SweepFinds(engine, movers, selfHits, turn) <==> OneAtATimeFinds(engine, movers, selfHits, turn)
  {
    SweepIsStepwise(engine, movers, selfHits, turn);
    if OneAtATimeFinds(engine, movers, selfHits, turn) {
      var draws :| OneAtATimeBy(engine, movers, selfHits, draws, turn);
      FoundComplete(engine, movers, selfHits, AllForced(movers, draws), turn);
      assert StepwiseBy(engine, movers, selfHits, draws, turn);
    }
    if StepwiseFinds(engine, movers, selfHits, turn) {
      var draws :| StepwiseBy(engine, movers, selfHits, draws, turn);
      assert OneAtATimeBy(engine, movers, selfHits, draws, turn);
    }
  }

  // ---------------------------------------------------------------------------
  // Brute force
  // ---------------------------------------------------------------------------

  /** A roll for each creature that hits itself. */
  type SelfRolls = map<Slot, nat>

  /** Every confused creature has a roll. */
  predicate IsSelfRolls(selfHits: set<Slot>, selves: SelfRolls) {
    selves.Keys == selfHits && forall slot | slot in selves :: selves[slot] < ROLLS
  }

  /** The configuration with all the self-hit rolls at once. */
  function FullConfig(movers: seq<Mover>, entries: seq<Entry>, selves: SelfRolls): Config
    requires |movers| == |entries|
  {
    var c := MoverConfig(movers, entries);
    Config(
      map slot | slot in c.rolls.Keys + selves.Keys ::
        if slot in selves then Scalar(Sixteenth(selves[slot])) else c.rolls[slot],
      c.crits)
  }

  function FullTurn<S(!new)>(
      engine: Engine<S>, movers: seq<Mover>, entries: seq<Entry>, selves: SelfRolls): Option<Turn<S>>
    requires |entries| == |movers|
  {
    match engine(FullConfig(movers, entries, selves))
    case None => None
    case Some(turn) => if OrderOk(turn, movers) then Some(turn) else None
  }

  ghost predicate SelvesFind<S(!new)>(
      engine: Engine<S>, movers: seq<Mover>, selfHits: set<Slot>, entries: seq<Entry>, selves: SelfRolls, turn: Turn<S>)
    requires |entries| == |movers|
  {
    IsSelfRolls(selfHits, selves) && FullTurn(engine, movers, entries, selves) == Some(turn)
  }

  ghost predicate BruteForceBy<S(!new)>(
      engine: Engine<S>, movers: seq<Mover>, selfHits: set<Slot>, draws: seq<Draw>, selves: SelfRolls, turn: Turn<S>)
  {
    AreDraws(movers, draws) && SelvesFind(engine, movers, selfHits, AllForced(movers, draws), selves, turn)
  }

  /** Brute force finds the turn: some rolls for every mover and every confused creature pass with it. */
  ghost predicate BruteForceFinds<S(!new)>(engine: Engine<S>, movers: seq<Mover>, selfHits: set<Slot>, turn: Turn<S>) {
    exists draws, selves :: BruteForceBy(engine, movers, selfHits, draws, selves, turn)
  }

  /**
   Brute force, written out: every combination of sixteenths that agrees with the observed crits, and a sixteenth for
   every confused creature, whose simulation completes with the sides moving in the observed order.
   */
  lemma BruteForceIsAll<S(!new)>(engine: Engine<S>, movers: seq<Mover>, selfHits: set<Slot>, turn: Turn<S>)
    requires AllHit(movers)
    ensures BruteForceFinds(engine, movers, selfHits, turn) <==>
      exists entries, selves: SelfRolls ::
        && AllObserve(movers, entries) && selves.Keys == selfHits && (forall slot | slot in selves :: selves[slot] < 16)
        && engine(FullConfig(movers, entries, selves)) == Some(turn) && MovesInOrder(movers, turn)
  {
    InOrderIff(movers, turn);
    if BruteForceFinds(engine, movers, selfHits, turn) {
      var draws, selves :| BruteForceBy(engine, movers, selfHits, draws, selves, turn);
      DrawsAreObserved(movers, AllForced(movers, draws));
    }
    if entries, selves: SelfRolls :|
      && AllObserve(movers, entries) && selves.Keys == selfHits && (forall slot | slot in selves :: selves[slot] < 16)
      && engine(FullConfig(movers, entries, selves)) == Some(turn) && MovesInOrder(movers, turn)
    {
      DrawsAreObserved(movers, entries);
      var draws :| AreDraws(movers, draws) && AllForced(movers, draws) == entries;
      assert BruteForceBy(engine, movers, selfHits, draws, selves, turn);
    }
  }

  /** With at most one confused creature, one self-hit roll is all of them. */
  lemma OneSelfRoll(movers: seq<Mover>, entries: seq<Entry>, slot: Slot, r: nat)
    requires |movers| == |entries|
    ensures FullConfig(movers, entries, map[]) == ConfigOf(movers, entries, NoSelfHit)
    ensures FullConfig(movers, entries, map[slot := r]) == ConfigOf(movers, entries, SelfHit(slot, Sixteenth(r)))
  {
    var c := MoverConfig(movers, entries);
    assert FullConfig(movers, entries, map[]).rolls == c.rolls;
    assert FullConfig(movers, entries, map[slot := r]).rolls == c.rolls[slot := Scalar(Sixteenth(r))];
  }

  lemma OneTurn<S(!new)>(engine: Engine<S>, movers: seq<Mover>, entries: seq<Entry>, slot: Slot, r: nat)
    requires |entries| == |movers|
    ensures FullTurn(engine, movers, entries, map[]) == PassingTurn(engine, movers, entries, NoSelfHit)
    ensures FullTurn(engine, movers, entries, map[slot := r]) ==
            PassingTurn(engine, movers, entries, SelfHit(slot, Sixteenth(r)))
  {
    OneSelfRoll(movers, entries, slot, r);
    assert Padded(entries, |movers|) == entries;
  }

  lemma AtMostOne(selfHits: set<Slot>) returns (slot: Slot)
    requires |selfHits| <= 1
    ensures selfHits == {} || selfHits == {slot}
  {
    if selfHits == {} {
      slot := (0, 0);
    } else {
      slot :| slot in selfHits;
      assert |selfHits - {slot}| == 0;
    }
  }

  /** A roll of the one confused creature is a roll for each of them. */
  lemma OneSelfFinds<S(!new)>(
      engine: Engine<S>, movers: seq<Mover>, selfHits: set<Slot>, entries: seq<Entry>, turn: Turn<S>)
    returns (selves: SelfRolls)
    requires |entries| == |movers| && |selfHits| <= 1 && AssignmentFinds(engine, movers, selfHits, entries, turn)
    ensures SelvesFind(engine, movers, selfHits, entries, selves, turn)
  {
    var slot := AtMostOne(selfHits);
    if selfHits == {} {
      selves := map[];
      OneTurn(engine, movers, entries, slot, 0);
    } else {
      var one, r: nat :| one in selfHits && SelfHitFinds(engine, movers, entries, one, r, turn);
      selves := map[slot := r];
      assert one == slot && IsSelfRolls(selfHits, selves);
      OneTurn(engine, movers, entries, slot, r);
    }
  }

  lemma SelvesAreOne<S(!new)>(
      engine: Engine<S>, movers: seq<Mover>, selfHits: set<Slot>, entries: seq<Entry>, selves: SelfRolls, turn: Turn<S>)
    requires |entries| == |movers| && |selfHits| <= 1 && SelvesFind(engine, movers, selfHits, entries, selves, turn)
    ensures AssignmentFinds(engine, movers, selfHits, entries, turn)
  {
    var slot := AtMostOne(selfHits);
    if selfHits == {} {
      assert selves == map[];
      OneTurn(engine, movers, entries, slot, 0);
    } else {
      assert slot in selfHits;
      assert selves == map[slot := selves[slot]];
      OneTurn(engine, movers, entries, slot, selves[slot]);
      assert SelfHitFinds(engine, movers, entries, slot, selves[slot], turn);
    }
  }

  /** With at most one confused creature, brute force is rolling one at a time. */
  lemma OneAtATimeIsAll<S(!new)>(engine: Engine<S>, movers: seq<Mover>, selfHits: set<Slot>, turn: Turn<S>)
    requires |selfHits| <= 1
    ensures OneAtATimeFinds(engine, movers, selfHits, turn) <==> BruteForceFinds(engine, movers, selfHits, turn)
  {
    if OneAtATimeFinds(engine, movers, selfHits, turn) {
      var draws :| OneAtATimeBy(engine, movers, selfHits, draws, turn);
      var selves := OneSelfFinds(engine, movers, selfHits, AllForced(movers, draws), turn);
      assert BruteForceBy(engine, movers, selfHits, draws, selves, turn);
    }
    if BruteForceFinds(engine, movers, selfHits, turn) {
      var draws, selves :| BruteForceBy(engine, movers, selfHits, draws, selves, turn);
      SelvesAreOne(engine, movers, selfHits, AllForced(movers, draws), selves, turn);
      assert OneAtATimeBy(engine, movers, selfHits, draws, turn);
    }
  }

  // ---------------------------------------------------------------------------
  // Refinement
  // ---------------------------------------------------------------------------

  /** Every survivor's turn is one that brute force finds, whatever the simulator and however often movers hit. */
  lemma SweepIsSound<S(!new)>(engine: Engine<S>, movers: seq<Mover>, selfHits: set<Slot>, s: Survivor<S>)
    requires AllHit(movers) && |selfHits| <= 1 && IsSurvivor(engine, movers, selfHits, s)
    ensures BruteForceFinds(engine, movers, selfHits, s.turn)
  {
    var draws, damages := SurvivorIsAdmitted(engine, movers, selfHits, s);
    assert OneAtATimeBy(engine, movers, selfHits, draws, s.turn);
    OneAtATimeIsAll(engine, movers, selfHits, s.turn);
  }

  /** The sweep misses no turn that brute force finds. */
  lemma SweepIsComplete<S(!new)>(engine: Engine<S>, movers: seq<Mover>, selfHits: set<Slot>, turn: Turn<S>)
    requires HitOnce(movers) && |selfHits| <= 1
    requires RollsExchange(engine, movers, selfHits) && PlaceholdersComplete(engine, movers, selfHits)
    requires BruteForceFinds(engine, movers, selfHits, turn)
    ensures SweepFinds(engine, movers, selfHits, turn)
  {
    OneAtATimeIsAll(engine, movers, selfHits, turn);
    SweepIsOneAtATime(engine, movers, selfHits, turn);
  }

  /** The turns of the survivors are exactly the turns brute force finds. */
  ghost predicate Refines<S(!new)>(engine: Engine<S>, movers: seq<Mover>, selfHits: set<Slot>)
    requires HitOnce(movers)
  {
    forall turn :: SweepFinds(engine, movers, selfHits, turn) <==> BruteForceFinds(engine, movers, selfHits, turn)
  }

  /** With at most one confused creature and no simulation stopping early, the sweep refines brute force. */
  lemma SweepRefinesBruteForce<S(!new)>(engine: Engine<S>, movers: seq<Mover>, selfHits: set<Slot>)
    requires HitOnce(movers) && |selfHits| <= 1
    requires RollsExchange(engine, movers, selfHits) && PlaceholdersComplete(engine, movers, selfHits)
    ensures Refines(engine, movers, selfHits)
  {
    forall turn ensures SweepFinds(engine, movers, selfHits, turn) <==> BruteForceFinds(engine, movers, selfHits,
        turn) {
      SweepIsOneAtATime(engine, movers, selfHits, turn);
      OneAtATimeIsAll(engine, movers, selfHits, turn);
    }
  }
}
