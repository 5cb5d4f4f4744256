/**
 Simulators that stop. A run that meets a draw nobody forced has no outcome, and the sweep drops the roll it was
 probing, so it can lose a turn that the true rolls complete. It refines brute force for every simulator that may stop
 if and only if there is a single mover, or a single confused creature, and nobody else.
 */
module StoppingRuns {
  import opened Common
  import opened SweepConfig
  import opened MoverRolls
  import opened PhaseLoop
  import opened SweepExactness
  import opened SweepRefinement

  predicate IsForced(c: Config, slot: Slot) {
    slot in c.rolls && c.rolls[slot].Scalar? && c.rolls[slot].roll.Sixteenth?
  }

  function Slots(movers: seq<Mover>): set<Slot> {
    set i | 0 <= i < |movers| :: movers[i].slot
  }

  function StrictTurn(movers: seq<Mover>): Turn<(int, int)> {
    Turn((0, 0), map[], Sides(movers), map[])
  }

  /** Stops unless every creature's roll is forced. */
  function StrictEngine(movers: seq<Mover>, selfHits: set<Slot>): Engine<(int, int)> {
    (c: Config) =>
      if forall slot | slot in Slots(movers) + selfHits :: IsForced(c, slot) then Some(StrictTurn(movers)) else None
  }

  /** The confused creatures are not among the movers. */
  predicate Apart(movers: seq<Mover>, selfHits: set<Slot>) {
    forall i | 0 <= i < |movers| :: movers[i].slot !in selfHits
  }

  /** Single hits that are all drawn are all forced. */
  lemma {:induction false} DrawnIsForced(movers: seq<Mover>, entries: seq<Entry>, i: nat)
    requires |entries| == |movers| && i < |movers|
    requires forall k | 0 <= k < |entries| :: entries[k].roll.Scalar? && entries[k].roll.roll.Sixteenth?
    ensures IsForced(MoverConfig(movers, entries), movers[i].slot)
    decreases |movers|
  {
    var last := |movers| - 1;
    if i < last {
      DrawnIsForced(movers[..last], entries[..last], i);
    }
  }

  /** While somebody else is undecided, probing a mover stops. */
  lemma ProbeStops(movers: seq<Mover>, selfHits: set<Slot>, x: seq<Entry>)
    requires Apart(movers, selfHits) && |x| <= |movers| && (|x| < |movers| || selfHits != {})
    ensures Run(StrictEngine(movers, selfHits), movers, x, NoSelfHit).None?
  {
    var entries := Padded(x, |movers|);
    if |x| < |movers| {
      var last := |movers| - 1;
      assert entries[last] == UNDECIDED;
      assert movers[last].slot in Slots(movers);
    } else {
      var slot :| slot in selfHits;
      OnlyMoversInConfig(movers, entries, slot);
    }
  }

  lemma StrictRollsExchange(movers: seq<Mover>, selfHits: set<Slot>)
    requires HitOnce(movers) && Apart(movers, selfHits)
    ensures RollsExchange(StrictEngine(movers, selfHits), movers, selfHits)
  {
    var engine := StrictEngine(movers, selfHits);
    forall p, d, d', damages, rest, self
      | |p| + 1 + |rest| == |movers| && IsDraw(movers[|p|], d) && IsDraw(movers[|p|], d') && IsSelfHit(selfHits, self)
      ensures Exchangeable(engine, movers, p, d, d', damages, rest, self)
    {
      if SeenAs(engine, movers, p, d, damages) && SeenAs(engine, movers, p, d', damages) {
        SeenCompletes(movers, selfHits, p, d, damages);
        SeenCompletes(movers, selfHits, p, d', damages);
        assert rest == [] && p + [Forced(d)] + rest == p + [Forced(d)] && p + [Forced(d')] + rest == p + [Forced(d')];
      }
    }
  }

  /** What is seen comes from a run that completes, so nobody else was undecided. */
  lemma SeenCompletes(movers: seq<Mover>, selfHits: set<Slot>, p: seq<Entry>, d: Draw, damages: seq<int>)
    requires HitOnce(movers) && Apart(movers, selfHits) && |p| < |movers| && IsDraw(movers[|p|], d)
    requires SeenAs(StrictEngine(movers, selfHits), movers, p, d, damages)
    ensures |p| + 1 == |movers| && selfHits == {}
    ensures Run(StrictEngine(movers, selfHits), movers, p + [Forced(d)], NoSelfHit) == Some(StrictTurn(movers))
  {
    assert movers[|p|] in movers;
    assert OnlyHit(1, 0, d.rolls[0]) == d.rolls;
    if |p| + 1 < |movers| || selfHits != {} {
      ProbeStops(movers, selfHits, p + [Forced(d)]);
    }
  }

  /** Each mover draws the least roll. */
  function LeastDraws(movers: seq<Mover>): seq<Draw> {
    seq(|movers|, i requires 0 <= i < |movers| => Draw([0], [movers[i].critCount > 0]))
  }

  lemma LeastDrawsFind(movers: seq<Mover>, selfHits: set<Slot>)
    requires HitOnce(movers)
    ensures BruteForceFinds(StrictEngine(movers, selfHits), movers, selfHits, StrictTurn(movers))
  {
    var draws := LeastDraws(movers);
    var selves: SelfRolls := map slot | slot in selfHits :: 0;
    forall k | 0 <= k < |draws| ensures IsDraw(movers[k], draws[k]) {
      var crits := draws[k].crits;
      assert movers[k] in movers && crits[1..] == [];
      assert CountTrue(crits) == (if crits[0] then 1 else 0) + CountTrue(crits[1..]);
    }
    var entries := AllForced(movers, draws);
    var c := FullConfig(movers, entries, selves);
    forall slot | slot in Slots(movers) + selfHits ensures IsForced(c, slot) {
      if slot !in selfHits {
        var i :| 0 <= i < |movers| && movers[i].slot == slot;
        DrawnIsForced(movers, entries, i);
      }
    }
    assert IsSelfRolls(selfHits, selves);
    assert BruteForceBy(StrictEngine(movers, selfHits), movers, selfHits, draws, selves, StrictTurn(movers));
  }

  /** With anybody else undecided, the sweep finds nothing at all. */
  lemma StoppedIsMissed(movers: seq<Mover>, selfHits: set<Slot>)
    requires HitOnce(movers) && Apart(movers, selfHits) && |movers| + |selfHits| >= 2
    ensures !Refines(StrictEngine(movers, selfHits), movers, selfHits)
  {
    var engine, turn := StrictEngine(movers, selfHits), StrictTurn(movers);
    LeastDrawsFind(movers, selfHits);
    StrictRollsExchange(movers, selfHits);
    SweepIsStepwise(engine, movers, selfHits, turn);
    forall draws ensures !StepwiseBy(engine, movers, selfHits, draws, turn) {
      if StepwiseBy(engine, movers, selfHits, draws, turn) {
        NoStepwise(movers, selfHits, AllForced(movers, draws));
      }
    }
  }

  lemma NoStepwise(movers: seq<Mover>, selfHits: set<Slot>, entries: seq<Entry>)
    requires HitOnce(movers) && Apart(movers, selfHits) && |movers| + |selfHits| >= 2 && |entries| == |movers|
    ensures !(CompletesUndecided(StrictEngine(movers, selfHits), movers, entries) &&
              AssignmentFinds(StrictEngine(movers, selfHits), movers, selfHits, entries, StrictTurn(movers)))
  {
    var engine := StrictEngine(movers, selfHits);
    if movers != [] {
      ProbeStops(movers, selfHits, entries[..0] + [entries[0]]);
      assert !CompletesAfter(engine, movers, entries, 0);
    } else {
      forall slot, r: nat | slot in selfHits ensures !SelfHitFinds(engine, movers, entries, slot, r,
          StrictTurn(movers)) {
        assert |selfHits - {slot}| > 0;
        var other :| other in selfHits - {slot};
        assert Padded(entries, 0) == [];
        assert !IsForced(ConfigOf([], [], SelfHit(slot, Sixteenth(r))), other);
      }
    }
  }

  /** The sweep refines brute force for every simulator whose rolls act through damage, stopping or not. */
  ghost predicate AlwaysRefinesStopping(movers: seq<Mover>, selfHits: set<Slot>)
    requires HitOnce(movers)
  {
    forall engine: Engine<(int, int)> | RollsExchange(engine, movers, selfHits) :: Refines(engine, movers, selfHits)
  }

  /** That is so if and only if there is one mover or one confused creature at most. */
  lemma StoppingRefinesIff(movers: seq<Mover>, selfHits: set<Slot>)
    requires HitOnce(movers) && Apart(movers, selfHits)
    ensures AlwaysRefinesStopping(movers, selfHits) <==> |movers| + |selfHits| <= 1
  {
    if |movers| + |selfHits| <= 1 {
      forall engine: Engine<(int, int)> | RollsExchange(engine, movers, selfHits)
        ensures Refines(engine, movers, selfHits)
      {
        AloneIsComplete(engine, movers, selfHits);
        SweepRefinesBruteForce(engine, movers, selfHits);
      }
    } else {
      StrictRollsExchange(movers, selfHits);
      StoppedIsMissed(movers, selfHits);
    }
  }
}
