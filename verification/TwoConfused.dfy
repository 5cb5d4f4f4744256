/**
 Two creatures that hit themselves in one turn. The sweep gives a roll to one of them at a time, so it refines brute
 force for every simulator that never stops early if and only if at most one creature is confused.
 */
module TwoConfused {
  import opened Common
  import opened SweepConfig
  import opened PhaseLoop
  import opened SweepExactness
  import opened SweepRefinement

  /** The damage of a creature without a forced roll. */
  const UNFORCED: int := 7

  /** A forced roll does its index in damage. */
  function DamageIn(c: Config, slot: Slot): int {
    if slot in c.rolls && c.rolls[slot].Scalar? && c.rolls[slot].roll.Sixteenth? then c.rolls[slot].roll.index
    else UNFORCED
  }

  /** A turn in which nobody moves, and the creatures in two slots hit themselves. */
  function TwinTurn(a: Slot, b: Slot, c: Config): Turn<(int, int)> {
    var x, y := DamageIn(c, a), DamageIn(c, b);
    Turn((x, y), map[], [], if a.0 == b.0 then map[a.0 := x + y] else map[a.0 := x, b.0 := y])
  }

  function TwinEngine(a: Slot, b: Slot): Engine<(int, int)> {
    (c: Config) => Some(TwinTurn(a, b, c))
  }

  /** The turn when one creature rolls. */
  lemma OneRolls(a: Slot, b: Slot, slot: Slot, r: nat)
    requires a != b
    ensures PassingTurn(TwinEngine(a, b), [], [], SelfHit(slot, Sixteenth(r))) ==
            Some(TwinTurn(a, b, Config(map[slot := Scalar(Sixteenth(r))], map[])))
    ensures var t := TwinTurn(a, b, Config(map[slot := Scalar(Sixteenth(r))], map[]));
            t.state == (if slot == a then r else UNFORCED, if slot == b then r else UNFORCED)
  {
    assert Padded([], 0) == [];
  }

  /** Each creature's roll acts only through the damage it does, and no simulation stops. */
  lemma TwinsActThroughDamage(a: Slot, b: Slot, selfHits: set<Slot>)
    requires a != b
    ensures RollsExchange(TwinEngine(a, b), [], selfHits) && PlaceholdersComplete(TwinEngine(a, b), [], selfHits)
  {
    forall p: seq<Entry>, slot, q: nat, r: nat | |p| == 0 && slot in selfHits
      ensures SelfExchangeable(TwinEngine(a, b), [], p, slot, q, r)
    {
      assert p == [];
      OneRolls(a, b, slot, q);
      OneRolls(a, b, slot, r);
    }
  }

  /** Brute force finds the turn in which both do no damage; the sweep never has both roll. */
  lemma TwoConfusedAreMissed(a: Slot, b: Slot, selfHits: set<Slot>)
    requires a in selfHits && b in selfHits && a != b
    ensures !Refines(TwinEngine(a, b), [], selfHits)
  {
    var engine := TwinEngine(a, b);
    var selves: SelfRolls := map slot | slot in selfHits :: 0;
    var turn := TwinTurn(a, b, FullConfig([], [], selves));
    assert turn.state == (0, 0);
    assert BruteForceBy(engine, [], selfHits, [], selves, turn) by {
      assert AllForced([], []) == [] && IsSelfRolls(selfHits, selves);
    }
    forall s | IsSurvivor(engine, [], selfHits, s) ensures s.turn != turn {
      var slot :| slot in selfHits && SelfHitTurn(engine, [], slot, s);
      var r: nat :| TurnOfRoll(engine, [], slot, r, s);
      assert s.entries == [];
      OneRolls(a, b, slot, r);
    }
    assert !SweepFinds(engine, [], selfHits, turn);
  }

  /** The sweep refines brute force for all simulators whose rolls act through damage and that never stop early. */
  ghost predicate AlwaysRefines(selfHits: set<Slot>) {
    forall engine: Engine<(int, int)>, movers
      | HitOnce(movers) && RollsExchange(engine, movers, selfHits) && PlaceholdersComplete(engine, movers, selfHits) ::
      Refines(engine, movers, selfHits)
  }

  lemma AlwaysRefinesIff(selfHits: set<Slot>)
    ensures AlwaysRefines(selfHits) <==> |selfHits| <= 1
  {
    if |selfHits| <= 1 {
      forall engine: Engine<(int, int)>, movers
        | HitOnce(movers) && RollsExchange(engine, movers, selfHits) && PlaceholdersComplete(engine, movers, selfHits)
        ensures Refines(engine, movers, selfHits)
      {
        SweepRefinesBruteForce(engine, movers, selfHits);
      }
    } else {
      var a :| a in selfHits;
      assert |selfHits - {a}| > 0;
      var b :| b in selfHits - {a};
      TwinsActThroughDamage(a, b, selfHits);
      TwoConfusedAreMissed(a, b, selfHits);
      assert HitOnce([]);
    }
  }
}
