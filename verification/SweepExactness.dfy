/**
 What the sweep finds, exactly. Movers may hit several times and the simulator may stop: as long as a roll acts only
 through the damages it is seen to do, the sweep finds a turn if and only if some rolls lead to it whose hits all land
 in the simulations that probe them and whose damages the bar readings allow.
 */
module SweepExactness {
  import opened Common
  import opened SweepConfig
  import opened MoverRolls
  import opened PhaseLoop

  // ---------------------------------------------------------------------------
  // Draws
  // ---------------------------------------------------------------------------

  /** What one mover drew: a roll and whether it is critical for each hit. */
  datatype Draw = Draw(rolls: seq<nat>, crits: seq<bool>)

  /** A draw of sixteenths, with as many critical hits as observed. */
  predicate IsDraw(m: Mover, d: Draw) {
    && m.hitCount > 0 && |d.rolls| == m.hitCount && IsCritAssignment(m.hitCount, CritCount(m), d.crits)
    && forall i | 0 <= i < |d.rolls| :: d.rolls[i] < ROLLS
  }

  /** The entry that forces the draw. */
  function Forced(d: Draw): Entry
    requires d.rolls != [] && |d.crits| == |d.rolls|
  {
    EntryOf(d.rolls, d.crits)
  }

  predicate AreDraws(movers: seq<Mover>, draws: seq<Draw>) {
    |draws| == |movers| && forall k | 0 <= k < |draws| :: IsDraw(movers[k], draws[k])
  }

  function AllForced(movers: seq<Mover>, draws: seq<Draw>): (entries: seq<Entry>)
    requires AreDraws(movers, draws)
    ensures |entries| == |draws|
  {
    seq(|draws|, k requires 0 <= k < |draws| => assert IsDraw(movers[k], draws[k]); Forced(draws[k]))
  }

  /** In the simulations that vary one hit and leave later movers undecided, the draw is seen to do these damages. */
  ghost predicate SeenAs<S(!new)>(
      engine: Engine<S>, movers: seq<Mover>, p: seq<Entry>, d: Draw, damages: seq<int>)
    requires |p| < |movers| && IsDraw(movers[|p|], d)
  {
    && |damages| == |d.rolls|
    && forall i | 0 <= i < |damages| ::
      QueryOf(engine, movers, p, d.crits).DamageAt(i, d.rolls[i]) == Some(damages[i])
  }

  /** The draw is seen to do damages that agree with the bar readings between the hits. */
  ghost predicate Admits<S(!new)>(
      engine: Engine<S>, movers: seq<Mover>, p: seq<Entry>, d: Draw, damages: seq<int>)
    requires |p| < |movers| && IsDraw(movers[|p|], d)
  {
    SeenAs(engine, movers, p, d, damages) && PruningOf(movers[|p|]).AllowsAll(damages)
  }

  // ---------------------------------------------------------------------------
  // Rolls act through damage
  // ---------------------------------------------------------------------------

  /** Draws with the same crits that are seen to do the same damages can be exchanged. */
  ghost predicate Exchangeable<S(!new)>(
      engine: Engine<S>, movers: seq<Mover>, p: seq<Entry>, d: Draw, d': Draw, damages: seq<int>,
      rest: seq<Entry>, self: SelfHit)
    requires |p| + 1 + |rest| == |movers| && IsDraw(movers[|p|], d) && IsDraw(movers[|p|], d')
  {
    d.crits == d'.crits && SeenAs(engine, movers, p, d, damages) && SeenAs(engine, movers, p, d', damages) ==>
      Run(engine, movers, p + [Forced(d)] + rest, self) == Run(engine, movers, p + [Forced(d')] + rest, self)
  }

  /** Self-hit rolls seen to do the same damage can be exchanged. */
  ghost predicate SelfExchangeable<S(!new)>(
      engine: Engine<S>, movers: seq<Mover>, p: seq<Entry>, slot: Slot, q: nat, r: nat)
    requires |p| == |movers|
  {
    var x := PassingTurn(engine, movers, p, SelfHit(slot, Sixteenth(q)));
    var y := PassingTurn(engine, movers, p, SelfHit(slot, Sixteenth(r)));
    x.Some? && y.Some? && SelfDamage(x.value, slot.0) == SelfDamage(y.value, slot.0) ==> x == y
  }

  /** No self-hit, or one of a confused creature. */
  predicate IsSelfHit(selfHits: set<Slot>, self: SelfHit) {
    self.SelfHit? ==> self.slot in selfHits
  }

  /** Rolls act only through the damages they are seen to do. Nothing is said about which simulations stop. */
  ghost predicate RollsExchange<S(!new)>(engine: Engine<S>, movers: seq<Mover>, selfHits: set<Slot>) {
    && (forall p, d, d', damages, rest, self
      | |p| + 1 + |rest| == |movers| && IsDraw(movers[|p|], d) && IsDraw(movers[|p|], d') &&
          IsSelfHit(selfHits, self) ::
      Exchangeable(engine, movers, p, d, d', damages, rest, self))
    && (forall p, slot, q, r | |p| == |movers| && slot in selfHits :: SelfExchangeable(engine, movers, p, slot, q, r))
  }

  // ---------------------------------------------------------------------------
  // What can be found
  // ---------------------------------------------------------------------------

  predicate AllHit(movers: seq<Mover>) {
    forall m | m in movers :: m.hitCount > 0
  }

  /** The entries lead to the turn; of several confused creatures one rolls. */
  ghost predicate AssignmentFinds<S(!new)>(
      engine: Engine<S>, movers: seq<Mover>, selfHits: set<Slot>, entries: seq<Entry>, turn: Turn<S>)
    requires |entries| == |movers|
  {
    if selfHits == {} then PassingTurn(engine, movers, entries, NoSelfHit) == Some(turn)
    else exists slot, r: nat :: slot in selfHits && SelfHitFinds(engine, movers, entries, slot, r, turn)
  }

  ghost predicate SelfHitFinds<S(!new)>(
      engine: Engine<S>, movers: seq<Mover>, entries: seq<Entry>, slot: Slot, r: nat, turn: Turn<S>)
    requires |entries| == |movers|
  {
    r < ROLLS && PassingTurn(engine, movers, entries, SelfHit(slot, Sixteenth(r))) == Some(turn)
  }

  /** Every draw is admitted after the draws before it, with the damages listed. */
  ghost predicate AdmitsAll<S(!new)>(
      engine: Engine<S>, movers: seq<Mover>, draws: seq<Draw>, damages: seq<seq<int>>)
    requires AreDraws(movers, draws)
  {
    |damages| == |draws| && AdmitsFrom(engine, movers, [], draws, damages)
  }

  /** The same after the choices `p`, which stand in for the first draws. */
  ghost predicate AdmitsFrom<S(!new)>(
      engine: Engine<S>, movers: seq<Mover>, p: seq<Entry>, draws: seq<Draw>, damages: seq<seq<int>>)
    requires AreDraws(movers, draws) && |damages| == |draws| && |p| <= |draws|
  {
    forall j | |p| <= j < |draws| :: AdmitsAt(engine, movers, p, draws, damages, j)
  }

  ghost predicate AdmitsAt<S(!new)>(
      engine: Engine<S>, movers: seq<Mover>, p: seq<Entry>, draws: seq<Draw>, damages: seq<seq<int>>, j: nat)
    requires AreDraws(movers, draws) && |damages| == |draws| && |p| <= j < |draws|
  {
    assert IsDraw(movers[j], draws[j]);
    Admits(engine, movers, p + AllForced(movers, draws)[|p|..j], draws[j], damages[j])
  }

  /** Some admitted draws lead to the turn. */
  ghost predicate AdmittedFinds<S(!new)>(
      engine: Engine<S>, movers: seq<Mover>, selfHits: set<Slot>, turn: Turn<S>)
  {
    exists draws, damages :: AdmittedBy(engine, movers, selfHits, draws, damages, turn)
  }

  ghost predicate AdmittedBy<S(!new)>(
      engine: Engine<S>, movers: seq<Mover>, selfHits: set<Slot>, draws: seq<Draw>, damages: seq<seq<int>>,
      turn: Turn<S>)
  {
    && AreDraws(movers, draws) && AdmitsAll(engine, movers, draws, damages)
    && AssignmentFinds(engine, movers, selfHits, AllForced(movers, draws), turn)
  }

  /** Some survivor has the turn. */
  ghost predicate SweepFinds<S(!new)>(engine: Engine<S>, movers: seq<Mover>, selfHits: set<Slot>, turn: Turn<S>)
    requires AllHit(movers)
  {
    exists s :: IsSurvivor(engine, movers, selfHits, s) && s.turn == turn
  }

  // ---------------------------------------------------------------------------
  // Choices and draws
  // ---------------------------------------------------------------------------

  /** Entry `k` of the choice forces this draw, which is admitted with these damages. */
  ghost predicate IsDealt<S(!new)>(
      engine: Engine<S>, movers: seq<Mover>, p: seq<Entry>, k: nat, d: Draw, damages: seq<int>)
    requires k < |p| <= |movers|
  {
    IsDraw(movers[k], d) && p[k] == Forced(d) && Admits(engine, movers, p[..k], d, damages)
  }

  ghost predicate Deals<S(!new)>(
      engine: Engine<S>, movers: seq<Mover>, p: seq<Entry>, k: nat, damages: seq<int>)
    requires k < |p| <= |movers|
  {
    exists d :: IsDealt(engine, movers, p, k, d, damages)
  }

  lemma DealtEarlier<S(!new)>(
      engine: Engine<S>, movers: seq<Mover>, p: seq<Entry>, n: nat, k: nat, d: Draw, damages: seq<int>)
    requires k < n <= |p| <= |movers|
    ensures IsDealt(engine, movers, p[..n], k, d, damages) <==> IsDealt(engine, movers, p, k, d, damages)
  {
    assert p[..n][..k] == p[..k] && p[..n][k] == p[k];
  }

  ghost predicate DealsAll<S(!new)>(engine: Engine<S>, movers: seq<Mover>, p: seq<Entry>, damages: seq<seq<int>>)
    requires |p| <= |movers|
  {
    |damages| >= |p| && forall k | 0 <= k < |p| :: Deals(engine, movers, p, k, damages[k])
  }

  /** The sweep goes on with admitted draws only. */
  lemma ExtensionIsAdmitted<S(!new)>(engine: Engine<S>, movers: seq<Mover>, p: seq<Entry>, e: Entry)
    returns (d: Draw, damages: seq<int>)
    requires |p| < |movers| && movers[|p|].hitCount > 0 && Extends(engine, movers, p, e)
    ensures IsDraw(movers[|p|], d) && e == Forced(d) && Admits(engine, movers, p, d, damages)
  {
    var m := movers[|p|];
    var crits :| ExtendsWith(engine, movers, p, e, crits);
    var q := QueryOf(engine, movers, p, crits);
    var rolls :| Chosen(q, PruningOf(m), rolls) && e == EntryOf(rolls, crits);
    damages :| Represents(q, PruningOf(m), rolls, damages);
    d := Draw(rolls, crits);
    forall i | 0 <= i < |rolls| ensures rolls[i] < ROLLS && q.DamageAt(i, rolls[i]) == Some(damages[i]) {
      assert q.FirstRoll(i, damages[i], rolls[i]);
    }
  }

  /** The first rolls dealing the damages that some rolls deal. */
  lemma {:induction false} FirstRolls(q: Query, rolls: seq<nat>, damages: seq<int>, n: nat) returns (first: seq<nat>)
    requires q.Valid() && |rolls| == |damages| == q.hitCount && n <= q.hitCount
    requires forall i | 0 <= i < q.hitCount :: rolls[i] < ROLLS && q.DamageAt(i, rolls[i]) == Some(damages[i])
    ensures |first| == n && forall i | 0 <= i < n :: q.FirstRoll(i, damages[i], first[i])
  {
    first := [];
    for i := 0 to n
      invariant |first| == i && forall j | 0 <= j < i :: q.FirstRoll(j, damages[j], first[j])
    {
      var r := LeastRoll(q, i, damages[i], rolls[i]);
      first := first + [r];
    }
  }

  /** For every admitted draw the sweep goes on with one that has the same crits and is seen to do the same damages. */
  lemma AdmittedIsTried<S(!new)>(engine: Engine<S>, movers: seq<Mover>, p: seq<Entry>, d: Draw, damages: seq<int>)
    returns (d': Draw)
    requires |p| < |movers| && IsDraw(movers[|p|], d) && Admits(engine, movers, p, d, damages)
    ensures IsDraw(movers[|p|], d') && d'.crits == d.crits && Admits(engine, movers, p, d', damages)
    ensures Extends(engine, movers, p, Forced(d'))
  {
    var m := movers[|p|];
    var q := QueryOf(engine, movers, p, d.crits);
    var first := FirstRolls(q, d.rolls, damages, |damages|);
    d' := Draw(first, d.crits);
    forall i | 0 <= i < |first| ensures first[i] < ROLLS && q.DamageAt(i, first[i]) == Some(damages[i]) {
      assert q.FirstRoll(i, damages[i], first[i]);
    }
    assert Represents(q, PruningOf(m), first, damages);
    assert Chosen(q, PruningOf(m), first);
    assert ExtendsWith(engine, movers, p, Forced(d'), d.crits);
  }

  // ---------------------------------------------------------------------------
  // Exchanging draws
  // ---------------------------------------------------------------------------

  lemma RunPadded<S(!new)>(engine: Engine<S>, movers: seq<Mover>, x: seq<Entry>, self: SelfHit)
    requires |x| <= |movers|
    ensures Run(engine, movers, x, self) == Run(engine, movers, Padded(x, |movers|), self)
  {
    assert Padded(Padded(x, |movers|), |movers|) == Padded(x, |movers|);
  }

  /** Exchanging a draw leaves every simulation as it was that decides more movers. */
  lemma ExchangedRun<S(!new)>(
      engine: Engine<S>, movers: seq<Mover>, p: seq<Entry>, d: Draw, d': Draw, damages: seq<int>,
      more: seq<Entry>, selfHits: set<Slot>, self: SelfHit)
    requires RollsExchange(engine, movers, selfHits) && IsSelfHit(selfHits, self)
    requires |p| + 1 + |more| <= |movers| && IsDraw(movers[|p|], d) && IsDraw(movers[|p|], d') && d.crits == d'.crits
    requires SeenAs(engine, movers, p, d, damages) && SeenAs(engine, movers, p, d', damages)
    ensures Run(engine, movers, p + [Forced(d)] + more, self) == Run(engine, movers, p + [Forced(d')] + more, self)
  {
    var rest := more + seq(|movers| - |p| - 1 - |more|, _ => UNDECIDED);
    assert Exchangeable(engine, movers, p, d, d', damages, rest, self);
    RunPadded(engine, movers, p + [Forced(d)] + more, self);
    RunPadded(engine, movers, p + [Forced(d')] + more, self);
    assert Padded(p + [Forced(d)] + more, |movers|) == p + [Forced(d)] + rest;
    assert Padded(p + [Forced(d')] + more, |movers|) == p + [Forced(d')] + rest;
  }

  /** Two choices after which every simulation of the next mover shows the same. */
  ghost predicate ProbeAlike<S(!new)>(engine: Engine<S>, movers: seq<Mover>, x: seq<Entry>, y: seq<Entry>)
    requires |x| == |y| < |movers|
  {
    forall e :: ProbeOf(engine, movers, x)(e) == ProbeOf(engine, movers, y)(e)
  }

  lemma AlikeAdmits<S(!new)>(
      engine: Engine<S>, movers: seq<Mover>, x: seq<Entry>, y: seq<Entry>, d: Draw, damages: seq<int>)
    requires |x| == |y| < |movers| && IsDraw(movers[|x|], d) && ProbeAlike(engine, movers, x, y)
    ensures Admits(engine, movers, x, d, damages) ==> Admits(engine, movers, y, d, damages)
  {
    var q, q' := QueryOf(engine, movers, x, d.crits), QueryOf(engine, movers, y, d.crits);
    forall i, r | 0 <= i < q.hitCount ensures q.DamageAt(i, r) == q'.DamageAt(i, r) {
      assert q.probe(EntryOf(OnlyHit(q.hitCount, i, r), d.crits)) == q'.probe(EntryOf(OnlyHit(q.hitCount, i, r),
          d.crits));
    }
  }

  lemma ExchangedProbes<S(!new)>(
      engine: Engine<S>, movers: seq<Mover>, p: seq<Entry>, d: Draw, d': Draw, damages: seq<int>,
      more: seq<Entry>, selfHits: set<Slot>)
    requires RollsExchange(engine, movers, selfHits)
    requires |p| + 1 + |more| < |movers| && IsDraw(movers[|p|], d) && IsDraw(movers[|p|], d') && d.crits == d'.crits
    requires SeenAs(engine, movers, p, d, damages) && SeenAs(engine, movers, p, d', damages)
    ensures ProbeAlike(engine, movers, p + [Forced(d)] + more, p + [Forced(d')] + more)
  {
    var x, y := p + [Forced(d)] + more, p + [Forced(d')] + more;
    forall e ensures ProbeOf(engine, movers, x)(e) == ProbeOf(engine, movers, y)(e) {
      ExchangedRun(engine, movers, p, d, d', damages, more + [e], selfHits, NoSelfHit);
      assert x + [e] == p + [Forced(d)] + (more + [e]) && y + [e] == p + [Forced(d')] + (more + [e]);
    }
  }

  /** The choice `p`, completed by the remaining draws, leads to the run. */
  ghost predicate Completes<S(!new)>(
      engine: Engine<S>, movers: seq<Mover>, p: seq<Entry>, all: seq<Entry>, self: SelfHit, turn: Turn<S>)
    requires |p| <= |all| == |movers|
  {
    Run(engine, movers, p + all[|p|..], self) == Some(turn)
  }

  lemma LaterStaysAdmitted<S(!new)>(
      engine: Engine<S>, movers: seq<Mover>, p: seq<Entry>, d': Draw, draws: seq<Draw>, damages: seq<seq<int>>,
      selfHits: set<Slot>, j: nat)
    requires RollsExchange(engine, movers, selfHits)
    requires AreDraws(movers, draws) && |damages| == |draws| && |p| < j < |draws|
    requires IsDraw(movers[|p|], draws[|p|]) && IsDraw(movers[|p|], d') && draws[|p|].crits == d'.crits
    requires SeenAs(engine, movers, p, draws[|p|], damages[|p|]) && SeenAs(engine, movers, p, d', damages[|p|])
    requires AdmitsAt(engine, movers, p, draws, damages, j)
    ensures AdmitsAt(engine, movers, p + [Forced(d')], draws, damages, j)
  {
    var k, all := |p|, AllForced(movers, draws);
    var more := all[k + 1..j];
    assert IsDraw(movers[j], draws[j]);
    assert p + all[k..j] == p + [Forced(draws[k])] + more;
    ExchangedProbes(engine, movers, p, draws[k], d', damages[k], more, selfHits);
    AlikeAdmits(engine, movers, p + [Forced(draws[k])] + more, p + [Forced(d')] + more, draws[j], damages[j]);
  }

  /** The next draw can be exchanged for one the sweep tries, and the later draws stay admitted. */
  lemma ReplaceNext<S(!new)>(
      engine: Engine<S>, movers: seq<Mover>, p: seq<Entry>, draws: seq<Draw>, damages: seq<seq<int>>,
      selfHits: set<Slot>, self: SelfHit, turn: Turn<S>)
    returns (d': Draw)
    requires RollsExchange(engine, movers, selfHits) && IsSelfHit(selfHits, self)
    requires AreDraws(movers, draws) && |damages| == |draws| && |p| < |draws|
    requires AdmitsFrom(engine, movers, p, draws, damages)
    requires Completes(engine, movers, p, AllForced(movers, draws), self, turn)
    ensures IsDraw(movers[|p|], d') && Extends(engine, movers, p, Forced(d'))
    ensures Admits(engine, movers, p, d', damages[|p|])
    ensures Completes(engine, movers, p + [Forced(d')], AllForced(movers, draws), self, turn)
    ensures AdmitsFrom(engine, movers, p + [Forced(d')], draws, damages)
  {
    var k, all := |p|, AllForced(movers, draws);
    var d := draws[k];
    assert AdmitsAt(engine, movers, p, draws, damages, k) && IsDraw(movers[k], d);
    assert p + all[k..k] == p;
    d' := AdmittedIsTried(engine, movers, p, d, damages[k]);
    assert p + all[k..] == p + [Forced(d)] + all[k + 1..];
    ExchangedRun(engine, movers, p, d, d', damages[k], all[k + 1..], selfHits, self);
    forall j | k < j < |draws| ensures AdmitsAt(engine, movers, p + [Forced(d')], draws, damages, j) {
      LaterStaysAdmitted(engine, movers, p, d', draws, damages, selfHits, j);
    }
  }

  lemma ChainAppend<S(!new)>(engine: Engine<S>, movers: seq<Mover>, p: seq<Entry>, e: Entry)
    requires AllHit(movers) && |p| < |movers| && movers[|p|].hitCount > 0
    requires Chain(engine, movers, p) && Extends(engine, movers, p, e)
    ensures Chain(engine, movers, p + [e])
  {
    assert (p + [e])[..|p|] == p;
  }

  lemma DealsAppend<S(!new)>(
      engine: Engine<S>, movers: seq<Mover>, p: seq<Entry>, d: Draw, damages: seq<seq<int>>)
    requires |p| < |movers| && |p| < |damages| && IsDraw(movers[|p|], d)
    requires DealsAll(engine, movers, p, damages) && Admits(engine, movers, p, d, damages[|p|])
    ensures DealsAll(engine, movers, p + [Forced(d)], damages)
  {
    var next := p + [Forced(d)];
    assert next[..|p|] == p;
    forall k | 0 <= k < |next| ensures Deals(engine, movers, next, k, damages[k]) {
      if k < |p| {
        assert Deals(engine, movers, p, k, damages[k]);
        var dealt :| IsDealt(engine, movers, p, k, dealt, damages[k]);
        DealtEarlier(engine, movers, next, |p|, k, dealt, damages[k]);
      } else {
        assert IsDealt(engine, movers, next, k, d, damages[k]);
      }
    }
  }

  /** Admitted draws can be exchanged, mover by mover, for ones the sweep reaches, with the same turn and damages. */
  lemma {:induction false} ReplaceDraws<S(!new)>(
      engine: Engine<S>, movers: seq<Mover>, p: seq<Entry>, draws: seq<Draw>, damages: seq<seq<int>>,
      selfHits: set<Slot>, self: SelfHit, turn: Turn<S>)
    returns (q: seq<Entry>)
    requires AllHit(movers) && RollsExchange(engine, movers, selfHits) && IsSelfHit(selfHits, self)
    requires AreDraws(movers, draws) && |damages| == |draws| && |p| <= |draws|
    requires AdmitsFrom(engine, movers, p, draws, damages)
    requires Completes(engine, movers, p, AllForced(movers, draws), self, turn)
    requires Chain(engine, movers, p) && DealsAll(engine, movers, p, damages)
    ensures |q| == |movers| && Chain(engine, movers, q) && DealsAll(engine, movers, q, damages)
    ensures Run(engine, movers, q, self) == Some(turn)
    decreases |movers| - |p|
  {
    if |p| == |movers| {
      assert p + AllForced(movers, draws)[|p|..] == p;
      q := p;
    } else {
      var d' := ReplaceNext(engine, movers, p, draws, damages, selfHits, self, turn);
      ChainAppend(engine, movers, p, Forced(d'));
      DealsAppend(engine, movers, p, d', damages);
      q := ReplaceDraws(engine, movers, p + [Forced(d')], draws, damages, selfHits, self, turn);
    }
  }

  // ---------------------------------------------------------------------------
  // Self-hits
  // ---------------------------------------------------------------------------

  /** The first self-hit roll that passes with the same damage. */
  lemma {:induction false} LeastSelfRoll<S(!new)>(
      engine: Engine<S>, movers: seq<Mover>, p: seq<Entry>, slot: Slot, r: nat)
    returns (least: nat)
    requires |p| == |movers| && r < ROLLS && PassingTurn(engine, movers, p, SelfHit(slot, Sixteenth(r))).Some?
    ensures FirstSelfRoll(engine, movers, p, slot, least)
    ensures ShowsSelfDamage(engine, movers, p, slot, least,
              SelfDamage(PassingTurn(engine, movers, p, SelfHit(slot, Sixteenth(r))).value, slot.0))
    decreases r
  {
    var d := SelfDamage(PassingTurn(engine, movers, p, SelfHit(slot, Sixteenth(r))).value, slot.0);
    if q: nat :| q < r && ShowsSelfDamage(engine, movers, p, slot, q, d) {
      least := LeastSelfRoll(engine, movers, p, slot, q);
    } else {
      least := r;
    }
  }

  /** A choice the sweep reaches is expanded by some self-hit roll with the same turn. */
  lemma SelfHitIsTried<S(!new)>(
      engine: Engine<S>, movers: seq<Mover>, q: seq<Entry>, selfHits: set<Slot>, slot: Slot, r: nat, turn: Turn<S>)
    requires |q| == |movers| && RollsExchange(engine, movers, selfHits) && slot in selfHits
    requires SelfHitFinds(engine, movers, q, slot, r, turn)
    ensures SelfHitTurn(engine, movers, slot, Survivor(q, turn))
  {
    var least := LeastSelfRoll(engine, movers, q, slot, r);
    assert SelfExchangeable(engine, movers, q, slot, r, least);
    assert TurnOfRoll(engine, movers, slot, least, Survivor(q, turn));
  }

  // ---------------------------------------------------------------------------
  // Exactness
  // ---------------------------------------------------------------------------

  /** Admitted draws that lead to a turn give a survivor with that turn, whose rolls stand for the same damages. */
  lemma AdmittedSurvive<S(!new)>(
      engine: Engine<S>, movers: seq<Mover>, selfHits: set<Slot>, draws: seq<Draw>, damages: seq<seq<int>>,
      turn: Turn<S>)
    returns (s: Survivor<S>)
    requires AllHit(movers) && RollsExchange(engine, movers, selfHits)
    requires AdmittedBy(engine, movers, selfHits, draws, damages, turn)
    ensures IsSurvivor(engine, movers, selfHits, s) && s.turn == turn
    ensures DealsAll(engine, movers, s.entries, damages)
  {
    var all := AllForced(movers, draws);
    assert [] + all[0..] == all;
    assert AdmitsFrom(engine, movers, [], draws, damages);
    if selfHits == {} {
      var q := ReplaceDraws(engine, movers, [], draws, damages, selfHits, NoSelfHit, turn);
      s := Survivor(q, turn);
    } else {
      var slot, r: nat :| slot in selfHits && SelfHitFinds(engine, movers, all, slot, r, turn);
      var q := ReplaceDraws(engine, movers, [], draws, damages, selfHits, SelfHit(slot, Sixteenth(r)), turn);
      SelfHitIsTried(engine, movers, q, selfHits, slot, r, turn);
      s := Survivor(q, turn);
    }
  }

  /** The draws behind a choice that the sweep reaches. */
  lemma {:induction false} ChainIsAdmitted<S(!new)>(engine: Engine<S>, movers: seq<Mover>, p: seq<Entry>)
    returns (draws: seq<Draw>, damages: seq<seq<int>>)
    requires AllHit(movers) && Chain(engine, movers, p)
    ensures |draws| == |damages| == |p| <= |movers|
    ensures forall k | 0 <= k < |p| :: IsDealt(engine, movers, p, k, draws[k], damages[k])
    decreases |p|
  {
    if p == [] {
      draws, damages := [], [];
    } else {
      var k := |p| - 1;
      assert movers[k] in movers;
      var init, initDamages := ChainIsAdmitted(engine, movers, p[..k]);
      var d, dealt := ExtensionIsAdmitted(engine, movers, p[..k], p[k]);
      draws, damages := init + [d], initDamages + [dealt];
      forall j | 0 <= j < |p| ensures IsDealt(engine, movers, p, j, draws[j], damages[j]) {
        if j < k {
          assert IsDealt(engine, movers, p[..k], j, init[j], initDamages[j]);
          DealtEarlier(engine, movers, p, k, j, init[j], initDamages[j]);
        }
      }
    }
  }

  /** Every survivor comes from admitted draws; this needs no assumption about the simulator. */
  lemma SurvivorIsAdmitted<S(!new)>(engine: Engine<S>, movers: seq<Mover>, selfHits: set<Slot>, s: Survivor<S>)
    returns (draws: seq<Draw>, damages: seq<seq<int>>)
    requires AllHit(movers) && IsSurvivor(engine, movers, selfHits, s)
    ensures AdmittedBy(engine, movers, selfHits, draws, damages, s.turn)
  {
    draws, damages := ChainIsAdmitted(engine, movers, s.entries);
    forall k | 0 <= k < |draws| ensures IsDraw(movers[k], draws[k]) && s.entries[k] == Forced(draws[k]) {
      assert IsDealt(engine, movers, s.entries, k, draws[k], damages[k]);
    }
    assert AllForced(movers, draws) == s.entries;
    forall j | 0 <= j < |draws| ensures AdmitsAt(engine, movers, [], draws, damages, j) {
      assert IsDealt(engine, movers, s.entries, j, draws[j], damages[j]);
      assert [] + AllForced(movers, draws)[0..j] == s.entries[..j];
    }
    if selfHits != {} {
      var slot :| slot in selfHits && SelfHitTurn(engine, movers, slot, s);
      var r: nat :| TurnOfRoll(engine, movers, slot, r, s);
      assert SelfHitFinds(engine, movers, s.entries, slot, r, s.turn);
    }
  }

  /**
   The sweep finds a turn if and only if some draws lead to it whose hits all land in the simulations that probe them
   and whose damages the readings allow.
   */
  lemma SweepFindsIff<S(!new)>(engine: Engine<S>, movers: seq<Mover>, selfHits: set<Slot>, turn: Turn<S>)
    requires AllHit(movers) && RollsExchange(engine, movers, selfHits)
    ensures SweepFinds(engine, movers, selfHits, turn) <==> AdmittedFinds(engine, movers, selfHits, turn)
  {
    if AdmittedFinds(engine, movers, selfHits, turn) {
      var draws, damages :| AdmittedBy(engine, movers, selfHits, draws, damages, turn);
      var s := AdmittedSurvive(engine, movers, selfHits, draws, damages, turn);
    }
    if SweepFinds(engine, movers, selfHits, turn) {
      var s :| IsSurvivor(engine, movers, selfHits, s) && s.turn == turn;
      var draws, damages := SurvivorIsAdmitted(engine, movers, selfHits, s);
    }
  }

  // ---------------------------------------------------------------------------
  // What is observed
  // ---------------------------------------------------------------------------

  /** One of the rolls `0/15` to `15/15`. */
  predicate IsSixteenth(r: Roll) {
    r.Sixteenth? && r.index < 16
  }

  /**
   The entry agrees with what was observed of the move: a single hit is critical exactly when a critical hit was seen,
   and of several hits as many are critical as were seen.
   */
  predicate Observes(m: Mover, e: Entry) {
    if m.hitCount == 1 then e.roll.Scalar? && IsSixteenth(e.roll.roll) && e.crit == Flag(m.critCount > 0)
    else
      && e.roll.PerHit? && e.crit.PerHitCrits? && |e.roll.rolls| == |e.crit.crits| == m.hitCount
      && (forall i | 0 <= i < |e.roll.rolls| :: IsSixteenth(e.roll.rolls[i]))
      && multiset(e.crit.crits)[true] == m.critCount
  }

  predicate AllObserve(movers: seq<Mover>, entries: seq<Entry>) {
    |entries| == |movers| && forall k | 0 <= k < |movers| :: Observes(movers[k], entries[k])
  }

  lemma {:induction false} CountTrueIsCount(crits: seq<bool>)
    ensures CountTrue(crits) == multiset(crits)[true]
  {
    if crits != [] {
      CountTrueIsCount(crits[1..]);
      assert crits == [crits[0]] + crits[1..];
    }
  }

  lemma DrawObserves(m: Mover, d: Draw)
    requires IsDraw(m, d)
    ensures Observes(m, Forced(d))
  {
    CountTrueIsCount(d.crits);
    if m.hitCount == 1 {
      assert d.crits == [d.crits[0]];
    }
  }

  /** Every entry that agrees with the observation is forced by a draw. */
  lemma ObservedIsDrawn(m: Mover, e: Entry) returns (d: Draw)
    requires m.hitCount > 0 && Observes(m, e)
    ensures IsDraw(m, d) && e == Forced(d)
  {
    if m.hitCount == 1 {
      d := Draw([e.roll.roll.index], [e.crit.crit]);
    } else {
      var rolls := e.roll.rolls;
      d := Draw(seq(|rolls|, i requires 0 <= i < |rolls| => rolls[i].index), e.crit.crits);
    }
    CountTrueIsCount(d.crits);
  }

  /** The draws of the movers force exactly the entries that agree with the observation. */
  lemma DrawsAreObserved(movers: seq<Mover>, entries: seq<Entry>)
    requires AllHit(movers)
    ensures AllObserve(movers, entries) <==>
      exists draws :: AreDraws(movers, draws) && AllForced(movers, draws) == entries
  {
    if AllObserve(movers, entries) {
      var draws: seq<Draw> := [];
      for k := 0 to |movers|
        invariant |draws| == k && forall j | 0 <= j < k :: IsDraw(movers[j], draws[j]) && Forced(draws[j]) == entries[j]
      {
        assert movers[k] in movers;
        var d := ObservedIsDrawn(movers[k], entries[k]);
        draws := draws + [d];
      }
      assert AllForced(movers, draws) == entries;
    }
    if draws :| AreDraws(movers, draws) && AllForced(movers, draws) == entries {
      forall k | 0 <= k < |movers| ensures Observes(movers[k], entries[k]) {
        DrawObserves(movers[k], draws[k]);
      }
    }
  }

  /** The sides moved in the observed order. */
  predicate MovesInOrder<S(!new)>(movers: seq<Mover>, turn: Turn<S>) {
    |movers| <= |turn.moveOrder| && forall k | 0 <= k < |movers| :: turn.moveOrder[k] == movers[k].slot.0
  }

  lemma InOrderIff<S(!new)>(movers: seq<Mover>, turn: Turn<S>)
    ensures OrderOk(turn, movers) <==> MovesInOrder(movers, turn)
  {
  }

  /** Every survivor agrees with what was observed: the crits of each move, and the order of the sides. */
  lemma SurvivorObserves<S(!new)>(engine: Engine<S>, movers: seq<Mover>, selfHits: set<Slot>, s: Survivor<S>)
    requires AllHit(movers) && IsSurvivor(engine, movers, selfHits, s)
    ensures AllObserve(movers, s.entries) && MovesInOrder(movers, s.turn)
  {
    var draws, damages := ChainIsAdmitted(engine, movers, s.entries);
    forall k | 0 <= k < |movers| ensures Observes(movers[k], s.entries[k]) {
      assert IsDealt(engine, movers, s.entries, k, draws[k], damages[k]);
      DrawObserves(movers[k], draws[k]);
    }
    InOrderIff(movers, s.turn);
  }
}
