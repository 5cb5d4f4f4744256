/** The sweep's phase loop: movers are decided one after the other, and every complete choice is simulated. */
module PhaseLoop {
  import opened Common
  import opened MultiHit
  import opened SweepConfig
  import opened MoverRolls

  /**
   One simulated turn: the resulting state, the damages of each attacker's hits, the sides in the order they
   moved, and the damage each side did to itself in confusion.
   */
  datatype Turn<S> = Turn(state: S, damages: map<(int, int), seq<int>>, moveOrder: seq<int>, selfDamage: map<int, int>)

  /** The simulator: absent when the turn cannot be completed. */
  type Engine<!S> = Config -> Option<Turn<S>>

  function HitsBy<S(!new)>(turn: Turn<S>, m: Mover): seq<int> {
    var attacker := (m.slot.0, m.teamIndex);
    if attacker in turn.damages then turn.damages[attacker] else []
  }

  function SelfDamage<S(!new)>(turn: Turn<S>, side: int): int {
    if side in turn.selfDamage then turn.selfDamage[side] else 0
  }

  function Run<S(!new)>(engine: Engine<S>, movers: seq<Mover>, entries: seq<Entry>, self: SelfHit): Option<Turn<S>>
    requires |entries| <= |movers|
  {
    engine(ConfigOf(movers, Padded(entries, |movers|), self))
  }

  /** The observed sides moved first, in the observed order. */
  predicate OrderOk<S(!new)>(turn: Turn<S>, movers: seq<Mover>) {
    Sides(movers) <= turn.moveOrder
  }

  function Sides(movers: seq<Mover>): seq<int> {
    seq(|movers|, i requires 0 <= i < |movers| => movers[i].slot.0)
  }

  // ---------------------------------------------------------------------------
  // One mover
  // ---------------------------------------------------------------------------

  function CountTrue(crits: seq<bool>): nat {
    if crits == [] then 0 else (if crits[0] then 1 else 0) + CountTrue(crits[1..])
  }

  /** The ways `k` of `n` hits may be critical: `itertools.combinations(range(n), k)`, as flags. */
  function CritAssignments(n: nat, k: nat): seq<seq<bool>> {
    if n == 0 then (if k == 0 then [[]] else [])
    else if k == 0 then Prefixed(false, CritAssignments(n - 1, 0))
    else Prefixed(true, CritAssignments(n - 1, k - 1)) + Prefixed(false, CritAssignments(n - 1, k))
  }

  predicate IsCritAssignment(n: nat, k: nat, c: seq<bool>) {
    |c| == n && CountTrue(c) == k
  }

  ghost predicate ListsCrits(n: nat, k: nat, assignments: seq<seq<bool>>) {
    forall c :: c in assignments <==> IsCritAssignment(n, k, c)
  }

  lemma {:induction false} CritAssignmentsListed(n: nat, k: nat)
    ensures ListsCrits(n, k, CritAssignments(n, k))
  {
    if n > 0 {
      CritAssignmentsListed(n - 1, k);
      if k > 0 { CritAssignmentsListed(n - 1, k - 1); }
      forall c ensures c in CritAssignments(n, k) <==> IsCritAssignment(n, k, c) {
        PrefixedMembers(false, CritAssignments(n - 1, k), c);
        if k > 0 { PrefixedMembers(true, CritAssignments(n - 1, k - 1), c); }
        if c != [] {
          assert CountTrue(c) == (if c[0] then 1 else 0) + CountTrue(c[1..]);
        }
      }
    }
  }

  /** Only moves that hit several times are pruned by the readings. */
  predicate MultiHitting(m: Mover) {
    m.hitCount > 1
  }

  /** A single hit is critical or not; the count matters only for several hits. */
  function CritCount(m: Mover): nat {
    if MultiHitting(m) then m.critCount else if m.critCount > 0 then 1 else 0
  }

  /** The readings of a target on side 1 are pixels; a target on side 0 shows exact HP. */
  function PruningOf(m: Mover): Pruning {
    Pruning(MultiHitting(m), HitReadings(m.deltas), 1 - m.slot.0 == 1, m.maxHp)
  }

  /** What the simulation shows of mover `|decided|`, with later movers undecided. */
  function ProbeOf<S(!new)>(engine: Engine<S>, movers: seq<Mover>, decided: seq<Entry>): Probe
    requires |decided| < |movers|
  {
    (e: Entry) =>
      match Run(engine, movers, decided + [e], NoSelfHit)
      case None => None
      case Some(turn) => Some(HitsBy(turn, movers[|decided|]))
  }

  function QueryOf<S(!new)>(engine: Engine<S>, movers: seq<Mover>, decided: seq<Entry>, crits: seq<bool>): Query
    requires |decided| < |movers|
  {
    var m := movers[|decided|];
    Query(ProbeOf(engine, movers, decided), m.hitCount, crits, MultiHitting(m))
  }

  /** Entry `e` forces rolls that the enumeration chooses under the crit assignment `crits`. */
  ghost predicate ExtendsWith<S(!new)>(
      engine: Engine<S>, movers: seq<Mover>, decided: seq<Entry>, e: Entry, crits: seq<bool>)
    requires |decided| < |movers| && movers[|decided|].hitCount > 0
  {
    var m := movers[|decided|];
    && IsCritAssignment(m.hitCount, CritCount(m), crits)
    && exists rolls :: Chosen(QueryOf(engine, movers, decided, crits), PruningOf(m), rolls) &&
        e == EntryOf(rolls, crits)
  }

  /** The sweep goes on from `decided` with entry `e` for the next mover. */
  ghost predicate Extends<S(!new)>(engine: Engine<S>, movers: seq<Mover>, decided: seq<Entry>, e: Entry)
    requires |decided| < |movers| && movers[|decided|].hitCount > 0
  {
    exists crits :: ExtendsWith(engine, movers, decided, e, crits)
  }

  /** The entries for one crit assignment. */
  method EntriesFor<S(!new)>(engine: Engine<S>, movers: seq<Mover>, decided: seq<Entry>, crits: seq<bool>)
    returns (entries: seq<Entry>)
    requires |decided| < |movers| && movers[|decided|].hitCount > 0
    requires IsCritAssignment(movers[|decided|].hitCount, CritCount(movers[|decided|]), crits)
    ensures IsPart(engine, movers, decided, crits, entries)
  {
    var m := movers[|decided|];
    var anchors, newVals, segStarts := SegmentHpDeltasIntoHits(m.deltas);
    var hits := seq(|anchors|, i requires 0 <= i < |anchors| => HitReading(anchors[i], newVals[i], segStarts[i]));
    assert hits == HitReadings(m.deltas);
    var pruning := Pruning(MultiHitting(m), hits, 1 - m.slot.0 == 1, m.maxHp);
    var results := EnumerateRolls(QueryOf(engine, movers, decided, crits), pruning);
    assert forall rolls | rolls in results :: |rolls| == |crits|;
    entries := seq(|results|, j requires 0 <= j < |results| => assert results[j] in results; EntryOf(results[j],
        crits));
    forall e ensures e in entries <==> ExtendsWith(engine, movers, decided, e, crits) {
      if e in entries {
        var j :| 0 <= j < |results| && entries[j] == e;
        assert results[j] in results;
      }
      if ExtendsWith(engine, movers, decided, e, crits) {
        var rolls :| Chosen(QueryOf(engine, movers, decided, crits), PruningOf(m), rolls) && e == EntryOf(rolls, crits);
        assert rolls in results;
        var j :| 0 <= j < |results| && results[j] == rolls;
        assert entries[j] == e;
      }
    }
  }

  /** `part` lists the entries for one crit assignment. */
  ghost predicate IsPart<S(!new)>(
      engine: Engine<S>, movers: seq<Mover>, decided: seq<Entry>, crits: seq<bool>, part: seq<Entry>)
    requires |decided| < |movers| && movers[|decided|].hitCount > 0
  {
    forall e :: e in part <==> ExtendsWith(engine, movers, decided, e, crits)
  }

  function Concat<T>(parts: seq<seq<T>>): seq<T> {
    if parts == [] then [] else Concat(parts[..|parts| - 1]) + parts[|parts| - 1]
  }

  lemma ConcatAppend<T>(parts: seq<seq<T>>, part: seq<T>)
    ensures Concat(parts + [part]) == Concat(parts) + part
  {
    assert (parts + [part])[..|parts|] == parts;
  }

  lemma {:induction false} ConcatMembers<T>(parts: seq<seq<T>>, x: T)
    ensures x in Concat(parts) <==> exists j :: 0 <= j < |parts| && x in parts[j]
    decreases |parts|
  {
    if parts != [] {
      ConcatMembers(parts[..|parts| - 1], x);
    }
  }

  method EnumerateMoverRolls<S(!new)>(engine: Engine<S>, movers: seq<Mover>, decided: seq<Entry>)
    returns (entries: seq<Entry>)
    requires |decided| < |movers| && movers[|decided|].hitCount > 0
    ensures forall e :: e in entries <==> Extends(engine, movers, decided, e)
  {
    var m := movers[|decided|];
    var assignments := CritAssignments(m.hitCount, CritCount(m));
    CritAssignmentsListed(m.hitCount, CritCount(m));
    entries := [];
    ghost var parts: seq<seq<Entry>> := [];
    for k := 0 to |assignments|
      invariant |parts| == k && entries == Concat(parts)
      invariant forall j | 0 <= j < k :: IsPart(engine, movers, decided, assignments[j], parts[j])
    {
      assert assignments[k] in assignments;
      var added := EntriesFor(engine, movers, decided, assignments[k]);
      entries := entries + added;
      ConcatAppend(parts, added);
      parts := parts + [added];
    }
    PartsExtend(engine, movers, decided, assignments, parts);
  }

  lemma PartsExtend<S(!new)>(
      engine: Engine<S>, movers: seq<Mover>, decided: seq<Entry>, assignments: seq<seq<bool>>, parts: seq<seq<Entry>>)
    requires |decided| < |movers| && movers[|decided|].hitCount > 0
    requires ListsCrits(movers[|decided|].hitCount, CritCount(movers[|decided|]), assignments)
    requires |parts| == |assignments|
    requires forall j | 0 <= j < |parts| :: IsPart(engine, movers, decided, assignments[j], parts[j])
    ensures forall e :: e in Concat(parts) <==> Extends(engine, movers, decided, e)
  {
    forall e ensures e in Concat(parts) <==> Extends(engine, movers, decided, e) {
      ConcatMembers(parts, e);
      if e in Concat(parts) {
        var j :| 0 <= j < |parts| && e in parts[j];
        assert IsPart(engine, movers, decided, assignments[j], parts[j]);
        assert ExtendsWith(engine, movers, decided, e, assignments[j]);
      }
      if Extends(engine, movers, decided, e) {
        var c :| ExtendsWith(engine, movers, decided, e, c);
        var j :| 0 <= j < |assignments| && assignments[j] == c;
        assert IsPart(engine, movers, decided, assignments[j], parts[j]);
      }
    }
  }

  // ---------------------------------------------------------------------------
  // All movers
  // ---------------------------------------------------------------------------

  /** Choices the sweep reaches: each entry extends those before it. */
  ghost predicate Chain<S(!new)>(engine: Engine<S>, movers: seq<Mover>, p: seq<Entry>)
    requires forall m | m in movers :: m.hitCount > 0
  {
    |p| <= |movers| &&
    (p != [] ==>
      var k := |p| - 1;
      assert movers[k] in movers;
      Chain(engine, movers, p[..k]) && Extends(engine, movers, p[..k], p[k]))
  }

  /** A complete choice with its simulated turn. */
  datatype Survivor<S> = Survivor(entries: seq<Entry>, turn: Turn<S>)

  /** The simulated turn of a complete choice, if it runs through in the observed order. */
  function PassingTurn<S(!new)>(engine: Engine<S>, movers: seq<Mover>, p: seq<Entry>, self: SelfHit): Option<Turn<S>>
    requires |p| == |movers|
  {
    match Run(engine, movers, p, self)
    case None => None
    case Some(turn) => if OrderOk(turn, movers) then Some(turn) else None
  }

  /** Roll `q` of a confused creature passes, with damage `d` to itself. */
  predicate ShowsSelfDamage<S(!new)>(engine: Engine<S>, movers: seq<Mover>, p: seq<Entry>, slot: Slot, q: nat, d: int)
    requires |p| == |movers|
  {
    var turn := PassingTurn(engine, movers, p, SelfHit(slot, Sixteenth(q)));
    turn.Some? && SelfDamage(turn.value, slot.0) == d
  }

  /** Among the rolls of a confused creature, `r` is the first that passes with the damage it does. */
  predicate FirstSelfRoll<S(!new)>(engine: Engine<S>, movers: seq<Mover>, p: seq<Entry>, slot: Slot, r: nat)
    requires |p| == |movers|
  {
    var turn := PassingTurn(engine, movers, p, SelfHit(slot, Sixteenth(r)));
    && r < ROLLS && turn.Some?
    && forall q: nat | q < r :: !ShowsSelfDamage(engine, movers, p, slot, q, SelfDamage(turn.value, slot.0))
  }

  /** What the phase loop returns, with and without confused creatures. */
  ghost predicate IsSurvivor<S(!new)>(engine: Engine<S>, movers: seq<Mover>, selfHits: set<Slot>, s: Survivor<S>)
    requires forall m | m in movers :: m.hitCount > 0
  {
    && |s.entries| == |movers| && Chain(engine, movers, s.entries)
    && if selfHits == {} then PassingTurn(engine, movers, s.entries, NoSelfHit) == Some(s.turn)
       else exists slot :: slot in selfHits && SelfHitTurn(engine, movers, slot, s)
  }

  ghost predicate SelfHitTurn<S(!new)>(engine: Engine<S>, movers: seq<Mover>, slot: Slot, s: Survivor<S>)
    requires |s.entries| == |movers|
  {
    exists r: nat :: TurnOfRoll(engine, movers, slot, r, s)
  }

  ghost predicate TurnOfRoll<S(!new)>(engine: Engine<S>, movers: seq<Mover>, slot: Slot, r: nat, s: Survivor<S>)
    requires |s.entries| == |movers|
  {
    && FirstSelfRoll(engine, movers, s.entries, slot, r)
    && PassingTurn(engine, movers, s.entries, SelfHit(slot, Sixteenth(r))) == Some(s.turn)
  }

  function AppendEach(partial: seq<Entry>, entries: seq<Entry>): seq<seq<Entry>> {
    seq(|entries|, j requires 0 <= j < |entries| => partial + [entries[j]])
  }

  lemma AppendEachMembers(partial: seq<Entry>, entries: seq<Entry>, p: seq<Entry>)
    ensures p in AppendEach(partial, entries) <==>
      |p| == |partial| + 1 && p[..|partial|] == partial && p[|partial|] in entries
  {
    if p in AppendEach(partial, entries) {
      var j :| 0 <= j < |entries| && AppendEach(partial, entries)[j] == p;
      assert p == partial + [entries[j]];
    }
    if |p| == |partial| + 1 && p[..|partial|] == partial && p[|partial|] in entries {
      var j :| 0 <= j < |entries| && entries[j] == p[|partial|];
      assert AppendEach(partial, entries)[j] == partial + [entries[j]] == p;
    }
  }

  /** `p` is one of the choices in `active`, extended by one mover. */
  ghost predicate OneLonger<S(!new)>(engine: Engine<S>, movers: seq<Mover>, active: seq<seq<Entry>>, i: nat,
      p: seq<Entry>)
    requires i < |movers| && movers[i].hitCount > 0
  {
    |p| == i + 1 && p[..i] in active && Extends(engine, movers, p[..i], p[i])
  }

  method ExtendActive<S(!new)>(engine: Engine<S>, movers: seq<Mover>, active: seq<seq<Entry>>, i: nat)
    returns (next: seq<seq<Entry>>)
    requires i < |movers| && movers[i].hitCount > 0
    requires forall p | p in active :: |p| == i
    ensures forall p :: p in next <==> OneLonger(engine, movers, active, i, p)
  {
    next := [];
    ghost var done: set<seq<Entry>> := {};
    for k := 0 to |active|
      invariant forall j | 0 <= j < k :: active[j] in done
      invariant forall p | p in done :: p in active
      invariant forall p :: p in next <==> |p| == i + 1 && p[..i] in done && OneLonger(engine, movers, active, i, p)
    {
      var partial := active[k];
      assert partial in active;
      var entries := EnumerateMoverRolls(engine, movers, partial);
      ghost var before := next;
      next := next + AppendEach(partial, entries);
      forall p
        ensures p in next <==> |p| == i + 1 && p[..i] in done + {partial} && OneLonger(engine, movers, active, i, p)
      {
        AppendEachMembers(partial, entries, p);
        assert p in next <==> p in before || p in AppendEach(partial, entries);
      }
      done := done + {partial};
    }
  }

  ghost predicate ListsChains<S(!new)>(engine: Engine<S>, movers: seq<Mover>, active: seq<seq<Entry>>, i: nat)
    requires forall m | m in movers :: m.hitCount > 0
  {
    forall p :: p in active <==> |p| == i && Chain(engine, movers, p)
  }

  lemma ChainsGrow<S(!new)>(engine: Engine<S>, movers: seq<Mover>, active: seq<seq<Entry>>, next: seq<seq<Entry>>,
      i: nat)
    requires forall m | m in movers :: m.hitCount > 0
    requires i < |movers| && movers[i].hitCount > 0 && ListsChains(engine, movers, active, i)
    requires forall p :: p in next <==> OneLonger(engine, movers, active, i, p)
    ensures ListsChains(engine, movers, next, i + 1)
  {
    forall p ensures p in next <==> |p| == i + 1 && Chain(engine, movers, p) {
      if |p| == i + 1 {
        assert p[..i] in active <==> Chain(engine, movers, p[..i]);
      }
    }
  }

  /** Decides the movers one after the other. */
  method DecideMovers<S(!new)>(engine: Engine<S>, movers: seq<Mover>) returns (active: seq<seq<Entry>>)
    requires forall m | m in movers :: m.hitCount > 0
    ensures ListsChains(engine, movers, active, |movers|)
  {
    active := [[]];
    for iteration := 0 to |movers|
      invariant ListsChains(engine, movers, active, iteration)
    {
      assert movers[iteration] in movers;
      assert forall p | p in active :: |p| == iteration;
      var next := ExtendActive(engine, movers, active, iteration);
      ChainsGrow(engine, movers, active, next, iteration);
      active := next;
    }
  }

  /** The passing turns of one confused creature, one for each damage it may do to itself. */
  method ExpandSelfHit<S(!new)>(engine: Engine<S>, movers: seq<Mover>, p: seq<Entry>, slot: Slot)
    returns (expanded: seq<Survivor<S>>)
    requires |p| == |movers|
    ensures forall s :: s in expanded <==> s.entries == p && SelfHitTurn(engine, movers, slot, s)
  {
    expanded := [];
    var seen: set<int> := {};
    for r := 0 to ROLLS
      invariant forall d :: d in seen <==> exists q: nat :: q < r && ShowsSelfDamage(engine, movers, p, slot, q, d)
      invariant forall s :: s in expanded <==>
        s.entries == p && exists q: nat :: q < r && TurnOfRoll(engine, movers, slot, q, s)
    {
      var turn := PassingTurn(engine, movers, p, SelfHit(slot, Sixteenth(r)));
      if turn.None? { continue; }
      var selfDmg := SelfDamage(turn.value, slot.0);
      assert ShowsSelfDamage(engine, movers, p, slot, r, selfDmg);
      if selfDmg in seen { continue; }
      assert forall q: nat | q < r :: !ShowsSelfDamage(engine, movers, p, slot, q, selfDmg);
      assert TurnOfRoll(engine, movers, slot, r, Survivor(p, turn.value));
      seen := seen + {selfDmg};
      expanded := expanded + [Survivor(p, turn.value)];
    }
  }

  /** The passing turns of one confused creature, over all choices of the movers. */
  method ExpandSlot<S(!new)>(engine: Engine<S>, movers: seq<Mover>, active: seq<seq<Entry>>, slot: Slot)
    returns (expanded: seq<Survivor<S>>)
    requires forall p | p in active :: |p| == |movers|
    ensures forall s :: s in expanded <==> s.entries in active && SelfHitTurn(engine, movers, slot, s)
  {
    expanded := [];
    ghost var done: set<seq<Entry>> := {};
    for k := 0 to |active|
      invariant forall j | 0 <= j < k :: active[j] in done
      invariant forall p | p in done :: p in active
      invariant forall s :: s in expanded <==> s.entries in done && SelfHitTurn(engine, movers, slot, s)
    {
      assert active[k] in active;
      var turns := ExpandSelfHit(engine, movers, active[k], slot);
      expanded := expanded + turns;
      done := done + {active[k]};
    }
  }

  method ExpandSelfHits<S(!new)>(engine: Engine<S>, movers: seq<Mover>, active: seq<seq<Entry>>, selfHits: set<Slot>)
    returns (expanded: seq<Survivor<S>>)
    requires forall p | p in active :: |p| == |movers|
    ensures forall s :: s in expanded <==>
      s.entries in active && exists slot :: slot in selfHits && SelfHitTurn(engine, movers, slot, s)
  {
    expanded := [];
    var todo := selfHits;
    while todo != {}
      invariant todo <= selfHits
      invariant forall s :: s in expanded <==>
        s.entries in active && exists slot :: slot in selfHits - todo && SelfHitTurn(engine, movers, slot, s)
      decreases todo
    {
      var slot :| slot in todo;
      var turns := ExpandSlot(engine, movers, active, slot);
      expanded := expanded + turns;
      todo := todo - {slot};
    }
  }

  /** The final simulations of choices that involve no confused creature. */
  method SimulateEach<S(!new)>(engine: Engine<S>, movers: seq<Mover>, active: seq<seq<Entry>>)
    returns (survivors: seq<Survivor<S>>)
    requires forall p | p in active :: |p| == |movers|
    ensures forall s :: s in survivors <==>
      s.entries in active && PassingTurn(engine, movers, s.entries, NoSelfHit) == Some(s.turn)
  {
    survivors := [];
    ghost var done: set<seq<Entry>> := {};
    for k := 0 to |active|
      invariant forall j | 0 <= j < k :: active[j] in done
      invariant forall p | p in done :: p in active
      invariant forall s :: s in survivors <==>
        s.entries in done && PassingTurn(engine, movers, s.entries, NoSelfHit) == Some(s.turn)
    {
      assert active[k] in active;
      var turn := PassingTurn(engine, movers, active[k], NoSelfHit);
      if turn.Some? {
        survivors := survivors + [Survivor(active[k], turn.value)];
      }
      done := done + {active[k]};
    }
  }

  /** The phase loop: the survivors are exactly the complete choices whose simulation passes. */
  method RunPhaseLoop<S(!new)>(engine: Engine<S>, movers: seq<Mover>, selfHits: set<Slot>)
    returns (survivors: seq<Survivor<S>>)
    requires forall m | m in movers :: m.hitCount > 0
    ensures forall s :: s in survivors <==> IsSurvivor(engine, movers, selfHits, s)
  {
    var active := DecideMovers(engine, movers);
    if selfHits != {} {
      survivors := ExpandSelfHits(engine, movers, active, selfHits);
    } else {
      survivors := SimulateEach(engine, movers, active);
    }
  }
}
