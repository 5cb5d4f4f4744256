/**
 Simulators that play a turn mover by mover. A step may stop the simulation, may pass without acting, and may hit
 several times. Whatever it computes, when its result depends on the rolls only through the damages dealt, the sweep
 may exchange rolls.
 */
module StepEngine {
  import opened Common
  import opened SweepConfig
  import opened MoverRolls
  import opened PhaseLoop
  import opened SweepExactness
  import opened SweepRefinement

  /**
   A deterministic step per mover. `acts`: it gets to act. `lands`: another hit lands after these damages. `damage`:
   what hit `i` deals under its roll and crit. `stops`: with these damages dealt, and on its placeholder or not, the
   simulation meets a draw that nobody forced. `after`: the state that the damages leave. A confused creature hits
   itself after the movers; its roll may be forced or not.
   */
  datatype Machine<!S> = Machine(
    start: S,
    acts: (nat, S) -> bool, lands: (nat, S, seq<int>) -> bool, damage: (nat, S, nat, Roll, bool) -> int,
    stops: (nat, S, bool, seq<int>) -> bool, after: (nat, S, seq<int>) -> S,
    selfStops: (S, Option<RollSpec>) -> bool, selfDamage: (S, Option<RollSpec>) -> int, afterSelf: (S, int) -> S)

  // ---------------------------------------------------------------------------
  // One step
  // ---------------------------------------------------------------------------

  function RollOf(e: Entry, i: nat): Roll {
    match e.roll
    case Scalar(roll) => roll
    case PerHit(rolls) => if i < |rolls| then rolls[i] else Midpoint
  }

  function CritOf(e: Entry, i: nat): bool {
    match e.crit
    case Flag(crit) => crit
    case PerHitCrits(crits) => i < |crits| && crits[i]
  }

  function DamageOf<S(!new)>(m: Machine<S>, k: nat, s: S, e: Entry, i: nat): int {
    m.damage(k, s, i, RollOf(e, i), CritOf(e, i))
  }

  /** The damages of the hits that land, out of `n`. */
  function Landed<S(!new)>(m: Machine<S>, k: nat, s: S, e: Entry, n: nat): (hits: seq<int>)
    ensures |hits| <= n
    ensures forall i | 0 <= i < |hits| :: hits[i] == DamageOf(m, k, s, e, i)
  {
    if n == 0 then []
    else
      var before := Landed(m, k, s, e, n - 1);
      if |before| == n - 1 && m.lands(k, s, before) then before + [DamageOf(m, k, s, e, n - 1)] else before
  }

  function HitsIn<S(!new)>(m: Machine<S>, mover: Mover, k: nat, s: S, e: Entry): seq<int> {
    if m.acts(k, s) then Landed(m, k, s, e, mover.hitCount) else []
  }

  /** Entries that give every hit the same damage land the same hits. */
  lemma {:induction false} SameDamageLands<S(!new)>(m: Machine<S>, k: nat, s: S, x: Entry, y: Entry, n: nat)
    requires forall i: nat | i < n :: DamageOf(m, k, s, x, i) == DamageOf(m, k, s, y, i)
    ensures Landed(m, k, s, x, n) == Landed(m, k, s, y, n)
  {
    if n > 0 {
      SameDamageLands(m, k, s, x, y, n - 1);
    }
  }

  // ---------------------------------------------------------------------------
  // The whole turn
  // ---------------------------------------------------------------------------

  /** The state before mover `k`. */
  function StateBefore<S(!new)>(m: Machine<S>, movers: seq<Mover>, entries: seq<Entry>, k: nat): S
    requires k <= |entries| == |movers|
    decreases k, 0
  {
    if k == 0 then m.start
    else m.after(k - 1, StateBefore(m, movers, entries, k - 1), HitsAt(m, movers, entries, k - 1))
  }

  function HitsAt<S(!new)>(m: Machine<S>, movers: seq<Mover>, entries: seq<Entry>, k: nat): seq<int>
    requires k < |entries| == |movers|
    decreases k, 1
  {
    HitsIn(m, movers[k], k, StateBefore(m, movers, entries, k), entries[k])
  }

  predicate StopsAt<S(!new)>(m: Machine<S>, movers: seq<Mover>, entries: seq<Entry>, k: nat)
    requires k < |entries| == |movers|
  {
    m.stops(k, StateBefore(m, movers, entries, k), entries[k] == UNDECIDED, HitsAt(m, movers, entries, k))
  }

  function AttackerKey(m: Mover): (int, int) {
    (m.slot.0, m.teamIndex)
  }

  /** The damage log of the first `k` movers. */
  function DamageLog<S(!new)>(m: Machine<S>, movers: seq<Mover>, entries: seq<Entry>, k: nat): map<(int, int), seq<int>>
    requires k <= |entries| == |movers|
  {
    if k == 0 then map[]
    else DamageLog(m, movers, entries, k - 1)[AttackerKey(movers[k - 1]) := HitsAt(m, movers, entries, k - 1)]
  }

  /** The sides of the first `k` movers, in order, without those that did not act. */
  function ActingSides<S(!new)>(m: Machine<S>, movers: seq<Mover>, entries: seq<Entry>, k: nat): seq<int>
    requires k <= |entries| == |movers|
  {
    if k == 0 then []
    else
      ActingSides(m, movers, entries, k - 1) +
      if m.acts(k - 1, StateBefore(m, movers, entries, k - 1)) then [movers[k - 1].slot.0] else []
  }

  function EntryIn(c: Config, slot: Slot): Entry {
    if slot in c.rolls && slot in c.crits then Entry(c.rolls[slot], c.crits[slot]) else UNDECIDED
  }

  /** The entries a configuration gives the movers. */
  function EntriesIn(c: Config, movers: seq<Mover>): seq<Entry> {
    seq(|movers|, i requires 0 <= i < |movers| => EntryIn(c, movers[i].slot))
  }

  /** The turn: the movers, then the confused creature. */
  function Play<S(!new)>(
      m: Machine<S>, movers: seq<Mover>, entries: seq<Entry>, confused: Option<Slot>,
      roll: Option<RollSpec>): Option<Turn<S>>
    requires |entries| == |movers|
  {
    var n := |entries|;
    if exists k: nat :: k < n && StopsAt(m, movers, entries, k) then None
    else
      var last, log := StateBefore(m, movers, entries, n), DamageLog(m, movers, entries, n);
      var order := ActingSides(m, movers, entries, n);
      if confused.None? then Some(Turn(last, log, order, map[]))
      else if m.selfStops(last, roll) then None
      else
        var d := m.selfDamage(last, roll);
        Some(Turn(m.afterSelf(last, d), log, order, map[confused.value.0 := d]))
  }

  function RollIn(c: Config, confused: Option<Slot>): Option<RollSpec> {
    if confused.Some? && confused.value in c.rolls then Some(c.rolls[confused.value]) else None
  }

  function EngineOf<S(!new)>(m: Machine<S>, movers: seq<Mover>, confused: Option<Slot>): Engine<S> {
    (c: Config) => Play(m, movers, EntriesIn(c, movers), confused, RollIn(c, confused))
  }

  function SelfHits(confused: Option<Slot>): set<Slot> {
    if confused.Some? then {confused.value} else {}
  }

  /** One mover per slot and per creature, and the confused creature is not among them. */
  predicate WellPlaced(movers: seq<Mover>, confused: Option<Slot>) {
    && DistinctSlots(movers)
    && (forall i, j | 0 <= i < j < |movers| :: AttackerKey(movers[i]) != AttackerKey(movers[j]))
    && (confused.Some? ==> forall i | 0 <= i < |movers| :: movers[i].slot != confused.value)
  }

  // ---------------------------------------------------------------------------
  // Runs of the sweep
  // ---------------------------------------------------------------------------

  function ForcedRoll(self: SelfHit): Option<RollSpec> {
    match self
    case NoSelfHit => None
    case SelfHit(_, roll) => Some(Scalar(roll))
  }

  /** The configuration gives the simulator the entries the sweep chose. */
  lemma EntriesInConfig(movers: seq<Mover>, entries: seq<Entry>, confused: Option<Slot>, self: SelfHit)
    requires |entries| == |movers| && WellPlaced(movers, confused) && IsSelfHit(SelfHits(confused), self)
    ensures EntriesIn(ConfigOf(movers, entries, self), movers) == entries
    ensures RollIn(ConfigOf(movers, entries, self), confused) == ForcedRoll(self)
  {
    forall i | 0 <= i < |movers| ensures EntriesIn(ConfigOf(movers, entries, self), movers)[i] == entries[i] {
      EachMoverGetsItsEntry(movers, entries, i);
    }
    if confused.Some? {
      OnlyMoversInConfig(movers, entries, confused.value);
    }
  }

  lemma RunPlays<S(!new)>(
      m: Machine<S>, movers: seq<Mover>, confused: Option<Slot>, entries: seq<Entry>, self: SelfHit)
    requires |entries| <= |movers| && WellPlaced(movers, confused) && IsSelfHit(SelfHits(confused), self)
    ensures Run(EngineOf(m, movers, confused), movers, entries, self) ==
            Play(m, movers, Padded(entries, |movers|), confused, ForcedRoll(self))
  {
    EntriesInConfig(movers, Padded(entries, |movers|), confused, self);
  }

  /** A mover's logged damages are its own. */
  lemma {:induction false} LoggedDamage<S(!new)>(
      m: Machine<S>, movers: seq<Mover>, entries: seq<Entry>, confused: Option<Slot>, i: nat, k: nat)
    requires i < k <= |entries| == |movers| && WellPlaced(movers, confused)
    ensures AttackerKey(movers[i]) in DamageLog(m, movers, entries, k)
    ensures DamageLog(m, movers, entries, k)[AttackerKey(movers[i])] == HitsAt(m, movers, entries, i)
    decreases k
  {
    if i < k - 1 {
      LoggedDamage(m, movers, entries, confused, i, k - 1);
    }
  }

  lemma PlayShowsHits<S(!new)>(
      m: Machine<S>, movers: seq<Mover>, confused: Option<Slot>, entries: seq<Entry>, roll: Option<RollSpec>, i: nat)
    requires |entries| == |movers| && i < |movers| && WellPlaced(movers, confused)
    requires Play(m, movers, entries, confused, roll).Some?
    ensures HitsBy(Play(m, movers, entries, confused, roll).value, movers[i]) == HitsAt(m, movers, entries, i)
  {
    LoggedDamage(m, movers, entries, confused, i, |movers|);
  }

  // ---------------------------------------------------------------------------
  // States
  // ---------------------------------------------------------------------------

  /** Later entries do not change what came before. */
  lemma {:induction false} PrefixDecides<S(!new)>(
      m: Machine<S>, movers: seq<Mover>, x: seq<Entry>, y: seq<Entry>, k: nat)
    requires k <= |x| == |y| == |movers| && forall i | 0 <= i < k :: x[i] == y[i]
    ensures StateBefore(m, movers, x, k) == StateBefore(m, movers, y, k)
  {
    if k > 0 {
      PrefixDecides(m, movers, x, y, k - 1);
    }
  }

  /** From equal states equal entries lead to equal states. */
  lemma {:induction false} SuffixFollows<S(!new)>(
      m: Machine<S>, movers: seq<Mover>, x: seq<Entry>, y: seq<Entry>, k: nat, j: nat)
    requires k <= j <= |x| == |y| == |movers| && forall i | k <= i < |x| :: x[i] == y[i]
    requires StateBefore(m, movers, x, k) == StateBefore(m, movers, y, k)
    ensures StateBefore(m, movers, x, j) == StateBefore(m, movers, y, j)
    decreases j
  {
    if k < j {
      SuffixFollows(m, movers, x, y, k, j - 1);
    }
  }

  /** The two turns deal the same hits, mover by mover. */
  predicate SameHits<S(!new)>(m: Machine<S>, movers: seq<Mover>, x: seq<Entry>, y: seq<Entry>)
    requires |x| == |y| == |movers|
  {
    forall k: nat | k < |movers| :: HitsAt(m, movers, x, k) == HitsAt(m, movers, y, k)
  }

  /** The same hits lead through the same states. */
  lemma {:induction false} SameHitsSameStates<S(!new)>(
      m: Machine<S>, movers: seq<Mover>, x: seq<Entry>, y: seq<Entry>, k: nat)
    requires k <= |x| == |y| == |movers| && SameHits(m, movers, x, y)
    ensures StateBefore(m, movers, x, k) == StateBefore(m, movers, y, k)
    ensures DamageLog(m, movers, x, k) == DamageLog(m, movers, y, k)
    ensures ActingSides(m, movers, x, k) == ActingSides(m, movers, y, k)
  {
    if k > 0 {
      SameHitsSameStates(m, movers, x, y, k - 1);
      assert HitsAt(m, movers, x, k - 1) == HitsAt(m, movers, y, k - 1);
    }
  }

  /** Movers that are on their placeholders in both, or in neither, with the same hits play the same turn. */
  lemma SameHitsSameTurn<S(!new)>(
      m: Machine<S>, movers: seq<Mover>, x: seq<Entry>, y: seq<Entry>, confused: Option<Slot>, roll: Option<RollSpec>)
    requires |x| == |y| == |movers| && SameHits(m, movers, x, y)
    requires forall k | 0 <= k < |movers| :: (x[k] == UNDECIDED) == (y[k] == UNDECIDED)
    ensures Play(m, movers, x, confused, roll) == Play(m, movers, y, confused, roll)
  {
    SameHitsSameStates(m, movers, x, y, |movers|);
    forall k: nat | k < |movers| ensures StopsAt(m, movers, x, k) == StopsAt(m, movers, y, k) {
      SameHitsSameStates(m, movers, x, y, k);
      assert HitsAt(m, movers, x, k) == HitsAt(m, movers, y, k);
    }
  }

  // ---------------------------------------------------------------------------
  // Rolls act through damage
  // ---------------------------------------------------------------------------

  /** What a probe shows are the hits of its own step. */
  lemma ProbeShowsHits<S(!new)>(
      m: Machine<S>, movers: seq<Mover>, confused: Option<Slot>, p: seq<Entry>, e: Entry, s: S)
    requires |p| < |movers| && WellPlaced(movers, confused)
    requires s == StateBefore(m, movers, Padded(p, |movers|), |p|)
    requires ProbeOf(EngineOf(m, movers, confused), movers, p)(e).Some?
    ensures ProbeOf(EngineOf(m, movers, confused), movers, p)(e).value == HitsIn(m, movers[|p|], |p|, s, e)
  {
    var all := Padded(p + [e], |movers|);
    RunPlays(m, movers, confused, p + [e], NoSelfHit);
    PlayShowsHits(m, movers, confused, all, None, |p|);
    PrefixDecides(m, movers, all, Padded(p, |movers|), |p|);
  }

  /** A draw's entry forces each hit's roll and crit, and is no placeholder. */
  lemma ForcedHit(m: Mover, d: Draw, i: nat)
    requires IsDraw(m, d) && i < |d.rolls|
    ensures RollOf(Forced(d), i) == Sixteenth(d.rolls[i]) && CritOf(Forced(d), i) == d.crits[i]
    ensures Forced(d) != UNDECIDED
  {
  }

  /** Draws with the same crits that are seen to do the same damages land the same hits. */
  lemma SeenAlikeHits<S(!new)>(
      m: Machine<S>, movers: seq<Mover>, confused: Option<Slot>, p: seq<Entry>, d: Draw, d': Draw,
      damages: seq<int>, s: S)
    requires |p| < |movers| && WellPlaced(movers, confused)
    requires s == StateBefore(m, movers, Padded(p, |movers|), |p|)
    requires IsDraw(movers[|p|], d) && IsDraw(movers[|p|], d') && d.crits == d'.crits
    requires SeenAs(EngineOf(m, movers, confused), movers, p, d, damages)
    requires SeenAs(EngineOf(m, movers, confused), movers, p, d', damages)
    ensures HitsIn(m, movers[|p|], |p|, s, Forced(d)) == HitsIn(m, movers[|p|], |p|, s, Forced(d'))
  {
    var k, n := |p|, movers[|p|].hitCount;
    if m.acts(k, s) {
      if n > 1 {
        forall i: nat | i < n ensures DamageOf(m, k, s, Forced(d), i) == DamageOf(m, k, s, Forced(d'), i) {
          SeenHit(m, movers, confused, p, d, damages, s, i);
          SeenHit(m, movers, confused, p, d', damages, s, i);
        }
        SameDamageLands(m, k, s, Forced(d), Forced(d'), n);
      } else {
        SeenSingle(m, movers, confused, p, d, damages, s);
        SeenSingle(m, movers, confused, p, d', damages, s);
      }
    }
  }

  /** Each hit of several is seen to do the damage it deals. */
  lemma SeenHit<S(!new)>(
      m: Machine<S>, movers: seq<Mover>, confused: Option<Slot>, p: seq<Entry>, d: Draw, damages: seq<int>, s: S,
      i: nat)
    requires |p| < |movers| && WellPlaced(movers, confused)
    requires s == StateBefore(m, movers, Padded(p, |movers|), |p|)
    requires IsDraw(movers[|p|], d) && movers[|p|].hitCount > 1 && i < |d.rolls|
    requires SeenAs(EngineOf(m, movers, confused), movers, p, d, damages)
    ensures DamageOf(m, |p|, s, Forced(d), i) == damages[i]
  {
    var n := movers[|p|].hitCount;
    var probe := Draw(OnlyHit(n, i, d.rolls[i]), d.crits);
    assert QueryOf(EngineOf(m, movers, confused), movers, p, d.crits).DamageAt(i, d.rolls[i]) == Some(damages[i]);
    ProbeShowsHits(m, movers, confused, p, Forced(probe), s);
    ForcedHit(movers[|p|], probe, i);
    ForcedHit(movers[|p|], d, i);
  }

  /** A single hit is seen to do the damage it deals, if it lands. */
  lemma SeenSingle<S(!new)>(
      m: Machine<S>, movers: seq<Mover>, confused: Option<Slot>, p: seq<Entry>, d: Draw, damages: seq<int>, s: S)
    requires |p| < |movers| && WellPlaced(movers, confused) && m.acts(|p|, s)
    requires s == StateBefore(m, movers, Padded(p, |movers|), |p|)
    requires IsDraw(movers[|p|], d) && movers[|p|].hitCount == 1
    requires SeenAs(EngineOf(m, movers, confused), movers, p, d, damages)
    ensures HitsIn(m, movers[|p|], |p|, s, Forced(d)) == if m.lands(|p|, s, []) then [damages[0]] else []
  {
    assert OnlyHit(1, 0, d.rolls[0]) == d.rolls;
    assert QueryOf(EngineOf(m, movers, confused), movers, p, d.crits).DamageAt(0, d.rolls[0]) == Some(damages[0]);
    ProbeShowsHits(m, movers, confused, p, Forced(d), s);
    assert Landed(m, |p|, s, Forced(d), 0) == [];
  }

  /** Turns that differ in one mover's entry, which lands the same hits, deal the same hits throughout. */
  lemma OneEntryDiffers<S(!new)>(m: Machine<S>, movers: seq<Mover>, x: seq<Entry>, y: seq<Entry>, i: nat)
    requires |x| == |y| == |movers| && i < |movers|
    requires forall j | 0 <= j < |movers| && j != i :: x[j] == y[j]
    requires HitsIn(m, movers[i], i, StateBefore(m, movers, x, i), x[i]) ==
             HitsIn(m, movers[i], i, StateBefore(m, movers, x, i), y[i])
    ensures SameHits(m, movers, x, y)
  {
    PrefixDecides(m, movers, x, y, i);
    assert StateBefore(m, movers, x, i + 1) == StateBefore(m, movers, y, i + 1);
    forall k: nat | k < |movers| ensures HitsAt(m, movers, x, k) == HitsAt(m, movers, y, k) {
      if k <= i {
        PrefixDecides(m, movers, x, y, k);
      } else {
        SuffixFollows(m, movers, x, y, i + 1, k);
      }
    }
  }

  /** A mover's entry may be exchanged for one that lands the same hits, if neither is the placeholder. */
  lemma ExchangedTurn<S(!new)>(
      m: Machine<S>, movers: seq<Mover>, confused: Option<Slot>, p: seq<Entry>, e: Entry, e': Entry, rest: seq<Entry>,
      self: SelfHit, s: S)
    requires |p| + 1 + |rest| == |movers| && WellPlaced(movers, confused) && IsSelfHit(SelfHits(confused), self)
    requires s == StateBefore(m, movers, Padded(p, |movers|), |p|) && e != UNDECIDED && e' != UNDECIDED
    requires HitsIn(m, movers[|p|], |p|, s, e) == HitsIn(m, movers[|p|], |p|, s, e')
    ensures Run(EngineOf(m, movers, confused), movers, p + [e] + rest, self) ==
            Run(EngineOf(m, movers, confused), movers, p + [e'] + rest, self)
  {
    var x, y := p + [e] + rest, p + [e'] + rest;
    PrefixDecides(m, movers, x, Padded(p, |movers|), |p|);
    OneEntryDiffers(m, movers, x, y, |p|);
    SameHitsSameTurn(m, movers, x, y, confused, ForcedRoll(self));
    RunPlays(m, movers, confused, x, self);
    RunPlays(m, movers, confused, y, self);
    assert Padded(x, |movers|) == x && Padded(y, |movers|) == y;
  }

  lemma StepExchangeable<S(!new)>(
      m: Machine<S>, movers: seq<Mover>, confused: Option<Slot>, p: seq<Entry>, d: Draw, d': Draw, damages: seq<int>,
      rest: seq<Entry>, self: SelfHit)
    requires |p| + 1 + |rest| == |movers| && WellPlaced(movers, confused) && IsSelfHit(SelfHits(confused), self)
    requires IsDraw(movers[|p|], d) && IsDraw(movers[|p|], d')
    ensures Exchangeable(EngineOf(m, movers, confused), movers, p, d, d', damages, rest, self)
  {
    var engine := EngineOf(m, movers, confused);
    if d.crits == d'.crits && SeenAs(engine, movers, p, d, damages) && SeenAs(engine, movers, p, d', damages) {
      var s := StateBefore(m, movers, Padded(p, |movers|), |p|);
      SeenAlikeHits(m, movers, confused, p, d, d', damages, s);
      ForcedHit(movers[|p|], d, 0);
      ForcedHit(movers[|p|], d', 0);
      ExchangedTurn(m, movers, confused, p, Forced(d), Forced(d'), rest, self, s);
    }
  }

  /** Every such simulator meets the condition under which it is known what the sweep finds. */
  lemma StepsRollsExchange<S(!new)>(m: Machine<S>, movers: seq<Mover>, confused: Option<Slot>)
    requires WellPlaced(movers, confused)
    ensures RollsExchange(EngineOf(m, movers, confused), movers, SelfHits(confused))
  {
    var engine := EngineOf(m, movers, confused);
    forall p, d, d', damages, rest, self
      | |p| + 1 + |rest| == |movers| && IsDraw(movers[|p|], d) && IsDraw(movers[|p|], d') &&
        IsSelfHit(SelfHits(confused), self)
      ensures Exchangeable(engine, movers, p, d, d', damages, rest, self)
    {
      StepExchangeable(m, movers, confused, p, d, d', damages, rest, self);
    }
    forall p, slot, q, r | |p| == |movers| && slot in SelfHits(confused)
      ensures SelfExchangeable(engine, movers, p, slot, q, r)
    {
      RunPlays(m, movers, confused, p, SelfHit(slot, Sixteenth(q)));
      RunPlays(m, movers, confused, p, SelfHit(slot, Sixteenth(r)));
    }
  }

  // ---------------------------------------------------------------------------
  // Hits that land
  // ---------------------------------------------------------------------------

  /** The damages are no greater, hit by hit. */
  predicate AtMost(x: seq<int>, y: seq<int>) {
    |x| == |y| && forall i | 0 <= i < |x| :: x[i] <= y[i]
  }

  /** A higher roll does no less damage, and after less damage no fewer hits land. */
  ghost predicate Monotone<S(!new)>(m: Machine<S>) {
    && (forall k, s, i, x, y, crit | x <= y ::
      m.damage(k, s, i, Sixteenth(x), crit) <= m.damage(k, s, i, Sixteenth(y), crit))
    && (forall k, s, x, y | AtMost(x, y) :: m.lands(k, s, y) ==> m.lands(k, s, x))
  }

  /** If all hits land, they all land when each does no more damage. */
  lemma {:induction false} WeakerHitsLand<S(!new)>(m: Machine<S>, k: nat, s: S, x: Entry, y: Entry, n: nat)
    requires Monotone(m) && |Landed(m, k, s, y, n)| == n
    requires forall i: nat | i < n :: DamageOf(m, k, s, x, i) <= DamageOf(m, k, s, y, i)
    ensures |Landed(m, k, s, x, n)| == n
  {
    if n > 0 {
      WeakerHitsLand(m, k, s, x, y, n - 1);
      assert AtMost(Landed(m, k, s, x, n - 1), Landed(m, k, s, y, n - 1));
    }
  }

  /** The probe of one hit of a draw, with the others at their least roll. */
  function ProbeDraw(d: Draw, i: nat): Draw
    requires i < |d.rolls|
  {
    Draw(OnlyHit(|d.rolls|, i, d.rolls[i]), d.crits)
  }

  lemma ProbeIsWeaker<S(!new)>(m: Machine<S>, mover: Mover, d: Draw, i: nat, k: nat, s: S, j: nat)
    requires IsDraw(mover, d) && i < |d.rolls| && j < |d.rolls| && Monotone(m)
    ensures IsDraw(mover, ProbeDraw(d, i))
    ensures DamageOf(m, k, s, Forced(ProbeDraw(d, i)), j) <= DamageOf(m, k, s, Forced(d), j)
    ensures DamageOf(m, k, s, Forced(ProbeDraw(d, i)), i) == DamageOf(m, k, s, Forced(d), i)
  {
    var probe := ProbeDraw(d, i);
    assert IsDraw(mover, probe);
    ForcedHit(mover, probe, j);
    ForcedHit(mover, d, j);
    ForcedHit(mover, probe, i);
    ForcedHit(mover, d, i);
  }

  /** What probing hit `i` shows when every hit of the move really lands. */
  lemma ProbedHitLands<S(!new)>(m: Machine<S>, mover: Mover, d: Draw, i: nat, k: nat, s: S)
    requires IsDraw(mover, d) && i < |d.rolls| && Monotone(m) && m.acts(k, s)
    requires |Landed(m, k, s, Forced(d), |d.rolls|)| == |d.rolls|
    ensures var hits := HitsIn(m, mover, k, s, Forced(ProbeDraw(d, i)));
            i < |hits| && hits[i] == Landed(m, k, s, Forced(d), |d.rolls|)[i]
  {
    forall j: nat | j < |d.rolls|
      ensures DamageOf(m, k, s, Forced(ProbeDraw(d, i)), j) <= DamageOf(m, k, s, Forced(d), j)
    {
      ProbeIsWeaker(m, mover, d, i, k, s, j);
    }
    WeakerHitsLand(m, k, s, Forced(ProbeDraw(d, i)), Forced(d), |d.rolls|);
    ProbeIsWeaker(m, mover, d, i, k, s, i);
  }

  /**
   Why probing one hit keeps the others at their least roll: when every hit of a move really lands, every hit lands in
   its probe, with the damage it really deals.
   */
  lemma TrueHitsAreSeen<S(!new)>(
      m: Machine<S>, movers: seq<Mover>, confused: Option<Slot>, p: seq<Entry>, d: Draw, s: S)
    requires |p| < |movers| && WellPlaced(movers, confused) && IsDraw(movers[|p|], d) && Monotone(m)
    requires s == StateBefore(m, movers, Padded(p, |movers|), |p|) && m.acts(|p|, s)
    requires |Landed(m, |p|, s, Forced(d), |d.rolls|)| == |d.rolls|
    requires forall i: nat | i < |d.rolls| ::
      ProbeOf(EngineOf(m, movers, confused), movers, p)(Forced(ProbeDraw(d, i))).Some?
    ensures SeenAs(EngineOf(m, movers, confused), movers, p, d, Landed(m, |p|, s, Forced(d), |d.rolls|))
  {
    forall i: nat | i < |d.rolls|
      ensures QueryOf(EngineOf(m, movers, confused), movers, p, d.crits).DamageAt(i, d.rolls[i]) ==
              Some(Landed(m, |p|, s, Forced(d), |d.rolls|)[i])
    {
      ProbeShowsHits(m, movers, confused, p, Forced(ProbeDraw(d, i)), s);
      ProbedHitLands(m, movers[|p|], d, i, |p|, s);
    }
  }

  /** The simulation meets no draw that nobody forced. */
  ghost predicate NeverStops<S(!new)>(m: Machine<S>) {
    (forall k, s, undecided, hits :: !m.stops(k, s, undecided, hits)) && forall s :: !m.selfStops(s, None)
  }

  lemma NeverStopsCompletes<S(!new)>(
      m: Machine<S>, movers: seq<Mover>, confused: Option<Slot>, p: seq<Entry>, e: Entry)
    requires |p| < |movers| && WellPlaced(movers, confused) && NeverStops(m)
    ensures ProbeOf(EngineOf(m, movers, confused), movers, p)(e).Some?
  {
    RunPlays(m, movers, confused, p + [e], NoSelfHit);
  }

  // ---------------------------------------------------------------------------
  // What the sweep finds
  // ---------------------------------------------------------------------------

  /** No step stops on its placeholder, and the confused creature does not stop unforced. */
  ghost predicate NeverStopsUndecided<S(!new)>(m: Machine<S>) {
    && (forall k, s, hits :: !m.stops(k, s, true, hits))
    && forall s :: !m.selfStops(s, None)
  }

  lemma StepsComplete<S(!new)>(m: Machine<S>, movers: seq<Mover>, confused: Option<Slot>)
    requires WellPlaced(movers, confused) && NeverStopsUndecided(m)
    ensures PlaceholdersComplete(EngineOf(m, movers, confused), movers, SelfHits(confused))
  {
    var engine := EngineOf(m, movers, confused);
    forall p, e, rest, self | |p| + 1 + |rest| == |movers| && IsSelfHit(SelfHits(confused), self)
      ensures UndecidedCompletes(engine, movers, p, e, rest, self)
    {
      var x, y := p + [e] + rest, Padded(p + [e], |movers|);
      RunPlays(m, movers, confused, x, self);
      RunPlays(m, movers, confused, p + [e], NoSelfHit);
      assert Padded(x, |movers|) == x;
      if Play(m, movers, x, confused, ForcedRoll(self)).Some? {
        forall k: nat | k < |movers| ensures !StopsAt(m, movers, y, k) {
          if k <= |p| {
            PrefixDecides(m, movers, x, y, k);
            assert !StopsAt(m, movers, x, k);
          }
        }
      }
    }
  }

  /**
   For every deterministic step per mover, stopping or not and hitting once or several times, the sweep finds exactly
   the turns of admitted draws; for single hits that never stop undecided, exactly those that brute force finds.
   */
  lemma StepSweepIsExact<S(!new)>(m: Machine<S>, movers: seq<Mover>, confused: Option<Slot>)
    requires WellPlaced(movers, confused) && AllHit(movers)
    ensures var engine := EngineOf(m, movers, confused);
            && (forall turn :: SweepFinds(engine, movers, SelfHits(confused), turn) <==>
                 AdmittedFinds(engine, movers, SelfHits(confused), turn))
            && (HitOnce(movers) && NeverStopsUndecided(m) ==> Refines(engine, movers, SelfHits(confused)))
  {
    var engine := EngineOf(m, movers, confused);
    StepsRollsExchange(m, movers, confused);
    forall turn ensures SweepFinds(engine, movers, SelfHits(confused), turn) <==>
                        AdmittedFinds(engine, movers, SelfHits(confused), turn)
    {
      SweepFindsIff(engine, movers, SelfHits(confused), turn);
    }
    if HitOnce(movers) && NeverStopsUndecided(m) {
      StepsComplete(m, movers, confused);
      SweepRefinesBruteForce(engine, movers, SelfHits(confused));
    }
  }
}
