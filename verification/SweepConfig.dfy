/** The inputs of one simulated turn: which roll and crit each mover is forced to. */
module SweepConfig {
  import opened MultiHit

  /** A damage roll: one of the sixteen `index / 15`, or the midpoint used before a mover is decided. */
  datatype Roll = Sixteenth(index: nat) | Midpoint

  datatype RollSpec = Scalar(roll: Roll) | PerHit(rolls: seq<Roll>)
  datatype CritSpec = Flag(crit: bool) | PerHitCrits(crits: seq<bool>)

  /** What one mover is forced to. */
  datatype Entry = Entry(roll: RollSpec, crit: CritSpec)

  /** A side and a slot on it. */
  type Slot = (int, int)

  /** The forced rolls and crits, keyed by slot. */
  datatype Config = Config(rolls: map<Slot, RollSpec>, crits: map<Slot, CritSpec>)

  /** A mover of the turn, with what was observed of its move. */
  datatype Mover = Mover(slot: Slot, teamIndex: int, hitCount: nat, critCount: nat, deltas: seq<Delta>, maxHp: int)

  /** The roll of a creature that hits itself in confusion. */
  datatype SelfHit = NoSelfHit | SelfHit(slot: Slot, roll: Roll)

  const UNDECIDED: Entry := Entry(Scalar(Midpoint), Flag(false))

  /** The entries with every later mover undecided. */
  function Padded(entries: seq<Entry>, n: nat): seq<Entry>
    requires |entries| <= n
  {
    entries + seq(n - |entries|, _ => UNDECIDED)
  }

  function WithEntry(c: Config, slot: Slot, e: Entry): Config {
    Config(c.rolls[slot := e.roll], c.crits[slot := e.crit])
  }

  /** The configuration giving each mover its entry; of two movers in one slot the later wins. */
  function MoverConfig(movers: seq<Mover>, entries: seq<Entry>): Config
    requires |movers| == |entries|
  {
    if movers == [] then Config(map[], map[])
    else
      var last := |movers| - 1;
      WithEntry(MoverConfig(movers[..last], entries[..last]), movers[last].slot, entries[last])
  }

  function ConfigOf(movers: seq<Mover>, entries: seq<Entry>, self: SelfHit): Config
    requires |movers| == |entries|
  {
    var c := MoverConfig(movers, entries);
    match self
    case NoSelfHit => c
    case SelfHit(slot, roll) => Config(c.rolls[slot := Scalar(roll)], c.crits)
  }

  /** Decided movers keep their entries, the mover at `iteration` gets `current`, later ones the placeholder. */
  method MakeSweepConfig(decided: seq<Entry>, movers: seq<Mover>, iteration: nat, current: Entry, self: SelfHit)
    returns (config: Config)
    requires |decided| == iteration <= |movers|
    ensures config == ConfigOf(movers, Padded(if iteration < |movers| then decided + [current] else decided,
        |movers|), self)
  {
    ghost var entries := Padded(if iteration < |movers| then decided + [current] else decided, |movers|);
    config := Config(map[], map[]);
    for i := 0 to |movers|
      invariant config == MoverConfig(movers[..i], entries[..i])
    {
      var e := if i < iteration then decided[i] else if i == iteration then current else UNDECIDED;
      assert e == entries[i];
      assert movers[..i + 1][..i] == movers[..i] && entries[..i + 1][..i] == entries[..i];
      config := Config(config.rolls[movers[i].slot := e.roll], config.crits[movers[i].slot := e.crit]);
    }
    assert movers[..|movers|] == movers && entries[..|movers|] == entries;
    if self.SelfHit? {
      config := Config(config.rolls[self.slot := Scalar(self.roll)], config.crits);
    }
  }

  predicate DistinctSlots(movers: seq<Mover>) {
    forall i, j | 0 <= i < j < |movers| :: movers[i].slot != movers[j].slot
  }

  /** With one mover per slot, every mover is forced to its own entry. */
  lemma {:induction false} EachMoverGetsItsEntry(movers: seq<Mover>, entries: seq<Entry>, i: nat)
    requires |movers| == |entries| && DistinctSlots(movers) && i < |movers|
    ensures
      var c := MoverConfig(movers, entries);
      && movers[i].slot in c.rolls && c.rolls[movers[i].slot] == entries[i].roll
      && movers[i].slot in c.crits && c.crits[movers[i].slot] == entries[i].crit
    decreases |movers|
  {
    var last := |movers| - 1;
    if i < last {
      EachMoverGetsItsEntry(movers[..last], entries[..last], i);
    }
  }

  /** A slot without a mover is not forced. */
  lemma {:induction false} OnlyMoversInConfig(movers: seq<Mover>, entries: seq<Entry>, slot: Slot)
    requires |entries| == |movers| && forall i | 0 <= i < |movers| :: movers[i].slot != slot
    ensures slot !in MoverConfig(movers, entries).rolls && slot !in MoverConfig(movers, entries).crits
    decreases |movers|
  {
    if movers != [] {
      OnlyMoversInConfig(movers[..|movers| - 1], entries[..|movers| - 1], slot);
    }
  }

  /**
   What each slot is forced to: decided movers their entries, later ones the midpoint without a crit, and a creature
   that hits itself its roll and no crit.
   */
  lemma ForcedBySlot(movers: seq<Mover>, decided: seq<Entry>, self: SelfHit, i: nat)
    requires DistinctSlots(movers) && |decided| <= |movers|
    requires self.SelfHit? ==> forall k | 0 <= k < |movers| :: movers[k].slot != self.slot
    ensures
      var c := ConfigOf(movers, Padded(decided, |movers|), self);
      && (i < |movers| ==>
           && movers[i].slot in c.rolls && movers[i].slot in c.crits
           && c.rolls[movers[i].slot] == (if i < |decided| then decided[i].roll else Scalar(Midpoint))
           && c.crits[movers[i].slot] == if i < |decided| then decided[i].crit else Flag(false))
      && (self.SelfHit? ==>
           self.slot in c.rolls && c.rolls[self.slot] == Scalar(self.roll) && self.slot !in c.crits)
  {
    var entries := Padded(decided, |movers|);
    if i < |movers| {
      EachMoverGetsItsEntry(movers, entries, i);
    }
    if self.SelfHit? {
      OnlyMoversInConfig(movers, entries, self.slot);
    }
  }
}
