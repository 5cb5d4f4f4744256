/**
 Counting the changes of an HP bar. The simulation's recorded changes are undone from the final HP to rebuild the
 trajectory, and the number of visible changes is compared with the number observed.
 */
module HpCount {
  import opened Common
  import opened HpBar
  import opened Stability

  datatype EventKind = Damage | Heal | HitSelfConfusion | Other

  /** A simulated log event; `side` is absent when the event does not say whose HP it is. */
  datatype SimEvent = SimEvent(kind: EventKind, species: string, side: Option<int>, amount: int)

  /** The signed HP change an event made to the creature, or 0 when it made none. */
  function ChangeOf(e: SimEvent, side: int, species: string): int {
    if e.kind == Other || e.species != species || (e.side.Some? && e.side.value != side) then 0
    else if e.kind == Heal then e.amount
    else -e.amount
  }

  /** The creature's changes that are not zero, in order. */
  function Changes(events: seq<SimEvent>, side: int, species: string): seq<int> {
    if events == [] then []
    else
      var last := |events| - 1;
      var change := ChangeOf(events[last], side, species);
      Changes(events[..last], side, species) + if change == 0 then [] else [change]
  }

  method SimHpChanges(events: seq<SimEvent>, side: int, species: string) returns (changes: seq<int>)
    ensures changes == Changes(events, side, species)
  {
    changes := [];
    for i := 0 to |events|
      invariant changes == Changes(events[..i], side, species)
    {
      assert events[..i + 1][..i] == events[..i];
      var e := events[i];
      if e.kind == Other { continue; }
      var sign := if e.kind == Heal then 1 else -1;
      if e.species != species { continue; }
      if e.side.Some? && e.side.value != side { continue; }
      if e.amount == 0 { continue; }
      changes := changes + [sign * e.amount];
    }
    assert events[..|events|] == events;
  }

  /** The HPs that start at `start` and follow the changes. */
  function Forward(start: int, changes: seq<int>): seq<int>
    decreases |changes|
  {
    if changes == [] then [start] else [start] + Forward(start + changes[0], changes[1..])
  }

  /** How often a sequence of readings changes. */
  function Transitions(readings: seq<int>): nat {
    if |readings| < 2 then 0
    else (if readings[0] != readings[1] then 1 else 0) + Transitions(readings[1..])
  }

  function UnequalPairs(deltas: seq<(int, int)>): nat {
    if deltas == [] then 0 else (if deltas[0].0 != deltas[0].1 then 1 else 0) + UnequalPairs(deltas[1..])
  }

  function ShownAll(side: int, hps: seq<int>, maxHp: int): seq<int>
    requires side == 0 || maxHp >= 1
  {
    seq(|hps|, i requires 0 <= i < |hps| => Shown(side, hps[i], maxHp))
  }

  /** The trajectory ending in `final`, rebuilt by undoing the changes last to first and reversing. */
  method Reconstruct(final: int, changes: seq<int>) returns (traj: seq<int>)
    ensures traj == Forward(final - Sum(changes), changes)
  {
    var back := [final];
    var hp := final;
    var i := |changes|;
    while i > 0
      invariant 0 <= i <= |changes| && hp == final - Sum(changes[i..])
      invariant Reverse(back) == Forward(hp, changes[i..])
    {
      i := i - 1;
      assert changes[i..][1..] == changes[i + 1..];
      hp := hp - changes[i];
      ReverseAppend(back, hp);
      back := back + [hp];
    }
    assert changes[0..] == changes;
    traj := Reverse(back);
  }

  function Reverse(s: seq<int>): seq<int> {
    seq(|s|, i requires 0 <= i < |s| => s[|s| - 1 - i])
  }

  lemma ReverseAppend(s: seq<int>, x: int)
    ensures Reverse(s + [x]) == [x] + Reverse(s)
  {
  }

  method CountTransitions(readings: seq<int>) returns (count: nat)
    ensures count == Transitions(readings)
  {
    count := 0;
    assert readings[0..] == readings;
    var i := 1;
    while i < |readings|
      invariant readings != [] ==> 1 <= i <= |readings|
      invariant readings != [] ==> count + Transitions(readings[i - 1..]) == Transitions(readings)
      invariant readings == [] ==> count == 0
    {
      assert readings[i - 1..][1..] == readings[i..];
      if readings[i - 1] != readings[i] { count := count + 1; }
      i := i + 1;
    }
  }

  method CountDeltas(deltas: seq<(int, int)>) returns (count: nat)
    ensures count == UnequalPairs(deltas)
  {
    count := 0;
    assert deltas[0..] == deltas;
    for i := 0 to |deltas|
      invariant count + UnequalPairs(deltas[i..]) == UnequalPairs(deltas)
    {
      assert deltas[i..][1..] == deltas[i + 1..];
      if deltas[i].0 != deltas[i].1 { count := count + 1; }
    }
  }

  /** A creature's record, its name, and its simulated final HP. */
  datatype Subject = Subject(record: HpDeltaSeq, species: string, finalHp: int)

  /** The rebuilt trajectory starts elsewhere than observed, or changes as often as observed. */
  predicate CountsAgree(events: seq<SimEvent>, s: Subject)
    requires s.record.side == 0 || s.record.maxHp >= 1
  {
    var r := s.record;
    r.deltas != [] ==>
      var changes := Changes(events, r.side, s.species);
      var shown := ShownAll(r.side, Forward(s.finalHp - Sum(changes), changes), r.maxHp);
      (shown != [] && shown[0] == r.deltas[0].0) ==> Transitions(shown) == UnequalPairs(r.deltas)
  }

  method HpCountDetail(events: seq<SimEvent>, subjects: seq<Subject>) returns (ok: bool)
    requires forall s | s in subjects :: s.record.side == 0 || s.record.maxHp >= 1
    ensures ok <==> forall s | s in subjects :: CountsAgree(events, s)
  {
    for i := 0 to |subjects|
      invariant forall j | 0 <= j < i :: CountsAgree(events, subjects[j])
    {
      var r := subjects[i].record;
      assert subjects[i] in subjects;
      if r.deltas == [] { continue; }
      var observedCount := CountDeltas(r.deltas);
      var changes := SimHpChanges(events, r.side, subjects[i].species);
      var traj := Reconstruct(subjects[i].finalHp, changes);
      var reconStart := if r.side == 0 then traj[0] else HpToK(traj[0], r.maxHp);
      if reconStart != r.deltas[0].0 { continue; }
      var ks := if r.side == 0 then traj else seq(|traj|, j requires 0 <= j < |traj| => HpToK(traj[j], r.maxHp));
      assert ks == ShownAll(r.side, traj, r.maxHp);
      var simCount := CountTransitions(ks);
      if simCount != observedCount { return false; }
    }
    return true;
  }

  // ---------------------------------------------------------------------------
  // The true run
  // ---------------------------------------------------------------------------

  /** A pair of readings counts when they differ, wherever it stands in the record. */
  lemma {:induction false} PairCounts(before: seq<(int, int)>, pair: (int, int), after: seq<(int, int)>)
    ensures UnequalPairs(before + [pair] + after) == UnequalPairs(before + after) + if pair.0 == pair.1 then 0 else 1
  {
    var all := before + [pair] + after;
    if before == [] {
      assert all[0] == pair && all[1..] == after && before + after == after;
    } else {
      assert all[0] == before[0] && all[1..] == before[1..] + [pair] + after;
      assert (before + after)[1..] == before[1..] + after;
      PairCounts(before[1..], pair, after);
    }
  }

  /** A sequence of readings without its repetitions: what the log of a flickering bar keeps. */
  function Destutter(readings: seq<int>): seq<int> {
    if |readings| < 2 then readings
    else (if readings[0] == readings[1] then [] else [readings[0]]) + Destutter(readings[1..])
  }

  function Pairs(log: seq<int>): seq<(int, int)> {
    if |log| < 2 then [] else [(log[0], log[1])] + Pairs(log[1..])
  }

  lemma {:induction false} DestutterKeepsCount(readings: seq<int>)
    requires readings != []
    ensures Destutter(readings) != [] && Destutter(readings)[0] == readings[0]
    ensures StutterFree(Destutter(readings))
    ensures UnequalPairs(Pairs(Destutter(readings))) == Transitions(readings)
    ensures Pairs(Destutter(readings)) != [] ==> Pairs(Destutter(readings))[0].0 == readings[0]
  {
    if |readings| > 1 {
      DestutterKeepsCount(readings[1..]);
      var rest, all := Destutter(readings[1..]), Destutter(readings);
      if readings[0] != readings[1] {
        assert all[1..] == rest;
        assert Pairs(all) == [(all[0], all[1])] + Pairs(rest);
        assert Pairs(all)[1..] == Pairs(rest);
      } else {
        assert all == rest;
      }
    }
  }

  lemma {:induction false} DestutterAppend(readings: seq<int>, v: int)
    ensures Destutter(readings + [v]) ==
            Destutter(readings) + if readings != [] && readings[|readings| - 1] == v then [] else [v]
    decreases |readings|
  {
    var all := readings + [v];
    if |readings| == 1 {
      assert all == [readings[0], v] && all[1..] == [v];
    } else if |readings| > 1 {
      DestutterAppend(readings[1..], v);
      assert all[1..] == readings[1..] + [v] && all[0] == readings[0] && all[1] == readings[1];
    }
  }

  /** One more reading adds one pair to the record, or none when it repeats the last. */
  lemma {:induction false} PairsAppend(log: seq<int>, v: int)
    ensures Pairs(log + [v]) == Pairs(log) + if log == [] then [] else [(log[|log| - 1], v)]
    decreases |log|
  {
    var all := log + [v];
    if |log| == 1 {
      assert all[1..] == [v];
    } else if |log| > 1 {
      PairsAppend(log[1..], v);
      assert all[1..] == log[1..] + [v] && all[0] == log[0] && all[1] == log[1];
    }
  }

  lemma {:induction false} DestutterLast(readings: seq<int>)
    requires readings != []
    ensures Destutter(readings) != [] && Destutter(readings)[|Destutter(readings)| - 1] == readings[|readings| - 1]
  {
    if |readings| > 1 {
      DestutterLast(readings[1..]);
    }
  }

  /** No reading differs from the one before. */
  predicate Still(readings: seq<int>) {
    forall i | 0 < i < |readings| :: readings[i - 1] == readings[i]
  }

  lemma {:induction false} StillHasNoRecord(readings: seq<int>)
    requires readings != []
    ensures Pairs(Destutter(readings)) == [] <==> Still(readings)
    ensures Transitions(readings) == 0 <==> Still(readings)
  {
    if |readings| > 1 {
      var rest := readings[1..];
      StillHasNoRecord(rest);
      DestutterKeepsCount(rest);
      assert Still(readings) <==> readings[0] == readings[1] && Still(rest) by {
        if Still(readings) {
          forall i | 0 < i < |rest| ensures rest[i - 1] == rest[i] { assert readings[i] == readings[i + 1]; }
        }
        if readings[0] == readings[1] && Still(rest) {
          forall i | 0 < i < |readings| ensures readings[i - 1] == readings[i] {
            if i > 1 { assert rest[i - 2] == rest[i - 1]; }
          }
        }
      }
    }
  }

  // ---------------------------------------------------------------------------
  // What the check rebuilds
  // ---------------------------------------------------------------------------

  /** By how much the changes take away more than the HP really lost: the overkill still to come. */
  function Overkill(hps: seq<int>, changes: seq<int>): int
    requires |hps| == |changes| + 1
    decreases |changes|
  {
    if changes == [] then 0 else hps[1] - hps[0] - changes[0] + Overkill(hps[1..], changes[1..])
  }

  /** The real trajectory, each HP lifted by the overkill still to come. */
  function Lifted(hps: seq<int>, changes: seq<int>): (lifted: seq<int>)
    requires |hps| == |changes| + 1
    ensures |lifted| == |hps| && lifted[0] == hps[0] + Overkill(hps, changes)
    decreases |changes|
  {
    [hps[0] + Overkill(hps, changes)] + if changes == [] then [] else Lifted(hps[1..], changes[1..])
  }

  /** Undoing the changes from the real final HP rebuilds the lifted trajectory. */
  lemma {:induction false} RebuiltIsLifted(hps: seq<int>, changes: seq<int>)
    requires |hps| == |changes| + 1
    ensures Overkill(hps, changes) == hps[|hps| - 1] - Sum(changes) - hps[0]
    ensures Forward(hps[|hps| - 1] - Sum(changes), changes) == Lifted(hps, changes)
    decreases |changes|
  {
    if changes != [] {
      RebuiltIsLifted(hps[1..], changes[1..]);
    }
  }

  /** At how many steps `x` changes and `y` does not. */
  function OnlyIn(x: seq<int>, y: seq<int>): nat
    requires |x| == |y|
  {
    if |x| < 2 then 0 else (if x[0] != x[1] && y[0] == y[1] then 1 else 0) + OnlyIn(x[1..], y[1..])
  }

  lemma {:induction false} StepsCompared(x: seq<int>, y: seq<int>)
    requires |x| == |y|
    ensures Transitions(x) + OnlyIn(y, x) == Transitions(y) + OnlyIn(x, y)
  {
    if |x| >= 2 {
      StepsCompared(x[1..], y[1..]);
    }
  }

  /**
   The run passes the check: the bar never moved, or the overkill shows at the start, or lifting by it hides as many
   steps as it brings out.
   */
  predicate RunPasses(side: int, maxHp: int, hps: seq<int>, changes: seq<int>)
    requires (side == 0 || maxHp >= 1) && |hps| == |changes| + 1
  {
    var seen, lifted := ShownAll(side, hps, maxHp), ShownAll(side, Lifted(hps, changes), maxHp);
    Still(seen) || lifted[0] != seen[0] || OnlyIn(seen, lifted) == OnlyIn(lifted, seen)
  }

  /** The HPs `hps` are the creature's, one after each of its changes, and the record is what the bar showed of them. */
  predicate Recorded(events: seq<SimEvent>, s: Subject, hps: seq<int>)
    requires s.record.side == 0 || s.record.maxHp >= 1
  {
    && |hps| == |Changes(events, s.record.side, s.species)| + 1 && hps[|hps| - 1] == s.finalHp
    && s.record.deltas == Pairs(Destutter(ShownAll(s.record.side, hps, s.record.maxHp)))
  }

  /** A true run agrees with its record exactly when it passes, whatever was clamped on the way. */
  lemma RunAgreesIff(events: seq<SimEvent>, s: Subject, hps: seq<int>)
    requires (s.record.side == 0 || s.record.maxHp >= 1) && Recorded(events, s, hps)
    ensures CountsAgree(events, s) <==>
      RunPasses(s.record.side, s.record.maxHp, hps, Changes(events, s.record.side, s.species))
  {
    var side, maxHp := s.record.side, s.record.maxHp;
    var changes := Changes(events, side, s.species);
    var seen, lifted := ShownAll(side, hps, maxHp), ShownAll(side, Lifted(hps, changes), maxHp);
    RebuiltIsLifted(hps, changes);
    DestutterKeepsCount(seen);
    StillHasNoRecord(seen);
    StepsCompared(seen, lifted);
  }

  /** Every change of the trajectory moved the HP. */
  predicate AllMove(hps: seq<int>) {
    forall i | 0 < i < |hps| :: hps[i - 1] != hps[i]
  }

  lemma {:induction false} AllMoveIsMost(hps: seq<int>)
    requires hps != []
    ensures Transitions(hps) < |hps| && (Transitions(hps) == |hps| - 1 <==> AllMove(hps))
  {
    if |hps| > 1 {
      AllMoveIsMost(hps[1..]);
      var rest := hps[1..];
      if AllMove(hps) {
        forall i | 0 < i < |rest| ensures rest[i - 1] != rest[i] { assert hps[i] != hps[i + 1]; }
      }
      if hps[0] != hps[1] && AllMove(rest) {
        forall i | 0 < i < |hps| ensures hps[i - 1] != hps[i] {
          if i > 1 { assert rest[i - 2] != rest[i - 1]; }
        }
      }
    }
  }

  /**
   When every change shows on the bar, a true run is rejected exactly when lifting by the overkill does not show at
   the start and hides some step.
   */
  lemma VisibleRunAgreesIff(events: seq<SimEvent>, s: Subject, hps: seq<int>)
    requires (s.record.side == 0 || s.record.maxHp >= 1) && Recorded(events, s, hps)
    requires AllMove(ShownAll(s.record.side, hps, s.record.maxHp))
    ensures
      var changes := Changes(events, s.record.side, s.species);
      var lifted := ShownAll(s.record.side, Lifted(hps, changes), s.record.maxHp);
      CountsAgree(events, s) <==>
        changes == [] || lifted[0] != Shown(s.record.side, hps[0], s.record.maxHp) || AllMove(lifted)
  {
    var side, maxHp := s.record.side, s.record.maxHp;
    var changes := Changes(events, side, s.species);
    var seen, lifted := ShownAll(side, hps, maxHp), ShownAll(side, Lifted(hps, changes), maxHp);
    RunAgreesIff(events, s, hps);
    StepsCompared(seen, lifted);
    AllMoveIsMost(seen);
    AllMoveIsMost(lifted);
    StillHasNoRecord(seen);
  }

  /** Overkill that shows at no step does no harm. */
  lemma UnseenOverkillAgrees(events: seq<SimEvent>, s: Subject, hps: seq<int>)
    requires (s.record.side == 0 || s.record.maxHp >= 1) && Recorded(events, s, hps)
    requires ShownAll(s.record.side, Lifted(hps, Changes(events, s.record.side, s.species)), s.record.maxHp) ==
             ShownAll(s.record.side, hps, s.record.maxHp)
    ensures CountsAgree(events, s)
  {
    RunAgreesIff(events, s, hps);
  }

  // ---------------------------------------------------------------------------
  // Knocked out by damage
  // ---------------------------------------------------------------------------

  /** Readings that never rise. */
  predicate Falls(readings: seq<int>) {
    forall i | 0 < i < |readings| :: readings[i] <= readings[i - 1]
  }

  function Levels(readings: seq<int>): set<int> {
    set i | 0 <= i < |readings| :: readings[i]
  }

  lemma LevelsOfTail(readings: seq<int>)
    requires |readings| > 1
    ensures Levels(readings) == {readings[0]} + Levels(readings[1..]) && readings[1] in Levels(readings[1..])
  {
    var rest := readings[1..];
    forall x | x in Levels(rest) ensures x in Levels(readings) {
      var i :| 0 <= i < |rest| && rest[i] == x;
      assert readings[i + 1] == x;
    }
    forall x | x in Levels(readings) ensures x == readings[0] || x in Levels(rest) {
      var i :| 0 <= i < |readings| && readings[i] == x;
      if i > 0 { assert rest[i - 1] == x; }
    }
    assert rest[0] in Levels(rest);
  }

  lemma FallsOn(readings: seq<int>)
    requires Falls(readings) && |readings| > 1
    ensures Falls(readings[1..]) && readings[1] <= readings[0]
  {
    var rest := readings[1..];
    forall i | 0 < i < |rest| ensures rest[i] <= rest[i - 1] { assert readings[i + 1] <= readings[i]; }
  }

  /** Readings that never rise change as often as they take new levels. */
  lemma {:induction false} FallsThroughLevels(readings: seq<int>)
    requires Falls(readings) && readings != []
    ensures Transitions(readings) + 1 == |Levels(readings)|
    ensures forall x | x in Levels(readings) :: x <= readings[0]
  {
    if |readings| == 1 {
      assert Levels(readings) == {readings[0]};
    } else {
      FallsOn(readings);
      FallsThroughLevels(readings[1..]);
      LevelsOfTail(readings);
      assert readings[0] == readings[1] ==> Levels(readings) == Levels(readings[1..]);
    }
  }

  /** The HPs of a creature that damage knocks out at last: `alive`, and then 0. */
  predicate KnockedOut(alive: seq<int>, changes: seq<int>) {
    && alive != [] && |alive| == |changes|
    && (forall i | 0 <= i < |alive| :: alive[i] > 0)
    && (forall i | 0 <= i < |alive| - 1 :: changes[i] <= 0 && alive[i + 1] == alive[i] + changes[i])
  }

  /** What the last hit takes beyond the HP that was left. */
  function FinalOverkill(alive: seq<int>, changes: seq<int>): int
    requires alive != [] && |alive| == |changes|
  {
    -changes[|changes| - 1] - alive[|alive| - 1]
  }

  function LiftedBy(alive: seq<int>, o: int): seq<int> {
    seq(|alive|, i requires 0 <= i < |alive| => alive[i] + o)
  }

  lemma LiftedStep(hps: seq<int>, changes: seq<int>)
    requires |hps| == |changes| + 1 && changes != []
    ensures Overkill(hps, changes) == hps[1] - hps[0] - changes[0] + Overkill(hps[1..], changes[1..])
    ensures Lifted(hps, changes) == [hps[0] + Overkill(hps, changes)] + Lifted(hps[1..], changes[1..])
  {
  }

  lemma FirstLifted(alive: seq<int>, o: int)
    requires alive != []
    ensures LiftedBy(alive, o) + [0] == [alive[0] + o] + (LiftedBy(alive[1..], o) + [0])
  {
  }

  lemma KnockedOutTail(alive: seq<int>, changes: seq<int>)
    requires KnockedOut(alive, changes) && |alive| > 1
    ensures KnockedOut(alive[1..], changes[1..]) && alive[1] == alive[0] + changes[0]
  {
    forall i | 0 <= i < |alive| - 2
      ensures changes[1..][i] <= 0 && alive[1..][i + 1] == alive[1..][i] + changes[1..][i]
    {
      assert changes[i + 1] <= 0 && alive[i + 1 + 1] == alive[i + 1] + changes[i + 1];
    }
    assert alive[0 + 1] == alive[0] + changes[0];
  }

  /** The rebuilt trajectory is the real one, each living HP lifted by the overkill of the last hit. */
  lemma {:induction false} KnockOutIsLifted(alive: seq<int>, changes: seq<int>)
    requires KnockedOut(alive, changes)
    ensures Overkill(alive + [0], changes) == FinalOverkill(alive, changes)
    ensures Lifted(alive + [0], changes) == LiftedBy(alive, FinalOverkill(alive, changes)) + [0]
    decreases |alive|
  {
    LiftedStep(alive + [0], changes);
    assert (alive + [0])[1..] == alive[1..] + [0];
    FirstLifted(alive, FinalOverkill(alive, changes));
    if |alive| == 1 {
      assert alive[1..] + [0] == [0] && changes[1..] == [];
    } else {
      KnockedOutTail(alive, changes);
      KnockOutIsLifted(alive[1..], changes[1..]);
    }
  }

  /** Falling to 0 is one more change. */
  lemma {:induction false} TransitionsToZero(readings: seq<int>)
    requires readings != [] && readings[|readings| - 1] != 0
    ensures Transitions(readings + [0]) == Transitions(readings) + 1
  {
    var all := readings + [0];
    if |readings| == 1 {
      assert all[1..] == [0];
    } else {
      assert all[1..] == readings[1..] + [0] && all[0] == readings[0] && all[1] == readings[1];
      TransitionsToZero(readings[1..]);
    }
  }

  /** Higher HPs show no less. */
  lemma ShownFalls(side: int, hps: seq<int>, maxHp: int)
    requires (side == 0 || maxHp >= 1) && Falls(hps)
    ensures Falls(ShownAll(side, hps, maxHp))
  {
    forall i | 0 < i < |hps| ensures Shown(side, hps[i], maxHp) <= Shown(side, hps[i - 1], maxHp) {
      ShownIsMonotone(side, hps[i], hps[i - 1], maxHp);
    }
  }

  /** The alive part and the fall to 0, as the bar shows them. */
  lemma AliveLevels(side: int, alive: seq<int>, maxHp: int)
    requires (side == 0 || maxHp >= 1) && alive != [] && Falls(alive) && forall i | 0 <= i < |alive| :: alive[i] > 0
    ensures Transitions(ShownAll(side, alive + [0], maxHp)) == |Levels(ShownAll(side, alive, maxHp))|
    ensures !Still(ShownAll(side, alive + [0], maxHp))
  {
    var shown := ShownAll(side, alive, maxHp);
    assert ShownAll(side, alive + [0], maxHp) == shown + [0];
    ShownFalls(side, alive, maxHp);
    FallsThroughLevels(shown);
    TransitionsToZero(shown);
    StillHasNoRecord(shown + [0]);
  }

  /** Two falls to 0 hide as much as they bring out exactly when they go through as many levels alive. */
  lemma FallsCompared(side: int, maxHp: int, alive: seq<int>, lifted: seq<int>)
    requires (side == 0 || maxHp >= 1) && |alive| == |lifted| > 0 && Falls(alive) && Falls(lifted)
    requires forall i | 0 <= i < |alive| :: alive[i] > 0 && lifted[i] > 0
    ensures
      var x, y := ShownAll(side, alive + [0], maxHp), ShownAll(side, lifted + [0], maxHp);
      && !Still(x)
      && (OnlyIn(x, y) == OnlyIn(y, x) <==>
           |Levels(ShownAll(side, lifted, maxHp))| == |Levels(ShownAll(side, alive, maxHp))|)
  {
    AliveLevels(side, alive, maxHp);
    AliveLevels(side, lifted, maxHp);
    StepsCompared(ShownAll(side, alive + [0], maxHp), ShownAll(side, lifted + [0], maxHp));
  }

  /**
   A creature that damage knocks out is rejected exactly when the overkill of the last hit does not show at the start,
   but changes through how many levels the living creature's bar falls.
   */
  lemma KnockOutAgreesIff(events: seq<SimEvent>, s: Subject, alive: seq<int>)
    requires s.record.side == 0 || s.record.maxHp >= 1
    requires Recorded(events, s, alive + [0]) && KnockedOut(alive, Changes(events, s.record.side, s.species))
    requires FinalOverkill(alive, Changes(events, s.record.side, s.species)) >= 0
    ensures
      var side, maxHp := s.record.side, s.record.maxHp;
      var o := FinalOverkill(alive, Changes(events, side, s.species));
      CountsAgree(events, s) <==>
        || Shown(side, alive[0] + o, maxHp) != Shown(side, alive[0], maxHp)
        || |Levels(ShownAll(side, LiftedBy(alive, o), maxHp))| == |Levels(ShownAll(side, alive, maxHp))|
  {
    RunAgreesIff(events, s, alive + [0]);
    KnockOutPassesIff(s.record.side, s.record.maxHp, alive, Changes(events, s.record.side, s.species));
  }

  lemma KnockOutPassesIff(side: int, maxHp: int, alive: seq<int>, changes: seq<int>)
    requires (side == 0 || maxHp >= 1) && KnockedOut(alive, changes) && FinalOverkill(alive, changes) >= 0
    ensures
      var o := FinalOverkill(alive, changes);
      RunPasses(side, maxHp, alive + [0], changes) <==>
        || Shown(side, alive[0] + o, maxHp) != Shown(side, alive[0], maxHp)
        || |Levels(ShownAll(side, LiftedBy(alive, o), maxHp))| == |Levels(ShownAll(side, alive, maxHp))|
  {
    KnockOutIsLifted(alive, changes);
    KnockOutFalls(alive, changes);
    FallsCompared(side, maxHp, alive, LiftedBy(alive, FinalOverkill(alive, changes)));
  }

  lemma KnockOutFalls(alive: seq<int>, changes: seq<int>)
    requires KnockedOut(alive, changes)
    ensures Falls(alive) && Falls(LiftedBy(alive, FinalOverkill(alive, changes)))
  {
    forall i | 0 < i < |alive| ensures alive[i] <= alive[i - 1] {
      var k := i - 1;
      assert changes[k] <= 0 && alive[k + 1] == alive[k] + changes[k];
    }
  }

  /** The creature's changes are never zero. */
  lemma {:induction false} ChangesAreNotZero(events: seq<SimEvent>, side: int, species: string)
    ensures forall c | c in Changes(events, side, species) :: c != 0
  {
    if events != [] {
      ChangesAreNotZero(events[..|events| - 1], side, species);
    }
  }

  /** Damage may stop short of what was logged; heals are logged as applied. */
  predicate PlayedOut(hps: seq<int>, changes: seq<int>)
    requires |hps| == |changes| + 1
  {
    forall i | 0 <= i < |changes| :: StepPlayedOut(hps[i], changes[i], hps[i + 1])
  }

  predicate StepPlayedOut(before: int, change: int, after: int) {
    before + change <= after && (change > 0 ==> after == before + change)
  }

  lemma PlayedOutTail(hps: seq<int>, changes: seq<int>)
    requires |hps| == |changes| + 1 && changes != [] && PlayedOut(hps, changes)
    ensures PlayedOut(hps[1..], changes[1..]) && StepPlayedOut(hps[0], changes[0], hps[1])
  {
    var tail, rest := hps[1..], changes[1..];
    forall i | 0 <= i < |rest| ensures StepPlayedOut(tail[i], rest[i], tail[i + 1]) {
      assert StepPlayedOut(hps[i + 1], changes[i + 1], hps[i + 2]);
    }
    assert StepPlayedOut(hps[0], changes[0], hps[1]);
  }

  /** Overkill never falls short, and when there is none in all, every change was applied in full. */
  lemma {:induction false} OverkillIsNotNegative(hps: seq<int>, changes: seq<int>)
    requires |hps| == |changes| + 1 && PlayedOut(hps, changes)
    ensures Overkill(hps, changes) >= 0
    ensures Overkill(hps, changes) == 0 ==> Lifted(hps, changes) == hps
    decreases |changes|
  {
    if changes != [] {
      PlayedOutTail(hps, changes);
      OverkillIsNotNegative(hps[1..], changes[1..]);
      assert hps == [hps[0]] + hps[1..];
    }
  }

  /** The player's true run is never rejected: overkill shows in the exact HP rebuilt for the start. */
  lemma ExactRunAgrees(events: seq<SimEvent>, s: Subject, hps: seq<int>)
    requires s.record.side == 0 && Recorded(events, s, hps)
    requires PlayedOut(hps, Changes(events, 0, s.species))
    ensures CountsAgree(events, s)
  {
    var changes := Changes(events, 0, s.species);
    RunAgreesIff(events, s, hps);
    OverkillIsNotNegative(hps, changes);
  }

  /** Undoing changes that are not zero, every step of the rebuilt trajectory is a change. */
  lemma {:induction false} EveryStepCounts(start: int, changes: seq<int>)
    requires forall c | c in changes :: c != 0
    ensures Transitions(Forward(start, changes)) == |changes|
    decreases |changes|
  {
    if changes != [] {
      assert forall c | c in changes[1..] :: c in changes;
      assert changes[0] in changes;
      var rest := Forward(start + changes[0], changes[1..]);
      EveryStepCounts(start + changes[0], changes[1..]);
      assert Forward(start, changes)[1..] == rest && rest[0] == start + changes[0];
    }
  }

  /**
   A run read exactly, whatever its changes did to it, is rejected exactly when its HP moved, the amounts not applied
   cancel out, and some change was swallowed whole.
   */
  lemma ExactRunAgreesIff(events: seq<SimEvent>, s: Subject, hps: seq<int>)
    requires s.record.side == 0 && Recorded(events, s, hps)
    ensures CountsAgree(events, s) <==>
      || s.record.deltas == []
      || hps[0] + Sum(Changes(events, 0, s.species)) != s.finalHp
      || AllMove(hps)
  {
    var changes := Changes(events, 0, s.species);
    var rebuilt := Forward(s.finalHp - Sum(changes), changes);
    ChangesAreNotZero(events, 0, s.species);
    EveryStepCounts(s.finalHp - Sum(changes), changes);
    assert ShownAll(0, rebuilt, s.record.maxHp) == rebuilt;
    assert ShownAll(0, hps, s.record.maxHp) == hps;
    DestutterKeepsCount(hps);
    AllMoveIsMost(hps);
  }

  /** When every recorded change was applied in full, the true run is never rejected. */
  lemma TrueRunAgrees(events: seq<SimEvent>, s: Subject, hps: seq<int>)
    requires (s.record.side == 0 || s.record.maxHp >= 1) && Recorded(events, s, hps)
    requires forall i | 0 <= i < |hps| - 1 :: hps[i + 1] == hps[i] + Changes(events, s.record.side, s.species)[i]
    ensures CountsAgree(events, s)
  {
    var changes := Changes(events, s.record.side, s.species);
    FullChangesDoNotLift(hps, changes);
    UnseenOverkillAgrees(events, s, hps);
  }

  lemma {:induction false} FullChangesDoNotLift(hps: seq<int>, changes: seq<int>)
    requires |hps| == |changes| + 1
    requires forall i | 0 <= i < |changes| :: hps[i + 1] == hps[i] + changes[i]
    ensures Overkill(hps, changes) == 0 && Lifted(hps, changes) == hps
    decreases |changes|
  {
    if changes != [] {
      forall i | 0 <= i < |changes| - 1 ensures hps[1..][i + 1] == hps[1..][i] + changes[1..][i] {
        assert hps[i + 1 + 1] == hps[i + 1] + changes[i + 1];
      }
      FullChangesDoNotLift(hps[1..], changes[1..]);
      assert hps == [hps[0]] + hps[1..];
    }
  }

  // ---------------------------------------------------------------------------
  // Event by event
  // ---------------------------------------------------------------------------

  /** The event is about the creature, as far as it says. */
  predicate Concerns(e: SimEvent, side: int, species: string) {
    e.species == species && (e.side.None? || e.side.value == side)
  }

  /** What the event does to the creature's HP: healing adds its amount, and damage takes no more than its amount. */
  predicate Moves(e: SimEvent, side: int, species: string, before: int, after: int) {
    if e.kind == Other || !Concerns(e, side, species) then after == before
    else if e.kind == Heal then after == before + e.amount
    else before - e.amount <= after <= before
  }

  /** Damage takes its whole amount. */
  predicate InFull(e: SimEvent, side: int, species: string, before: int, after: int) {
    Concerns(e, side, species) && (e.kind == Damage || e.kind == HitSelfConfusion) ==> after == before - e.amount
  }

  predicate AllInFull(events: seq<SimEvent>, side: int, species: string, hps: seq<int>)
    requires |hps| == |events| + 1
  {
    forall i | 0 <= i < |events| :: InFull(events[i], side, species, hps[i], hps[i + 1])
  }

  /** The HPs follow the events, one after each. */
  predicate FollowsEvents(events: seq<SimEvent>, side: int, species: string, hps: seq<int>) {
    && |hps| == |events| + 1
    && forall i | 0 <= i < |events| :: Moves(events[i], side, species, hps[i], hps[i + 1])
  }

  /** The HPs after the changes alone, which the bar shows alike. */
  ghost predicate Condenses(
      events: seq<SimEvent>, side: int, maxHp: int, species: string, hps: seq<int>, changed: seq<int>)
    requires (side == 0 || maxHp >= 1) && |hps| == |events| + 1
  {
    var changes := Changes(events, side, species);
    && |changed| == |changes| + 1 && changed[|changed| - 1] == hps[|hps| - 1]
    && Destutter(ShownAll(side, changed, maxHp)) == Destutter(ShownAll(side, hps, maxHp))
    && PlayedOut(changed, changes)
    && (AllInFull(events, side, species, hps) ==>
        forall i | 0 <= i < |changes| :: changed[i + 1] == changed[i] + changes[i])
  }

  lemma ShownAppend(side: int, hps: seq<int>, hp: int, maxHp: int)
    requires (side == 0 || maxHp >= 1) && hps != []
    ensures Destutter(ShownAll(side, hps + [hp], maxHp)) ==
            Destutter(ShownAll(side, hps, maxHp)) +
            if Shown(side, hps[|hps| - 1], maxHp) == Shown(side, hp, maxHp) then [] else [Shown(side, hp, maxHp)]
  {
    assert ShownAll(side, hps + [hp], maxHp) == ShownAll(side, hps, maxHp) + [Shown(side, hp, maxHp)];
    DestutterAppend(ShownAll(side, hps, maxHp), Shown(side, hp, maxHp));
  }

  lemma PlayedOutAppend(hps: seq<int>, changes: seq<int>, change: int, hp: int)
    requires |hps| == |changes| + 1 && PlayedOut(hps, changes) && StepPlayedOut(hps[|hps| - 1], change, hp)
    ensures PlayedOut(hps + [hp], changes + [change])
  {
    var all, more := hps + [hp], changes + [change];
    forall i | 0 <= i < |more| ensures StepPlayedOut(all[i], more[i], all[i + 1]) {
      if i < |changes| { assert StepPlayedOut(hps[i], changes[i], hps[i + 1]); }
    }
  }

  lemma InFullBefore(events: seq<SimEvent>, side: int, species: string, hps: seq<int>)
    requires |hps| == |events| + 1 && events != [] && AllInFull(events, side, species, hps)
    ensures AllInFull(events[..|events| - 1], side, species, hps[..|hps| - 1])
    ensures InFull(events[|events| - 1], side, species, hps[|hps| - 2], hps[|hps| - 1])
  {
    var n := |events| - 1;
    forall i | 0 <= i < n ensures InFull(events[..n][i], side, species, hps[..n + 1][i], hps[..n + 1][i + 1]) {
      assert InFull(events[i], side, species, hps[i], hps[i + 1]);
    }
    assert InFull(events[n], side, species, hps[n], hps[n + 1]);
  }

  /** An event that changes nothing leaves the condensed HPs as they are. */
  lemma NothingCondensed(
      events: seq<SimEvent>, side: int, maxHp: int, species: string, hps: seq<int>, changed: seq<int>)
    requires (side == 0 || maxHp >= 1) && |hps| == |events| + 1 && events != []
    requires Condenses(events[..|events| - 1], side, maxHp, species, hps[..|hps| - 1], changed)
    requires Changes(events, side, species) == Changes(events[..|events| - 1], side, species)
    requires hps[|hps| - 1] == hps[|hps| - 2]
    ensures Condenses(events, side, maxHp, species, hps, changed)
  {
    var init, hp := hps[..|hps| - 1], hps[|hps| - 1];
    assert hps == init + [hp];
    ShownAppend(side, init, hp, maxHp);
    if AllInFull(events, side, species, hps) {
      InFullBefore(events, side, species, hps);
    }
  }

  /** An event that changes the HP adds one to them. */
  lemma OneMoreCondensed(
      events: seq<SimEvent>, side: int, maxHp: int, species: string, hps: seq<int>, changed: seq<int>, change: int)
    requires (side == 0 || maxHp >= 1) && |hps| == |events| + 1 && events != []
    requires Condenses(events[..|events| - 1], side, maxHp, species, hps[..|hps| - 1], changed)
    requires Changes(events, side, species) == Changes(events[..|events| - 1], side, species) + [change]
    requires StepPlayedOut(hps[|hps| - 2], change, hps[|hps| - 1])
    requires InFull(events[|events| - 1], side, species, hps[|hps| - 2], hps[|hps| - 1]) ==>
      hps[|hps| - 1] == hps[|hps| - 2] + change
    ensures Condenses(events, side, maxHp, species, hps, changed + [hps[|hps| - 1]])
  {
    var init, hp := hps[..|hps| - 1], hps[|hps| - 1];
    assert hps == init + [hp];
    ShownAppend(side, init, hp, maxHp);
    ShownAppend(side, changed, hp, maxHp);
    PlayedOutAppend(changed, Changes(events[..|events| - 1], side, species), change, hp);
    if AllInFull(events, side, species, hps) {
      InFullBefore(events, side, species, hps);
    }
  }

  lemma {:induction false} EventsCondense(
      events: seq<SimEvent>, side: int, maxHp: int, species: string, hps: seq<int>)
    returns (changed: seq<int>)
    requires (side == 0 || maxHp >= 1) && FollowsEvents(events, side, species, hps)
    ensures Condenses(events, side, maxHp, species, hps, changed)
    decreases |events|
  {
    if events == [] {
      changed := hps;
    } else {
      var n := |events| - 1;
      changed := EventsCondense(events[..n], side, maxHp, species, hps[..n + 1]);
      assert Moves(events[n], side, species, hps[n], hps[n + 1]);
      var change := ChangeOf(events[n], side, species);
      if change == 0 {
        NothingCondensed(events, side, maxHp, species, hps, changed);
      } else {
        OneMoreCondensed(events, side, maxHp, species, hps, changed, change);
        changed := changed + [hps[n + 1]];
      }
    }
  }

  /**
   From the events to the check: a creature whose HP follows the logged events, healing in full and losing no more
   than the damage, is never rejected when it is the player's, nor when all damage was taken in full.
   */
  lemma EventRunAgrees(events: seq<SimEvent>, s: Subject, hps: seq<int>)
    requires (s.record.side == 0 || s.record.maxHp >= 1) && FollowsEvents(events, s.record.side, s.species, hps)
    requires hps[|hps| - 1] == s.finalHp
    requires s.record.deltas == Pairs(Destutter(ShownAll(s.record.side, hps, s.record.maxHp)))
    ensures s.record.side == 0 || AllInFull(events, s.record.side, s.species, hps) ==> CountsAgree(events, s)
  {
    var changed := EventsCondense(events, s.record.side, s.record.maxHp, s.species, hps);
    if AllInFull(events, s.record.side, s.species, hps) {
      TrueRunAgrees(events, s, changed);
    } else if s.record.side == 0 {
      ExactRunAgrees(events, s, changed);
    }
  }

  /** Undoing the changes rebuilds the trajectory from `start` exactly when the changes add up to the final HP. */
  lemma ReconstructionIsExact(start: int, final: int, changes: seq<int>)
    ensures Forward(final - Sum(changes), changes) == Forward(start, changes) <==> start + Sum(changes) == final
  {
    assert Forward(final - Sum(changes), changes)[0] == final - Sum(changes);
    assert Forward(start, changes)[0] == start;
  }

  const HIT: SimEvent := SimEvent(Damage, "Mon", Some(1), 1)
  const KNOCK_OUT: SimEvent := SimEvent(Damage, "Mon", Some(1), 50)

  /**
   An opponent's true run that the check rejects: 50 HP of 100, a hit of 1 and a hit of 50 that overkills by 1. The
   bar shows 24, 23, 0; undoing the hits gives 51, 50, 0, which it would show as 24, 24, 0.
   */
  lemma ClampedRunIsRejected()
    ensures
      var s := Subject(HpDeltaSeq(1, [(24, 23), (23, 0)], 100), "Mon", 0);
      && Changes([HIT, KNOCK_OUT], 1, "Mon") == [-1, -50]
      && Recorded([HIT, KNOCK_OUT], s, [50, 49, 0]) && PlayedOut([50, 49, 0], [-1, -50])
      && !CountsAgree([HIT, KNOCK_OUT], s)
  {
    var s := Subject(HpDeltaSeq(1, [(24, 23), (23, 0)], 100), "Mon", 0);
    TwoHitsChange();
    TwoHitsShown();
    TwoHitsLifted();
    VisibleRunAgreesIff([HIT, KNOCK_OUT], s, [50, 49, 0]);
    assert !AllMove([24, 24, 0]) by { assert [24, 24, 0][0] == [24, 24, 0][1]; }
  }

  lemma TwoHitsChange()
    ensures Changes([HIT, KNOCK_OUT], 1, "Mon") == [-1, -50]
  {
    assert [HIT, KNOCK_OUT][..1] == [HIT] && [HIT][..0] == [];
    assert Changes([HIT], 1, "Mon") == [-1];
  }

  lemma TwoHitsShown()
    ensures ShownAll(1, [50, 49, 0], 100) == [24, 23, 0] && ShownAll(1, [51, 50, 0], 100) == [24, 24, 0]
    ensures Pairs(Destutter([24, 23, 0])) == [(24, 23), (23, 0)]
  {
    var seen := [24, 23, 0];
    assert seen[1..] == [23, 0] && [23, 0][1..] == [0];
    assert Destutter([23, 0]) == [23, 0] && Destutter(seen) == seen;
    assert Pairs([23, 0]) == [(23, 0)];
  }

  lemma TwoHitsLifted()
    ensures Lifted([50, 49, 0], [-1, -50]) == [51, 50, 0]
  {
    assert [50, 49, 0][1..] == [49, 0] && [49, 0][1..] == [0];
    assert [-1, -50][1..] == [-50];
    assert Overkill([49, 0], [-50]) == 1 && Lifted([49, 0], [-50]) == [50, 0];
  }
}
