/** Enumerating the rolls one mover may have had: one for each distinct damage it can deal. */
module MoverRolls {
  import opened Common
  import opened MultiHit
  import opened SweepConfig

  const ROLLS: nat := 16

  /** The damages a mover deals when forced to an entry; absent when the simulation fails. */
  type Probe = Entry -> Option<seq<int>>

  /** A single hit is forced by scalars, several hits by tuples. */
  function EntryOf(rolls: seq<nat>, crits: seq<bool>): Entry
    requires rolls != [] && |crits| == |rolls|
  {
    if |rolls| == 1 then Entry(Scalar(Sixteenth(rolls[0])), Flag(crits[0]))
    else Entry(PerHit(seq(|rolls|, i requires 0 <= i < |rolls| => Sixteenth(rolls[i]))), PerHitCrits(crits))
  }

  /** Roll `r` for hit `i` and the least roll for the others. */
  function OnlyHit(n: nat, i: nat, r: nat): seq<nat> {
    seq(n, j => if j == i then r else 0)
  }

  /** The question a mover's enumeration asks of the simulation. */
  datatype Query = Query(probe: Probe, hitCount: nat, crits: seq<bool>, prune: bool)
  {
    predicate Valid() {
      hitCount > 0 && |crits| == hitCount
    }

    /** The damage of hit `i` under roll `r`; absent when the hit does not land. */
    function DamageAt(i: nat, r: nat): Option<int>
      requires Valid() && i < hitCount
    {
      match probe(EntryOf(OnlyHit(hitCount, i, r), crits))
      case None => None
      case Some(perHit) =>
        if i < |perHit| then Some(perHit[i])
        else if i == 0 && !prune then Some(0)
        else None
    }

    /** `r` is the first roll with which hit `i` deals `d`. */
    predicate FirstRoll(i: nat, d: int, r: nat)
      requires Valid() && i < hitCount
    {
      r < ROLLS && DamageAt(i, r) == Some(d) && forall q: nat | q < r :: DamageAt(i, q) != Some(d)
    }
  }

  /** Some roll is the first to deal a damage that a roll deals. */
  lemma {:induction false} LeastRoll(q: Query, i: nat, d: int, r: nat) returns (least: nat)
    requires q.Valid() && i < q.hitCount && r < ROLLS && q.DamageAt(i, r) == Some(d)
    ensures q.FirstRoll(i, d, least)
    decreases r
  {
    if s: nat :| s < r && q.DamageAt(i, s) == Some(d) {
      least := LeastRoll(q, i, d, s);
    } else {
      least := r;
    }
  }

  /** The damages discovered for one hit, each with the first roll that deals it. */
  datatype Discovery = Discovery(damages: seq<int>, rollOf: map<int, nat>)

  ghost predicate Discovered(q: Query, i: nat, n: nat, found: Discovery)
    requires q.Valid() && i < q.hitCount
  {
    && Distinct(found.damages)
    && (forall d :: d in found.damages <==> d in found.rollOf)
    && (forall d | d in found.rollOf :: q.FirstRoll(i, d, found.rollOf[d]))
    && (forall r: nat | r < n && q.DamageAt(i, r).Some? :: q.DamageAt(i, r).value in found.rollOf)
  }

  method DiscoverHit(q: Query, i: nat) returns (found: Discovery)
    requires q.Valid() && i < q.hitCount
    ensures Discovered(q, i, ROLLS, found)
  {
    found := Discovery([], map[]);
    for r := 0 to ROLLS
      invariant Discovered(q, i, r, found)
    {
      var dmg := q.DamageAt(i, r);
      if dmg.None? { continue; }
      if dmg.value !in found.rollOf {
        assert q.FirstRoll(i, dmg.value, r);
        found := Discovery(found.damages + [dmg.value], found.rollOf[dmg.value := r]);
      }
    }
  }

  /** Roll tuple `rolls` stands for a damage combination that agrees with the readings. */
  ghost predicate Chosen(q: Query, pruning: Pruning, rolls: seq<nat>)
    requires q.Valid()
  {
    |rolls| == q.hitCount && exists t :: Represents(q, pruning, rolls, t)
  }

  ghost predicate Represents(q: Query, pruning: Pruning, rolls: seq<nat>, t: seq<int>)
    requires q.Valid() && |rolls| == q.hitCount
  {
    && |t| == q.hitCount
    && (forall i | 0 <= i < |t| :: q.FirstRoll(i, t[i], rolls[i]))
    && (forall i | 0 <= i < |t| :: pruning.Allows(t, i))
  }

  function Damages(found: seq<Discovery>): seq<seq<int>> {
    seq(|found|, i requires 0 <= i < |found| => found[i].damages)
  }

  /** The rolls standing for a damage combination. */
  function RollsFor(found: seq<Discovery>, t: seq<int>): seq<nat>
    requires IsFound(found, t)
  {
    seq(|t|, i requires 0 <= i < |t| => found[i].rollOf[t[i]])
  }

  ghost predicate AllDiscovered(q: Query, found: seq<Discovery>)
    requires q.Valid()
  {
    |found| == q.hitCount && forall i | 0 <= i < |found| :: Discovered(q, i, ROLLS, found[i])
  }

  /** A surviving combination is exactly what its rolls represent. */
  lemma SurvivorIsRepresented(q: Query, pruning: Pruning, found: seq<Discovery>, t: seq<int>)
    requires q.Valid() && AllDiscovered(q, found) && |t| == q.hitCount && pruning.Survives(Damages(found), t)
    ensures IsFound(found, t)
    ensures Represents(q, pruning, RollsFor(found, t), t)
  {
    forall i | 0 <= i < |t| ensures t[i] in found[i].rollOf && q.FirstRoll(i, t[i], found[i].rollOf[t[i]]) {
      var hit, d := found[i], t[i];
      assert Discovered(q, i, ROLLS, hit);
      assert d in Damages(found)[i] && Damages(found)[i] == hit.damages;
      assert d in hit.damages;
      assert d in hit.rollOf;
      assert q.FirstRoll(i, d, hit.rollOf[d]);
    }
  }

  lemma RepresentedSurvives(q: Query, pruning: Pruning, found: seq<Discovery>, rolls: seq<nat>, t: seq<int>)
    requires q.Valid() && AllDiscovered(q, found) && |rolls| == q.hitCount && Represents(q, pruning, rolls, t)
    ensures pruning.Survives(Damages(found), t)
    ensures forall i | 0 <= i < |t| :: t[i] in found[i].rollOf && found[i].rollOf[t[i]] == rolls[i]
  {
    forall i | 0 <= i < |t|
      ensures t[i] in found[i].rollOf && found[i].rollOf[t[i]] == rolls[i] && t[i] in Damages(found)[i]
    {
      assert Discovered(q, i, ROLLS, found[i]);
      assert q.FirstRoll(i, t[i], rolls[i]);
      var r := found[i].rollOf[t[i]];
      assert q.FirstRoll(i, t[i], r);
      assert q.DamageAt(i, r) == Some(t[i]) == q.DamageAt(i, rolls[i]);
    }
  }

  /**
   The rolls for one crit assignment: one tuple for each damage combination that agrees with the readings. A hit
   that never lands has no damages, and then there are no combinations.
   */
  method EnumerateRolls(q: Query, pruning: Pruning) returns (results: seq<seq<nat>>)
    requires q.Valid()
    requires forall i | 0 <= i < |pruning.hits| :: pruning.hits[i].segStart <= i
    ensures forall rolls :: rolls in results <==> Chosen(q, pruning, rolls)
    ensures Distinct(results)
  {
    var found: seq<Discovery> := [];
    for i := 0 to q.hitCount
      invariant |found| == i && forall j | 0 <= j < i :: Discovered(q, j, ROLLS, found[j])
    {
      var hit := DiscoverHit(q, i);
      found := found + [hit];
    }
    assert AllDiscovered(q, found);
    forall i | 0 <= i < |found| ensures Distinct(Damages(found)[i]) {
      assert Discovered(q, i, ROLLS, found[i]);
    }
    var combos := PrunedProduct(pruning, Damages(found));
    forall t | t in combos ensures IsFound(found, t) {
      SurvivorIsRepresented(q, pruning, found, t);
    }
    results := CollectRolls(found, combos);
    CollectedAreChosen(q, pruning, found, combos, results);
  }

  /** The roll tuples of the combinations, without repetitions. */
  ghost predicate Collected(found: seq<Discovery>, combos: seq<seq<int>>, results: seq<seq<nat>>) {
    && Distinct(results)
    && (forall t | t in combos :: IsFound(found, t) && RollsFor(found, t) in results)
    && (forall rolls | rolls in results :: exists t :: t in combos && IsFound(found, t) && RollsFor(found, t) == rolls)
  }

  /** Every damage of the combination was discovered. */
  predicate IsFound(found: seq<Discovery>, t: seq<int>) {
    |t| == |found| && forall i | 0 <= i < |t| :: t[i] in found[i].rollOf
  }

  method CollectRolls(found: seq<Discovery>, combos: seq<seq<int>>) returns (results: seq<seq<nat>>)
    requires forall t | t in combos :: IsFound(found, t)
    ensures Collected(found, combos, results)
  {
    results := [];
    for k := 0 to |combos|
      invariant Collected(found, combos[..k], results)
    {
      var t := combos[k];
      assert t in combos && combos[..k + 1] == combos[..k] + [t];
      var rolls := RollsFor(found, t);
      if rolls !in results {
        results := results + [rolls];
      }
    }
    assert combos[..|combos|] == combos;
  }

  /** What is collected from the surviving combinations is exactly what the readings allow. */
  lemma CollectedAreChosen(
      q: Query, pruning: Pruning, found: seq<Discovery>, combos: seq<seq<int>>, results: seq<seq<nat>>)
    requires q.Valid() && AllDiscovered(q, found)
    requires ListsSurvivors(pruning, Damages(found), combos, q.hitCount) && Collected(found, combos, results)
    ensures forall rolls :: rolls in results <==> Chosen(q, pruning, rolls)
  {
    forall rolls ensures rolls in results <==> Chosen(q, pruning, rolls) {
      if rolls in results {
        var t :| t in combos && IsFound(found, t) && RollsFor(found, t) == rolls;
        SurvivorIsRepresented(q, pruning, found, t);
      }
      if Chosen(q, pruning, rolls) {
        var t :| Represents(q, pruning, rolls, t);
        RepresentedSurvives(q, pruning, found, rolls, t);
        assert t in combos;
        assert RollsFor(found, t) == rolls;
      }
    }
  }
}
