/**
 The opponent's HP bar. The screen shows a count of pixels out of 48, never zero for a living creature;
 `HpRange` is the program's inverse of that map.
 */
module HpBar {

  const PIXELS: int := 48

  /** The pixels shown for an exact HP. */
  function HpToK(hp: int, maxHp: int): int
    requires maxHp >= 1
  {
    if hp <= 0 then 0
    else
      var k := hp * PIXELS / maxHp;
      if k < 1 then 1 else k
  }

  /** Rounding towards plus infinity. */
  function CeilDiv(a: int, b: int): int
    requires b >= 1
  {
    -((-a) / b)
  }

  /** The HP values the program takes `k` pixels to stand for, least and greatest. */
  function HpRange(k: int, maxHp: int): (int, int) {
    if k == 0 then (0, 0)
    else
      var hi := CeilDiv((k + 1) * maxHp, PIXELS) - 1;
      (CeilDiv(k * maxHp, PIXELS), if hi < maxHp then hi else maxHp)
  }

  predicate InRange(hp: int, k: int, maxHp: int) {
    HpRange(k, maxHp).0 <= hp <= HpRange(k, maxHp).1
  }

  /** A living creature too weak for a whole pixel, which the bar shows as one all the same. */
  predicate Faint(hp: int, maxHp: int) {
    0 < hp && PIXELS * hp < maxHp
  }

  lemma CeilDivIsLeast(a: int, b: int, x: int)
    requires b >= 1
    ensures CeilDiv(a, b) <= x <==> a <= x * b
  {
    var q := (-a) / b;
    assert q * b <= -a < q * b + b;
    assert -x <= q ==> -x * b <= q * b;
    assert -x >= q + 1 ==> -x * b >= (q + 1) * b;
  }

  lemma FloorDivIsGreatest(a: int, b: int, x: int)
    requires b >= 1
    ensures x <= a / b <==> x * b <= a
  {
    var q := a / b;
    assert q * b <= a < q * b + b;
    assert x <= q ==> x * b <= q * b;
    assert x >= q + 1 ==> x * b >= (q + 1) * b;
  }

  /**
   `HpRange` inverts the bar exactly, for every pixel count and every HP, except that it leaves out the living
   creatures too weak for a pixel of their own.
   */
  lemma RangeInvertsBar(hp: int, k: int, maxHp: int)
    requires maxHp >= 1 && 0 <= hp <= maxHp
    ensures InRange(hp, k, maxHp) <==> HpToK(hp, maxHp) == k && !Faint(hp, maxHp)
  {
    if k != 0 {
      CeilDivIsLeast(k * maxHp, PIXELS, hp);
      CeilDivIsLeast((k + 1) * maxHp, PIXELS, hp);
      FloorDivIsGreatest(hp * PIXELS, maxHp, k);
      FloorDivIsGreatest(hp * PIXELS, maxHp, k + 1);
      FloorDivIsGreatest(hp * PIXELS, maxHp, 1);
      FloorDivIsGreatest(hp * PIXELS, maxHp, 0);
      if k < 0 {
        NegativePixels(k, maxHp);
      }
    }
  }

  lemma NonPositiveProduct(x: int, y: int)
    requires x <= 0 <= y
    ensures x * y <= 0
  {
  }

  lemma NegativePixels(k: int, maxHp: int)
    requires k < 0 && maxHp >= 1
    ensures HpRange(k, maxHp).1 < 0
  {
    var a := (k + 1) * maxHp;
    NonPositiveProduct(k + 1, maxHp);
    CeilDivIsLeast(a, PIXELS, 0);
    assert HpRange(k, maxHp).1 <= CeilDiv(a, PIXELS) - 1;
  }

  /** Away from one pixel the inverse is exact. */
  lemma OnlyOnePixelIsInexact(hp: int, maxHp: int)
    requires maxHp >= 1 && 0 <= hp <= maxHp
    ensures Faint(hp, maxHp) ==> HpToK(hp, maxHp) == 1
  {
    FloorDivIsGreatest(hp * PIXELS, maxHp, 1);
    FloorDivIsGreatest(hp * PIXELS, maxHp, 0);
  }

  /** Ranges of different pixel counts are disjoint and come in the order of the counts. */
  lemma RangesAreOrdered(j: int, k: int, maxHp: int)
    requires 0 <= j < k && maxHp >= 1
    ensures HpRange(j, maxHp).1 < HpRange(k, maxHp).0
  {
    var lo := HpRange(k, maxHp).0;
    CeilDivIsLeast(k * maxHp, PIXELS, lo);
    CeilDivIsLeast((j + 1) * maxHp, PIXELS, lo);
    assert (j + 1) * maxHp <= k * maxHp;
    CeilDivIsLeast(k * maxHp, PIXELS, 0);
    assert 0 < k * maxHp;
  }

  // ---------------------------------------------------------------------------
  // The end-of-turn check
  // ---------------------------------------------------------------------------

  /** One creature's observed HP readings in a turn: exact HP on side 0, pixels on side 1. */
  datatype HpDeltaSeq = HpDeltaSeq(side: int, deltas: seq<(int, int)>, maxHp: int)

  /** What the screen shows of an HP. */
  function Shown(side: int, hp: int, maxHp: int): int
    requires side == 0 || maxHp >= 1
  {
    if side == 0 then hp else HpToK(hp, maxHp)
  }

  /** More HP shows no less. */
  lemma ShownIsMonotone(side: int, a: int, b: int, maxHp: int)
    requires (side == 0 || maxHp >= 1) && a <= b
    ensures Shown(side, a, maxHp) <= Shown(side, b, maxHp)
  {
    if side != 0 && 0 < a {
      FloorDivIsGreatest(b * PIXELS, maxHp, a * PIXELS / maxHp);
      FloorDivIsGreatest(a * PIXELS, maxHp, a * PIXELS / maxHp);
    }
  }

  predicate MatchesLast(record: HpDeltaSeq, hp: int) {
    record.deltas != [] ==>
      var last := record.deltas[|record.deltas| - 1].1;
      if record.side == 0 then hp == last else InRange(hp, last, record.maxHp)
  }

  /** An HP that the creature can have. */
  predicate CanHave(record: HpDeltaSeq, hp: int) {
    record.side == 0 || (record.maxHp >= 1 && 0 <= hp <= record.maxHp)
  }

  /** The bar would show the record's last reading, and the creature is no opponent too weak for a pixel. */
  predicate ReadsLast(record: HpDeltaSeq, hp: int)
    requires CanHave(record, hp)
  {
    record.deltas != [] ==>
      && Shown(record.side, hp, record.maxHp) == record.deltas[|record.deltas| - 1].1
      && (record.side != 0 ==> !Faint(hp, record.maxHp))
  }

  /** An HP passes the check if and only if it reads as the record ends, unless it is too weak for a pixel. */
  lemma MatchesLastIff(record: HpDeltaSeq, hp: int)
    requires CanHave(record, hp)
    ensures MatchesLast(record, hp) <==> ReadsLast(record, hp)
  {
    if record.side != 0 && record.deltas != [] {
      RangeInvertsBar(hp, record.deltas[|record.deltas| - 1].1, record.maxHp);
    }
  }

  /** The true outcome passes the check if and only if it is not an opponent left too weak for a pixel. */
  lemma TrueOutcomeMatches(record: HpDeltaSeq, hp: int)
    requires CanHave(record, hp) && record.deltas != []
    requires record.deltas[|record.deltas| - 1].1 == Shown(record.side, hp, record.maxHp)
    ensures MatchesLast(record, hp) <==> record.side == 0 || !Faint(hp, record.maxHp)
  {
    MatchesLastIff(record, hp);
  }

  /**
   Compares each record's last reading with the creature's simulated HP; `finalHps[i]` belongs to `records[i]`. The
   check passes exactly when every HP reads as its record ends, none of them too weak for a pixel.
   */
  method HpMatchDetail(records: seq<HpDeltaSeq>, finalHps: seq<int>) returns (ok: bool)
    requires |records| == |finalHps|
    ensures ok <==> forall i | 0 <= i < |records| :: MatchesLast(records[i], finalHps[i])
    ensures (forall i | 0 <= i < |records| :: CanHave(records[i], finalHps[i])) ==>
              (ok <==> forall i | 0 <= i < |records| :: ReadsLast(records[i], finalHps[i]))
  {
    forall i | 0 <= i < |records| && CanHave(records[i], finalHps[i])
      ensures MatchesLast(records[i], finalHps[i]) <==> ReadsLast(records[i], finalHps[i])
    {
      MatchesLastIff(records[i], finalHps[i]);
    }
    for i := 0 to |records|
      invariant forall j | 0 <= j < i :: MatchesLast(records[j], finalHps[j])
    {
      if records[i].deltas == [] { continue; }
      var finalVal := records[i].deltas[|records[i].deltas| - 1].1;
      if records[i].side == 0 {
        if finalHps[i] != finalVal { return false; }
      } else {
        var (hpMin, hpMax) := HpRange(finalVal, records[i].maxHp);
        if !(hpMin <= finalHps[i] <= hpMax) { return false; }
      }
    }
    return true;
  }

  /** An input the check gets wrong: 1 HP out of 100 shows one pixel, whose range starts at 3. */
  lemma FaintOutcomeIsRejected()
    ensures HpToK(1, 100) == 1 && HpRange(1, 100) == (3, 4)
    ensures !MatchesLast(HpDeltaSeq(1, [(10, 1)], 100), 1)
  {
    assert CeilDiv(100, PIXELS) == 3 && CeilDiv(200, PIXELS) == 5;
  }
}
