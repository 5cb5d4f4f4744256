/** From raw bar readings to the count check: a run that was really played and clearly filmed is never rejected. */
module HpFilm {
  import opened Common
  import opened HpBar
  import opened Stability
  import opened HpCount

  /** The bar rests at `value` for `held` readings, and is then unreadable for `gap` readings. */
  datatype Rest = Rest(value: int, held: nat, gap: nat)

  function Repeat(r: Reading, n: nat): seq<Reading> {
    if n == 0 then [] else Repeat(r, n - 1) + [r]
  }

  function Film(rests: seq<Rest>): seq<Reading> {
    if rests == [] then []
    else
      var last := rests[|rests| - 1];
      Film(rests[..|rests| - 1]) + Repeat(Some(last.value), last.held) + Repeat(None, last.gap)
  }

  function Values(rests: seq<Rest>): seq<int> {
    seq(|rests|, i requires 0 <= i < |rests| => rests[i].value)
  }

  /** What one more reading does to the run, to what is confirmed, and to the log. */
  lemma OneMoreReading(required: int, init: seq<Reading>, r: Reading)
    ensures
      var all := init + [r];
      var run := TrailingRun(all);
      && run == (if r.None? then 0 else if init != [] && init[|init| - 1] == r then 1 + TrailingRun(init) else 1)
      && Confirmed(required, all) == (if run >= Needed(required) then r else Confirmed(required, init))
      && Confirmations(required, all) ==
         Confirmations(required, init) +
         if run >= Needed(required) && Confirmed(required, init) != r then [r.value] else []
  {
    assert (init + [r])[..|init|] == init;
  }

  /** Unreadable captures change nothing. */
  lemma {:induction false} GapChangesNothing(required: int, before: seq<Reading>, n: nat)
    ensures Confirmations(required, before + Repeat(None, n)) == Confirmations(required, before)
    ensures Confirmed(required, before + Repeat(None, n)) == Confirmed(required, before)
  {
    if n == 0 {
      assert before + Repeat(None, n) == before;
    } else {
      GapChangesNothing(required, before, n - 1);
      OneMoreReading(required, before + Repeat(None, n - 1), None);
      assert before + Repeat(None, n) == before + Repeat(None, n - 1) + [None];
    }
  }

  /** What resting at `v` can have done: nothing yet, or confirmed `v` once. */
  predicate RestedAt(required: int, before: seq<Reading>, v: int, all: seq<Reading>) {
    || (Confirmations(required, all) == Confirmations(required, before) &&
        Confirmed(required, all) == Confirmed(required, before))
    || (Confirmed(required, before) != Some(v) && Confirmed(required, all) == Some(v) &&
        Confirmations(required, all) == Confirmations(required, before) + [v])
  }

  lemma RestGoesOn(required: int, before: seq<Reading>, v: int, init: seq<Reading>, n: nat)
    requires RestedAt(required, before, v, init) && n <= TrailingRun(init)
    requires n > 0 ==> init != [] && init[|init| - 1] == Some(v)
    ensures RestedAt(required, before, v, init + [Some(v)]) && n + 1 <= TrailingRun(init + [Some(v)])
    ensures n + 1 >= Needed(required) ==> Confirmed(required, init + [Some(v)]) == Some(v)
  {
    OneMoreReading(required, init, Some(v));
  }

  /** While the bar rests at `v`, nothing but `v` can be confirmed, and only once. */
  lemma {:induction false} RestConfirmsOnce(required: int, before: seq<Reading>, v: int, n: nat)
    ensures RestedAt(required, before, v, before + Repeat(Some(v), n))
    ensures n <= TrailingRun(before + Repeat(Some(v), n))
    ensures n > 0 ==> var all := before + Repeat(Some(v), n); all != [] && all[|all| - 1] == Some(v)
    ensures n >= Needed(required) ==> Confirmed(required, before + Repeat(Some(v), n)) == Some(v)
  {
    if n == 0 {
      assert before + Repeat(Some(v), n) == before;
    } else {
      RestConfirmsOnce(required, before, v, n - 1);
      RestGoesOn(required, before, v, before + Repeat(Some(v), n - 1), n - 1);
      assert before + Repeat(Some(v), n) == before + Repeat(Some(v), n - 1) + [Some(v)];
    }
  }

  /** A long enough rest logs its value, unless it is the one confirmed already. */
  lemma RestIsLogged(required: int, before: seq<Reading>, r: Rest)
    requires r.held >= Needed(required)
    ensures
      var all := before + Repeat(Some(r.value), r.held) + Repeat(None, r.gap);
      && Confirmed(required, all) == Some(r.value)
      && Confirmations(required, all) ==
         Confirmations(required, before) + if Confirmed(required, before) == Some(r.value) then [] else [r.value]
  {
    RestConfirmsOnce(required, before, r.value, r.held);
    GapChangesNothing(required, before + Repeat(Some(r.value), r.held), r.gap);
  }

  lemma OneMoreValue(init: seq<Rest>, last: Rest)
    ensures Destutter(Values(init + [last])) ==
            Destutter(Values(init)) +
            if init != [] && init[|init| - 1].value == last.value then [] else [last.value]
  {
    var values := Values(init);
    DestutterAppend(values, last.value);
    assert Values(init + [last]) == values + [last.value];
  }

  /** When every rest is long enough to be confirmed, the log is the sequence of values without repetitions. */
  lemma {:induction false} ClearFilmIsLogged(required: int, rests: seq<Rest>)
    requires forall r | r in rests :: r.held >= Needed(required)
    ensures Confirmations(required, Film(rests)) == Destutter(Values(rests))
    ensures Confirmed(required, Film(rests)) == if rests == [] then None else Some(rests[|rests| - 1].value)
    decreases |rests|
  {
    if rests != [] {
      var last, init := rests[|rests| - 1], rests[..|rests| - 1];
      assert last in rests && forall r | r in init :: r in rests;
      ClearFilmIsLogged(required, init);
      RestIsLogged(required, Film(init), last);
      OneMoreValue(init, last);
      assert init + [last] == rests;
    }
  }

  /** Each HP is shown long enough to be confirmed. */
  predicate ShownClearly(required: int, rests: seq<Rest>, side: int, maxHp: int, hps: seq<int>)
    requires side == 0 || maxHp >= 1
  {
    && |rests| == |hps| && (forall r | r in rests :: r.held >= Needed(required))
    && forall i | 0 <= i < |hps| :: rests[i].value == Shown(side, hps[i], maxHp)
  }

  /** The log of a clear film is what the bar showed, without repetitions. */
  lemma ClearFilmIsRecord(required: int, rests: seq<Rest>, side: int, maxHp: int, hps: seq<int>)
    requires (side == 0 || maxHp >= 1) && ShownClearly(required, rests, side, maxHp, hps)
    ensures Pairs(Confirmations(required, Film(rests))) == Pairs(Destutter(ShownAll(side, hps, maxHp)))
  {
    ClearFilmIsLogged(required, rests);
    assert Values(rests) == ShownAll(side, hps, maxHp);
  }

  /**
   From the captures to the check: a creature's real HPs, each shown long enough, give a record that the count check
   accepts exactly when the run passes; a player's run played out always does, and so does one without overkill.
   */
  lemma FilmedRunAgrees(events: seq<SimEvent>, s: Subject, hps: seq<int>, required: int, rests: seq<Rest>)
    requires s.record.side == 0 || s.record.maxHp >= 1
    requires |hps| == |Changes(events, s.record.side, s.species)| + 1 && hps[|hps| - 1] == s.finalHp
    requires ShownClearly(required, rests, s.record.side, s.record.maxHp, hps)
    requires s.record.deltas == Pairs(Confirmations(required, Film(rests)))
    ensures
      var changes := Changes(events, s.record.side, s.species);
      && (CountsAgree(events, s) <==> RunPasses(s.record.side, s.record.maxHp, hps, changes))
      && (s.record.side == 0 && PlayedOut(hps, changes) ==> CountsAgree(events, s))
      && ((forall i | 0 <= i < |changes| :: hps[i + 1] == hps[i] + changes[i]) ==> CountsAgree(events, s))
  {
    var changes := Changes(events, s.record.side, s.species);
    ClearFilmIsRecord(required, rests, s.record.side, s.record.maxHp, hps);
    RunAgreesIff(events, s, hps);
    if s.record.side == 0 && PlayedOut(hps, changes) {
      ExactRunAgrees(events, s, hps);
    }
    if forall i | 0 <= i < |changes| :: hps[i + 1] == hps[i] + changes[i] {
      TrueRunAgrees(events, s, hps);
    }
  }
}
