/**
 The actions a turn's messages reveal. A switch-in after a faint of the same side replaces the fainted creature and
 was not chosen; each faint is paired with the next switch-in of its side.
 */
module KnownActions {
  import opened Common

  type Side = s: int | 0 <= s <= 1

  datatype Action = MoveAction(moveSlot: nat) | SwitchAction(teamSlot: nat)

  /**
   A message as the extraction reads it. A used move has its attacker's place, if one is known, and the legal action
   it stands for, if there is one; a switch-in has the team slot it names, if it names one.
   */
  datatype Message =
    | Intro
    | Faint(side: Side)
    | UsedMove(place: Option<(Side, nat)>, action: Option<Action>)
    | SwitchIn(side: Side, teamSlot: Option<nat>)
    | Other

  /** Per side, the action of each active slot. */
  type Known = map<Side, seq<Option<Action>>>

  predicate BattleStart(messages: seq<Message>) {
    Intro in messages
  }

  /** The faints of a side that still wait for their replacement. */
  function Pending(messages: seq<Message>, side: Side): nat {
    if messages == [] then 0
    else
      var before := Pending(messages[..|messages| - 1], side);
      match messages[|messages| - 1]
      case Faint(s) => if s == side then before + 1 else before
      case SwitchIn(s, _) => if s == side && before > 0 then before - 1 else before
      case _ => before
  }

  /** The switch-ins of a side that replace no fainted creature. */
  function Voluntary(messages: seq<Message>, side: Side): nat {
    if messages == [] then 0
    else
      var init, last := messages[..|messages| - 1], messages[|messages| - 1];
      Voluntary(init, side) + if last.SwitchIn? && last.side == side && Pending(init, side) == 0 then 1 else 0
  }

  /** By how many a side's switch-ins exceed its faints. */
  function Excess(messages: seq<Message>, side: Side): int {
    if messages == [] then 0
    else
      Excess(messages[..|messages| - 1], side) +
      match messages[|messages| - 1]
      case Faint(s) => if s == side then -1 else 0
      case SwitchIn(s, _) => if s == side then 1 else 0
      case _ => 0
  }

  /** `m` is the greatest excess any prefix reaches, the empty one included. */
  ghost predicate IsGreatestExcess(messages: seq<Message>, side: Side, m: int) {
    && (forall k | 0 <= k <= |messages| :: Excess(messages[..k], side) <= m)
    && (exists k :: 0 <= k <= |messages| && Excess(messages[..k], side) == m)
  }

  /** The pairing leaves over exactly the greatest excess of switch-ins over faints. */
  lemma {:induction false} VoluntaryIsGreatestExcess(messages: seq<Message>, side: Side)
    ensures IsGreatestExcess(messages, side, Voluntary(messages, side))
    ensures Pending(messages, side) == Voluntary(messages, side) - Excess(messages, side)
    decreases |messages|
  {
    assert messages[..|messages|] == messages;
    if messages == [] {
      assert Excess(messages[..0], side) == 0;
    } else {
      var init := messages[..|messages| - 1];
      VoluntaryIsGreatestExcess(init, side);
      assert forall k | 0 <= k <= |init| :: init[..k] == messages[..k];
      var k :| 0 <= k <= |init| && Excess(init[..k], side) == Voluntary(init, side);
      assert Excess(messages[..k], side) == Voluntary(init, side);
    }
  }

  // ---------------------------------------------------------------------------
  // Extraction
  // ---------------------------------------------------------------------------

  predicate HasAction(actions: seq<Option<Action>>) {
    exists i :: 0 <= i < |actions| && actions[i].Some?
  }

  predicate BothSides(known: Known) {
    0 in known && 1 in known && |known[0]| > 0 && |known[1]| > 0
  }

  /** What one message adds, when `pending` faints of its side wait for a replacement. */
  function Reveal(known: Known, battleStart: bool, pending: nat, m: Message): (r: Result<Known>)
    requires BothSides(known)
    ensures r.Ok? ==> BothSides(r.value)
  {
    match m
    case UsedMove(Some((side, slot)), action) =>
      if slot >= |known[side]| then Raised
      else if known[side][slot].Some? then Ok(known)
      else if action.None? then Raised
      else Ok(known[side := known[side][slot := action]])
    case SwitchIn(side, teamSlot) =>
      if battleStart || pending > 0 || HasAction(known[side]) then Ok(known)
      else if teamSlot.None? then Raised
      else Ok(known[side := known[side][0 := Some(SwitchAction(teamSlot.value))]])
    case _ => Ok(known)
  }

  function SideOf(m: Message): Side {
    match m
    case Faint(side) => side
    case SwitchIn(side, _) => side
    case _ => 0
  }

  /** What the messages reveal: the first action of each slot, and a side's first free switch-in. */
  function Extract(messages: seq<Message>, battleStart: bool, none: Known): (r: Result<Known>)
    requires BothSides(none)
    ensures r.Ok? ==> BothSides(r.value)
    decreases |messages|
  {
    if messages == [] then Ok(none)
    else
      var init, last := messages[..|messages| - 1], messages[|messages| - 1];
      match Extract(init, battleStart, none)
      case Raised => Raised
      case Ok(known) => Reveal(known, battleStart, Pending(init, SideOf(last)), last)
  }

  /** One more message. */
  lemma ExtractStep(messages: seq<Message>, i: nat, battleStart: bool, none: Known)
    requires BothSides(none) && i < |messages| && Extract(messages[..i], battleStart, none).Ok?
    ensures Extract(messages[..i + 1], battleStart, none) ==
            Reveal(Extract(messages[..i], battleStart, none).value, battleStart,
              Pending(messages[..i], SideOf(messages[i])), messages[i])
    ensures forall side :: Pending(messages[..i + 1], side) ==
              match messages[i]
              case Faint(s) => if s == side then Pending(messages[..i], side) + 1 else Pending(messages[..i], side)
              case SwitchIn(s, _) =>
                if s == side && Pending(messages[..i], side) > 0 then Pending(messages[..i], side) - 1
                else Pending(messages[..i], side)
              case _ => Pending(messages[..i], side)
  {
    assert messages[..i + 1][..i] == messages[..i];
  }

  /** The loop's counters of unpaired faints; they are not kept up during the opening. */
  ghost predicate Counts(pendingFaint: map<Side, nat>, battleStart: bool, messages: seq<Message>) {
    && 0 in pendingFaint && 1 in pendingFaint
    && (!battleStart ==> forall side: Side :: side in pendingFaint && pendingFaint[side] == Pending(messages, side))
  }

  /** One turn of the loop: the message is read, or the extraction raises. */
  method ReadMessage(known: Known, battleStart: bool, pendingFaint: map<Side, nat>, m: Message)
    returns (known': Result<Known>, pendingFaint': map<Side, nat>)
    requires BothSides(known) && 0 in pendingFaint && 1 in pendingFaint
    ensures known' == Reveal(known, battleStart, pendingFaint[SideOf(m)], m)
    ensures
      var before := pendingFaint[SideOf(m)];
      pendingFaint' ==
      match m
      case Faint(side) => pendingFaint[side := before + 1]
      case SwitchIn(side, _) => if !battleStart && before > 0 then pendingFaint[side := before - 1] else pendingFaint
      case _ => pendingFaint
  {
    known', pendingFaint' := Ok(known), pendingFaint;
    match m {
      case Faint(side) =>
        pendingFaint' := pendingFaint[side := pendingFaint[side] + 1];
      case UsedMove(Some((side, slot)), action) =>
        if slot >= |known[side]| { return Raised, pendingFaint; }
        if known[side][slot].Some? { return; }
        if action.None? { return Raised, pendingFaint; }
        known' := Ok(known[side := known[side][slot := action]]);
      case SwitchIn(side, teamSlot) =>
        if battleStart { return; }
        if pendingFaint[side] > 0 {
          pendingFaint' := pendingFaint[side := pendingFaint[side] - 1];
          return;
        }
        if exists j :: 0 <= j < |known[side]| && known[side][j].Some? { return; }
        if teamSlot.None? { return Raised, pendingFaint; }
        known' := Ok(known[side := known[side][0 := Some(SwitchAction(teamSlot.value))]]);
      case _ =>
    }
  }

  /** During the opening no switch-in is an action, whatever was lost. */
  lemma OpeningIgnoresFaints(known: Known, p: nat, q: nat, m: Message)
    requires BothSides(known)
    ensures Reveal(known, true, p, m) == Reveal(known, true, q, m)
  {
  }

  method ExtractKnownActions(messages: seq<Message>, none: Known) returns (result: Result<Known>)
    requires BothSides(none)
    ensures result == Extract(messages, BattleStart(messages), none)
  {
    var battleStart := Intro in messages;
    var known := none;
    var pendingFaint: map<Side, nat> := map[0 := 0, 1 := 0];
    for i := 0 to |messages|
      invariant BothSides(known) && Extract(messages[..i], battleStart, none) == Ok(known)
      invariant Counts(pendingFaint, battleStart, messages[..i])
    {
      ExtractStep(messages, i, battleStart, none);
      OpeningIgnoresFaints(known, pendingFaint[SideOf(messages[i])], Pending(messages[..i], SideOf(messages[i])),
          messages[i]);
      var next;
      next, pendingFaint := ReadMessage(known, battleStart, pendingFaint, messages[i]);
      if next.Raised? {
        RaisedStays(messages, i + 1, battleStart, none);
        return Raised;
      }
      known := next.value;
    }
    assert messages[..|messages|] == messages;
    result := Ok(known);
  }

  lemma {:induction false} RaisedStays(messages: seq<Message>, i: nat, battleStart: bool, none: Known)
    requires BothSides(none) && i <= |messages| && Extract(messages[..i], battleStart, none).Raised?
    ensures Extract(messages, battleStart, none).Raised?
    decreases |messages| - i
  {
    if i == |messages| {
      assert messages[..i] == messages;
    } else {
      assert messages[..i + 1][..i] == messages[..i];
      RaisedStays(messages, i + 1, battleStart, none);
    }
  }

  /** `slot` of the side is as it was, if it held an action. */
  predicate Keeps(before: Known, after: Known, side: Side, slot: nat) {
    && side in before && side in after && |before[side]| == |after[side]|
    && (slot < |before[side]| && before[side][slot].Some? ==> after[side][slot] == before[side][slot])
  }

  /** No message changes an action that is known. */
  lemma RevealKeeps(known: Known, battleStart: bool, pending: nat, m: Message, side: Side, slot: nat)
    requires BothSides(known) && Reveal(known, battleStart, pending, m).Ok?
    ensures Keeps(known, Reveal(known, battleStart, pending, m).value, side, slot)
  {
  }

  /** A slot's first action is its last: nothing the messages say later changes it. */
  lemma {:induction false} FirstActionStays(
      messages: seq<Message>, i: nat, battleStart: bool, none: Known, side: Side, slot: nat)
    requires BothSides(none) && i <= |messages| && Extract(messages, battleStart, none).Ok?
    ensures Extract(messages[..i], battleStart, none).Ok?
    ensures Keeps(Extract(messages[..i], battleStart, none).value,
                  Extract(messages, battleStart, none).value, side, slot)
    decreases |messages|
  {
    if i == |messages| {
      assert messages[..i] == messages;
    } else {
      var init, last := messages[..|messages| - 1], messages[|messages| - 1];
      assert init[..i] == messages[..i];
      FirstActionStays(init, i, battleStart, none, side, slot);
      RevealKeeps(Extract(init, battleStart, none).value, battleStart, Pending(init, SideOf(last)), last, side, slot);
    }
  }

  /** A side's first free switch-in is its action, when nothing of the side was known before. */
  lemma FreeSwitchInIsAction(messages: seq<Message>, i: nat, none: Known, side: Side, teamSlot: nat)
    requires BothSides(none) && i < |messages| && messages[i] == SwitchIn(side, Some(teamSlot))
    requires Extract(messages, false, none).Ok?
    requires Voluntary(messages[..i + 1], side) > Voluntary(messages[..i], side)
    requires Extract(messages[..i], false, none).Ok? && !HasAction(Extract(messages[..i], false, none).value[side])
    ensures Extract(messages, false, none).value[side][0] == Some(SwitchAction(teamSlot))
  {
    assert messages[..i + 1][..i] == messages[..i];
    assert Pending(messages[..i], side) == 0;
    ExtractStep(messages, i, false, none);
    FirstActionStays(messages, i + 1, false, none, side, 0);
  }

  /** A switch is only ever recorded as an action when some prefix of the messages switches in more than it loses. */
  lemma {:induction false} SwitchActionNeedsExcess(
      messages: seq<Message>, battleStart: bool, none: Known, side: Side, slot: nat)
    requires BothSides(none) && Extract(messages, battleStart, none).Ok?
    requires forall m | m in messages && m.UsedMove? && m.action.Some? :: m.action.value.MoveAction?
    requires slot < |none[side]| ==> none[side][slot].None?
    requires slot < |Extract(messages, battleStart, none).value[side]|
    requires var a := Extract(messages, battleStart, none).value[side][slot]; a.Some? && a.value.SwitchAction?
    ensures !battleStart && exists k :: 0 <= k <= |messages| && Excess(messages[..k], side) > 0
    decreases |messages|
  {
    VoluntaryIsGreatestExcess(messages, side);
    if messages != [] {
      var init, last := messages[..|messages| - 1], messages[|messages| - 1];
      assert last in messages;
      var before := Extract(init, battleStart, none).value;
      if slot < |before[side]| && before[side][slot] == Extract(messages, battleStart, none).value[side][slot] {
        SwitchActionNeedsExcess(init, battleStart, none, side, slot);
        var k :| 0 <= k <= |init| && Excess(init[..k], side) > 0;
        assert init[..k] == messages[..k];
      } else {
        assert Voluntary(messages, side) > 0;
      }
    }
  }

  // ---------------------------------------------------------------------------
  // What the extraction finds
  // ---------------------------------------------------------------------------

  predicate NothingKnown(none: Known) {
    BothSides(none) && forall side: Side, slot: nat | slot < |none[side]| :: none[side][slot].None?
  }

  /** Message `i` switches in a creature that replaces none, in a turn that is not the opening. */
  predicate SwitchesFreely(messages: seq<Message>, i: nat, side: Side)
    requires i < |messages|
  {
    && Intro !in messages && messages[i].SwitchIn? && messages[i].side == side
    && Voluntary(messages[..i + 1], side) > Voluntary(messages[..i], side)
  }

  /** Message `i` is the first to tell what the slot does: a used move, or a free switch-in of an untold side. */
  ghost predicate Tells(messages: seq<Message>, i: nat, side: Side, slot: nat, a: Action)
    requires i < |messages|
    decreases i, 2
  {
    || (messages[i] == UsedMove(Some((side, slot)), Some(a)) && Untold(messages, i, side, slot))
    || (slot == 0 && a.SwitchAction? && messages[i] == SwitchIn(side, Some(a.teamSlot)) &&
        SwitchesFreely(messages, i, side) && UntoldSide(messages, i, side))
  }

  /** No message before `i` tells what the slot does. */
  ghost predicate Untold(messages: seq<Message>, i: nat, side: Side, slot: nat)
    requires i <= |messages|
    decreases i, 0
  {
    forall j: nat, a | j < i :: !Tells(messages, j, side, slot, a)
  }

  ghost predicate UntoldSide(messages: seq<Message>, i: nat, side: Side)
    requires i <= |messages|
    decreases i, 1
  {
    forall slot: nat :: Untold(messages, i, side, slot)
  }

  /** Message `i` cannot be reproduced: it names no slot of the side, or tells first but without naming an action. */
  ghost predicate Offends(messages: seq<Message>, none: Known, i: nat)
    requires i < |messages| && BothSides(none)
  {
    match messages[i]
    case UsedMove(Some((side, slot)), action) =>
      slot >= |none[side]| || (action.None? && Untold(messages, i, side, slot))
    case SwitchIn(side, None) => SwitchesFreely(messages, i, side) && UntoldSide(messages, i, side)
    case _ => false
  }

  predicate IsKnown(known: Known, side: Side, slot: nat, a: Action)
    requires BothSides(known)
  {
    slot < |known[side]| && known[side][slot] == Some(a)
  }

  /** What is known after `n` messages is what they tell. */
  ghost predicate KnownIsTold(messages: seq<Message>, n: nat, none: Known, known: Known)
    requires n <= |messages| && BothSides(none)
  {
    && BothSides(known)
    && (forall side: Side :: |known[side]| == |none[side]|)
    && (forall side: Side, slot: nat, a ::
      IsKnown(known, side, slot, a) <==> exists i: nat :: i < n && Tells(messages, i, side, slot, a))
  }

  /** A slot is untold while nothing is known of it. */
  lemma UntoldIsUnknown(messages: seq<Message>, n: nat, none: Known, known: Known, side: Side)
    requires n <= |messages| && BothSides(none) && KnownIsTold(messages, n, none, known)
    ensures forall slot: nat | slot < |known[side]| :: Untold(messages, n, side, slot) <==> known[side][slot].None?
    ensures UntoldSide(messages, n, side) <==> !HasAction(known[side])
  {
    forall slot: nat
      ensures Untold(messages, n, side, slot) <==> !(slot < |known[side]| && known[side][slot].Some?)
    {
      if slot < |known[side]| && known[side][slot].Some? {
        assert IsKnown(known, side, slot, known[side][slot].value);
      }
      if j: nat, a :| j < n && Tells(messages, j, side, slot, a) {
        assert IsKnown(known, side, slot, a);
      } else {
        assert Untold(messages, n, side, slot);
      }
    }
  }

  /** Exactly what message `i` tells is added to what is known; it raises exactly when it offends. */
  ghost predicate AddsTold(messages: seq<Message>, i: nat, none: Known, known: Known, result: Result<Known>)
    requires i < |messages| && BothSides(none) && BothSides(known)
  {
    if Offends(messages, none, i) then result.Raised?
    else
      && result.Ok? && BothSides(result.value)
      && (forall side: Side :: |result.value[side]| == |known[side]|)
      && (forall side: Side, slot: nat, a ::
        IsKnown(result.value, side, slot, a) <==> IsKnown(known, side, slot, a) || Tells(messages, i, side, slot, a))
  }

  lemma UsedMoveTells(messages: seq<Message>, i: nat, none: Known, known: Known, side: Side, slot: nat, pending: nat)
    requires i < |messages| && BothSides(none) && KnownIsTold(messages, i, none, known)
    requires messages[i].UsedMove? && messages[i].place == Some((side, slot))
    ensures AddsTold(messages, i, none, known, Reveal(known, BattleStart(messages), pending, messages[i]))
  {
    UntoldIsUnknown(messages, i, none, known, side);
  }

  lemma SwitchInTells(messages: seq<Message>, i: nat, none: Known, known: Known)
    requires i < |messages| && BothSides(none) && KnownIsTold(messages, i, none, known) && messages[i].SwitchIn?
    ensures AddsTold(messages, i, none, known,
              Reveal(known, BattleStart(messages), Pending(messages[..i], messages[i].side), messages[i]))
  {
    assert messages[..i + 1][..i] == messages[..i];
    UntoldIsUnknown(messages, i, none, known, messages[i].side);
  }

  lemma MessageTells(messages: seq<Message>, i: nat, none: Known, known: Known)
    requires i < |messages| && BothSides(none) && KnownIsTold(messages, i, none, known)
    ensures AddsTold(messages, i, none, known,
              Reveal(known, BattleStart(messages), Pending(messages[..i], SideOf(messages[i])), messages[i]))
  {
    match messages[i] {
      case UsedMove(Some((side, slot)), _) =>
        UsedMoveTells(messages, i, none, known, side, slot, Pending(messages[..i], SideOf(messages[i])));
      case SwitchIn(_, _) => SwitchInTells(messages, i, none, known);
      case _ =>
    }
  }

  /** What is told up to a message is what was told before it and what it tells. */
  lemma ToldStep(messages: seq<Message>, i: nat, none: Known, known: Known, result: Result<Known>)
    requires i < |messages| && BothSides(none) && KnownIsTold(messages, i, none, known)
    requires AddsTold(messages, i, none, known, result) && result.Ok?
    ensures KnownIsTold(messages, i + 1, none, result.value)
  {
  }

  ghost predicate Offended(messages: seq<Message>, n: nat, none: Known)
    requires n <= |messages| && BothSides(none)
  {
    exists i: nat :: i < n && Offends(messages, none, i)
  }

  /** The extraction raises exactly when a message offends, and otherwise knows exactly what the messages tell. */
  lemma {:induction false} ExtractionIsTold(messages: seq<Message>, n: nat, none: Known)
    requires NothingKnown(none) && n <= |messages|
    ensures
      var result := Extract(messages[..n], BattleStart(messages), none);
      if Offended(messages, n, none) then result.Raised?
      else result.Ok? && KnownIsTold(messages, n, none, result.value)
  {
    if n == 0 {
      assert !Offended(messages, 0, none) && messages[..0] == [];
      assert KnownIsTold(messages, 0, none, none);
    } else {
      ExtractionIsTold(messages, n - 1, none);
      assert Offended(messages, n, none) <==> Offended(messages, n - 1, none) || Offends(messages, none, n - 1);
      assert messages[..n][..n - 1] == messages[..n - 1];
      if !Offended(messages, n - 1, none) {
        var known := Extract(messages[..n - 1], BattleStart(messages), none).value;
        MessageTells(messages, n - 1, none, known);
        if !Offends(messages, none, n - 1) {
          ToldStep(messages, n - 1, none, known, Extract(messages[..n], BattleStart(messages), none));
        }
      }
    }
  }
}
