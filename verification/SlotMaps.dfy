/** Which slot each observed attacker acted from, when both slots of a side may hold the same species. */
module SlotMaps {
  import opened Common

  /** A "used move" message whose side is known, with the active positions its attacker's name matches. */
  datatype Message = Message(id: nat, side: int, positions: seq<nat>)

  /** An attacker's side and position. */
  type Place = (int, nat)
  type SlotMap = map<nat, Place>

  /** The positions on a side whose species is close enough to a name. */
  function MatchPositions(
      close: (string, string) -> bool, name: string, active: seq<string>, n: nat): (positions: seq<nat>)
    requires n <= |active|
    ensures forall p: nat :: p in positions <==> p < n && close(name, active[p])
    ensures Distinct(positions)
  {
    if n == 0 then []
    else MatchPositions(close, name, active, n - 1) + if close(name, active[n - 1]) then [n - 1] else []
  }

  /** An observed message: absent side when the attacker cannot be told. */
  datatype Observed = Observed(id: nat, usedMove: bool, name: string, side: Option<int>)

  /** The messages with a known side and a matching position. */
  function Resolved(
      close: (string, string) -> bool, active: map<int, seq<string>>, messages: seq<Observed>): seq<Message>
  {
    if messages == [] then []
    else
      var m := messages[|messages| - 1];
      Resolved(close, active, messages[..|messages| - 1]) +
      if m.usedMove && m.side.Some? && m.side.value in active then
        var names := active[m.side.value];
        var positions := MatchPositions(close, m.name, names, |names|);
        if positions == [] then [] else [Message(m.id, m.side.value, positions)]
      else []
  }

  lemma {:induction false} ResolvedMatch(
      close: (string, string) -> bool, active: map<int, seq<string>>, messages: seq<Observed>)
    ensures forall m | m in Resolved(close, active, messages) :: m.positions != [] && Distinct(m.positions)
  {
    if messages != [] {
      ResolvedMatch(close, active, messages[..|messages| - 1]);
    }
  }

  // ---------------------------------------------------------------------------
  // Assignments
  // ---------------------------------------------------------------------------

  /** One position for each message. */
  predicate Assigns(messages: seq<Message>, combo: seq<nat>) {
    |combo| == |messages| && forall i | 0 <= i < |combo| :: combo[i] in messages[i].positions
  }

  function PlaceOf(messages: seq<Message>, combo: seq<nat>, i: nat): Place
    requires i < |messages| && i < |combo|
  {
    (messages[i].side, combo[i])
  }

  /** No place acts twice. */
  predicate Injective(messages: seq<Message>, combo: seq<nat>)
    requires |combo| == |messages|
  {
    forall i, j | 0 <= i < j < |combo| :: PlaceOf(messages, combo, i) != PlaceOf(messages, combo, j)
  }

  /** The map of an assignment; of messages with the same id the later one counts. */
  function MapOf(messages: seq<Message>, combo: seq<nat>): SlotMap
    requires |combo| == |messages|
  {
    if messages == [] then map[]
    else
      var last := |messages| - 1;
      MapOf(messages[..last], combo[..last])[messages[last].id := PlaceOf(messages, combo, last)]
  }

  /** All assignments: `itertools.product` over the positions. */
  function Product(messages: seq<Message>): seq<seq<nat>> {
    if messages == [] then [[]]
    else
      var last := |messages| - 1;
      ExtendAll(Product(messages[..last]), messages[last].positions)
  }

  function ExtendAll(combos: seq<seq<nat>>, positions: seq<nat>): seq<seq<nat>> {
    if combos == [] then []
    else
      var last := |combos| - 1;
      ExtendAll(combos[..last], positions) +
      seq(|positions|, j requires 0 <= j < |positions| => combos[last] + [positions[j]])
  }

  lemma {:induction false} ExtendAllMembers(combos: seq<seq<nat>>, positions: seq<nat>, n: nat, c: seq<nat>)
    requires forall u | u in combos :: |u| == n
    ensures c in ExtendAll(combos, positions) <==> |c| == n + 1 && c[..n] in combos && c[n] in positions
    decreases |combos|
  {
    if combos != [] {
      var init, last := combos[..|combos| - 1], combos[|combos| - 1];
      assert combos == init + [last];
      ExtendAllMembers(init, positions, n, c);
      ExtendOneMembers(last, positions, c);
    }
  }

  lemma ExtendOneMembers(combo: seq<nat>, positions: seq<nat>, c: seq<nat>)
    ensures c in seq(|positions|, j requires 0 <= j < |positions| => combo + [positions[j]]) <==>
      |c| == |combo| + 1 && c[..|combo|] == combo && c[|combo|] in positions
  {
    var all := seq(|positions|, j requires 0 <= j < |positions| => combo + [positions[j]]);
    if c in all {
      var j :| 0 <= j < |positions| && all[j] == c;
      assert c == combo + [positions[j]];
    }
    if |c| == |combo| + 1 && c[..|combo|] == combo && c[|combo|] in positions {
      var j :| 0 <= j < |positions| && positions[j] == c[|combo|];
      assert all[j] == combo + [positions[j]] == c;
    }
  }

  lemma AssignsLast(messages: seq<Message>, c: seq<nat>)
    requires messages != [] && |c| == |messages|
    ensures Assigns(messages, c) <==>
      Assigns(messages[..|messages| - 1], c[..|c| - 1]) && c[|c| - 1] in messages[|messages| - 1].positions
  {
  }

  /** The product lists every assignment. */
  lemma {:induction false} ProductIsAll(messages: seq<Message>)
    ensures forall c :: c in Product(messages) <==> Assigns(messages, c)
    decreases |messages|
  {
    if messages != [] {
      var last := |messages| - 1;
      var init := Product(messages[..last]);
      ProductIsAll(messages[..last]);
      assert forall u | u in init :: |u| == last;
      forall c ensures c in Product(messages) <==> Assigns(messages, c) {
        ExtendAllMembers(init, messages[last].positions, last, c);
        if |c| == |messages| { AssignsLast(messages, c); }
      }
    }
  }

  // ---------------------------------------------------------------------------
  // The cursor pass
  // ---------------------------------------------------------------------------

  function Cursor(cursor: map<int, nat>, side: int): nat {
    if side in cursor then cursor[side] else 0
  }

  /** How many of the messages are ambiguous on a side. */
  function Ambiguous(messages: seq<Message>, side: int): nat {
    if messages == [] then 0
    else
      var m := messages[|messages| - 1];
      Ambiguous(messages[..|messages| - 1], side) + if m.side == side && |m.positions| > 1 then 1 else 0
  }

  /** The positions the cursor hands out: ambiguous messages of a side take turns. */
  function CursorCombo(messages: seq<Message>): (combo: seq<nat>)
    requires forall m | m in messages :: m.positions != []
    ensures Assigns(messages, combo)
  {
    if messages == [] then []
    else
      var last := |messages| - 1;
      var m := messages[last];
      assert m in messages;
      var init := CursorCombo(messages[..last]);
      init + [if |m.positions| == 1 then m.positions[0] else m.positions[Ambiguous(messages[..last],
          m.side) % |m.positions|]]
  }

  /** One more message in the cursor pass. */
  lemma CursorStep(before: seq<Message>, m: Message)
    requires m.positions != [] && forall x | x in before :: x.positions != []
    ensures forall x | x in before + [m] :: x.positions != []
    ensures
      var slot := if |m.positions| == 1 then m.positions[0]
                  else m.positions[Ambiguous(before, m.side) % |m.positions|];
      && CursorCombo(before + [m]) == CursorCombo(before) + [slot]
      && MapOf(before + [m], CursorCombo(before + [m])) == MapOf(before, CursorCombo(before))[m.id := (m.side, slot)]
    ensures forall side :: (
      Ambiguous(before + [m], side) == Ambiguous(before, side) + if m.side == side && |m.positions| > 1 then 1 else 0)
  {
    var all := before + [m];
    assert all[..|before|] == before;
    assert CursorCombo(all)[..|before|] == CursorCombo(before);
  }

  /** Where the cursor pass stands after some messages. */
  ghost predicate CursorAt(before: seq<Message>, cursor: map<int, nat>, result: SlotMap) {
    && (forall m | m in before :: m.positions != [])
    && (forall side :: Cursor(cursor, side) == Ambiguous(before, side))
    && result == MapOf(before, CursorCombo(before))
  }

  /** One message of the pass. */
  method PlaceAttacker(ghost before: seq<Message>, cursor: map<int, nat>, result: SlotMap, m: Message)
    returns (cursor': map<int, nat>, result': SlotMap)
    requires CursorAt(before, cursor, result) && m.positions != []
    ensures CursorAt(before + [m], cursor', result')
  {
    CursorStep(before, m);
    var slot;
    cursor' := cursor;
    if |m.positions| == 1 {
      slot := m.positions[0];
    } else {
      slot := m.positions[Cursor(cursor, m.side) % |m.positions|];
      cursor' := cursor[m.side := Cursor(cursor, m.side) + 1];
    }
    result' := result[m.id := (m.side, slot)];
  }

  /** The single authoritative pass over the messages. */
  method BuildAttackerSlotMap(messages: seq<Message>) returns (result: SlotMap)
    requires forall m | m in messages :: m.positions != []
    ensures result == MapOf(messages, CursorCombo(messages))
  {
    result := map[];
    var cursor: map<int, nat> := map[];
    for i := 0 to |messages|
      invariant CursorAt(messages[..i], cursor, result)
    {
      assert messages[i] in messages;
      assert messages[..i + 1] == messages[..i] + [messages[i]];
      cursor, result := PlaceAttacker(messages[..i], cursor, result, messages[i]);
    }
    assert messages[..|messages|] == messages;
  }

  // ---------------------------------------------------------------------------
  // The fan-out
  // ---------------------------------------------------------------------------

  /** The maps of the assignments that use no place twice. */
  ghost predicate IsFanOut(messages: seq<Message>, m: SlotMap) {
    exists combo :: Assigns(messages, combo) && Injective(messages, combo) && m == MapOf(messages, combo)
  }

  method CheckInjective(messages: seq<Message>, combo: seq<nat>) returns (ok: bool)
    requires |combo| == |messages|
    ensures ok <==> Injective(messages, combo)
  {
    var used: set<Place> := {};
    for i := 0 to |combo|
      invariant forall p :: p in used <==> exists j :: 0 <= j < i && PlaceOf(messages, combo, j) == p
      invariant forall a, b | 0 <= a < b < i :: PlaceOf(messages, combo, a) != PlaceOf(messages, combo, b)
    {
      var key := PlaceOf(messages, combo, i);
      if key in used { return false; }
      used := used + {key};
    }
    return true;
  }

  /** When no name is ambiguous there is one assignment, the cursor's. */
  lemma UnambiguousHasOneMap(messages: seq<Message>, combo: seq<nat>)
    requires forall m | m in messages :: |m.positions| == 1
    ensures (forall m | m in messages :: m.positions != []) &&
        (Assigns(messages, combo) <==> combo == CursorCombo(messages))
  {
    if Assigns(messages, combo) {
      var cursor := CursorCombo(messages);
      forall i | 0 <= i < |combo| ensures combo[i] == cursor[i] {
        assert messages[i] in messages;
      }
    }
  }

  /** Without ambiguity the fan-out holds at most the cursor map. */
  lemma UnambiguousFanOut(messages: seq<Message>, m: SlotMap)
    requires (forall x | x in messages :: |x.positions| == 1) && IsFanOut(messages, m)
    ensures (forall x | x in messages :: x.positions != []) && m == MapOf(messages, CursorCombo(messages))
  {
    var combo :| Assigns(messages, combo) && Injective(messages, combo) && m == MapOf(messages, combo);
    UnambiguousHasOneMap(messages, combo);
  }

  method FanOut(messages: seq<Message>) returns (maps: seq<SlotMap>)
    ensures Distinct(maps) && forall m :: m in maps <==> IsFanOut(messages, m)
  {
    maps := [];
    ProductIsAll(messages);
    var combos := Product(messages);
    for k := 0 to |combos|
      invariant Distinct(maps)
      invariant forall m | m in maps :: IsFanOut(messages, m)
      invariant forall j | 0 <= j < k && |combos[j]| == |messages| && Injective(messages, combos[j]) ::
        MapOf(messages, combos[j]) in maps
    {
      assert combos[k] in combos;
      var ok := CheckInjective(messages, combos[k]);
      if !ok { continue; }
      var m := MapOf(messages, combos[k]);
      if m !in maps {
        maps := maps + [m];
      }
    }
    forall m | IsFanOut(messages, m) ensures m in maps {
      var combo :| Assigns(messages, combo) && Injective(messages, combo) && m == MapOf(messages, combo);
      assert combo in combos;
    }
  }

  lemma OnlyOne(maps: seq<SlotMap>, m: SlotMap)
    requires Distinct(maps) && maps != [] && forall x | x in maps :: x == m
    ensures maps == [m]
  {
    assert maps[0] in maps && maps[|maps| - 1] in maps;
  }

  method Resolve(close: (string, string) -> bool, active: map<int, seq<string>>, observed: seq<Observed>)
    returns (messages: seq<Message>)
    ensures messages == Resolved(close, active, observed)
  {
    messages := [];
    for i := 0 to |observed|
      invariant messages == Resolved(close, active, observed[..i])
    {
      assert observed[..i + 1][..i] == observed[..i];
      var o := observed[i];
      if !o.usedMove { continue; }
      if o.side.None? || o.side.value !in active { continue; }
      var names := active[o.side.value];
      var positions := MatchPositions(close, o.name, names, |names|);
      if positions == [] { continue; }
      messages := messages + [Message(o.id, o.side.value, positions)];
    }
    assert observed[..|observed|] == observed;
  }

  /**
   All slot maps: those of the assignments that use no place twice, each once; when there are none, the cursor map
   alone. The cursor map is among them if it uses no place twice, and is the only one when no name is ambiguous.
   */
  method BuildAttackerSlotMaps(close: (string, string) -> bool, active: map<int, seq<string>>, observed: seq<Observed>)
    returns (maps: seq<SlotMap>)
    ensures
      var messages := Resolved(close, active, observed);
      && (forall m | m in messages :: m.positions != [])
      && maps != [] && Distinct(maps)
      && (if exists m :: IsFanOut(messages, m) then forall m :: m in maps <==> IsFanOut(messages, m)
          else maps == [MapOf(messages, CursorCombo(messages))])
      && (Injective(messages, CursorCombo(messages)) ==> MapOf(messages, CursorCombo(messages)) in maps)
      && ((forall m | m in messages :: |m.positions| == 1) ==> maps == [MapOf(messages, CursorCombo(messages))])
  {
    var messages := Resolve(close, active, observed);
    ResolvedMatch(close, active, observed);
    maps := FanOut(messages);
    if maps == [] {
      var fallback := BuildAttackerSlotMap(messages);
      maps := [fallback];
    } else {
      assert IsFanOut(messages, maps[0]) by { assert maps[0] in maps; }
      if forall m | m in messages :: |m.positions| == 1 {
        forall m | m in maps ensures m == MapOf(messages, CursorCombo(messages)) {
          UnambiguousFanOut(messages, m);
        }
        OnlyOne(maps, MapOf(messages, CursorCombo(messages)));
      }
    }
    assert Injective(messages, CursorCombo(messages)) ==> IsFanOut(messages, MapOf(messages, CursorCombo(messages)));
  }

  // ---------------------------------------------------------------------------
  // What the maps say
  // ---------------------------------------------------------------------------

  /** The message is a used move of a known side, and `m` has every position its attacker's name is close to. */
  ghost predicate StandsFor(close: (string, string) -> bool, active: map<int, seq<string>>, m: Message, o: Observed) {
    && o.usedMove && o.side == Some(m.side) && m.side in active && m.id == o.id && m.positions != []
    && forall p: nat :: p in m.positions <==> p < |active[m.side]| && close(o.name, active[m.side][p])
  }

  /** A used move of a known side whose name is close to some active creature there. */
  predicate Attributable(close: (string, string) -> bool, active: map<int, seq<string>>, o: Observed) {
    && o.usedMove && o.side.Some? && o.side.value in active
    && exists p :: 0 <= p < |active[o.side.value]| && close(o.name, active[o.side.value][p])
  }

  /** The last message is considered exactly when it is attributable, and then stands for itself. */
  lemma LastResolved(close: (string, string) -> bool, active: map<int, seq<string>>, observed: seq<Observed>)
    requires observed != []
    ensures
      var o, before := observed[|observed| - 1], Resolved(close, active, observed[..|observed| - 1]);
      var all := Resolved(close, active, observed);
      if Attributable(close, active, o)
      then |all| == |before| + 1 && all[..|before|] == before && StandsFor(close, active, all[|before|], o)
      else all == before
  {
    var o := observed[|observed| - 1];
    if o.side.Some? && o.side.value in active {
      var names := active[o.side.value];
      var positions := MatchPositions(close, o.name, names, |names|);
      assert forall p: nat | p < |names| :: close(o.name, names[p]) <==> p in positions;
      assert positions != [] ==> positions[0] in positions;
    }
  }

  /** `at` lists, in order, what the considered messages stand for, which is everything attributable. */
  ghost predicate Considers(
      close: (string, string) -> bool, active: map<int, seq<string>>, observed: seq<Observed>, messages: seq<Message>,
      at: seq<nat>)
  {
    && |at| == |messages|
    && (forall j | 0 <= j < |at| :: at[j] < |observed| && StandsFor(close, active, messages[j], observed[at[j]]))
    && (forall i, j | 0 <= i < j < |at| :: at[i] < at[j])
    && (forall i | 0 <= i < |observed| && Attributable(close, active, observed[i]) :: i in at)
  }

  /** The considered messages are those of exactly the attributable used moves, in order; `at` says where they are. */
  lemma {:induction false} ResolvedInOrder(
      close: (string, string) -> bool, active: map<int, seq<string>>, observed: seq<Observed>)
    returns (at: seq<nat>)
    ensures Considers(close, active, observed, Resolved(close, active, observed), at)
  {
    at := [];
    if observed != [] {
      var last := |observed| - 1;
      at := ResolvedInOrder(close, active, observed[..last]);
      LastResolved(close, active, observed);
      if Attributable(close, active, observed[last]) {
        at := at + [last];
      }
    }
  }

  predicate DistinctIds(messages: seq<Message>) {
    forall i, j | 0 <= i < j < |messages| :: messages[i].id != messages[j].id
  }

  function Ids(messages: seq<Message>): set<nat> {
    set i | 0 <= i < |messages| :: messages[i].id
  }

  lemma IdsOfLonger(messages: seq<Message>)
    requires messages != []
    ensures Ids(messages) == Ids(messages[..|messages| - 1]) + {messages[|messages| - 1].id}
  {
    var init := messages[..|messages| - 1];
    forall x | x in Ids(init) ensures x in Ids(messages) {
      var i :| 0 <= i < |init| && init[i].id == x;
      assert messages[i].id == x;
    }
    assert forall i | 0 <= i < |init| :: init[i] == messages[i];
  }

  lemma {:induction false} MapGivesPlaces(messages: seq<Message>, combo: seq<nat>)
    requires |combo| == |messages| && DistinctIds(messages)
    ensures MapOf(messages, combo).Keys == Ids(messages)
    ensures forall i | 0 <= i < |messages| :: MapOf(messages, combo)[messages[i].id] == (messages[i].side, combo[i])
    decreases |messages|
  {
    if messages != [] {
      var last := |messages| - 1;
      var init := messages[..last];
      assert DistinctIds(init);
      MapGivesPlaces(init, combo[..last]);
      IdsOfLonger(messages);
      forall i | 0 <= i < last
        ensures MapOf(messages, combo)[messages[i].id] == (messages[i].side, combo[i])
      {
        assert messages[i].id != messages[last].id && init[i] == messages[i] && combo[..last][i] == combo[i];
      }
    }
  }

  /** Every message has a place on its side that its name matches, and no two have the same. */
  predicate GivesOwnPlaces(messages: seq<Message>, m: SlotMap) {
    && m.Keys == Ids(messages)
    && (forall i | 0 <= i < |messages| :: HasPlace(messages[i], m))
    && forall i, j | 0 <= i < j < |messages| :: m[messages[i].id] != m[messages[j].id]
  }

  predicate HasPlace(message: Message, m: SlotMap) {
    message.id in m && m[message.id].0 == message.side && m[message.id].1 in message.positions
  }

  /** The positions a map gives. */
  function PositionsIn(messages: seq<Message>, m: SlotMap): seq<nat>
    requires forall i | 0 <= i < |messages| :: HasPlace(messages[i], m)
  {
    seq(|messages|, i requires 0 <= i < |messages| => assert HasPlace(messages[i], m); m[messages[i].id].1)
  }

  lemma OwnPlacesFanOut(messages: seq<Message>, m: SlotMap)
    requires DistinctIds(messages) && GivesOwnPlaces(messages, m)
    ensures IsFanOut(messages, m)
  {
    var combo := PositionsIn(messages, m);
    forall i | 0 <= i < |messages|
      ensures combo[i] in messages[i].positions && PlaceOf(messages, combo, i) == m[messages[i].id]
    {
      assert HasPlace(messages[i], m);
    }
    MapGivesPlaces(messages, combo);
    assert MapOf(messages, combo) == m;
  }

  /** The fan-out holds exactly the maps that give every message a place of its own. */
  lemma FanOutIff(messages: seq<Message>, m: SlotMap)
    requires DistinctIds(messages)
    ensures IsFanOut(messages, m) <==> GivesOwnPlaces(messages, m)
  {
    if IsFanOut(messages, m) {
      var combo :| Assigns(messages, combo) && Injective(messages, combo) && m == MapOf(messages, combo);
      MapGivesPlaces(messages, combo);
      forall i, j | 0 <= i < j < |messages| ensures m[messages[i].id] != m[messages[j].id] {
        assert PlaceOf(messages, combo, i) != PlaceOf(messages, combo, j);
      }
    }
    if GivesOwnPlaces(messages, m) {
      OwnPlacesFanOut(messages, m);
    }
  }

  // ---------------------------------------------------------------------------
  // Taking turns
  // ---------------------------------------------------------------------------

  lemma {:induction false} CursorHandsOut(messages: seq<Message>, i: nat)
    requires (forall m | m in messages :: m.positions != []) && i < |messages|
    ensures
      var m := messages[i];
      CursorCombo(messages)[i] ==
      if |m.positions| == 1 then m.positions[0] else m.positions[Ambiguous(messages[..i], m.side) % |m.positions|]
    decreases |messages|
  {
    var last := |messages| - 1;
    if i < last {
      assert messages[..last][..i] == messages[..i];
      CursorHandsOut(messages[..last], i);
    }
  }

  lemma {:induction false} AmbiguousGrows(messages: seq<Message>, i: nat, j: nat, side: int)
    requires i <= j <= |messages|
    ensures Ambiguous(messages[..i], side) <= Ambiguous(messages[..j], side)
    decreases j
  {
    if i < j {
      assert messages[..j][..j - 1] == messages[..j - 1];
      AmbiguousGrows(messages, i, j - 1, side);
    }
  }

  lemma AtLeastOnce(n: int, d: int)
    requires n > 0
    ensures d >= 1 ==> n * d >= n
    ensures d <= -1 ==> n * d <= -n
  {
    if d >= 1 { assert n * (d - 1) >= 0; }
    if d <= -1 { assert n * (-d - 1) >= 0; }
  }

  lemma NoMultipleBetween(n: int, d: int, e: int)
    requires n > 0 && n * d == e && -n < e < n
    ensures d == 0
  {
    AtLeastOnce(n, d);
  }

  lemma SameRemainder(a: nat, b: nat, n: nat)
    requires a <= b && n > 0
    ensures a % n == b % n <==> (b - a) % n == 0
  {
    var p, q, k := a / n, b / n, (b - a) / n;
    assert n * (q - p - k) == n * q - n * p - n * k;
    assert n * (q - p - k) == (b - a) % n + a % n - b % n;
    if a % n == b % n || (b - a) % n == 0 {
      NoMultipleBetween(n, q - p - k, (b - a) % n + a % n - b % n);
    }
  }

  /**
   Messages of one side that match the same several positions take turns: two of them get the same position if and
   only if the ambiguous messages from the one to the other go round all positions a whole number of times.
   */
  lemma CursorTakesTurns(messages: seq<Message>, i: nat, j: nat)
    requires (forall m | m in messages :: m.positions != []) && i < j < |messages|
    requires messages[i].side == messages[j].side && messages[i].positions == messages[j].positions
    requires |messages[i].positions| > 1 && Distinct(messages[i].positions)
    ensures
      var between := Ambiguous(messages[..j], messages[i].side) - Ambiguous(messages[..i], messages[i].side);
      && 0 <= between
      && (CursorCombo(messages)[i] == CursorCombo(messages)[j] <==> between % |messages[i].positions| == 0)
  {
    CursorHandsOut(messages, i);
    CursorHandsOut(messages, j);
    AmbiguousGrows(messages, i, j, messages[i].side);
    var positions := messages[i].positions;
    var a, b := Ambiguous(messages[..i], messages[i].side), Ambiguous(messages[..j], messages[i].side);
    SameRemainder(a, b, |positions|);
    assert forall x, y | 0 <= x < y < |positions| :: positions[x] != positions[y];
  }
}
