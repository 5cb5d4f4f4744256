/** From a recording to a replay: the golden trace of a recorded game, its conversion, and the keyed look-ups. */
module TraceReplay {
  import opened Common
  import opened GoldenTrace
  import opened RngTrace

  /** One forced outcome, looked up by turn, event and occurrence. */
  datatype RngEntry = RngEntry(turn: int, event: int, occurrence: int, outcome: Outcome)

  /** The event's number; absent when the text names no event. */
  type EventDecoder = string -> Option<int>

  /** Enum members become plain numbers; everything else keeps its type. */
  function ConvertOutcome(o: Outcome): Outcome {
    match o
    case EnumMember(value) => Number(value)
    case _ => o
  }

  predicate IsRng(r: GoldenRecord) {
    r.tag == "rng"
  }

  predicate Convertible(decode: EventDecoder, r: GoldenRecord) {
    r.turn.Some? && r.event.Some? && r.occurrence.Some? && r.outcome.Some? && decode(r.event.value).Some?
  }

  function ConvertRngRecord(decode: EventDecoder, r: GoldenRecord): RngEntry
    requires Convertible(decode, r)
  {
    RngEntry(r.turn.value, decode(r.event.value).value, r.occurrence.value, ConvertOutcome(r.outcome.value))
  }

  /** The records can be converted. */
  predicate AllConvertible(decode: EventDecoder, body: seq<GoldenRecord>) {
    forall i | 0 <= i < |body| && IsRng(body[i]) :: Convertible(decode, body[i])
  }

  /** The forced outcomes of the first `n` records, in order. */
  function RngEntries(decode: EventDecoder, body: seq<GoldenRecord>, n: nat): seq<RngEntry>
    requires n <= |body| && AllConvertible(decode, body)
  {
    if n == 0 then []
    else RngEntries(decode, body, n - 1) + if IsRng(body[n - 1]) then [ConvertRngRecord(decode, body[n - 1])] else []
  }

  /**
   The rng stream of the converter; it raises when the trace has no header or end, or a record cannot be converted.
   */
  method ConvertTrace(decode: EventDecoder, records: seq<GoldenRecord>) returns (result: Result<seq<RngEntry>>)
    ensures result.Ok? <==>
      && records != [] && records[0].tag == "header" && records[|records| - 1].tag == "end"
      && forall i | 0 < i < |records| - 1 && IsRng(records[i]) :: Convertible(decode, records[i])
    ensures result.Ok? ==>
      var body := records[1..|records| - 1];
      && AllConvertible(decode, body)
      && result.value == RngEntries(decode, body, |body|)
  {
    if records == [] || records[0].tag != "header" || records[|records| - 1].tag != "end" {
      return Raised;
    }
    var body := records[1..|records| - 1];
    assert forall i | 0 <= i < |body| :: body[i] == records[i + 1];
    for i := 0 to |body|
      invariant forall j | 0 <= j < i && IsRng(body[j]) :: Convertible(decode, body[j])
    {
      if IsRng(body[i]) && !Convertible(decode, body[i]) { return Raised; }
    }
    assert forall i | 0 < i < |records| - 1 :: records[i] == body[i - 1];
    var entries: seq<RngEntry> := [];
    for i := 0 to |body|
      invariant entries == RngEntries(decode, body, i)
    {
      if IsRng(body[i]) {
        entries := entries + [ConvertRngRecord(decode, body[i])];
      }
    }
    result := Ok(entries);
  }

  predicate SameKey(a: RngEntry, b: RngEntry) {
    a.turn == b.turn && a.event == b.event && a.occurrence == b.occurrence
  }

  /** Two rng records of one turn whose event texts stand for one event. */
  predicate SameTurnAndEvent(decode: EventDecoder, a: GoldenRecord, b: GoldenRecord) {
    && IsRng(a) && IsRng(b) && Convertible(decode, a) && Convertible(decode, b)
    && a.turn == b.turn && decode(a.event.value) == decode(b.event.value)
  }

  /** Within a turn an event is always spelled the same way. */
  predicate SpelledAlike(decode: EventDecoder, body: seq<GoldenRecord>) {
    forall i, j | 0 <= i < |body| && 0 <= j < |body| && SameTurnAndEvent(decode, body[i], body[j]) ::
      body[i].event == body[j].event
  }

  predicate RecordsDiffer(decode: EventDecoder, body: seq<GoldenRecord>, i: nat, j: nat)
    requires i < |body| && j < |body| && AllConvertible(decode, body)
  {
    IsRng(body[i]) && IsRng(body[j]) ==>
      !SameKey(ConvertRngRecord(decode, body[i]), ConvertRngRecord(decode, body[j]))
  }

  /** No two rng records have the same key. */
  ghost predicate KeysDiffer(decode: EventDecoder, body: seq<GoldenRecord>)
    requires AllConvertible(decode, body)
  {
    forall i, j | 0 <= i < j < |body| :: RecordsDiffer(decode, body, i, j)
  }

  /** The first record of an event text in a turn has occurrence 0. */
  lemma {:induction false} FirstOccurrence(body: seq<GoldenRecord>, i: nat) returns (first: nat)
    requires i < |body| && ValidBody(body) && IsRng(body[i])
    ensures first <= i && SameEvent(body[first], body[i]) && body[first].occurrence == Some(0)
    decreases i
  {
    var latest := LatestLike(body, i, body[i]);
    if latest.Some? {
      first := FirstOccurrence(body, latest.value);
    } else {
      first := i;
      EarlierFromLatest(body, i, body[i]);
      assert RecordOk(body, i);
    }
  }

  /** Two spellings of one event in one turn each have a first record, and those two have the same key. */
  lemma SpellingsCollide(decode: EventDecoder, body: seq<GoldenRecord>, i: nat, j: nat)
    requires ValidBody(body) && AllConvertible(decode, body) && i < |body| && j < |body|
    requires SameTurnAndEvent(decode, body[i], body[j]) && body[i].event != body[j].event
    ensures !KeysDiffer(decode, body)
  {
    var a := FirstOccurrence(body, i);
    var b := FirstOccurrence(body, j);
    assert SameKey(ConvertRngRecord(decode, body[a]), ConvertRngRecord(decode, body[b])) && a != b;
    assert !RecordsDiffer(decode, body, if a < b then a else b, if a < b then b else a);
  }

  /** In an accepted trace no two rng records have the same key if and only if no turn spells an event in two ways. */
  lemma KeysDifferIff(decode: EventDecoder, body: seq<GoldenRecord>)
    requires ValidBody(body) && AllConvertible(decode, body)
    ensures KeysDiffer(decode, body) <==> SpelledAlike(decode, body)
  {
    if SpelledAlike(decode, body) {
      forall i, j | 0 <= i < j < |body| ensures RecordsDiffer(decode, body, i, j) {
        if IsRng(body[i]) && IsRng(body[j]) && SameKey(ConvertRngRecord(decode, body[i]), ConvertRngRecord(decode,
            body[j])) {
          assert SameTurnAndEvent(decode, body[i], body[j]);
          assert RecordOk(body, i) && RecordOk(body, j);
          EarlierSame(body, i, body[i], body[j]);
          EarlierGrows(body, i, j, body[j]);
        }
      }
    }
    if KeysDiffer(decode, body) {
      forall i, j | 0 <= i < |body| && 0 <= j < |body| && SameTurnAndEvent(decode, body[i], body[j])
        ensures body[i].event == body[j].event
      {
        if body[i].event != body[j].event {
          SpellingsCollide(decode, body, i, j);
        }
      }
    }
  }

  // ---------------------------------------------------------------------------
  // Look-ups
  // ---------------------------------------------------------------------------

  /** The first entry with the key, as the replay looks it up. */
  function Lookup(entries: seq<RngEntry>, turn: int, event: int, occurrence: int): Option<Outcome> {
    if entries == [] then None
    else
      var last := entries[|entries| - 1];
      var before := Lookup(entries[..|entries| - 1], turn, event, occurrence);
      if before.Some? then before
      else if SameKey(last, RngEntry(turn, event, occurrence, last.outcome)) then Some(last.outcome)
      else None
  }

  /** What the key of an entry finds among the entries of the first `n` records. */
  function Found(decode: EventDecoder, body: seq<GoldenRecord>, n: nat, e: RngEntry): Option<Outcome>
    requires n <= |body| && AllConvertible(decode, body)
  {
    Lookup(RngEntries(decode, body, n), e.turn, e.event, e.occurrence)
  }

  /** Looking a key up finds the outcome of the first record that has it. */
  lemma {:induction false} LookupIsFirst(decode: EventDecoder, body: seq<GoldenRecord>, n: nat, e: RngEntry)
    requires n <= |body| && AllConvertible(decode, body)
    ensures Found(decode, body, n, e) ==
            if n > 0 && Found(decode, body, n - 1, e).Some? then Found(decode, body, n - 1, e)
            else if n > 0 && IsRng(body[n - 1]) && SameKey(ConvertRngRecord(decode, body[n - 1]), e)
            then Some(ConvertRngRecord(decode, body[n - 1]).outcome) else None
  {
    if n > 0 && IsRng(body[n - 1]) {
      var init, all := RngEntries(decode, body, n - 1), RngEntries(decode, body, n);
      assert all[..|all| - 1] == init && all[|all| - 1] == ConvertRngRecord(decode, body[n - 1]);
    } else if n > 0 {
      assert RngEntries(decode, body, n) == RngEntries(decode, body, n - 1);
    }
  }

  /** What a key finds is the outcome of some record with the key, if there is one. */
  lemma {:induction false} FoundIsSome(decode: EventDecoder, body: seq<GoldenRecord>, n: nat, e: RngEntry)
    returns (k: nat)
    requires n <= |body| && AllConvertible(decode, body)
    ensures Found(decode, body, n, e).Some? ==>
      && k < n && IsRng(body[k]) && SameKey(ConvertRngRecord(decode, body[k]), e)
      && Found(decode, body, n, e) == Some(ConvertRngRecord(decode, body[k]).outcome)
    ensures Found(decode, body, n, e).None? ==>
      forall j | 0 <= j < n && IsRng(body[j]) :: !SameKey(ConvertRngRecord(decode, body[j]), e)
  {
    k := 0;
    if n > 0 {
      k := FoundIsSome(decode, body, n - 1, e);
      LookupIsFirst(decode, body, n, e);
      if Found(decode, body, n - 1, e).None? {
        k := n - 1;
      }
    }
  }

  /** Looking the record's key up finds its own outcome. */
  predicate FindsItself(decode: EventDecoder, body: seq<GoldenRecord>, i: nat)
    requires i < |body| && AllConvertible(decode, body)
  {
    IsRng(body[i]) ==>
      var e := ConvertRngRecord(decode, body[i]);
      Found(decode, body, |body|, e) == Some(e.outcome)
  }

  /** Records with the same key have the same outcome. */
  predicate KeysAgree(decode: EventDecoder, body: seq<GoldenRecord>)
    requires AllConvertible(decode, body)
  {
    forall i, j | 0 <= i < |body| && 0 <= j < |body| && IsRng(body[i]) && IsRng(body[j]) &&
      SameKey(ConvertRngRecord(decode, body[i]), ConvertRngRecord(decode, body[j])) ::
      ConvertRngRecord(decode, body[i]).outcome == ConvertRngRecord(decode, body[j]).outcome
  }

  /** Every record's key finds its own outcome if and only if records with the same key have the same outcome. */
  lemma LookupFindsIff(decode: EventDecoder, body: seq<GoldenRecord>)
    requires AllConvertible(decode, body)
    ensures (forall i | 0 <= i < |body| :: FindsItself(decode, body, i)) <==> KeysAgree(decode, body)
  {
    if forall i | 0 <= i < |body| :: FindsItself(decode, body, i) {
      forall i, j | 0 <= i < |body| && 0 <= j < |body| && IsRng(body[i]) && IsRng(body[j]) &&
        SameKey(ConvertRngRecord(decode, body[i]), ConvertRngRecord(decode, body[j]))
        ensures ConvertRngRecord(decode, body[i]).outcome == ConvertRngRecord(decode, body[j]).outcome
      {
        assert FindsItself(decode, body, i) && FindsItself(decode, body, j);
      }
    }
    if KeysAgree(decode, body) {
      forall i | 0 <= i < |body| ensures FindsItself(decode, body, i) {
        if IsRng(body[i]) {
          var k := FoundIsSome(decode, body, |body|, ConvertRngRecord(decode, body[i]));
        }
      }
    }
  }

  /** When keys differ, only one record has a key. */
  lemma KeyIsOneRecord(decode: EventDecoder, body: seq<GoldenRecord>, i: nat, j: nat)
    requires AllConvertible(decode, body) && KeysDiffer(decode, body) && i < |body| && j < |body| && i != j
    ensures RecordsDiffer(decode, body, i, j)
  {
    assert RecordsDiffer(decode, body, if i < j then i else j, if i < j then j else i);
  }

  lemma SameKeyAgrees(decode: EventDecoder, body: seq<GoldenRecord>, i: nat, j: nat)
    requires AllConvertible(decode, body) && KeysDiffer(decode, body) && i < |body| && j < |body|
    requires IsRng(body[i]) && IsRng(body[j])
    ensures SameKey(ConvertRngRecord(decode, body[i]), ConvertRngRecord(decode, body[j])) ==>
      ConvertRngRecord(decode, body[i]).outcome == ConvertRngRecord(decode, body[j]).outcome
  {
    if i != j {
      KeyIsOneRecord(decode, body, i, j);
    }
  }

  /** When no turn spells an event in two ways, every record's key finds its own outcome. */
  lemma LookupFinds(decode: EventDecoder, body: seq<GoldenRecord>, i: nat)
    requires ValidBody(body) && AllConvertible(decode, body) && SpelledAlike(decode, body) && i < |body|
    ensures FindsItself(decode, body, i)
  {
    KeysDifferIff(decode, body);
    forall a, b | 0 <= a < |body| && 0 <= b < |body| && IsRng(body[a]) && IsRng(body[b])
      ensures SameKey(ConvertRngRecord(decode, body[a]), ConvertRngRecord(decode, body[b])) ==>
        ConvertRngRecord(decode, body[a]).outcome == ConvertRngRecord(decode, body[b]).outcome
    {
      SameKeyAgrees(decode, body, a, b);
    }
    LookupFindsIff(decode, body);
  }

  /** `e` is the entry of one of the first `n` records. */
  ghost predicate IsEntryOf(decode: EventDecoder, body: seq<GoldenRecord>, n: nat, e: RngEntry)
    requires n <= |body|
  {
    exists k :: 0 <= k < n && IsRng(body[k]) && Convertible(decode, body[k]) && e == ConvertRngRecord(decode, body[k])
  }

  lemma {:induction false} EntriesAreRecords(decode: EventDecoder, body: seq<GoldenRecord>, n: nat, i: nat)
    requires n <= |body| && forall k | 0 <= k < |body| && IsRng(body[k]) :: Convertible(decode, body[k])
    requires i < |RngEntries(decode, body, n)|
    ensures IsEntryOf(decode, body, n, RngEntries(decode, body, n)[i])
  {
    var init := RngEntries(decode, body, n - 1);
    if i < |init| {
      EntriesAreRecords(decode, body, n - 1, i);
    } else {
      assert RngEntries(decode, body, n)[i] == ConvertRngRecord(decode, body[n - 1]);
    }
  }

  /** No two entries share a key. */
  ghost predicate EntriesDiffer(entries: seq<RngEntry>) {
    forall i, j | 0 <= i < j < |entries| :: !SameKey(entries[i], entries[j])
  }

  predicate KeyIsNew(entries: seq<RngEntry>, e: RngEntry) {
    forall i | 0 <= i < |entries| :: !SameKey(entries[i], e)
  }

  lemma EntriesDifferAppend(init: seq<RngEntry>, e: RngEntry)
    ensures EntriesDiffer(init + [e]) <==> EntriesDiffer(init) && KeyIsNew(init, e)
  {
    var all := init + [e];
    assert forall i | 0 <= i < |init| :: all[i] == init[i];
    assert all[|init|] == e;
    if EntriesDiffer(all) {
      assert forall i, j | 0 <= i < j < |init| :: !SameKey(all[i], all[j]);
      assert forall i | 0 <= i < |init| :: !SameKey(all[i], all[|init|]);
    }
  }

  /** None of the first `n` records has the key. */
  predicate KeyIsNewTo(decode: EventDecoder, body: seq<GoldenRecord>, n: nat, e: RngEntry)
    requires AllConvertible(decode, body) && n <= |body|
  {
    forall k | 0 <= k < n && IsRng(body[k]) :: !SameKey(ConvertRngRecord(decode, body[k]), e)
  }

  /** A key differs from those of the entries exactly when it differs from those of their records. */
  lemma {:induction false} NewKeyDiffers(decode: EventDecoder, body: seq<GoldenRecord>, n: nat, e: RngEntry)
    requires AllConvertible(decode, body) && n <= |body|
    ensures KeyIsNew(RngEntries(decode, body, n), e) <==> KeyIsNewTo(decode, body, n, e)
  {
    if n > 0 {
      NewKeyDiffers(decode, body, n - 1, e);
      var init, all := RngEntries(decode, body, n - 1), RngEntries(decode, body, n);
      if IsRng(body[n - 1]) {
        var last := ConvertRngRecord(decode, body[n - 1]);
        assert all == init + [last];
        assert KeyIsNew(all, e) <==> KeyIsNew(init, e) && !SameKey(last, e) by {
          assert forall i | 0 <= i < |init| :: all[i] == init[i];
          assert all[|init|] == last;
        }
      } else {
        assert all == init;
      }
    }
  }

  /** The first `n` records have different keys. */
  ghost predicate FirstKeysDiffer(decode: EventDecoder, body: seq<GoldenRecord>, n: nat)
    requires AllConvertible(decode, body) && n <= |body|
  {
    forall i, j | 0 <= i < j < n :: RecordsDiffer(decode, body, i, j)
  }

  ghost predicate DiffersFromEarlier(decode: EventDecoder, body: seq<GoldenRecord>, j: nat)
    requires AllConvertible(decode, body) && j < |body|
  {
    forall i | 0 <= i < j :: RecordsDiffer(decode, body, i, j)
  }

  lemma LastDiffers(decode: EventDecoder, body: seq<GoldenRecord>, j: nat)
    requires AllConvertible(decode, body) && j < |body|
    ensures DiffersFromEarlier(decode, body, j) <==>
      (IsRng(body[j]) ==> KeyIsNewTo(decode, body, j, ConvertRngRecord(decode, body[j])))
    ensures FirstKeysDiffer(decode, body, j + 1) <==>
      FirstKeysDiffer(decode, body, j) && DiffersFromEarlier(decode, body, j)
  {
    if DiffersFromEarlier(decode, body, j) && IsRng(body[j]) {
      forall k | 0 <= k < j && IsRng(body[k])
        ensures !SameKey(ConvertRngRecord(decode, body[k]), ConvertRngRecord(decode, body[j]))
      {
        assert RecordsDiffer(decode, body, k, j);
      }
    }
  }

  /** The entries' keys differ as the records' do. */
  lemma {:induction false} EntriesDifferLikeRecords(decode: EventDecoder, body: seq<GoldenRecord>, n: nat)
    requires AllConvertible(decode, body) && n <= |body|
    ensures EntriesDiffer(RngEntries(decode, body, n)) <==> FirstKeysDiffer(decode, body, n)
  {
    if n > 0 {
      EntriesDifferLikeRecords(decode, body, n - 1);
      LastDiffers(decode, body, n - 1);
      var init, all := RngEntries(decode, body, n - 1), RngEntries(decode, body, n);
      if IsRng(body[n - 1]) {
        var e := ConvertRngRecord(decode, body[n - 1]);
        assert all == init + [e];
        EntriesDifferAppend(init, e);
        NewKeyDiffers(decode, body, n - 1, e);
      } else {
        assert all == init;
      }
    }
  }

  /**
   The entries of a converted accepted trace have different keys if and only if no turn spells an event in two ways.
   */
  lemma EntriesAreDistinct(decode: EventDecoder, body: seq<GoldenRecord>)
    requires ValidBody(body) && AllConvertible(decode, body)
    ensures EntriesDiffer(RngEntries(decode, body, |body|)) <==> SpelledAlike(decode, body)
  {
    KeysDifferIff(decode, body);
    EntriesDifferLikeRecords(decode, body, |body|);
  }

  /**
   An accepted trace whose entries collide: one turn with one event in two spellings. The validator counts each
   spelling from 0, and the converter gives both the same key.
   */
  lemma TwoSpellingsCollide(decode: EventDecoder, a: string, b: string, event: int, x: Outcome, y: Outcome)
    requires a != b && decode(a) == decode(b) == Some(event)
    ensures
      var body := [Golden(TraceRecord(1, 0, a, 0, x, NO_CONTEXT)), Golden(TraceRecord(1, 1, b, 0, y, NO_CONTEXT))];
      && ValidTrace([HEADER] + body + [END]) && AllConvertible(decode, body)
      && !EntriesDiffer(RngEntries(decode, body, 2))
  {
    var body := [Golden(TraceRecord(1, 0, a, 0, x, NO_CONTEXT)), Golden(TraceRecord(1, 1, b, 0, y, NO_CONTEXT))];
    var trace := [HEADER] + body + [END];
    assert trace[1..|trace| - 1] == body;
    assert Earlier(body, 0, body[0]) == 0 && Earlier(body, 1, body[1]) == 0;
    forall i | 0 <= i < |body| ensures RecordOk(body, i) {
    }
    assert SameTurnAndEvent(decode, body[0], body[1]);
    EntriesAreDistinct(decode, body);
  }

  // ---------------------------------------------------------------------------
  // From the recorder to the replay
  // ---------------------------------------------------------------------------

  function Golden(r: TraceRecord): GoldenRecord {
    GoldenRecord("rng", None, Some(r.turn), Some(r.seqNo), Some(r.event), Some(r.occurrence), None, Some(r.outcome))
  }

  function GoldenBody(records: seq<TraceRecord>): seq<GoldenRecord> {
    seq(|records|, i requires 0 <= i < |records| => Golden(records[i]))
  }

  const HEADER: GoldenRecord := GoldenRecord("header", Some(FORMAT_VERSION), None, None, None, None, None, None)
  const END: GoldenRecord := GoldenRecord("end", None, None, None, None, None, None, None)

  /** The trace of a game without driver records. */
  function GoldenOf(records: seq<TraceRecord>): seq<GoldenRecord> {
    [HEADER] + GoldenBody(records) + [END]
  }

  lemma {:induction false} EarlierIsOccurred(records: seq<TraceRecord>, i: nat, r: TraceRecord)
    requires i <= |records|
    ensures Earlier(GoldenBody(records), i, Golden(r)) == Occurred(records, i, r.turn, r.event)
  {
    if i > 0 {
      EarlierIsOccurred(records, i - 1, r);
    }
  }

  /** What a recorder holds is a valid trace body. */
  lemma NumberedIsValid(records: seq<TraceRecord>)
    requires WellNumbered(records)
    ensures ValidBody(GoldenBody(records))
  {
    var body := GoldenBody(records);
    forall i | 0 <= i < |body| ensures RecordOk(body, i) {
      assert Numbered(records, i);
      EarlierIsOccurred(records, i, records[i]);
      forall j | 0 <= j < i ensures InOrder(body[j], body[i]) {
        assert Numbered(records, j);
        TurnsUpTo(records, j, i);
      }
    }
  }

  /** The trace of every run of a recorder with marks on the current history passes the validator. */
  lemma RecordingIsValid(ops: seq<Op>)
    ensures ValidTrace(GoldenOf(Run(World(FRESH, []), ops).state.records))
  {
    RunKeepsInv(ops);
    var records := Run(World(FRESH, []), ops).state.records;
    NumberedIsValid(records);
    var trace := GoldenOf(records);
    assert trace[1..|trace| - 1] == GoldenBody(records);
  }

  /** The events drawn are among those the recorder can spell, each in one way. */
  ghost predicate Spelled(spell: int -> string, op: Op) {
    op.RecordOp? ==> exists e :: op.event == spell(e)
  }

  ghost predicate RecordSpelled(spell: int -> string, r: TraceRecord) {
    exists e :: r.event == spell(e)
  }

  /** What is recorded is what was drawn. */
  lemma {:induction false} RecordedIsSpelled(spell: int -> string, ops: seq<Op>)
    requires forall i | 0 <= i < |ops| :: Spelled(spell, ops[i])
    ensures forall r | r in Run(World(FRESH, []), ops).state.records :: RecordSpelled(spell, r)
    decreases |ops|
  {
    if ops != [] {
      var init, op := ops[..|ops| - 1], ops[|ops| - 1];
      RecordedIsSpelled(spell, init);
      var before := Run(World(FRESH, []), init);
      assert Spelled(spell, op);
      assert op.RollbackOp? ==> forall r | r in before.Apply(op).state.records :: r in before.state.records;
    }
  }

  /** A recording spells every event in one way. */
  lemma RecordingIsSpelledAlike(decode: EventDecoder, spell: int -> string, records: seq<TraceRecord>)
    requires forall e :: decode(spell(e)) == Some(e)
    requires forall r | r in records :: RecordSpelled(spell, r)
    ensures AllConvertible(decode, GoldenBody(records)) && SpelledAlike(decode, GoldenBody(records))
  {
    var body := GoldenBody(records);
    forall i | 0 <= i < |body| ensures Convertible(decode, body[i]) {
      assert RecordSpelled(spell, records[i]);
    }
    forall i, j | 0 <= i < |body| && 0 <= j < |body| && SameTurnAndEvent(decode, body[i], body[j])
      ensures body[i].event == body[j].event
    {
      assert RecordSpelled(spell, records[i]) && RecordSpelled(spell, records[j]);
    }
  }

  /** Draws of one event in one turn. */
  predicate SameDraw(ops: seq<Op>, a: nat, b: nat)
    requires a < |ops| && b < |ops|
  {
    ops[a].RecordOp? && ops[b].RecordOp? && ops[a].event == ops[b].event && TurnAt(ops, a) == TurnAt(ops, b)
  }

  /** How many of the first `n` draws on the tape are of the event and turn of call `k`. */
  function EqualDraws(ops: seq<Op>, kept: seq<nat>, n: nat, k: nat): nat
    requires n <= |kept| && k < |ops| && forall i | 0 <= i < |kept| :: kept[i] < |ops|
  {
    if n == 0 then 0 else EqualDraws(ops, kept, n - 1, k) + if SameDraw(ops, kept[n - 1], k) then 1 else 0
  }

  /** The occurrences the records count are the equal draws on the tape. */
  lemma {:induction false} OccurredIsEqualDraws(
      ops: seq<Op>, kept: seq<nat>, records: seq<TraceRecord>, n: nat, r: TraceRecord, k: nat)
    requires n <= |kept| == |records| && HoldsDraw(ops, r, k)
    requires forall i | 0 <= i < |kept| :: kept[i] < |ops| && HoldsDraw(ops, records[i], kept[i])
    ensures Occurred(records, n, r.turn, r.event) == EqualDraws(ops, kept, n, k)
  {
    if n > 0 {
      OccurredIsEqualDraws(ops, kept, records, n - 1, r, k);
      assert HoldsDraw(ops, records[n - 1], kept[n - 1]);
    }
  }

  /**
   The outcome found for the n-th draw of an event in a turn is the outcome recorded for it, whatever was rolled back on
   the way.
   */
  lemma ReplayFindsRecordedOutcome(decode: EventDecoder, spell: int -> string, ops: seq<Op>, i: nat)
    requires forall e :: decode(spell(e)) == Some(e)
    requires forall k | 0 <= k < |ops| :: Spelled(spell, ops[k])
    requires i < |Run(World(FRESH, []), ops).state.records|
    ensures
      var records := Run(World(FRESH, []), ops).state.records;
      var body, r := GoldenBody(records), records[i];
      && AllConvertible(decode, body) && decode(r.event).Some?
      && Lookup(RngEntries(decode, body, |body|), r.turn, decode(r.event).value, Occurred(records, i, r.turn, r.event))
         == Some(ConvertOutcome(r.outcome))
  {
    RunKeepsInv(ops);
    RecordedIsSpelled(spell, ops);
    var records := Run(World(FRESH, []), ops).state.records;
    NumberedIsValid(records);
    RecordingIsSpelledAlike(decode, spell, records);
    assert Numbered(records, i) && RecordSpelled(spell, records[i]);
    LookupFinds(decode, GoldenBody(records), i);
  }

  /**
   Replaying a recorded game: for every draw that was not undone, looking up its turn, its event and how many equal
   draws came before it finds the outcome it was drawn with, an enum member as its number. A recorder writes each
   event in one way, which decodes to it.
   */
  lemma ReplayFindsDrawnOutcome(decode: EventDecoder, spell: int -> string, ops: seq<Op>, i: nat)
    requires forall e :: decode(spell(e)) == Some(e)
    requires forall k | 0 <= k < |ops| :: Spelled(spell, ops[k])
    requires i < |TapeAt(ops, |ops|).kept|
    ensures
      var body := GoldenBody(Run(World(FRESH, []), ops).state.records);
      var kept := TapeAt(ops, |ops|).kept;
      && (forall j | 0 <= j < |kept| :: kept[j] < |ops|) && ops[kept[i]].RecordOp? && TurnAt(ops, kept[i]).Some?
      && AllConvertible(decode, body)
      && forall e | ops[kept[i]].event == spell(e) ::
        var drawn := ops[kept[i]].outcome;
        Lookup(RngEntries(decode, body, |body|), TurnAt(ops, kept[i]).value, e, EqualDraws(ops, kept, i, kept[i])) ==
        Some(if drawn.EnumMember? then Number(drawn.value) else drawn)
  {
    RecordsAreKept(ops, |ops|);
    assert ops[..|ops|] == ops;
    var kept, records := TapeAt(ops, |ops|).kept, Run(World(FRESH, []), ops).state.records;
    KeptInOrder(ops, |ops|);
    ReplayFindsRecordedOutcome(decode, spell, ops, i);
    OccurredIsEqualDraws(ops, kept, records, i, records[i], kept[i]);
  }
}
