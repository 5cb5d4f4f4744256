/** The validator of golden traces: a single pass over the records that accepts exactly the well-formed traces. */
module GoldenTrace {
  import opened Common

  /** A resolved outcome as it appears in a trace. */
  datatype Outcome = Flag(b: bool) | Number(n: int) | Fraction(x: real) | EnumMember(value: int) | Text(s: string)

  /** One trace record; a field is absent when its key is. `event` is the text the validator compares events by. */
  datatype GoldenRecord = GoldenRecord(
    tag: string, formatVersion: Option<int>, turn: Option<int>, seqNo: Option<int>,
    event: Option<string>, occurrence: Option<int>, beforeSeq: Option<int>, outcome: Option<Outcome>)

  const FORMAT_VERSION: int := 1

  // ---------------------------------------------------------------------------
  // What a well-formed trace is
  // ---------------------------------------------------------------------------

  /** The keys the record's kind must have. */
  predicate HasKeys(r: GoldenRecord) {
    match r.tag
    case "rng" => r.seqNo.Some? && r.event.Some? && r.turn.Some? && r.occurrence.Some?
    case "answer" => r.beforeSeq.Some? && r.event.Some? && r.turn.Some? && r.occurrence.Some?
    case "snapshot" => r.beforeSeq.Some?
    case _ => false
  }

  /** Answers and snapshots come from the driver. */
  predicate FromDriver(r: GoldenRecord) {
    r.tag == "answer" || r.tag == "snapshot"
  }

  /** Rng records and answers count their events, each kind for itself. */
  predicate SameEvent(a: GoldenRecord, b: GoldenRecord) {
    a.tag == b.tag && a.turn == b.turn && a.event == b.event
  }

  /** How many of the first `i` records are of the same kind, turn and event as `r`. */
  function Earlier(body: seq<GoldenRecord>, i: nat, r: GoldenRecord): nat
    requires i <= |body|
  {
    if i == 0 then 0 else Earlier(body, i - 1, r) + if SameEvent(body[i - 1], r) then 1 else 0
  }

  /** Records `j` and `i`, in this order, do not go backwards. */
  predicate InOrder(a: GoldenRecord, b: GoldenRecord) {
    && (a.turn.Some? && b.turn.Some? ==> a.turn.value <= b.turn.value)
    && (a.tag == b.tag == "rng" && a.seqNo.Some? && b.seqNo.Some? ==> a.seqNo.value < b.seqNo.value)
    && (FromDriver(a) && FromDriver(b) && a.beforeSeq.Some? && b.beforeSeq.Some? ==>
        a.beforeSeq.value <= b.beforeSeq.value)
  }

  predicate RecordOk(body: seq<GoldenRecord>, i: nat)
    requires i < |body|
  {
    && HasKeys(body[i])
    && (forall j | 0 <= j < i :: InOrder(body[j], body[i]))
    && (body[i].tag != "snapshot" ==> body[i].occurrence == Some(Earlier(body, i, body[i])))
  }

  predicate ValidBody(body: seq<GoldenRecord>) {
    forall i | 0 <= i < |body| :: RecordOk(body, i)
  }

  /** The tag occurs at `at` and nowhere else. */
  predicate OnlyAt(records: seq<GoldenRecord>, tag: string, at: nat) {
    forall i | 0 <= i < |records| :: records[i].tag == tag <==> i == at
  }

  /** A header of the right version first and nowhere else, an end last and nowhere else, and a valid body. */
  predicate ValidTrace(records: seq<GoldenRecord>) {
    && 2 <= |records|
    && records[0].formatVersion == Some(FORMAT_VERSION)
    && OnlyAt(records, "header", 0) && OnlyAt(records, "end", |records| - 1)
    && ValidBody(records[1..|records| - 1])
  }

  /** The counts of a kind, turn and event never fall. */
  lemma {:induction false} EarlierGrows(body: seq<GoldenRecord>, i: nat, j: nat, r: GoldenRecord)
    requires i <= j <= |body|
    ensures Earlier(body, i, r) <= Earlier(body, j, r)
    ensures i < j && SameEvent(body[i], r) ==> Earlier(body, i, r) < Earlier(body, j, r)
    decreases j
  {
    if i < j {
      EarlierGrows(body, i, j - 1, r);
    }
  }

  lemma {:induction false} EarlierSame(body: seq<GoldenRecord>, i: nat, a: GoldenRecord, b: GoldenRecord)
    requires i <= |body| && SameEvent(a, b)
    ensures Earlier(body, i, a) == Earlier(body, i, b)
  {
    if i > 0 {
      EarlierSame(body, i - 1, a, b);
    }
  }

  // ---------------------------------------------------------------------------
  // The same without counting
  // ---------------------------------------------------------------------------

  /** The record is of a kind that belongs in a body and has that kind's keys. */
  predicate Complete(r: GoldenRecord) {
    || (r.tag == "rng" && r.turn.Some? && r.event.Some? && r.occurrence.Some? && r.seqNo.Some?)
    || (r.tag == "answer" && r.turn.Some? && r.event.Some? && r.occurrence.Some? && r.beforeSeq.Some?)
    || (r.tag == "snapshot" && r.beforeSeq.Some?)
  }

  /** Turns do not fall, draws are numbered upwards, and the driver's positions among them do not fall. */
  predicate RisesTo(a: GoldenRecord, b: GoldenRecord)
    requires Complete(a) && Complete(b)
  {
    && (a.turn.Some? && b.turn.Some? ==> a.turn.value <= b.turn.value)
    && (a.tag == "rng" && b.tag == "rng" ==> a.seqNo.value < b.seqNo.value)
    && (a.tag != "rng" && b.tag != "rng" ==> a.beforeSeq.value <= b.beforeSeq.value)
  }

  /** The latest of the first `n` records that is of the same kind, turn and event as `r`. */
  function LatestLike(body: seq<GoldenRecord>, n: nat, r: GoldenRecord): (latest: Option<nat>)
    requires n <= |body|
    ensures latest.Some? ==> latest.value < n && SameEvent(body[latest.value], r)
    ensures forall k | (if latest.Some? then latest.value + 1 else 0) <= k < n :: !SameEvent(body[k], r)
  {
    if n == 0 then None
    else
      var last := body[n - 1];
      if last.tag == r.tag && last.turn == r.turn && last.event == r.event then Some(n - 1)
      else LatestLike(body, n - 1, r)
  }

  /** The record's occurrence is 0 when it is the first of its kind, turn and event, and one more than the last's. */
  predicate CountsOn(body: seq<GoldenRecord>, i: nat)
    requires i < |body|
  {
    match LatestLike(body, i, body[i])
    case None => body[i].occurrence == Some(0)
    case Some(j) => body[j].occurrence.Some? && body[i].occurrence == Some(body[j].occurrence.value + 1)
  }

  ghost predicate WellFormed(body: seq<GoldenRecord>) {
    && (forall i | 0 <= i < |body| :: Complete(body[i]))
    && (forall i, j | 0 <= i < j < |body| :: RisesTo(body[i], body[j]))
    && forall i | 0 <= i < |body| && body[i].tag != "snapshot" :: CountsOn(body, i)
  }

  /** The count is one more than at the latest like record. */
  lemma {:induction false} EarlierFromLatest(body: seq<GoldenRecord>, n: nat, r: GoldenRecord)
    requires n <= |body|
    ensures Earlier(body, n, r) ==
            match LatestLike(body, n, r) case None => 0 case Some(j) => Earlier(body, j, body[j]) + 1
  {
    if n > 0 {
      if SameEvent(body[n - 1], r) {
        EarlierSame(body, n - 1, body[n - 1], r);
      } else {
        EarlierFromLatest(body, n - 1, r);
      }
    }
  }

  lemma RisesInOrder(a: GoldenRecord, b: GoldenRecord)
    requires Complete(a) && Complete(b)
    ensures RisesTo(a, b) <==> InOrder(a, b)
  {
  }

  /** After valid records, a record is valid when it is complete, in order, and counts on. */
  lemma RecordOkIff(body: seq<GoldenRecord>, i: nat)
    requires i < |body| && forall k | 0 <= k < i :: RecordOk(body, k)
    ensures RecordOk(body, i) <==>
      && Complete(body[i]) && (forall j | 0 <= j < i :: InOrder(body[j], body[i]))
      && (body[i].tag != "snapshot" ==> CountsOn(body, i))
  {
    EarlierFromLatest(body, i, body[i]);
    var latest := LatestLike(body, i, body[i]);
    assert latest.Some? ==> RecordOk(body, latest.value);
    assert Complete(body[i]) <==> HasKeys(body[i]);
  }

  lemma {:induction false} WellFormedIsValid(body: seq<GoldenRecord>, n: nat)
    requires WellFormed(body) && n <= |body|
    ensures forall i | 0 <= i < n :: RecordOk(body, i)
  {
    if n > 0 {
      WellFormedIsValid(body, n - 1);
      RecordOkIff(body, n - 1);
      forall j | 0 <= j < n - 1 ensures InOrder(body[j], body[n - 1]) {
        RisesInOrder(body[j], body[n - 1]);
      }
    }
  }

  /**
   What the validator accepts, without counting: complete records in rising order, each kind's events counted on from
   0 within a turn.
   */
  lemma ValidBodyIff(body: seq<GoldenRecord>)
    ensures ValidBody(body) <==> WellFormed(body)
  {
    if ValidBody(body) {
      forall i | 0 <= i < |body|
        ensures Complete(body[i]) && (forall j | 0 <= j < i :: InOrder(body[j], body[i]))
        ensures body[i].tag != "snapshot" ==> CountsOn(body, i)
      {
        RecordOkIff(body, i);
      }
      forall i, j | 0 <= i < j < |body| ensures RisesTo(body[i], body[j]) {
        RisesInOrder(body[i], body[j]);
      }
    }
    if WellFormed(body) {
      WellFormedIsValid(body, |body|);
    }
  }

  /** An accepted trace, written out. */
  lemma AcceptedTrace(records: seq<GoldenRecord>)
    ensures ValidTrace(records) <==>
      && |records| >= 2
      && records[0].tag == "header" && records[0].formatVersion == Some(1) && records[|records| - 1].tag == "end"
      && WellFormed(records[1..|records| - 1])
  {
    if |records| >= 2 {
      var body := records[1..|records| - 1];
      ValidBodyIff(body);
      assert forall i | 0 < i < |records| - 1 :: records[i] == body[i - 1];
    }
  }

  // ---------------------------------------------------------------------------
  // The single pass
  // ---------------------------------------------------------------------------

  method IndicesOf(records: seq<GoldenRecord>, tag: string) returns (indices: seq<nat>)
    ensures forall i: nat :: i in indices <==> i < |records| && records[i].tag == tag
    ensures forall a, b | 0 <= a < b < |indices| :: indices[a] < indices[b]
  {
    indices := [];
    for i := 0 to |records|
      invariant forall k: nat :: k in indices <==> k < i && records[k].tag == tag
      invariant forall a | 0 <= a < |indices| :: indices[a] < i
      invariant forall a, b | 0 <= a < b < |indices| :: indices[a] < indices[b]
    {
      if records[i].tag == tag { indices := indices + [i]; }
    }
  }

  type Counts = map<(Option<int>, Option<string>), int>

  function Next(counts: Counts, r: GoldenRecord): int {
    if (r.turn, r.event) in counts then counts[(r.turn, r.event)] else 0
  }

  /** The counts hold how often each event has occurred among the first `i` records of a kind. */
  ghost predicate CountsAre(body: seq<GoldenRecord>, i: nat, tag: string, counts: Counts)
    requires i <= |body|
  {
    forall r: GoldenRecord | r.tag == tag :: Next(counts, r) == Earlier(body, i, r)
  }

  /** The latest turn, seq number and driver position among the first `i` records. */
  datatype Latest = Latest(turn: Option<int>, seqNo: Option<int>, beforeSeq: Option<int>)

  function LatestOf(body: seq<GoldenRecord>, i: nat): Latest
    requires i <= |body|
  {
    if i == 0 then Latest(None, None, None)
    else
      var r, before := body[i - 1], LatestOf(body, i - 1);
      Latest(
        if r.turn.Some? then r.turn else before.turn,
        if r.tag == "rng" && r.seqNo.Some? then r.seqNo else before.seqNo,
        if FromDriver(r) && r.beforeSeq.Some? then r.beforeSeq else before.beforeSeq)
  }

  /** The next record does not go behind the latest. */
  predicate NotBehind(latest: Latest, r: GoldenRecord) {
    && (r.turn.Some? && latest.turn.Some? ==> latest.turn.value <= r.turn.value)
    && (r.tag == "rng" && r.seqNo.Some? && latest.seqNo.Some? ==> latest.seqNo.value < r.seqNo.value)
    && (FromDriver(r) && r.beforeSeq.Some? && latest.beforeSeq.Some? ==> latest.beforeSeq.value <= r.beforeSeq.value)
  }

  /** In a valid prefix, being behind no record is being not behind the latest. */
  lemma {:induction false} LatestDecides(body: seq<GoldenRecord>, i: nat, r: GoldenRecord)
    requires i <= |body| && forall k | 0 <= k < i :: RecordOk(body, k)
    ensures (forall j | 0 <= j < i :: InOrder(body[j], r)) <==> NotBehind(LatestOf(body, i), r)
  {
    if i > 0 {
      var last := body[i - 1];
      assert RecordOk(body, i - 1);
      LatestDecides(body, i - 1, r);
      LatestDecides(body, i - 1, last);
      if InOrder(last, r) && !NotBehind(LatestOf(body, i - 1), r) {
        assert NotBehind(LatestOf(body, i - 1), last);
      }
    }
  }

  method CheckOnlyAt(records: seq<GoldenRecord>, tag: string, at: nat) returns (ok: bool)
    requires at < |records|
    ensures ok <==> OnlyAt(records, tag, at)
  {
    var indices := IndicesOf(records, tag);
    if indices == [] {
      assert at !in indices;
      return false;
    }
    assert forall a | 0 <= a < |indices| :: indices[a] in indices;
    if |indices| > 1 {
      assert indices[0] < indices[1];
      return false;
    }
    return indices[0] == at;
  }

  /** The validator: raises (answers no) unless the records form a well-formed trace. */
  method ValidateTrace(records: seq<GoldenRecord>) returns (accepted: bool)
    ensures accepted <==> ValidTrace(records)
  {
    if records == [] { return false; }
    var headerFirst := CheckOnlyAt(records, "header", 0);
    if !headerFirst { return false; }
    if records[0].formatVersion != Some(FORMAT_VERSION) { return false; }
    var endLast := CheckOnlyAt(records, "end", |records| - 1);
    if !endLast { return false; }
    accepted := ValidateBody(records[1..|records| - 1]);
  }

  method ValidateBody(body: seq<GoldenRecord>) returns (accepted: bool)
    requires forall i | 0 <= i < |body| :: body[i].tag != "header" && body[i].tag != "end"
    ensures accepted <==> ValidBody(body)
  {
    var turnPrev: Option<int> := None;
    var rngSeqPrev: Option<int> := None;
    var driverBeforeSeqPrev: Option<int> := None;
    var rngNext: Counts := map[];
    var answerNext: Counts := map[];
    for i := 0 to |body|
      invariant forall k | 0 <= k < i :: RecordOk(body, k)
      invariant Latest(turnPrev, rngSeqPrev, driverBeforeSeqPrev) == LatestOf(body, i)
      invariant CountsAre(body, i, "rng", rngNext) && CountsAre(body, i, "answer", answerNext)
    {
      var rec := body[i];
      LatestDecides(body, i, rec);
      assert ValidBody(body) ==> RecordOk(body, i);
      if rec.tag !in ["header", "rng", "answer", "snapshot", "end"] {
        assert !HasKeys(rec) && !RecordOk(body, i);
        return false;
      }
      if rec.turn.Some? {
        if turnPrev.Some? && rec.turn.value < turnPrev.value { return false; }
        turnPrev := rec.turn;
      }
      if !HasKeys(rec) { return false; }
      if rec.tag == "rng" {
        if rngSeqPrev.Some? && rec.seqNo.value <= rngSeqPrev.value { return false; }
        rngSeqPrev := rec.seqNo;
        var expected := Next(rngNext, rec);
        if rec.occurrence.value != expected { return false; }
        rngNext := rngNext[(rec.turn, rec.event) := expected + 1];
      } else if rec.tag == "answer" {
        if driverBeforeSeqPrev.Some? && rec.beforeSeq.value < driverBeforeSeqPrev.value { return false; }
        driverBeforeSeqPrev := rec.beforeSeq;
        var expected := Next(answerNext, rec);
        if rec.occurrence.value != expected { return false; }
        answerNext := answerNext[(rec.turn, rec.event) := expected + 1];
      } else {
        if driverBeforeSeqPrev.Some? && rec.beforeSeq.value < driverBeforeSeqPrev.value { return false; }
        driverBeforeSeqPrev := rec.beforeSeq;
      }
    }
    return true;
  }
}
