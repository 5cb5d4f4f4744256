/** Recording the outcome of every random draw, with checkpoints that can be returned to within a turn. */
module RngTrace {
  import opened Common
  import opened GoldenTrace

  /** Debug information attached to records. */
  datatype Context = Context(phase: Option<string>, side: Option<int>, slot: Option<int>)

  const NO_CONTEXT: Context := Context(None, None, None)

  /** One resolved outcome; `event` is the event's encoded name. */
  datatype TraceRecord = TraceRecord(
    turn: int, seqNo: int, event: string, occurrence: int, outcome: Outcome, context: Context)

  datatype Checkpoint = Checkpoint(length: nat, counters: map<string, int>, seqNo: int, turn: Option<int>)

  function Count(counters: map<string, int>, event: string): int {
    if event in counters then counters[event] else 0
  }

  /** A recorder's state as a value. */
  datatype State = State(
    turn: Option<int>, seqNo: int, counters: map<string, int>, context: Context, records: seq<TraceRecord>)
  {
    /** Absent when the source raises. */
    function SetTurn(n: int): Option<State> {
      if turn.Some? && n < turn.value then None
      else if turn == Some(n) then Some(this)
      else Some(this.(turn := Some(n), counters := map[]))
    }

    function Record(event: string, outcome: Outcome): Option<State> {
      if turn.None? then None
      else
        var occurrence := Count(counters, event);
        Some(this.(
          counters := counters[event := occurrence + 1],
          records := records + [TraceRecord(turn.value, seqNo, event, occurrence, outcome, context)],
          seqNo := seqNo + 1))
    }

    function Mark(): Checkpoint {
      Checkpoint(|records|, counters, seqNo, turn)
    }

    function Rollback(m: Checkpoint): Option<State> {
      if m.turn != turn then None
      else Some(this.(
        records := if m.length <= |records| then records[..m.length] else records,
        counters := m.counters, seqNo := m.seqNo))
    }
  }

  const FRESH: State := State(None, 0, map[], NO_CONTEXT, [])

  /** The recorder; a method that raises leaves the state as it was and answers no. */
  class TraceRecorder {
    var turn: Option<int>
    var seqNo: int
    var counters: map<string, int>
    var contextPhase: Option<string>
    var contextSide: Option<int>
    var contextSlot: Option<int>
    var records: seq<TraceRecord>

    function Value(): State
      reads this
    {
      State(turn, seqNo, counters, Context(contextPhase, contextSide, contextSlot), records)
    }

    constructor ()
      ensures Value() == FRESH
    {
      turn, seqNo, counters, records := None, 0, map[], [];
      contextPhase, contextSide, contextSlot := None, None, None;
    }

    method SetTurn(n: int) returns (ok: bool)
      modifies this
      ensures ok <==> old(Value()).SetTurn(n).Some?
      ensures Value() == if ok then old(Value()).SetTurn(n).value else old(Value())
    {
      if turn.Some? {
        if n < turn.value { return false; }
        if n == turn.value { return true; }
      }
      turn := Some(n);
      counters := map[];
      return true;
    }

    method SetContext(phase: Option<string>, side: Option<int>, slot: Option<int>)
      modifies this
      ensures Value() == old(Value()).(context := Context(phase, side, slot))
    {
      contextPhase, contextSide, contextSlot := phase, side, slot;
    }

    method Record(event: string, outcome: Outcome) returns (ok: bool)
      modifies this
      ensures ok <==> old(Value()).Record(event, outcome).Some?
      ensures Value() == if ok then old(Value()).Record(event, outcome).value else old(Value())
    {
      if turn.None? { return false; }
      var occurrence := Count(counters, event);
      counters := counters[event := occurrence + 1];
      records := records + [TraceRecord(
        turn.value, seqNo, event, occurrence, outcome, Context(contextPhase, contextSide, contextSlot))];
      seqNo := seqNo + 1;
      return true;
    }

    method Mark() returns (mark: Checkpoint)
      ensures mark == Value().Mark()
    {
      mark := Checkpoint(|records|, counters, seqNo, turn);
    }

    method Rollback(mark: Checkpoint) returns (ok: bool)
      modifies this
      ensures ok <==> old(Value()).Rollback(mark).Some?
      ensures Value() == if ok then old(Value()).Rollback(mark).value else old(Value())
    {
      if mark.turn != turn { return false; }
      if mark.length <= |records| {
        records := records[..mark.length];
      }
      counters := mark.counters;
      seqNo := mark.seqNo;
      return true;
    }
  }

  // ---------------------------------------------------------------------------
  // The invariant
  // ---------------------------------------------------------------------------

  /** How many of the first `n` records are of the turn and event. */
  function Occurred(records: seq<TraceRecord>, n: nat, turn: int, event: string): nat
    requires n <= |records|
  {
    if n == 0 then 0
    else
      var r := records[n - 1];
      Occurred(records, n - 1, turn, event) + if r.turn == turn && r.event == event then 1 else 0
  }

  /**
   Records are numbered from 0, turns do not go back, and each record counts the equal draws before it in its turn.
   */
  predicate WellNumbered(records: seq<TraceRecord>) {
    forall i | 0 <= i < |records| :: Numbered(records, i)
  }

  predicate Numbered(records: seq<TraceRecord>, i: nat)
    requires i < |records|
  {
    && records[i].seqNo == i
    && records[i].occurrence == Occurred(records, i, records[i].turn, records[i].event)
    && (0 < i ==> records[i - 1].turn <= records[i].turn)
  }

  /** The counters are those of the first `n` records in the turn. */
  ghost predicate CountersOf(records: seq<TraceRecord>, n: nat, turn: Option<int>, counters: map<string, int>)
    requires n <= |records|
  {
    forall e: string :: Count(counters, e) == if turn.Some? then Occurred(records, n, turn.value, e) else 0
  }

  ghost predicate Inv(s: State) {
    && s.seqNo == |s.records|
    && WellNumbered(s.records)
    && CountersOf(s.records, |s.records|, s.turn, s.counters)
    && (s.turn.None? ==> s.records == [])
    && (s.records != [] ==> s.records[|s.records| - 1].turn <= s.turn.value)
  }

  /** Occurrences among a prefix do not depend on what follows. */
  lemma {:induction false} OccurredPrefix(a: seq<TraceRecord>, b: seq<TraceRecord>, n: nat, turn: int, event: string)
    requires n <= |a| && n <= |b| && a[..n] == b[..n]
    ensures Occurred(a, n, turn, event) == Occurred(b, n, turn, event)
  {
    if n > 0 {
      assert a[..n][n - 1] == a[n - 1] && b[..n][n - 1] == b[n - 1];
      assert a[..n - 1] == a[..n][..n - 1] && b[..n - 1] == b[..n][..n - 1];
      OccurredPrefix(a, b, n - 1, turn, event);
    }
  }

  /** Turns not yet reached have no occurrences. */
  lemma {:induction false} NoneInLaterTurn(records: seq<TraceRecord>, n: nat, turn: int, event: string)
    requires WellNumbered(records) && n <= |records| && (n > 0 ==> records[n - 1].turn < turn)
    ensures Occurred(records, n, turn, event) == 0
  {
    if n > 0 {
      assert Numbered(records, n - 1);
      NoneInLaterTurn(records, n - 1, turn, event);
    }
  }

  lemma PrefixWellNumbered(records: seq<TraceRecord>, n: nat)
    requires WellNumbered(records) && n <= |records|
    ensures WellNumbered(records[..n])
  {
    forall i | 0 <= i < n ensures Numbered(records[..n], i) {
      assert Numbered(records, i);
      assert records[..n][..i] == records[..i];
      OccurredPrefix(records[..n], records, i, records[i].turn, records[i].event);
    }
  }

  lemma RecordKeepsInv(s: State, event: string, outcome: Outcome)
    requires Inv(s) && s.turn.Some?
    ensures Inv(s.Record(event, outcome).value)
  {
    var s' := s.Record(event, outcome).value;
    var n := |s.records|;
    assert s'.records[..n] == s.records == s.records[..n];
    forall i | 0 <= i < |s'.records| ensures Numbered(s'.records, i) {
      if i < n { assert Numbered(s.records, i); }
      assert s'.records[..i] == s.records[..i];
      OccurredPrefix(s'.records, s.records, i, s'.records[i].turn, s'.records[i].event);
    }
    forall e: string ensures Count(s'.counters, e) == Occurred(s'.records, n + 1, s.turn.value, e) {
      OccurredPrefix(s'.records, s.records, n, s.turn.value, e);
    }
  }

  lemma SetTurnKeepsInv(s: State, n: int)
    requires Inv(s) && s.SetTurn(n).Some?
    ensures Inv(s.SetTurn(n).value)
  {
    if s.turn != Some(n) {
      forall e: string ensures Occurred(s.records, |s.records|, n, e) == 0 {
        NoneInLaterTurn(s.records, |s.records|, n, e);
      }
    }
  }

  /**
   Going back to a mark of this turn keeps the invariant if and only if the records still start with as many as
   the mark saw, with the counts it saw.
   */
  lemma RollbackKeepsInvIff(s: State, m: Checkpoint)
    requires Inv(s) && m.turn == s.turn && m.seqNo == m.length
    ensures Inv(s.Rollback(m).value) <==>
      m.length <= |s.records| && CountersOf(s.records, m.length, s.turn, m.counters)
  {
    var s' := s.Rollback(m).value;
    if m.length <= |s.records| {
      PrefixWellNumbered(s.records, m.length);
      assert s'.records[..m.length] == s.records[..m.length];
      forall e: string, t: int ensures Occurred(s'.records, m.length, t, e) == Occurred(s.records, m.length, t, e) {
        OccurredPrefix(s'.records, s.records, m.length, t, e);
      }
      if 0 < m.length {
        TurnsUpTo(s.records, m.length - 1, |s.records| - 1);
      }
    }
  }

  lemma {:induction false} TurnsUpTo(records: seq<TraceRecord>, i: nat, j: nat)
    requires WellNumbered(records) && i <= j < |records|
    ensures records[i].turn <= records[j].turn
    decreases j
  {
    if i < j {
      assert Numbered(records, j);
      TurnsUpTo(records, i, j - 1);
    }
  }

  // ---------------------------------------------------------------------------
  // Whole runs
  // ---------------------------------------------------------------------------

  /** Calls a game may make; `Rollback(j)` returns to the `j`-th of the marks still on the current history. */
  datatype Op =
    | SetTurnOp(n: int)
    | SetContextOp(context: Context)
    | RecordOp(event: string, outcome: Outcome)
    | MarkOp
    | RollbackOp(j: nat)

  /** A recorder and the marks on its current history, oldest first. Going back to a mark forgets the later ones. */
  datatype World = World(state: State, marks: seq<Checkpoint>)
  {
    function Apply(op: Op): World {
      match op
      case SetTurnOp(n) => if state.SetTurn(n).Some? then World(state.SetTurn(n).value, marks) else this
      case SetContextOp(c) => World(state.(context := c), marks)
      case RecordOp(e, o) => if state.Record(e, o).Some? then World(state.Record(e, o).value, marks) else this
      case MarkOp => World(state, marks + [state.Mark()])
      case RollbackOp(j) =>
        if j < |marks| && state.Rollback(marks[j]).Some?
        then World(state.Rollback(marks[j]).value, marks[..j + 1])
        else this
    }
  }

  function Run(w: World, ops: seq<Op>): World {
    if ops == [] then w else Run(w, ops[..|ops| - 1]).Apply(ops[|ops| - 1])
  }

  /** The mark was taken where the first `length` records were all there was. */
  ghost predicate OnHistory(s: State, m: Checkpoint) {
    && m.length <= |s.records| && m.seqNo == m.length
    && (m.turn == s.turn ==> CountersOf(s.records, m.length, s.turn, m.counters))
    && (m.turn.Some? ==> s.turn.Some? && m.turn.value <= s.turn.value)
  }

  ghost predicate WorldInv(w: World) {
    && Inv(w.state)
    && (forall j | 0 <= j < |w.marks| :: OnHistory(w.state, w.marks[j]))
    && (forall i, j | 0 <= i < j < |w.marks| :: w.marks[i].length <= w.marks[j].length)
  }

  /** Marks stay on the history while the records they saw stay. */
  lemma MarksStay(s: State, s': State, m: Checkpoint)
    requires OnHistory(s, m) && m.length <= |s'.records| && s'.records[..m.length] == s.records[..m.length]
    requires s'.turn == s.turn
    ensures OnHistory(s', m)
  {
    if m.turn == s.turn && s.turn.Some? {
      forall e: string ensures Occurred(s'.records, m.length, s.turn.value, e) == Occurred(s.records, m.length,
          s.turn.value, e) {
        OccurredPrefix(s'.records, s.records, m.length, s.turn.value, e);
      }
    }
  }

  lemma StepKeepsInv(w: World, op: Op)
    requires WorldInv(w)
    ensures WorldInv(w.Apply(op))
  {
    var w' := w.Apply(op);
    match op {
      case SetTurnOp(n) =>
        if w.state.SetTurn(n).Some? { SetTurnKeepsInv(w.state, n); }
      case SetContextOp(c) =>
      case RecordOp(e, o) =>
        if w.state.Record(e, o).Some? {
          RecordKeepsInv(w.state, e, o);
          forall j | 0 <= j < |w.marks| ensures OnHistory(w'.state, w.marks[j]) {
            assert w'.state.records[..w.marks[j].length] == w.state.records[..w.marks[j].length];
            MarksStay(w.state, w'.state, w.marks[j]);
          }
        }
      case MarkOp =>
      case RollbackOp(j) =>
        if j < |w.marks| && w.state.Rollback(w.marks[j]).Some? {
          var m := w.marks[j];
          assert OnHistory(w.state, m);
          RollbackKeepsInvIff(w.state, m);
          forall i | 0 <= i <= j ensures OnHistory(w'.state, w.marks[i]) {
            assert w.marks[i].length <= m.length;
            assert w'.state.records[..w.marks[i].length] == w.state.records[..w.marks[i].length];
            MarksStay(w.state, w'.state, w.marks[i]);
          }
        }
    }
  }

  /** Every run of a recorder with marks on the current history keeps the numbering right. */
  lemma {:induction false} RunKeepsInv(ops: seq<Op>)
    ensures WorldInv(Run(World(FRESH, []), ops))
    decreases |ops|
  {
    if ops != [] {
      RunKeepsInv(ops[..|ops| - 1]);
      StepKeepsInv(Run(World(FRESH, []), ops[..|ops| - 1]), ops[|ops| - 1]);
    }
  }

  // ---------------------------------------------------------------------------
  // What the records hold
  // ---------------------------------------------------------------------------

  /** The turn after the first `n` calls: the latest one asked for, where going back is refused. */
  function TurnAt(ops: seq<Op>, n: nat): Option<int>
    requires n <= |ops|
  {
    if n == 0 then None
    else
      var before := TurnAt(ops, n - 1);
      match ops[n - 1]
      case SetTurnOp(t) => if before.Some? && t < before.value then before else Some(t)
      case _ => before
  }

  function ContextAt(ops: seq<Op>, n: nat): Context
    requires n <= |ops|
  {
    if n == 0 then NO_CONTEXT
    else if ops[n - 1].SetContextOp? then ops[n - 1].context
    else ContextAt(ops, n - 1)
  }

  /** The calls whose draws are not undone, and how many there were at each mark, with the turn of the mark. */
  datatype Tape = Tape(kept: seq<nat>, marks: seq<(nat, Option<int>)>)
  {
    predicate Valid() {
      && (forall j | 0 <= j < |marks| :: marks[j].0 <= |kept|)
      && (forall i, j | 0 <= i < j < |marks| :: marks[i].0 <= marks[j].0)
    }
  }

  function TapeAt(ops: seq<Op>, n: nat): (tape: Tape)
    requires n <= |ops|
    ensures tape.Valid()
  {
    if n == 0 then Tape([], [])
    else
      var Tape(kept, marks) := TapeAt(ops, n - 1);
      var turn := TurnAt(ops, n - 1);
      match ops[n - 1]
      case RecordOp(_, _) => Tape(if turn.Some? then kept + [n - 1] else kept, marks)
      case MarkOp => Tape(kept, marks + [(|kept|, turn)])
      case RollbackOp(j) =>
        if j < |marks| && marks[j].1 == turn then Tape(kept[..marks[j].0], marks[..j + 1]) else Tape(kept, marks)
      case _ => Tape(kept, marks)
  }

  /** The record is of the draw made by call `k`. */
  predicate HoldsDraw(ops: seq<Op>, r: TraceRecord, k: nat) {
    && k < |ops| && ops[k].RecordOp? && r.event == ops[k].event && r.outcome == ops[k].outcome
    && TurnAt(ops, k) == Some(r.turn) && r.context == ContextAt(ops, k)
  }

  /** The recorder's state after `n` calls is the tape's. */
  ghost predicate FollowsTape(ops: seq<Op>, n: nat, w: World)
    requires n <= |ops|
  {
    var Tape(kept, marks) := TapeAt(ops, n);
    && w.state.turn == TurnAt(ops, n) && w.state.context == ContextAt(ops, n)
    && |w.state.records| == |kept| && |w.marks| == |marks|
    && (forall i | 0 <= i < |kept| :: HoldsDraw(ops, w.state.records[i], kept[i]))
    && (forall j | 0 <= j < |marks| :: w.marks[j].length == marks[j].0 && w.marks[j].turn == marks[j].1)
  }

  /** One more draw goes on the tape. */
  lemma DrawFollows(ops: seq<Op>, n: nat, w: World)
    requires n < |ops| && ops[n].RecordOp? && FollowsTape(ops, n, w)
    ensures FollowsTape(ops, n + 1, w.Apply(ops[n]))
  {
    var kept, after := TapeAt(ops, n).kept, TapeAt(ops, n + 1).kept;
    var records := w.Apply(ops[n]).state.records;
    forall i | 0 <= i < |after| ensures HoldsDraw(ops, records[i], after[i]) {
      if i < |kept| { assert HoldsDraw(ops, w.state.records[i], kept[i]); }
    }
  }

  /** Going back to a mark takes off the tape what was drawn since. */
  lemma RollbackFollows(ops: seq<Op>, n: nat, w: World)
    requires n < |ops| && ops[n].RollbackOp? && FollowsTape(ops, n, w)
    ensures FollowsTape(ops, n + 1, w.Apply(ops[n]))
  {
    var kept, after := TapeAt(ops, n).kept, TapeAt(ops, n + 1).kept;
    var records := w.Apply(ops[n]).state.records;
    forall i | 0 <= i < |after| ensures HoldsDraw(ops, records[i], after[i]) {
      assert HoldsDraw(ops, w.state.records[i], kept[i]);
    }
  }

  /** After any run the records are, in order, the draws that were not undone, each in the turn it was made. */
  lemma {:induction false} RecordsAreKept(ops: seq<Op>, n: nat)
    requires n <= |ops|
    ensures FollowsTape(ops, n, Run(World(FRESH, []), ops[..n]))
  {
    if n > 0 {
      var w := Run(World(FRESH, []), ops[..n - 1]);
      RecordsAreKept(ops, n - 1);
      assert ops[..n][..n - 1] == ops[..n - 1];
      match ops[n - 1] {
        case RecordOp(_, _) => DrawFollows(ops, n - 1, w);
        case RollbackOp(_) => RollbackFollows(ops, n - 1, w);
        case _ => assert TapeAt(ops, n).kept == TapeAt(ops, n - 1).kept;
      }
    }
  }

  /** Draws that were not undone were made in the order of their records. */
  lemma {:induction false} KeptInOrder(ops: seq<Op>, n: nat)
    requires n <= |ops|
    ensures forall i | 0 <= i < |TapeAt(ops, n).kept| :: TapeAt(ops, n).kept[i] < n
    ensures forall i, j | 0 <= i < j < |TapeAt(ops, n).kept| :: TapeAt(ops, n).kept[i] < TapeAt(ops, n).kept[j]
  {
    if n > 0 {
      KeptInOrder(ops, n - 1);
      var kept, after := TapeAt(ops, n - 1).kept, TapeAt(ops, n).kept;
      assert after == kept + [n - 1] || after <= kept;
    }
  }
}
