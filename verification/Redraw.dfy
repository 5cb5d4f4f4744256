/** Going back to a mark: what it undoes, and what drawing again records. */
module Redraw {
  import opened GoldenTrace
  import opened RngTrace

  /** A run that starts at mark `j` and never goes back beyond it. */
  predicate StaysAfter(j: nat, ops: seq<Op>) {
    forall i | 0 <= i < |ops| :: ops[i].RollbackOp? ==> j <= ops[i].j
  }

  /** `w'` still has the marks up to `j` and the records they saw, and no mark since saw fewer. */
  ghost predicate Continues(w: World, w': World, j: nat)
    requires j < |w.marks|
  {
    var length := w.marks[j].length;
    && w.marks[..j + 1] <= w'.marks
    && length <= |w'.state.records| && length <= |w.state.records|
    && w'.state.records[..length] == w.state.records[..length]
    && (forall i | j <= i < |w'.marks| :: length <= w'.marks[i].length)
  }

  lemma StepContinues(w: World, w': World, j: nat, op: Op)
    requires j < |w.marks| && Continues(w, w', j)
    requires op.RollbackOp? ==> j <= op.j
    ensures Continues(w, w'.Apply(op), j)
  {
    var n := w.marks[j].length;
    var after := w'.Apply(op);
    match op {
      case RecordOp(e, o) =>
        assert w'.state.Record(e, o).Some? ==> after.state.records[..n] == w'.state.records[..n];
      case RollbackOp(k) =>
        if k < |w'.marks| && w'.state.Rollback(w'.marks[k]).Some? {
          assert w.marks[..j + 1] <= w'.marks[..k + 1];
          assert n <= w'.marks[k].length;
          assert after.state.records[..n] == w'.state.records[..n];
        }
      case MarkOp =>
        assert forall i | j <= i < |after.marks| :: n <= after.marks[i].length;
      case SetTurnOp(_) =>
      case SetContextOp(_) =>
    }
  }

  lemma {:induction false} RunContinues(w: World, j: nat, ops: seq<Op>)
    requires j < |w.marks| && WorldInv(w) && StaysAfter(j, ops)
    ensures Continues(w, Run(w, ops), j)
    decreases |ops|
  {
    if ops == [] {
      assert OnHistory(w.state, w.marks[j]);
      assert forall i | j <= i < |w.marks| :: w.marks[j].length <= w.marks[i].length;
    } else {
      var init := ops[..|ops| - 1];
      RunContinues(w, j, init);
      StepContinues(w, Run(w, init), j, ops[|ops| - 1]);
    }
  }

  /**
   Marking, running on in the same turn without going back further, and going back to the mark restores the
   recorder, except for the debug context. A run that moved on to another turn cannot go back.
   */
  lemma RollbackUndoesRun(w: World, ops: seq<Op>)
    requires WorldInv(w) && StaysAfter(|w.marks|, ops)
    ensures
      var ran := Run(w.Apply(MarkOp), ops);
      var back := ran.Apply(RollbackOp(|w.marks|));
      if ran.state.turn == w.state.turn
      then back.state == w.state.(context := ran.state.context) && back.marks == w.marks + [w.state.Mark()]
      else back == ran
  {
    var j := |w.marks|;
    var marked := w.Apply(MarkOp);
    var ran := Run(marked, ops);
    StepKeepsInv(w, MarkOp);
    RunContinues(marked, j, ops);
    assert marked.marks[..j + 1] == marked.marks;
    assert ran.marks[j] == marked.marks[j] == w.state.Mark();
    assert w.state.records[..|w.state.records|] == w.state.records;
  }

  /** A context set after a mark is still there after going back to it. */
  lemma ContextIsNotRestored(c: Context)
    requires c != NO_CONTEXT
    ensures
      var w := World(FRESH, []);
      var back := Run(w.Apply(MarkOp), [SetContextOp(c)]).Apply(RollbackOp(0)).state;
      back == w.state.(context := c) && back != w.state
  {
    var w := World(FRESH, []);
    assert [SetContextOp(c)][..0] == [];
    assert Run(w.Apply(MarkOp), []) == w.Apply(MarkOp);
  }

  /** The draws of a game: events with their outcomes. */
  type Draws = seq<(string, Outcome)>

  function DrawAll(s: State, draws: Draws): State
    requires s.turn.Some?
    ensures DrawAll(s, draws).turn == s.turn
  {
    if draws == [] then s
    else
      var (event, outcome) := draws[|draws| - 1];
      DrawAll(s, draws[..|draws| - 1]).Record(event, outcome).value
  }

  /** Every draw is recorded, with its own event and outcome. */
  lemma {:induction false} DrawsAreRecorded(s: State, draws: Draws, i: nat)
    requires s.turn.Some? && i < |draws|
    ensures
      var records, n := DrawAll(s, draws).records, |s.records|;
      && |records| == n + |draws| && records[..n] == s.records
      && records[n + i].event == draws[i].0 && records[n + i].outcome == draws[i].1
      && records[n + i].turn == s.turn.value && records[n + i].seqNo == s.seqNo + i
    decreases |draws|
  {
    var last := |draws| - 1;
    DrawnSoFar(s, draws[..last]);
    if i < last {
      DrawsAreRecorded(s, draws[..last], i);
    }
  }

  /** The draws come after what was recorded before. */
  lemma {:induction false} DrawnSoFar(s: State, draws: Draws)
    requires s.turn.Some?
    ensures var after := DrawAll(s, draws);
            && after.seqNo == s.seqNo + |draws|
            && |after.records| == |s.records| + |draws| && after.records[..|s.records|] == s.records
    decreases |draws|
  {
    if draws != [] {
      DrawnSoFar(s, draws[..|draws| - 1]);
    }
  }

  /** A record without its debug context. */
  function Core(r: TraceRecord): TraceRecord {
    r.(context := NO_CONTEXT)
  }

  /** The states record alike: they differ at most in debug contexts. */
  ghost predicate Alike(a: State, b: State) {
    && a.turn == b.turn && a.seqNo == b.seqNo && a.counters == b.counters && |a.records| == |b.records|
    && forall i | 0 <= i < |a.records| :: Core(a.records[i]) == Core(b.records[i])
  }

  lemma {:induction false} DrawsKeepAlike(a: State, b: State, draws: Draws)
    requires a.turn.Some? && Alike(a, b)
    ensures Alike(DrawAll(a, draws), DrawAll(b, draws))
    decreases |draws|
  {
    if draws != [] {
      DrawsKeepAlike(a, b, draws[..|draws| - 1]);
    }
  }

  /**
   Drawing the same events again after going back records the same turn, seq, event, occurrence and outcome: the
   abandoned draws leave no trace.
   */
  lemma RedrawRecordsTheSame(w: World, ops: seq<Op>, draws: Draws)
    requires WorldInv(w) && StaysAfter(|w.marks|, ops) && w.state.turn.Some?
    requires Run(w.Apply(MarkOp), ops).state.turn == w.state.turn
    ensures
      var back := Run(w.Apply(MarkOp), ops).Apply(RollbackOp(|w.marks|)).state;
      back.turn.Some? && Alike(DrawAll(back, draws), DrawAll(w.state, draws))
  {
    RollbackUndoesRun(w, ops);
    var back := Run(w.Apply(MarkOp), ops).Apply(RollbackOp(|w.marks|)).state;
    DrawsKeepAlike(back, w.state, draws);
  }

  /**
   A mark that was left behind: after a rollback to an earlier mark it restores counters that run ahead of the
   records, and the next draw of the event is misnumbered.
   */
  lemma StaleMarkMiscounts(outcome: Outcome)
    ensures
      var start := FRESH.SetTurn(1).value;
      var drawn := start.Record("CRIT", outcome).value;
      var stale := drawn.Mark();
      var back := drawn.Rollback(start.Mark()).value;
      var ahead := back.Rollback(stale).value;
      && Inv(back) && !Inv(ahead)
      && ahead.Record("CRIT", outcome).value.records[0].occurrence == 1
  {
    var start := FRESH.SetTurn(1).value;
    SetTurnKeepsInv(FRESH, 1);
    var drawn := start.Record("CRIT", outcome).value;
    RecordKeepsInv(start, "CRIT", outcome);
    RollbackKeepsInvIff(drawn, start.Mark());
    assert CountersOf(drawn.records, 0, drawn.turn, start.counters);
    var back := drawn.Rollback(start.Mark()).value;
    assert back.records == [];
  }
}
