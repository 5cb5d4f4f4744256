/** Reading a match off a completed alignment table. */
module Matching {
  import opened Common
  import opened Text
  import opened Template
  import opened Table
  import opened Alignment

  /** Canonicalisation of a captured span and validation of the captured values, with their constraints. */
  datatype Policy = Policy(canonical: (string, VarCategory) -> string, accepts: (seq<Segment>, seq<string>) -> bool)

  datatype MatchResult = MatchResult(values: seq<string>, score: nat, coverage: real)

  /** Step `k` starts where the step before it ends, and takes words that are there. */
  predicate CutAt(pb: Problem, steps: seq<Step>, k: nat)
    requires k < |steps|
  {
    StartOf(steps, k) <= steps[k].end <= |pb.words|
  }

  /** The steps cut words and segments of the problem, without gap or overlap. */
  predicate Cuts(pb: Problem, steps: seq<Step>) {
    && |steps| <= |pb.segments|
    && forall k | 0 <= k < |steps| :: CutAt(pb, steps, k)
  }

  ghost predicate Fits(pb: Problem, steps: seq<Step>) {
    Legal(pb.Edges(), |pb.words|, |pb.segments|, steps)
  }

  lemma FitsCuts(pb: Problem, steps: seq<Step>)
    requires Fits(pb, steps)
    ensures Cuts(pb, steps) && EndOf(steps) <= |pb.words|
  {
    forall k | 0 <= k < |steps| ensures CutAt(pb, steps, k) {
      assert StepLegal(pb.Edges(), |pb.words|, steps, k);
    }
    assert steps != [] ==> CutAt(pb, steps, |steps| - 1);
  }

  /** The words of segment `k`. */
  function SpanWords(pb: Problem, steps: seq<Step>, k: nat): seq<string>
    requires Cuts(pb, steps) && k < |steps|
  {
    assert CutAt(pb, steps, k);
    pb.words[StartOf(steps, k)..steps[k].end]
  }

  /** What a segment captures: nothing for a phrase, one value otherwise. */
  function Captured(pb: Problem, policy: Policy, segment: Segment, span: string): seq<string> {
    match segment
    case Phrase(_) => []
    case VarSlot(category, _) => [policy.canonical(span, category)]
    case EnumSlot(choices, _) => if choices == [] then [] else [choices[Closest(pb.lexicon, span, choices)]]
  }

  /** The values captured by the first `t` steps. */
  function Values(pb: Problem, policy: Policy, steps: seq<Step>, t: nat): seq<string>
    requires Cuts(pb, steps) && t <= |steps|
  {
    if t == 0 then []
    else Values(pb, policy, steps, t - 1) + Captured(pb, policy, pb.segments[t - 1], Join(SpanWords(pb, steps, t - 1)))
  }

  /** The number of words taken by variables among the first `t` steps. */
  function VarWords(pb: Problem, steps: seq<Step>, t: nat): nat
    requires Cuts(pb, steps) && t <= |steps|
  {
    if t == 0 then 0
    else VarWords(pb, steps, t - 1) + if pb.segments[t - 1].VarSlot? then |SpanWords(pb, steps, t - 1)| else 0
  }

  /** The share of the words taken by literals and enums. */
  function Coverage(pb: Problem, steps: seq<Step>): real
    requires Cuts(pb, steps)
  {
    if pb.words == [] then 1.0
    else (|pb.words| - VarWords(pb, steps, |steps|)) as real / |pb.words| as real
  }

  function SlotCount(segments: seq<Segment>, t: nat): nat
    requires t <= |segments|
  {
    if t == 0 then 0 else SlotCount(segments, t - 1) + if segments[t - 1].Phrase? then 0 else 1
  }

  /** The spans of the first `t` steps, concatenated. */
  function Covered(pb: Problem, steps: seq<Step>, t: nat): seq<string>
    requires Cuts(pb, steps) && t <= |steps|
  {
    if t == 0 then [] else Covered(pb, steps, t - 1) + SpanWords(pb, steps, t - 1)
  }

  /** The number of words taken by literals and enums among the first `t` steps. */
  function LiteralWords(pb: Problem, steps: seq<Step>, t: nat): nat
    requires Cuts(pb, steps) && t <= |steps|
  {
    if t == 0 then 0
    else
      LiteralWords(pb, steps, t - 1) +
      match pb.segments[t - 1]
      case Phrase(_) => |SpanWords(pb, steps, t - 1)|
      case EnumSlot(_, _) => |SpanWords(pb, steps, t - 1)|
      case VarSlot(_, _) => 0
  }

  /** The spans concatenate to the words they cover, each of which is a variable's or a literal's or enum's. */
  lemma {:induction false} SpansCover(pb: Problem, steps: seq<Step>, t: nat)
    requires Cuts(pb, steps) && t <= |steps|
    ensures StartOf(steps, t) <= |pb.words| && Covered(pb, steps, t) == pb.words[..StartOf(steps, t)]
    ensures VarWords(pb, steps, t) + LiteralWords(pb, steps, t) == StartOf(steps, t)
  {
    if t > 0 {
      SpansCover(pb, steps, t - 1);
      assert CutAt(pb, steps, t - 1);
      assert pb.words[..StartOf(steps, t)] == pb.words[..StartOf(steps, t - 1)] + SpanWords(pb, steps, t - 1);
    }
  }

  lemma QuotientOfPart(part: real, whole: real)
    requires 0.0 <= part <= whole && 0.0 < whole
    ensures 0.0 <= part / whole <= 1.0
  {
    var q := part / whole;
    assert q * whole == part;
    assert q > 1.0 ==> q * whole > whole;
    assert q < 0.0 ==> q * whole < 0.0;
  }

  /** Coverage is a share, that of the words which literals and enums take when all words are taken. */
  lemma CoverageIsAShare(pb: Problem, steps: seq<Step>)
    requires Cuts(pb, steps)
    ensures 0.0 <= Coverage(pb, steps) <= 1.0
    ensures EndOf(steps) == |pb.words| > 0 ==>
      Coverage(pb, steps) == LiteralWords(pb, steps, |steps|) as real / |pb.words| as real
  {
    SpansCover(pb, steps, |steps|);
    if pb.words != [] {
      QuotientOfPart((|pb.words| - VarWords(pb, steps, |steps|)) as real, |pb.words| as real);
    }
  }

  /** One value for each slot, in order: the value of slot segment `k` is the one its own span gives. */
  lemma {:induction false} ValueOfSlot(pb: Problem, policy: Policy, steps: seq<Step>, t: nat, k: nat)
    requires pb.Valid() && Cuts(pb, steps) && k < t <= |steps|
    ensures |Values(pb, policy, steps, t)| == SlotCount(pb.segments, t)
    ensures !pb.segments[k].Phrase? ==>
      && SlotCount(pb.segments, k) < SlotCount(pb.segments, t)
      && [Values(pb, policy, steps, t)[SlotCount(pb.segments, k)]] ==
         Captured(pb, policy, pb.segments[k], Join(SpanWords(pb, steps, k)))
  {
    assert pb.segments[t - 1].Valid();
    if t > 1 {
      ValueOfSlot(pb, policy, steps, t - 1, if k < t - 1 then k else 0);
    }
  }

  /** The slot's value: a variable's own span, made canonical, or the first of the choices nearest to the span. */
  lemma SlotValueIs(pb: Problem, policy: Policy, steps: seq<Step>, k: nat)
    requires pb.Valid() && Cuts(pb, steps) && k < |steps| && !pb.segments[k].Phrase?
    ensures SlotCount(pb.segments, k) < |Values(pb, policy, steps, |steps|)|
    ensures
      var value := Values(pb, policy, steps, |steps|)[SlotCount(pb.segments, k)];
      var span := Join(SpanWords(pb, steps, k));
      match pb.segments[k]
      case VarSlot(category, _) => value == policy.canonical(span, category)
      case EnumSlot(choices, _) => exists j: nat :: FirstNearest(pb.lexicon, span, choices, j) && value == choices[j]
  {
    ValueOfSlot(pb, policy, steps, |steps|, k);
    assert pb.segments[k].Valid();
    if pb.segments[k].EnumSlot? {
      var span, choices := Join(SpanWords(pb, steps, k)), pb.segments[k].choices;
      assert FirstNearest(pb.lexicon, span, choices, Closest(pb.lexicon, span, choices));
    }
  }

  /** No choice is nearer to the span, and none before is as near. */
  predicate FirstNearest(lexicon: Lexicon, span: string, choices: seq<string>, j: nat) {
    && j < |choices|
    && forall l | 0 <= l < |choices| ::
      var here := lexicon.distance(lexicon.lower(span), lexicon.lower(choices[j]));
      var there := lexicon.distance(lexicon.lower(span), lexicon.lower(choices[l]));
      here <= there && (l < j ==> here < there)
  }

  /** What has been read off the first `k` steps. */
  predicate ReadSoFar(pb: Problem, policy: Policy, steps: seq<Step>, k: nat, values: seq<string>, varWords: nat)
    requires Cuts(pb, steps) && k <= |steps|
  {
    values == Values(pb, policy, steps, k) && varWords == VarWords(pb, steps, k)
  }

  /** Reads one hop: what its segment captures, and how many words it gives to a variable. */
  method ReadHop(
      pb: Problem, policy: Policy, hop: Hop, values: seq<string>, varWords: nat, ghost steps: seq<Step>, ghost k: nat)
    returns (values': seq<string>, varWords': nat)
    requires pb.Valid() && Cuts(pb, steps) && HopOf(steps, k, hop) && ReadSoFar(pb, policy, steps, k, values, varWords)
    ensures ReadSoFar(pb, policy, steps, k + 1, values', varWords')
  {
    var Hop(pi, ps, ci, _) := hop;
    assert CutAt(pb, steps, k) && pb.segments[ps].Valid();
    values', varWords' := values, varWords;
    var span := Join(pb.words[pi..ci]);
    assert pb.words[pi..ci] == SpanWords(pb, steps, k);
    match pb.segments[ps] {
      case Phrase(_) =>
      case EnumSlot(choices, _) => values' := values + [choices[Closest(pb.lexicon, span, choices)]];
      case VarSlot(category, _) => values', varWords' := values + [policy.canonical(span, category)],
          varWords + (ci - pi);
    }
  }

  /** What the hops of a traceback capture, and how many words they give to variables. */
  method ReadHops(pb: Problem, policy: Policy, hops: seq<Hop>, ghost steps: seq<Step>)
    returns (values: seq<string>, varWords: nat)
    requires pb.Valid() && Cuts(pb, steps) && |hops| == |steps|
    requires forall k | 0 <= k < |hops| :: HopOf(steps, k, hops[k])
    ensures values == Values(pb, policy, steps, |steps|) && varWords == VarWords(pb, steps, |steps|)
  {
    values, varWords := [], 0;
    for k := 0 to |hops|
      invariant ReadSoFar(pb, policy, steps, k, values, varWords)
    {
      values, varWords := ReadHop(pb, policy, hops[k], values, varWords, steps, k);
    }
  }

  /** Alignments the caller asked for: of the whole template, or of any non-empty part of it when `partially`. */
  ghost predicate Candidate(pb: Problem, partially: bool, steps: seq<Step>) {
    && Fits(pb, steps) && EndOf(steps) == |pb.words| && TotalCost(steps) < INF
    && if partially then |steps| > 0 else |steps| == |pb.segments|
  }

  /** `best` is a cheapest candidate, and a shortest of those when `partially`. */
  ghost predicate Cheapest(pb: Problem, partially: bool, best: seq<Step>) {
    && Candidate(pb, partially, best)
    && forall steps | Candidate(pb, partially, steps) ::
      || TotalCost(best) < TotalCost(steps)
      || (TotalCost(best) == TotalCost(steps) && |best| <= |steps|)
  }

  /** The column the alignment ends in. */
  method FinalColumn(pb: Problem, dp: Distances, parent: Parents, partially: bool) returns (column: Option<nat>)
    requires Solved(pb.Edges(), |pb.words|, |pb.segments|, dp, parent)
    ensures column.Some? ==> column.value <= |pb.segments| && dp[|pb.words|, column.value] < INF
    ensures column.Some? ==> (if partially then 1 <= column.value else column.value == |pb.segments|)
    ensures partially && column.Some? ==> forall s: nat | 1 <= s <= |pb.segments| ::
      && dp[|pb.words|, column.value] <= dp[|pb.words|, s]
      && (s < column.value ==> dp[|pb.words|, column.value] < dp[|pb.words|, s])
    ensures partially && column.None? ==> forall s: nat | 1 <= s <= |pb.segments| :: INF <= dp[|pb.words|, s]
    ensures !partially && column.None? ==> INF <= dp[|pb.words|, |pb.segments|]
  {
    var n, m := |pb.words|, |pb.segments|;
    if !partially {
      return if dp[n, m] >= INF then None else Some(m);
    }
    column := None;
    for s := 1 to m + 1
      invariant column.Some? ==> 1 <= column.value < s && dp[n, column.value] < INF
      invariant column.Some? ==> forall t: nat | 1 <= t < s ::
        dp[n, column.value] <= dp[n, t] && (t < column.value ==> dp[n, column.value] < dp[n, t])
      invariant column.None? ==> forall t: nat | 1 <= t < s :: INF <= dp[n, t]
    {
      if dp[n, s] < INF && (column.None? || dp[n, s] < dp[n, column.value]) {
        column := Some(s);
      }
    }
  }

  lemma FinalColumnIsCheapest(pb: Problem, dp: Distances, parent: Parents, partially: bool, best: seq<Step>)
    requires Solved(pb.Edges(), |pb.words|, |pb.segments|, dp, parent)
    requires Candidate(pb, partially, best) && TotalCost(best) == dp[|pb.words|, |best|]
    requires partially ==> forall s: nat | 1 <= s <= |pb.segments| ::
      && dp[|pb.words|, |best|] <= dp[|pb.words|, s]
      && (s < |best| ==> dp[|pb.words|, |best|] < dp[|pb.words|, s])
    ensures Cheapest(pb, partially, best)
  {
    forall steps | Candidate(pb, partially, steps)
      ensures TotalCost(best) < TotalCost(steps) || (TotalCost(best) == TotalCost(steps) && |best| <= |steps|)
    {
      CellIsLowerBound(pb.Edges(), |pb.words|, |pb.segments|, dp, parent, steps);
      assert partially ==> 1 <= |steps| <= |pb.segments|;
    }
  }

  /** Of the cheapest alignments of its length, `best` is the one whose last segments reach back furthest. */
  ghost predicate ReachesBackFurthest(pb: Problem, partially: bool, best: seq<Step>) {
    forall steps | Cheapest(pb, partially, steps) && |steps| == |best| :: ReachesBack(best, steps)
  }

  /** What is read off the cheapest alignment `best`: nothing when it is over budget or its values are refused. */
  ghost predicate IsMatch(
      pb: Problem, policy: Policy, budget: nat, partially: bool, best: seq<Step>, result: Option<MatchResult>)
  {
    && Cheapest(pb, partially, best) && ReachesBackFurthest(pb, partially, best) && Cuts(pb, best)
    && var values := Values(pb, policy, best, |best|);
       result == if TotalCost(best) <= budget && (partially || policy.accepts(pb.segments, values))
                 then Some(MatchResult(values, TotalCost(best), Coverage(pb, best)))
                 else None
  }

  lemma TraceIsFurthest(pb: Problem, dp: Distances, parent: Parents, partially: bool, best: seq<Step>)
    requires Solved(pb.Edges(), |pb.words|, |pb.segments|, dp, parent)
    requires Cheapest(pb, partially, best) && |best| <= |pb.segments| && dp[|pb.words|, |best|] < INF
    requires best == Trace(pb.Edges(), |pb.words|, |pb.segments|, dp, parent, |pb.words|, |best|)
    ensures ReachesBackFurthest(pb, partially, best)
  {
    forall steps | Cheapest(pb, partially, steps) && |steps| == |best| ensures ReachesBack(best, steps) {
      TraceReachesBack(pb.Edges(), |pb.words|, |pb.segments|, dp, parent, |pb.words|, |best|, steps);
    }
  }

  /** Two alignments that each reach back as far as the other cut the words alike. */
  lemma {:induction false} ReachingBackIsUnique(a: seq<Step>, b: seq<Step>)
    requires |a| == |b| && ReachesBack(a, b) && ReachesBack(b, a) && EndOf(a) == EndOf(b)
    ensures forall k | 0 <= k <= |a| :: StartOf(a, k) == StartOf(b, k)
  {
    if a != [] {
      var last := |a| - 1;
      assert forall k: nat | k <= last ::
        StartOf(a, k) == StartOf(a[..last], k) && StartOf(b, k) == StartOf(b[..last], k);
      ReachingBackIsUnique(a[..last], b[..last]);
    }
  }

  /**
   Aligns the words with the template. A match is a cheapest alignment within the budget, the one whose last segments
   reach back furthest, read off the table's parent pointers; there is none when no alignment is within the budget,
   or when the values of the one alignment traced back are refused.
   */
  method TryAlign(pb: Problem, policy: Policy, budget: nat, partially: bool) returns (result: Option<MatchResult>)
    requires pb.Valid()
    ensures (exists steps :: Candidate(pb, partially, steps)) ==>
      exists best :: IsMatch(pb, policy, budget, partially, best, result)
    ensures (forall steps :: !Candidate(pb, partially, steps)) ==> result.None?
    ensures result.Some? ==> result.value.score <= budget && 0.0 <= result.value.coverage <= 1.0
  {
    var dp, parent := FillTable(pb);
    var column := FinalColumn(pb, dp, parent, partially);
    if column.None? {
      forall steps ensures !Candidate(pb, partially, steps) {
        if Candidate(pb, partially, steps) {
          CellIsLowerBound(pb.Edges(), |pb.words|, |pb.segments|, dp, parent, steps);
        }
      }
      return None;
    }
    var cost := dp[|pb.words|, column.value];
    ghost var steps := Trace(pb.Edges(), |pb.words|, |pb.segments|, dp, parent, |pb.words|, column.value);
    FitsCuts(pb, steps);
    FinalColumnIsCheapest(pb, dp, parent, partially, steps);
    TraceIsFurthest(pb, dp, parent, partially, steps);
    if cost > budget {
      assert IsMatch(pb, policy, budget, partially, steps, None);
      return None;
    }
    var hops := WalkBack(|pb.words|, |pb.segments|, parent, |pb.words|, column.value, steps);
    var values, varWords := ReadHops(pb, policy, hops, steps);
    if !partially && !policy.accepts(pb.segments, values) {
      assert IsMatch(pb, policy, budget, partially, steps, None);
      return None;
    }
    var coverage := if |pb.words| == 0 then 1.0 else (|pb.words| - varWords) as real / |pb.words| as real;
    result := Some(MatchResult(values, cost, coverage));
    assert IsMatch(pb, policy, budget, partially, steps, result);
    CoverageIsAShare(pb, steps);
  }
}
