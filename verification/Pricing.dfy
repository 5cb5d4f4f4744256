/**
 What an alignment costs, written out span by span. An alignment of the whole template that costs nothing reads every
 literal and every choice as it is, up to case, and there is one if and only if the capture can be read so.
 */
module Pricing {
  import opened Common
  import opened Text
  import opened Template
  import opened Table
  import opened Alignment
  import opened Matching

  // ---------------------------------------------------------------------------
  // What one segment charges
  // ---------------------------------------------------------------------------

  /** How far a span of words is from a text, both in lower case. */
  function Off(lexicon: Lexicon, span: seq<string>, text: string): nat {
    lexicon.distance(lexicon.lower(Join(span)), lexicon.lower(text))
  }

  /** The word before the phrase is a valid name with the phrase's leading apostrophe token read onto it. */
  ghost predicate Fuses(lexicon: Lexicon, phrase: seq<string>, before: seq<string>) {
    && phrase != [] && before != [] && phrase[0] != "" && phrase[0][0] == '\''
    && (exists name, tail ::
      before[|before| - 1] == name + tail && |tail| == |phrase[0]| && |name| >= 3 && lexicon.validName(name))
    && exists head :: lexicon.lower(before[|before| - 1]) == head + lexicon.lower(phrase[0])
  }

  /** No more words than the longest choice has. */
  predicate FitsChoice(choices: seq<string>, span: seq<string>) {
    span != [] && exists k :: 0 <= k < |choices| && |span| <= |Split(choices[k])|
  }

  /**
   A variable takes words for free, a choice is charged the distance of the nearest one, and a phrase its own distance,
   where one word may have been split; a fused phrase is charged its other words only.
   */
  ghost predicate Charges(lexicon: Lexicon, segment: Segment, before: seq<string>, span: seq<string>, cost: int) {
    match segment
    case VarSlot(_, _) => span != [] && cost == 0
    case EnumSlot(choices, _) =>
      && FitsChoice(choices, span)
      && (exists k :: 0 <= k < |choices| && cost == Off(lexicon, span, choices[k]))
      && (forall k | 0 <= k < |choices| :: cost <= Off(lexicon, span, choices[k]))
    case Phrase(phrase) =>
      || (1 <= |span| <= |phrase| + 1 && cost == Off(lexicon, span, Join(phrase)))
      || (Fuses(lexicon, phrase, before) &&
          if |phrase| == 1 then span == [] && cost == 0
          else 1 <= |span| <= |phrase| - 1 && cost == Off(lexicon, span, Join(phrase[1..])))
  }

  lemma FusedIffFuses(pb: Problem, phrase: seq<string>, i: nat)
    requires i <= |pb.words| && phrase != []
    ensures pb.FusedAt(phrase, i) <==> Fuses(pb.lexicon, phrase, pb.words[..i])
  {
    if 0 < i {
      var word, suffix := pb.words[i - 1], phrase[0];
      assert pb.words[..i][i - 1] == word;
      assert StartsWith(suffix, "'") <==> suffix != "" && suffix[0] == '\'';
      var folded, tail := pb.lexicon.lower(word), pb.lexicon.lower(suffix);
      if EndsWith(folded, tail) {
        assert folded == folded[..|folded| - |tail|] + tail;
      }
      if |suffix| <= |word| {
        assert word == word[..|word| - |suffix|] + word[|word| - |suffix|..];
      }
      forall name, rest | word == name + rest && |rest| == |suffix| ensures name == DropLast(word, |suffix|) {
      }
    }
  }

  lemma EnumEdgeCharges(pb: Problem, choices: seq<string>, i: nat, end: nat, c: int)
    requires i <= end <= |pb.words|
    ensures pb.EnumEdge(choices, i, end, c) <==>
      && FitsChoice(choices, pb.words[i..end])
      && (exists k :: 0 <= k < |choices| && c == Off(pb.lexicon, pb.words[i..end], choices[k]))
      && (forall k | 0 <= k < |choices| :: c <= Off(pb.lexicon, pb.words[i..end], choices[k]))
  {
    var span := pb.words[i..end];
    assert forall k | 0 <= k < |choices| ::
      pb.lexicon.Cost(pb.Span(i, end), choices[k]) == Off(pb.lexicon, span, choices[k]);
    if choices != [] {
      var longest := WordLimitIsLongest(choices);
      forall k | 0 <= k < |choices| ensures |Split(choices[k])| <= WordLimit(choices) {
        WordLimitCovers(choices, k);
      }
    }
  }

  /** The edges of the alignment graph are the charges. */
  lemma EdgeCharges(pb: Problem, s: nat, i: nat, end: nat, c: int)
    requires pb.Valid() && s < |pb.segments| && i <= end <= |pb.words|
    ensures pb.Edges()(s, i, end, c) <==> Charges(pb.lexicon, pb.segments[s], pb.words[..i], pb.words[i..end], c)
  {
    assert pb.segments[s].Valid();
    match pb.segments[s] {
      case VarSlot(_, _) =>
      case EnumSlot(choices, _) => EnumEdgeCharges(pb, choices, i, end, c);
      case Phrase(phrase) => FusedIffFuses(pb, phrase, i);
    }
  }

  // ---------------------------------------------------------------------------
  // Whole alignments
  // ---------------------------------------------------------------------------

  ghost predicate ChargesAt(pb: Problem, steps: seq<Step>, k: nat)
    requires Cuts(pb, steps) && k < |steps|
  {
    assert CutAt(pb, steps, k);
    Charges(pb.lexicon, pb.segments[k], pb.words[..StartOf(steps, k)], SpanWords(pb, steps, k), steps[k].cost)
  }

  /** A candidate covers the words without gap or overlap, and each of its steps costs what its span is charged. */
  lemma CandidateCharges(pb: Problem, partially: bool, steps: seq<Step>)
    requires pb.Valid()
    ensures Candidate(pb, partially, steps) <==>
      && Cuts(pb, steps) && EndOf(steps) == |pb.words| && TotalCost(steps) < INF
      && (if partially then |steps| > 0 else |steps| == |pb.segments|)
      && forall k | 0 <= k < |steps| :: ChargesAt(pb, steps, k)
  {
    if Fits(pb, steps) {
      FitsCuts(pb, steps);
    }
    if Cuts(pb, steps) {
      forall k | 0 <= k < |steps|
        ensures StepLegal(pb.Edges(), |pb.words|, steps, k) <==> ChargesAt(pb, steps, k)
      {
        assert CutAt(pb, steps, k);
        EdgeCharges(pb, k, StartOf(steps, k), steps[k].end, steps[k].cost);
      }
    }
  }

  // ---------------------------------------------------------------------------
  // Alignments that cost nothing
  // ---------------------------------------------------------------------------

  /** Only equal texts are at distance zero, as with edit distance. */
  ghost predicate TellsApart(lexicon: Lexicon) {
    forall x, y :: lexicon.distance(x, y) == 0 <==> x == y
  }

  /** The span reads as the text, up to case. */
  predicate ReadsAs(lexicon: Lexicon, span: seq<string>, text: string) {
    lexicon.lower(Join(span)) == lexicon.lower(text)
  }

  /** The span is printed as the segment says, up to case: a choice, the phrase, or the words of a fused phrase. */
  ghost predicate Reads(lexicon: Lexicon, segment: Segment, before: seq<string>, span: seq<string>) {
    match segment
    case VarSlot(_, _) => span != []
    case EnumSlot(choices, _) =>
      FitsChoice(choices, span) && exists k :: 0 <= k < |choices| && ReadsAs(lexicon, span, choices[k])
    case Phrase(phrase) =>
      || (1 <= |span| <= |phrase| + 1 && ReadsAs(lexicon, span, Join(phrase)))
      || (Fuses(lexicon, phrase, before) &&
          if |phrase| == 1 then span == []
          else 1 <= |span| <= |phrase| - 1 && ReadsAs(lexicon, span, Join(phrase[1..])))
  }

  lemma FreeIsRead(lexicon: Lexicon, segment: Segment, before: seq<string>, span: seq<string>)
    requires TellsApart(lexicon)
    ensures Charges(lexicon, segment, before, span, 0) <==> Reads(lexicon, segment, before, span)
  {
    forall text ensures Off(lexicon, span, text) == 0 <==> ReadsAs(lexicon, span, text) {
    }
  }

  ghost predicate ReadsAt(pb: Problem, steps: seq<Step>, k: nat)
    requires Cuts(pb, steps) && k < |steps|
  {
    assert CutAt(pb, steps, k);
    Reads(pb.lexicon, pb.segments[k], pb.words[..StartOf(steps, k)], SpanWords(pb, steps, k))
  }

  /** The capture, cut in this way, reads as the template. */
  ghost predicate ReadsThrough(pb: Problem, steps: seq<Step>) {
    && Cuts(pb, steps) && |steps| == |pb.segments| && EndOf(steps) == |pb.words|
    && forall k | 0 <= k < |steps| :: ReadsAt(pb, steps, k)
  }

  lemma {:induction false} NothingInAll(steps: seq<Step>)
    ensures TotalCost(steps) == 0 <==> forall k | 0 <= k < |steps| :: steps[k].cost == 0
  {
    if steps != [] {
      NothingInAll(steps[..|steps| - 1]);
    }
  }

  /** A candidate that costs nothing reads as the template. */
  lemma FreeCandidateReads(pb: Problem, steps: seq<Step>)
    requires pb.Valid() && TellsApart(pb.lexicon) && Candidate(pb, false, steps) && TotalCost(steps) == 0
    ensures ReadsThrough(pb, steps)
  {
    CandidateCharges(pb, false, steps);
    NothingInAll(steps);
    forall k | 0 <= k < |steps| ensures ReadsAt(pb, steps, k) {
      assert CutAt(pb, steps, k) && ChargesAt(pb, steps, k);
      FreeIsRead(pb.lexicon, pb.segments[k], pb.words[..StartOf(steps, k)], SpanWords(pb, steps, k));
    }
  }

  function Free(steps: seq<Step>): seq<Step> {
    seq(|steps|, k requires 0 <= k < |steps| => Step(steps[k].end, 0))
  }

  lemma ReadIsCandidate(pb: Problem, steps: seq<Step>)
    requires pb.Valid() && TellsApart(pb.lexicon) && ReadsThrough(pb, steps)
    ensures Candidate(pb, false, Free(steps)) && TotalCost(Free(steps)) == 0
  {
    var free := Free(steps);
    forall k | 0 <= k < |steps| ensures CutAt(pb, free, k) {
      assert CutAt(pb, steps, k);
    }
    forall k | 0 <= k < |steps| ensures ChargesAt(pb, free, k) {
      assert CutAt(pb, steps, k) && ReadsAt(pb, steps, k);
      FreeIsRead(pb.lexicon, pb.segments[k], pb.words[..StartOf(steps, k)], SpanWords(pb, steps, k));
    }
    NothingInAll(free);
    CandidateCharges(pb, false, free);
  }

  /** Some alignment of the whole template costs nothing if and only if the capture can be read as the template. */
  lemma CostsNothingIff(pb: Problem)
    requires pb.Valid() && TellsApart(pb.lexicon)
    ensures (exists steps :: Candidate(pb, false, steps) && TotalCost(steps) == 0) <==>
            exists steps :: ReadsThrough(pb, steps)
  {
    if steps :| Candidate(pb, false, steps) && TotalCost(steps) == 0 {
      FreeCandidateReads(pb, steps);
    }
    if steps :| ReadsThrough(pb, steps) {
      ReadIsCandidate(pb, steps);
    }
  }

  /** Without a budget for edits a template matches only what reads as it. */
  lemma FreeMatchReads(pb: Problem, policy: Policy, best: seq<Step>, result: Option<MatchResult>)
    requires pb.Valid() && TellsApart(pb.lexicon)
    requires IsMatch(pb, policy, 0, false, best, result) && result.Some?
    ensures ReadsThrough(pb, best)
  {
    FreeCandidateReads(pb, best);
  }
}
