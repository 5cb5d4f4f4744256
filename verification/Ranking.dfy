/** Choosing among the templates that align with a capture. */
module Ranking {
  import opened Common

  /** What ranking looks at in an alignment. */
  datatype Aligned = Aligned(score: nat, contextScore: nat, coverage: real)

  /** A template's literal and enum counts, and its alignment if it has one. */
  datatype Entry = Entry(literals: nat, enums: nat, aligned: Option<Aligned>)

  /** A template that aligned. */
  datatype Aligner = Aligner(literals: nat, alignment: Aligned)

  const MIN_LITERAL_COVERAGE: real := 0.30

  /** The templates that align, in order; those made of variables only are never considered. */
  function Aligners(entries: seq<Entry>, n: nat): seq<Aligner>
    requires n <= |entries|
  {
    if n == 0 then []
    else
      var e := entries[n - 1];
      Aligners(entries, n - 1) +
      if (e.literals > 0 || e.enums > 0) && e.aligned.Some? then [Aligner(e.literals, e.aligned.value)] else []
  }

  /** Lower cost, then more literals, then lower context penalty. */
  predicate Better(a: Aligner, b: Aligner) {
    var x, y := a.alignment, b.alignment;
    || x.score < y.score
    || (x.score == y.score && a.literals > b.literals)
    || (x.score == y.score && a.literals == b.literals && x.contextScore < y.contextScore)
  }

  /** The usual ranking, or, `byCoverage`, higher coverage first. */
  predicate Beats(byCoverage: bool, a: Aligner, b: Aligner) {
    var x, y := a.alignment.coverage, b.alignment.coverage;
    if byCoverage then x > y || (x == y && Better(a, b)) else Better(a, b)
  }

  /** `k` is the first that no other beats. */
  predicate IsBest(list: seq<Aligner>, byCoverage: bool, k: nat) {
    && k < |list|
    && (forall j | 0 <= j < |list| :: !Beats(byCoverage, list[j], list[k]))
    && (forall j | 0 <= j < k :: Beats(byCoverage, list[k], list[j]))
  }

  /** A later aligner takes over exactly when it beats the best so far. */
  lemma BestSoFar(list: seq<Aligner>, byCoverage: bool, k: nat, next: Aligner)
    requires IsBest(list, byCoverage, k)
    ensures IsBest(list + [next], byCoverage, if Beats(byCoverage, next, list[k]) then |list| else k)
  {
    var all := list + [next];
    assert forall j | 0 <= j < |list| :: all[j] == list[j];
  }

  /** The source's single pass, which also collects the aligners it saw. */
  method RankOnce(entries: seq<Entry>) returns (best: Option<Aligner>, results: seq<Aligner>, ghost at: nat)
    ensures results == Aligners(entries, |entries|)
    ensures if best.None? then results == [] else IsBest(results, false, at) && results[at] == best.value
  {
    best, results, at := None, [], 0;
    for i := 0 to |entries|
      invariant results == Aligners(entries, i)
      invariant if best.None? then results == [] else IsBest(results, false, at) && results[at] == best.value
    {
      var e := entries[i];
      if (e.literals == 0 && e.enums == 0) || e.aligned.None? { continue; }
      var r := e.aligned.value;
      ghost var before := results;
      results := results + [Aligner(e.literals, r)];
      if best.None? {
        best, at := Some(Aligner(e.literals, r)), 0;
      } else {
        BestSoFar(before, false, at, Aligner(e.literals, r));
        var b := best.value;
        if r.score < b.alignment.score {
          best, at := Some(Aligner(e.literals, r)), |before|;
        } else if r.score == b.alignment.score && e.literals > b.literals {
          best, at := Some(Aligner(e.literals, r)), |before|;
        } else if r.score == b.alignment.score && e.literals == b.literals &&
            r.contextScore < b.alignment.contextScore {
          best, at := Some(Aligner(e.literals, r)), |before|;
        }
      }
    }
  }

  /** `max` over the aligners by coverage, ties by the usual ranking; the first of equals. */
  method MostCovering(results: seq<Aligner>) returns (at: nat)
    requires results != []
    ensures IsBest(results, true, at)
  {
    at := 0;
    for i := 1 to |results|
      invariant IsBest(results[..i], true, at)
    {
      BestSoFar(results[..i], true, at, results[i]);
      assert results[..i + 1] == results[..i] + [results[i]];
      if Beats(true, results[i], results[at]) {
        at := i;
      }
    }
    assert results[..|results|] == results;
  }

  /**
   The match chosen among the templates: the first best-ranked one, or, when its literals and enums explain too
   little of the capture, the first that explains the most; never one that explains less than the winner does.
   */
  method TryFullMatch(entries: seq<Entry>) returns (choice: Option<Aligner>, ghost winner: nat, ghost at: nat)
    ensures choice.None? <==> Aligners(entries, |entries|) == []
    ensures choice.Some? ==>
      var list := Aligners(entries, |entries|);
      && IsBest(list, false, winner)
      && IsBest(list, list[winner].alignment.coverage < MIN_LITERAL_COVERAGE, at) && choice.value == list[at]
      && choice.value.alignment.coverage >= list[winner].alignment.coverage
  {
    var results;
    choice, results, winner := RankOnce(entries);
    at := winner;
    if choice.Some? && choice.value.alignment.coverage < MIN_LITERAL_COVERAGE {
      var covering := MostCovering(results);
      assert !Beats(true, results[winner], results[covering]);
      choice, at := Some(results[covering]), covering;
    }
  }

  // ---------------------------------------------------------------------------
  // The order, as keys
  // ---------------------------------------------------------------------------

  /** What is compared in turn, the least first. */
  function Keys(a: Aligner): seq<int> {
    [a.alignment.score as int, -(a.literals as int), a.alignment.contextScore as int]
  }

  /** Comparing in turn: the first difference decides. */
  predicate Before(x: seq<int>, y: seq<int>)
    requires |x| == |y|
  {
    x != [] && (x[0] < y[0] || (x[0] == y[0] && Before(x[1..], y[1..])))
  }

  lemma KeysDecide(a: Aligner, b: Aligner)
    ensures Better(a, b) <==> Before(Keys(a), Keys(b))
  {
    var x, y := Keys(a), Keys(b);
    assert x[1..] == [x[1], x[2]] && y[1..] == [y[1], y[2]];
    assert [x[1], x[2]][1..] == [x[2]] && [y[1], y[2]][1..] == [y[2]];
    assert Before([x[2]], [y[2]]) <==> x[2] < y[2];
  }

  /** The winner's keys come before those of every aligner listed before it, and after those of none. */
  lemma WinnerHasLeastKeys(list: seq<Aligner>, k: nat)
    ensures IsBest(list, false, k) <==>
      && k < |list|
      && (forall j | 0 <= j < |list| :: !Before(Keys(list[j]), Keys(list[k])))
      && forall j | 0 <= j < k :: Before(Keys(list[k]), Keys(list[j]))
  {
    forall a, b ensures Better(a, b) <==> Before(Keys(a), Keys(b)) {
      KeysDecide(a, b);
    }
  }

  /** Below the threshold the choice covers most, and has the least keys of those that cover as much. */
  lemma FallbackCoversMost(list: seq<Aligner>, k: nat)
    ensures IsBest(list, true, k) <==>
      && k < |list|
      && (forall j | 0 <= j < |list| :: list[j].alignment.coverage <= list[k].alignment.coverage)
      && (forall j | 0 <= j < |list| && list[j].alignment.coverage == list[k].alignment.coverage ::
        !Before(Keys(list[j]), Keys(list[k])) && (j < k ==> Before(Keys(list[k]), Keys(list[j]))))
  {
    forall a, b ensures Better(a, b) <==> Before(Keys(a), Keys(b)) {
      KeysDecide(a, b);
    }
  }

  /** Exactly the templates with a literal or an enum that align take part. */
  lemma {:induction false} TakesPartIff(entries: seq<Entry>, n: nat, a: Aligner)
    requires n <= |entries|
    ensures a in Aligners(entries, n) <==>
      exists i :: 0 <= i < n && entries[i].literals + entries[i].enums > 0 && entries[i].literals == a.literals &&
        entries[i].aligned == Some(a.alignment)
  {
    if n > 0 {
      TakesPartIff(entries, n - 1, a);
    }
  }
}
