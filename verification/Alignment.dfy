/**
 Aligning the words of a screen capture with the segments of a template.

 The costs a segment may charge for a span of words, and the dynamic program that fills the table with them.
 A segmentation cuts the word list into one span per segment; `Table` shows that a completed table holds least
 costs over segmentations.
 */
module Alignment {
  import opened Common
  import opened Text
  import opened Template
  import opened Table

  /** Edit distance, case folding and the species table are inputs. */
  datatype Lexicon = Lexicon(distance: (string, string) -> nat, lower: string -> string, validName: string -> bool)
  {
    function Cost(span: string, text: string): nat {
      distance(lower(span), lower(text))
    }
  }

  /** The longest choice, in words. */
  function WordLimit(choices: seq<string>): nat {
    if choices == [] then 0
    else
      var rest, here := WordLimit(choices[1..]), |Split(choices[0])|;
      if rest < here then here else rest
  }

  lemma WordLimitCovers(choices: seq<string>, k: nat)
    requires k < |choices|
    ensures |Split(choices[k])| <= WordLimit(choices)
  {
    if k > 0 {
      WordLimitCovers(choices[1..], k - 1);
    }
  }

  /** Some choice is as long. */
  lemma WordLimitIsLongest(choices: seq<string>) returns (k: nat)
    requires choices != []
    ensures k < |choices| && |Split(choices[k])| == WordLimit(choices)
  {
    if |choices| == 1 || WordLimit(choices[1..]) < |Split(choices[0])| {
      k := 0;
    } else {
      k := WordLimitIsLongest(choices[1..]);
      k := k + 1;
    }
  }

  /** The first of the choices at the least distance from a span. */
  function Closest(lexicon: Lexicon, span: string, choices: seq<string>): (k: nat)
    requires choices != []
    ensures k < |choices|
    ensures forall j | 0 <= j < |choices| :: lexicon.Cost(span, choices[k]) <= lexicon.Cost(span, choices[j])
    ensures forall j | 0 <= j < k :: lexicon.Cost(span, choices[k]) < lexicon.Cost(span, choices[j])
  {
    if |choices| == 1 then 0
    else
      var init := choices[..|choices| - 1];
      var best := Closest(lexicon, span, init);
      if lexicon.Cost(span, choices[|choices| - 1]) < lexicon.Cost(span, init[best]) then |choices| - 1 else best
  }

  /** One alignment problem: a capture against a template. */
  datatype Problem = Problem(lexicon: Lexicon, words: seq<string>, segments: seq<Segment>)
  {
    ghost predicate Valid() {
      forall k | 0 <= k < |segments| :: segments[k].Valid()
    }

    function Span(i: nat, end: nat): string
      requires i <= end <= |words|
    {
      Join(words[i..end])
    }

    /** The word before `i` already carries the phrase's leading apostrophe token. */
    predicate FusedAt(phrase: seq<string>, i: nat)
      requires i <= |words| && phrase != []
    {
      var suffix := phrase[0];
      StartsWith(suffix, "'") && 0 < i &&
      EndsWith(lexicon.lower(words[i - 1]), lexicon.lower(suffix)) &&
      var base := DropLast(words[i - 1], |suffix|);
      3 <= |base| && lexicon.validName(base)
    }

    /** A variable takes any number of words for free. */
    predicate VarEdge(i: nat, end: nat, c: int) {
      i < end <= |words| && c == 0
    }

    /** An enum takes at most its longest choice's words, at the distance of the nearest choice. */
    ghost predicate EnumEdge(choices: seq<string>, i: nat, end: nat, c: int) {
      && i < end <= |words| && end <= i + WordLimit(choices)
      && (exists k :: 0 <= k < |choices| && c == lexicon.Cost(Span(i, end), choices[k]))
      && (forall k | 0 <= k < |choices| :: c <= lexicon.Cost(Span(i, end), choices[k]))
    }

    /** A phrase takes one to `|phrase| + 1` words. */
    predicate PhraseEdge(phrase: seq<string>, i: nat, end: nat, c: int) {
      i < end <= |words| && end <= i + |phrase| + 1 && c == lexicon.Cost(Span(i, end), Join(phrase))
    }

    /** A phrase whose apostrophe token was read with the word before takes only its other words. */
    predicate FusedEdge(phrase: seq<string>, i: nat, end: nat, c: int) {
      && phrase != [] && i <= end <= |words| && FusedAt(phrase, i)
      && if |phrase| == 1 then end == i && c == 0
         else i < end <= i + |phrase| - 1 && c == lexicon.Cost(Span(i, end), Join(phrase[1..]))
    }

    ghost predicate Edge(s: nat, i: nat, end: nat, c: int) {
      s < |segments| &&
      match segments[s]
      case VarSlot(_, _) => VarEdge(i, end, c)
      case EnumSlot(choices, _) => EnumEdge(choices, i, end, c)
      case Phrase(phrase) => PhraseEdge(phrase, i, end, c) || FusedEdge(phrase, i, end, c)
    }

    ghost function Edges(): Edges {
      (s: nat, i: nat, end: nat, c: int) => Edge(s, i, end, c)
    }
  }

  // ---------------------------------------------------------------------------
  // Filling the table
  // ---------------------------------------------------------------------------

  /** The table is being filled from cell `(i, s)`, which is finite. */
  ghost predicate Filling(pb: Problem, dp: Distances, parent: Parents, i: nat, s: nat)
    reads dp, parent
  {
    && Shaped(|pb.words|, |pb.segments|, dp, parent) && i <= |pb.words| && s < |pb.segments|
    && Sound(pb.Edges(), |pb.words|, |pb.segments|, dp, parent, i, s + 1)
    && Offered(pb.Edges(), |pb.words|, |pb.segments|, dp, parent, i, s) && 0 <= dp[i, s] < INF
  }

  method OfferVar(pb: Problem, dp: Distances, parent: Parents, i: nat, s: nat)
    requires Filling(pb, dp, parent, i, s) && pb.segments[s].VarSlot?
    modifies dp, parent
    ensures Filling(pb, dp, parent, i, s) && Lowered(dp, i, s)
    ensures forall end: nat, c: int | pb.VarEdge(i, end, c) :: dp[end, s + 1] <= dp[i, s] + c
  {
    for end := i + 1 to |pb.words| + 1
      invariant Filling(pb, dp, parent, i, s) && Lowered(dp, i, s)
      invariant forall e: nat, c: int | pb.VarEdge(i, e, c) && e < end :: dp[e, s + 1] <= dp[i, s] + c
    {
      assert pb.Edges()(s, i, end, 0);
      Offer(pb.Edges(), |pb.words|, |pb.segments|, dp, parent, i, s, end, 0);
    }
  }

  method OfferEnum(pb: Problem, dp: Distances, parent: Parents, i: nat, s: nat)
    requires Filling(pb, dp, parent, i, s) && pb.segments[s].EnumSlot? && pb.segments[s].choices != []
    modifies dp, parent
    ensures Filling(pb, dp, parent, i, s) && Lowered(dp, i, s)
    ensures forall end: nat, c: int | pb.EnumEdge(pb.segments[s].choices, i, end, c) :: dp[end, s + 1] <= dp[i, s] + c
  {
    var choices := pb.segments[s].choices;
    var end := i + 1;
    while end < i + WordLimit(choices) + 1 && end < |pb.words| + 1
      invariant i < end && Filling(pb, dp, parent, i, s) && Lowered(dp, i, s)
      invariant forall e: nat, c: int | pb.EnumEdge(choices, i, e, c) && e < end :: dp[e, s + 1] <= dp[i, s] + c
    {
      var k := Closest(pb.lexicon, pb.Span(i, end), choices);
      var c := pb.lexicon.Cost(pb.Span(i, end), choices[k]);
      assert pb.EnumEdge(choices, i, end, c);
      assert pb.Edges()(s, i, end, c);
      Offer(pb.Edges(), |pb.words|, |pb.segments|, dp, parent, i, s, end, c);
      end := end + 1;
    }
  }

  /** Offers every span of 1 to `limit` words at its distance from `text`. */
  method OfferText(pb: Problem, dp: Distances, parent: Parents, i: nat, s: nat, limit: nat, text: string)
    requires Filling(pb, dp, parent, i, s)
    requires forall end: nat | i < end <= |pb.words| && end <= i + limit ::
      pb.Edge(s, i, end, pb.lexicon.Cost(pb.Span(i, end), text))
    modifies dp, parent
    ensures Filling(pb, dp, parent, i, s) && Lowered(dp, i, s)
    ensures forall end: nat | i < end <= |pb.words| && end <= i + limit ::
      dp[end, s + 1] <= dp[i, s] + pb.lexicon.Cost(pb.Span(i, end), text)
  {
    for k := 1 to limit + 1
      invariant Filling(pb, dp, parent, i, s) && Lowered(dp, i, s)
      invariant forall end: nat | i < end <= |pb.words| && end < i + k ::
        dp[end, s + 1] <= dp[i, s] + pb.lexicon.Cost(pb.Span(i, end), text)
    {
      var end := i + k;
      if end > |pb.words| { break; }
      var c := pb.lexicon.Cost(pb.Span(i, end), text);
      assert pb.Edges()(s, i, end, c);
      Offer(pb.Edges(), |pb.words|, |pb.segments|, dp, parent, i, s, end, c);
    }
  }

  method OfferPhrase(pb: Problem, dp: Distances, parent: Parents, i: nat, s: nat)
    requires Filling(pb, dp, parent, i, s) && pb.segments[s].Phrase? && pb.segments[s].words != []
    modifies dp, parent
    ensures Filling(pb, dp, parent, i, s) && Lowered(dp, i, s)
    ensures forall end: nat, c: int | pb.Edge(s, i, end, c) :: dp[end, s + 1] <= dp[i, s] + c
  {
    var phrase := pb.segments[s].words;
    OfferText(pb, dp, parent, i, s, |phrase| + 1, Join(phrase));
    if pb.FusedAt(phrase, i) {
      if |phrase| > 1 {
        OfferText(pb, dp, parent, i, s, |phrase| - 1, Join(phrase[1..]));
      } else {
        assert pb.Edges()(s, i, i, 0);
        Offer(pb.Edges(), |pb.words|, |pb.segments|, dp, parent, i, s, i, 0);
      }
    }
  }

  /** Offers every edge out of cell `(i, s)`. */
  method OfferAll(pb: Problem, dp: Distances, parent: Parents, i: nat, s: nat)
    requires pb.Valid() && Filling(pb, dp, parent, i, s)
    modifies dp, parent
    ensures Filling(pb, dp, parent, i, s) && Lowered(dp, i, s)
    ensures Relaxed(pb.Edges(), |pb.words|, |pb.segments|, dp, i, s)
  {
    assert pb.segments[s].Valid();
    match pb.segments[s] {
      case VarSlot(_, _) => OfferVar(pb, dp, parent, i, s);
      case EnumSlot(_, _) => OfferEnum(pb, dp, parent, i, s);
      case Phrase(_) => OfferPhrase(pb, dp, parent, i, s);
    }
  }

  /** The cells before `(i, s)` have been visited. */
  ghost predicate Visited(pb: Problem, dp: Distances, parent: Parents, i: nat, s: nat)
    reads dp, parent
  {
    && Shaped(|pb.words|, |pb.segments|, dp, parent)
    && Sound(pb.Edges(), |pb.words|, |pb.segments|, dp, parent, i, s)
    && Offered(pb.Edges(), |pb.words|, |pb.segments|, dp, parent, i, s)
  }

  method VisitCell(pb: Problem, dp: Distances, parent: Parents, i: nat, s: nat)
    requires pb.Valid() && Visited(pb, dp, parent, i, s) && i <= |pb.words| && s <= |pb.segments|
    modifies dp, parent
    ensures Visited(pb, dp, parent, i, s + 1)
  {
    SoundLater(pb.Edges(), |pb.words|, |pb.segments|, dp, parent, i, s, i, s + 1);
    assert CellSound(pb.Edges(), dp, parent, i, s + 1, i, s);
    if dp[i, s] != INF && s != |pb.segments| {
      OfferAll(pb, dp, parent, i, s);
      forall p: nat, q: nat | p <= |pb.words| && q < |pb.segments| && Before(p, q, i, s + 1)
        ensures Relaxed(pb.Edges(), |pb.words|, |pb.segments|, dp, p, q)
      {
        assert Before(p, q, i, s) || (p == i && q == s);
      }
    }
  }

  /** A row is done when all its cells are. */
  lemma RowDone(pb: Problem, dp: Distances, parent: Parents, i: nat)
    requires Visited(pb, dp, parent, i, |pb.segments| + 1)
    ensures Visited(pb, dp, parent, i + 1, 0)
  {
    SoundLater(pb.Edges(), |pb.words|, |pb.segments|, dp, parent, i, |pb.segments| + 1, i + 1, 0);
  }

  /** Only the origin is reached at first. */
  method NewTable(pb: Problem) returns (dp: Distances, parent: Parents)
    ensures fresh(dp) && fresh(parent) && Visited(pb, dp, parent, 0, 0)
  {
    var n, m := |pb.words|, |pb.segments|;
    dp := new int[n + 1, m + 1]((_, _) => INF);
    parent := new Option<(nat, nat)>[n + 1, m + 1]((_, _) => None);
    dp[0, 0] := 0;
  }

  /** Visits every cell in order, offering its edges. */
  method FillTable(pb: Problem) returns (dp: Distances, parent: Parents)
    requires pb.Valid()
    ensures fresh(dp) && fresh(parent)
    ensures Solved(pb.Edges(), |pb.words|, |pb.segments|, dp, parent)
  {
    dp, parent := NewTable(pb);
    for i := 0 to |pb.words| + 1
      invariant Visited(pb, dp, parent, i, 0)
    {
      for s := 0 to |pb.segments| + 1
        invariant Visited(pb, dp, parent, i, s)
      {
        VisitCell(pb, dp, parent, i, s);
      }
      RowDone(pb, dp, parent, i);
    }
  }
}
