/**
 Exact renderings of a template. A capture that reads exactly as the game printed the message is cleaned up
 into the words the template was built from, and aligns at cost zero.
 */
module Rendering {
  import opened Text
  import opened Template
  import opened Table
  import opened Alignment
  import opened Matching

  // ---------------------------------------------------------------------------
  // Cleaning words
  // ---------------------------------------------------------------------------

  const ELLIPSIS: char := '\U{2026}'

  /** `w.replace(c, "")`. */
  function Without(w: string, c: char): string {
    if w == "" then "" else (if w[0] == c then "" else [w[0]]) + Without(w[1..], c)
  }

  function LeadingDots(w: string): (n: nat)
    ensures n <= |w|
  {
    if w != "" && w[0] == '.' then 1 + LeadingDots(w[1..]) else 0
  }

  /** Removes every run of two or more dots. */
  function WithoutDotRuns(w: string): string
    decreases |w|
  {
    var n := LeadingDots(w);
    if w == "" then ""
    else if 2 <= n then WithoutDotRuns(w[n..])
    else [w[0]] + WithoutDotRuns(w[1..])
  }

  /** A word without its ellipses, and with a final exclamation mark split off. */
  function CleanWord(w: string): seq<string> {
    var bare := WithoutDotRuns(Without(w, ELLIPSIS));
    if bare == "" then []
    else if 1 < |bare| && bare[|bare| - 1] == '!' then [bare[..|bare| - 1], "!"]
    else [bare]
  }

  function Clean(words: seq<string>): seq<string> {
    if words == [] then [] else Clean(words[..|words| - 1]) + CleanWord(words[|words| - 1])
  }

  function Words(tokens: seq<Token>): seq<string>
    requires forall t | t in tokens :: t.Literal?
  {
    seq(|tokens|, i requires 0 <= i < |tokens| => assert tokens[i] in tokens; tokens[i].word)
  }

  method PreprocessOcr(words: seq<string>) returns (result: seq<string>)
    ensures result == Clean(words)
  {
    result := [];
    for i := 0 to |words|
      invariant result == Clean(words[..i])
    {
      assert words[..i + 1][..i] == words[..i];
      var w := WithoutDotRuns(Without(words[i], ELLIPSIS));
      if w == "" { continue; }
      if 1 < |w| && w[|w| - 1] == '!' {
        result := result + [w[..|w| - 1]];
        result := result + ["!"];
      } else {
        result := result + [w];
      }
    }
    assert words[..|words|] == words;
  }

  /** Tokenising a literal phrase gives the words that cleaning its rendering gives. */
  method LiteralWordTokens(phrase: string) returns (tokens: seq<Token>)
    ensures forall t | t in tokens :: t.Literal?
    ensures Words(tokens) == Clean(Split(phrase))
  {
    tokens := [];
    var words := Split(phrase);
    for i := 0 to |words|
      invariant forall t | t in tokens :: t.Literal?
      invariant Words(tokens) == Clean(words[..i])
    {
      assert words[..i + 1][..i] == words[..i];
      var w := WithoutDotRuns(Without(words[i], ELLIPSIS));
      if w == "" { continue; }
      if 1 < |w| && w[|w| - 1] == '!' {
        tokens := tokens + [Literal(w[..|w| - 1])];
        tokens := tokens + [Literal("!")];
      } else {
        tokens := tokens + [Literal(w)];
      }
    }
    assert words[..|words|] == words;
  }

  lemma CleanOneMore(init: seq<string>, last: string)
    ensures Clean(init + [last]) == Clean(init) + CleanWord(last)
  {
    assert (init + [last])[..|init|] == init;
  }

  lemma Reassociate<T>(a: seq<T>, b: seq<T>, c: seq<T>)
    ensures (a + b) + c == a + (b + c)
  {
  }

  lemma CleanStep(a: seq<string>, init: seq<string>, last: string)
    requires Clean(a + init) == Clean(a) + Clean(init)
    ensures Clean(a + (init + [last])) == Clean(a) + Clean(init + [last])
  {
    Reassociate(a, init, [last]);
    CleanOneMore(a + init, last);
    CleanOneMore(init, last);
    Reassociate(Clean(a), Clean(init), CleanWord(last));
  }

  /** Cleaning works word by word, so a rendering may be cleaned piece by piece. */
  lemma {:induction false} CleanAppend(a: seq<string>, b: seq<string>)
    ensures Clean(a + b) == Clean(a) + Clean(b)
    decreases |b|
  {
    if b == [] {
      assert a + b == a;
    } else {
      var init, last := b[..|b| - 1], b[|b| - 1];
      assert b == init + [last];
      CleanAppend(a, init);
      CleanStep(a, init, last);
    }
  }

  // ---------------------------------------------------------------------------
  // What cleaning takes away
  // ---------------------------------------------------------------------------

  /** No ellipsis, and no two dots running. */
  predicate Tidy(w: string) {
    forall i | 0 <= i < |w| :: w[i] != ELLIPSIS && (0 < i ==> w[i - 1] != '.' || w[i] != '.')
  }

  /** All but dots and ellipses. */
  function Letters(w: string): string {
    if w == "" then "" else (if w[0] == '.' || w[0] == ELLIPSIS then "" else [w[0]]) + Letters(w[1..])
  }

  lemma FirstChar(c: char, rest: string)
    ensures Letters([c] + rest) == if c == '.' || c == ELLIPSIS then Letters(rest) else [c] + Letters(rest)
    ensures Tidy([c] + rest) <==> c != ELLIPSIS && (rest != "" && c == '.' ==> rest[0] != '.') && Tidy(rest)
  {
    var w := [c] + rest;
    assert w[1..] == rest && "" + Letters(rest) == Letters(rest);
    if Tidy(w) {
      forall i | 0 <= i < |rest| ensures rest[i] != ELLIPSIS && (0 < i ==> rest[i - 1] != '.' || rest[i] != '.') {
        assert w[i + 1] == rest[i];
      }
    }
  }

  lemma {:induction false} WithoutEllipsis(w: string)
    ensures Letters(Without(w, ELLIPSIS)) == Letters(w)
    ensures ELLIPSIS !in Without(w, ELLIPSIS)
    ensures Tidy(w) ==> Without(w, ELLIPSIS) == w
  {
    if w != "" {
      WithoutEllipsis(w[1..]);
      assert w == [w[0]] + w[1..];
      FirstChar(w[0], w[1..]);
      var rest := Without(w[1..], ELLIPSIS);
      FirstChar(w[0], rest);
      assert "" + rest == rest;
    }
  }

  lemma {:induction false} LeadingDotsAreDots(w: string)
    ensures Letters(w[LeadingDots(w)..]) == Letters(w)
    ensures LeadingDots(w) < |w| ==> w[LeadingDots(w)] != '.'
    ensures LeadingDots(w) > 1 ==> w[0] == '.' && w[1] == '.'
  {
    if w != "" && w[0] == '.' {
      LeadingDotsAreDots(w[1..]);
      assert w[LeadingDots(w)..] == w[1..][LeadingDots(w[1..])..];
    }
  }

  lemma {:induction false} WithoutRuns(w: string)
    requires ELLIPSIS !in w
    ensures Letters(WithoutDotRuns(w)) == Letters(w) && Tidy(WithoutDotRuns(w))
    ensures Tidy(w) ==> WithoutDotRuns(w) == w
    ensures w != "" && w[0] != '.' ==> WithoutDotRuns(w) != "" && WithoutDotRuns(w)[0] == w[0]
    decreases |w|
  {
    LeadingDotsAreDots(w);
    var n := LeadingDots(w);
    if 2 <= n {
      WithoutRuns(w[n..]);
    } else if w != "" {
      var rest := w[1..];
      WithoutRuns(rest);
      assert w == [w[0]] + rest && w[0] in w;
      FirstChar(w[0], rest);
      FirstChar(w[0], WithoutDotRuns(rest));
      assert w[0] == '.' && rest != "" ==> rest[0] != '.';
    }
  }

  function Concat(words: seq<string>): string {
    if words == [] then "" else words[0] + Concat(words[1..])
  }

  /** A word without its ellipses and runs of dots, and nothing else. */
  predicate IsBare(w: string, bare: string) {
    Tidy(bare) && Letters(bare) == Letters(w) && (Tidy(w) ==> bare == w)
  }

  /**
   Cleaning a word takes away its ellipses and runs of dots and nothing else, and comes to at most two words that are
   not empty: two exactly when something is left before a final exclamation mark, which is then the second.
   */
  lemma CleanedWord(w: string)
    ensures
      var words := CleanWord(w);
      var bare := Concat(words);
      && IsBare(w, bare) && |words| <= 2 && "" !in words
      && (|words| == 2 <==> |bare| > 1 && bare[|bare| - 1] == '!') && (|words| == 2 ==> words[1] == "!")
  {
    var bare := WithoutDotRuns(Without(w, ELLIPSIS));
    assert IsBare(w, bare) by {
      WithoutEllipsis(w);
      WithoutRuns(Without(w, ELLIPSIS));
    }
    var words := CleanWord(w);
    assert Concat(words) == bare by {
      assert words != [] ==> Concat(words) == words[0] + Concat(words[1..]);
      assert |words| == 2 ==> words[1..] == ["!"] && ["!"][1..] == [] && Concat(["!"]) == "!";
      assert |words| == 1 ==> words[1..] == [];
    }
  }

  // ---------------------------------------------------------------------------
  // Exact renderings
  // ---------------------------------------------------------------------------

  /** What a segment was rendered as. A fused phrase left its apostrophe token on the word before it. */
  datatype Filling = Captures(words: seq<string>) | Chooses(choice: nat) | Prints | Fused

  function Rendered(segment: Segment, filling: Filling): seq<string> {
    match (segment, filling)
    case (VarSlot(_, _), Captures(words)) => words
    case (EnumSlot(choices, _), Chooses(k)) => if k < |choices| then Split(choices[k]) else []
    case (Phrase(words), Prints) => words
    case (Phrase(words), Fused) => if words == [] then [] else words[1..]
    case _ => []
  }

  /** The rendering of the first `t` segments. */
  function RenderAll(segments: seq<Segment>, fillings: seq<Filling>, t: nat): seq<string>
    requires t <= |segments| && t <= |fillings|
  {
    if t == 0 then [] else RenderAll(segments, fillings, t - 1) + Rendered(segments[t - 1], fillings[t - 1])
  }

  /** Filling `k` suits segment `k` of the problem, whose rendering starts at word `i`. */
  predicate Suits(pb: Problem, k: nat, filling: Filling, i: nat)
    requires k < |pb.segments| && i <= |pb.words|
  {
    match (pb.segments[k], filling)
    case (VarSlot(_, _), Captures(words)) => words != []
    case (EnumSlot(choices, _), Chooses(j)) => j < |choices| && choices[j] != "" &&
        Join(Split(choices[j])) == choices[j]
    case (Phrase(_), Prints) => true
    case (Phrase(words), Fused) => words != [] && pb.FusedAt(words, i)
    case _ => false
  }

  predicate SuitsAt(pb: Problem, fillings: seq<Filling>, k: nat)
    requires k < |fillings| && k < |pb.segments|
  {
    var i := |RenderAll(pb.segments, fillings, k)|;
    i <= |pb.words| && Suits(pb, k, fillings[k], i)
  }

  /** The capture is an exact rendering of the template. */
  predicate ExactRendering(pb: Problem, fillings: seq<Filling>) {
    && |fillings| == |pb.segments|
    && pb.words == RenderAll(pb.segments, fillings, |fillings|)
    && forall k | 0 <= k < |fillings| :: SuitsAt(pb, fillings, k)
  }

  function RenderedSteps(segments: seq<Segment>, fillings: seq<Filling>, t: nat): (steps: seq<Step>)
    requires t <= |segments| && t <= |fillings|
    ensures |steps| == t && TotalCost(steps) == 0
    ensures EndOf(steps) == |RenderAll(segments, fillings, t)|
  {
    if t == 0 then []
    else
      var init := RenderedSteps(segments, fillings, t - 1);
      var steps := init + [Step(|RenderAll(segments, fillings, t)|, 0)];
      assert steps[..t - 1] == init;
      steps
  }

  /** The only law of edit distance used: a text is at distance zero from itself. */
  ghost predicate ZeroOnEqual(lexicon: Lexicon) {
    forall x :: lexicon.distance(x, x) == 0
  }

  /** A span that reads as a segment was rendered is an edge of cost zero. */
  lemma RenderedEdge(pb: Problem, k: nat, filling: Filling, i: nat, end: nat)
    requires pb.Valid() && ZeroOnEqual(pb.lexicon) && k < |pb.segments| && i <= end <= |pb.words|
    requires pb.words[i..end] == Rendered(pb.segments[k], filling) && Suits(pb, k, filling, i)
    ensures pb.Edges()(k, i, end, 0)
  {
    assert pb.segments[k].Valid();
    match pb.segments[k] {
      case VarSlot(_, _) =>
      case Phrase(words) =>
        assert filling.Prints? ==> pb.PhraseEdge(words, i, end, 0);
        assert filling.Fused? ==> pb.FusedEdge(words, i, end, 0);
      case EnumSlot(choices, _) =>
        WordLimitCovers(choices, filling.choice);
        assert pb.Span(i, end) == choices[filling.choice];
        assert Split(choices[filling.choice]) != [];
        assert pb.EnumEdge(choices, i, end, 0);
    }
  }

  lemma RenderingPrefix(segments: seq<Segment>, fillings: seq<Filling>, t: nat)
    requires t <= |fillings| == |segments|
    ensures RenderAll(segments, fillings, t) <= RenderAll(segments, fillings, |fillings|)
    decreases |fillings| - t
  {
    if t < |fillings| {
      RenderingPrefix(segments, fillings, t + 1);
    }
  }

  /** Every rendered span is an edge of cost zero. */
  ghost predicate FreeEdge(edges: Edges, n: nat, segments: seq<Segment>, fillings: seq<Filling>, k: nat)
    requires k < |segments| && k < |fillings|
  {
    var i, end := |RenderAll(segments, fillings, k)|, |RenderAll(segments, fillings, k + 1)|;
    i <= end <= n && edges(k, i, end, 0)
  }

  lemma {:induction false} RenderedStepsFit(
      edges: Edges, n: nat, segments: seq<Segment>, fillings: seq<Filling>, t: nat)
    requires t <= |segments| == |fillings|
    requires forall k | 0 <= k < t :: FreeEdge(edges, n, segments, fillings, k)
    ensures Legal(edges, n, |segments|, RenderedSteps(segments, fillings, t))
  {
    if t > 0 {
      RenderedStepsFit(edges, n, segments, fillings, t - 1);
      assert FreeEdge(edges, n, segments, fillings, t - 1);
      var init := RenderedSteps(segments, fillings, t - 1);
      LegalLast(edges, n, |segments|, init, Step(|RenderAll(segments, fillings, t)|, 0));
    }
  }

  lemma RenderedSpan(pb: Problem, fillings: seq<Filling>, k: nat)
    requires ExactRendering(pb, fillings) && k < |fillings|
    ensures
      var i := |RenderAll(pb.segments, fillings, k)|;
      var end := |RenderAll(pb.segments, fillings, k + 1)|;
      i <= end <= |pb.words| && pb.words[i..end] == Rendered(pb.segments[k], fillings[k]) &&
          Suits(pb, k, fillings[k], i)
  {
    assert SuitsAt(pb, fillings, k);
    RenderingPrefix(pb.segments, fillings, k + 1);
    var done := RenderAll(pb.segments, fillings, k + 1);
    assert pb.words[..|done|] == done;
    assert done == RenderAll(pb.segments, fillings, k) + Rendered(pb.segments[k], fillings[k]);
  }

  /** An exact rendering aligns at cost zero, so the cheapest alignment of it costs nothing. */
  lemma ExactRenderingCostsNothing(pb: Problem, fillings: seq<Filling>)
    requires pb.Valid() && ExactRendering(pb, fillings)
    requires ZeroOnEqual(pb.lexicon)
    ensures exists steps :: Candidate(pb, false, steps)
    ensures forall best | Cheapest(pb, false, best) :: TotalCost(best) == 0
  {
    forall k | 0 <= k < |fillings| ensures FreeEdge(pb.Edges(), |pb.words|, pb.segments, fillings, k) {
      RenderedSpan(pb, fillings, k);
      RenderedEdge(pb, k, fillings[k], |RenderAll(pb.segments, fillings, k)|, |RenderAll(pb.segments, fillings,
          k + 1)|);
    }
    RenderedStepsFit(pb.Edges(), |pb.words|, pb.segments, fillings, |fillings|);
    var steps := RenderedSteps(pb.segments, fillings, |fillings|);
    assert Candidate(pb, false, steps);
  }

  // ---------------------------------------------------------------------------
  // From the printed message
  // ---------------------------------------------------------------------------

  lemma {:induction false} WithoutAppend(w: string, c: char, x: char)
    requires x != c
    ensures Without(w + [x], c) == Without(w, c) + [x]
  {
    if w != "" {
      assert (w + [x])[1..] == w[1..] + [x];
      WithoutAppend(w[1..], c, x);
    }
  }

  lemma {:induction false} LeadingDotsAppend(w: string)
    ensures LeadingDots(w + "!") == LeadingDots(w)
  {
    if w != "" {
      assert (w + "!")[1..] == w[1..] + "!";
      LeadingDotsAppend(w[1..]);
    }
  }

  lemma {:induction false} WithoutDotRunsAppend(w: string)
    ensures WithoutDotRuns(w + "!") == WithoutDotRuns(w) + "!"
    decreases |w|
  {
    LeadingDotsAppend(w);
    var n := LeadingDots(w);
    if w == "" {
      assert w + "!" == "!" && "!"[1..] == "";
    } else if 2 <= n {
      assert (w + "!")[n..] == w[n..] + "!";
      WithoutDotRunsAppend(w[n..]);
    } else {
      assert (w + "!")[1..] == w[1..] + "!";
      WithoutDotRunsAppend(w[1..]);
    }
  }

  /** An exclamation mark printed onto a word comes off it. */
  lemma GluedExclamation(w: string)
    requires |CleanWord(w)| <= 1
    ensures CleanWord(w + "!") == CleanWord(w) + ["!"]
  {
    WithoutAppend(w, ELLIPSIS, '!');
    WithoutDotRunsAppend(Without(w, ELLIPSIS));
    var bare := WithoutDotRuns(Without(w, ELLIPSIS));
    assert WithoutDotRuns(Without(w + "!", ELLIPSIS)) == bare + "!";
    assert (bare + "!")[..|bare|] == bare;
  }

  /** The words a segment is printed as; a glued piece continues the last word before it. */
  datatype Piece = Piece(raw: seq<string>, glued: bool)

  function Printed(pieces: seq<Piece>): seq<string> {
    if pieces == [] then []
    else
      var before, last := Printed(pieces[..|pieces| - 1]), pieces[|pieces| - 1];
      if last.glued && before != [] && last.raw != [] then
        before[..|before| - 1] + [before[|before| - 1] + last.raw[0]] + last.raw[1..]
      else before + last.raw
  }

  /** Only an exclamation mark is printed onto the word before it. */
  predicate GluesWell(before: seq<string>, piece: Piece) {
    piece.glued ==>
      before != [] && piece.raw != [] && piece.raw[0] == "!" && |CleanWord(before[|before| - 1])| <= 1
  }

  lemma CleanSingle(w: string)
    ensures Clean([w]) == CleanWord(w)
  {
    assert [w][..0] == [];
  }

  lemma CleanFirst(w: string, rest: seq<string>)
    ensures Clean([w] + rest) == CleanWord(w) + Clean(rest)
  {
    CleanAppend([w], rest);
    CleanSingle(w);
  }

  lemma Regroup<T>(a: seq<T>, b: seq<T>, c: seq<T>, d: seq<T>)
    ensures (a + (b + c)) + d == (a + b) + (c + d)
  {
  }

  lemma LoneExclamation()
    ensures CleanWord("!") == ["!"]
  {
    assert CleanWord("") == [] && "" + "!" == "!";
    GluedExclamation("");
  }

  lemma CleanGlued(init: seq<string>, w: string, rest: seq<string>)
    requires |CleanWord(w)| <= 1
    ensures Clean(init + [w + "!"] + rest) == Clean(init + [w]) + Clean(["!"] + rest)
  {
    CleanAppend(init + [w + "!"], rest);
    CleanOneMore(init, w + "!");
    GluedExclamation(w);
    CleanOneMore(init, w);
    LoneExclamation();
    CleanFirst("!", rest);
    Regroup(Clean(init), CleanWord(w), ["!"], Clean(rest));
  }

  /** The piece cleans to what the segment was rendered as, and joins the pieces before it well. */
  predicate PrintsAt(segments: seq<Segment>, fillings: seq<Filling>, pieces: seq<Piece>, k: nat)
    requires k < |segments| && k < |fillings| && k < |pieces|
  {
    Clean(pieces[k].raw) == Rendered(segments[k], fillings[k]) && GluesWell(Printed(pieces[..k]), pieces[k])
  }

  predicate Prints(segments: seq<Segment>, fillings: seq<Filling>, pieces: seq<Piece>) {
    |pieces| == |fillings| == |segments| && forall k | 0 <= k < |pieces| :: PrintsAt(segments, fillings, pieces, k)
  }

  /** One more piece is printed. */
  lemma PrintedStep(pieces: seq<Piece>, k: nat)
    requires k < |pieces| && GluesWell(Printed(pieces[..k]), pieces[k])
    ensures Clean(Printed(pieces[..k + 1])) == Clean(Printed(pieces[..k])) + Clean(pieces[k].raw)
  {
    var before, piece := Printed(pieces[..k]), pieces[k];
    assert pieces[..k + 1][..k] == pieces[..k];
    if piece.glued {
      var init, w, rest := before[..|before| - 1], before[|before| - 1], piece.raw[1..];
      assert before == init + [w] && piece.raw == ["!"] + rest;
      CleanGlued(init, w, rest);
    } else {
      CleanAppend(before, piece.raw);
    }
  }

  /** The printed message cleans to the words the template was built from, filled in. */
  lemma {:induction false} PrintedCleansToRendering(
      segments: seq<Segment>, fillings: seq<Filling>, pieces: seq<Piece>, t: nat)
    requires Prints(segments, fillings, pieces) && t <= |pieces|
    ensures Clean(Printed(pieces[..t])) == RenderAll(segments, fillings, t)
  {
    if t > 0 {
      PrintedCleansToRendering(segments, fillings, pieces, t - 1);
      assert PrintsAt(segments, fillings, pieces, t - 1);
      PrintedStep(pieces, t - 1);
    }
  }

  /**
   A message as the game prints it, with literal phrases as the template was parsed from them, variables and choices
   filled in and exclamation marks printed onto the word before, aligns at cost zero once it is cleaned.
   */
  lemma PrintedMessageCostsNothing(pb: Problem, fillings: seq<Filling>, pieces: seq<Piece>)
    requires pb.Valid() && ZeroOnEqual(pb.lexicon) && Prints(pb.segments, fillings, pieces)
    requires pb.words == Clean(Printed(pieces))
    requires forall k | 0 <= k < |fillings| :: SuitsAt(pb, fillings, k)
    ensures exists steps :: Candidate(pb, false, steps)
    ensures forall best | Cheapest(pb, false, best) :: TotalCost(best) == 0
  {
    PrintedCleansToRendering(pb.segments, fillings, pieces, |pieces|);
    assert pieces[..|pieces|] == pieces;
    ExactRenderingCostsNothing(pb, fillings);
  }
}
