/** Template tokens, their grouping into segments, and the costs a segment may charge for a span of words. */
module Template {

  datatype VarCategory =
    | PokemonName | MoveName | ItemName | AbilityName | StatName
    | TypeName | TrainerClass | TrainerName | Number | FreeText

  datatype Token =
    | Literal(word: string)
    | VarToken(category: VarCategory, placeholder: string)
    | EnumToken(choices: seq<string>, placeholder: string)

  datatype Segment =
    | Phrase(words: seq<string>)
    | VarSlot(category: VarCategory, placeholder: string)
    | EnumSlot(choices: seq<string>, placeholder: string)
  {
    /** The tokens this segment was built from. */
    function Tokens(): seq<Token> {
      match this
      case Phrase(words) => seq(|words|, i requires 0 <= i < |words| => Literal(words[i]))
      case VarSlot(category, placeholder) => [VarToken(category, placeholder)]
      case EnumSlot(choices, placeholder) => [EnumToken(choices, placeholder)]
    }

    predicate Valid() {
      match this
      case Phrase(words) => words != []
      case VarSlot(_, _) => true
      case EnumSlot(choices, _) => choices != []
    }
  }

  function Flatten(segments: seq<Segment>): seq<Token> {
    if segments == [] then [] else Flatten(segments[..|segments| - 1]) + segments[|segments| - 1].Tokens()
  }

  predicate ValidToken(t: Token) {
    t.EnumToken? ==> t.choices != []
  }

  /** No two phrases touch, so every phrase is as long as it can be. */
  predicate PhrasesMaximal(segments: seq<Segment>) {
    forall k | 0 < k < |segments| :: !(segments[k - 1].Phrase? && segments[k].Phrase?)
  }

  /** A well-formed grouping: phrases are maximal and no segment is empty. */
  predicate Grouped(segments: seq<Segment>) {
    PhrasesMaximal(segments) && forall s | s in segments :: s.Valid()
  }

  predicate EndsInPhrase(segments: seq<Segment>) {
    segments != [] && segments[|segments| - 1].Phrase?
  }

  lemma AppendSegment(segments: seq<Segment>, segment: Segment)
    requires Grouped(segments) && segment.Valid() && !(EndsInPhrase(segments) && segment.Phrase?)
    ensures Grouped(segments + [segment]) && EndsInPhrase(segments + [segment]) == segment.Phrase?
    ensures Flatten(segments + [segment]) == Flatten(segments) + segment.Tokens()
  {
    assert (segments + [segment])[..|segments|] == segments;
  }

  /** The end of the run of literals starting at `i`, and their words. */
  method ReadPhrase(tokens: seq<Token>, i: nat) returns (words: seq<string>, j: nat)
    requires i < |tokens| && tokens[i].Literal?
    ensures i < j <= |tokens|
    ensures Phrase(words).Tokens() == tokens[i..j] && words != []
    ensures j < |tokens| ==> !tokens[j].Literal?
  {
    words, j := [], i;
    while j < |tokens| && tokens[j].Literal?
      invariant i <= j <= |tokens| && |words| == j - i
      invariant forall k | 0 <= k < |words| :: tokens[i + k] == Literal(words[k])
    {
      words := words + [tokens[j].word];
      j := j + 1;
    }
  }

  /** The segment starting at token `i`, and the token after it. */
  method NextSegment(tokens: seq<Token>, i: nat) returns (segment: Segment, next: nat)
    requires i < |tokens| && ValidToken(tokens[i])
    ensures i < next <= |tokens| && segment.Tokens() == tokens[i..next]
    ensures segment.Valid() && segment.Phrase? == tokens[i].Literal?
    ensures segment.Phrase? && next < |tokens| ==> !tokens[next].Literal?
  {
    assert tokens[i..i + 1] == [tokens[i]];
    match tokens[i] {
      case VarToken(category, placeholder) => segment, next := VarSlot(category, placeholder), i + 1;
      case EnumToken(choices, placeholder) => segment, next := EnumSlot(choices, placeholder), i + 1;
      case Literal(_) =>
        var words;
        words, next := ReadPhrase(tokens, i);
        segment := Phrase(words);
    }
  }

  /** Groups consecutive literals into phrases; a variable or an enum is a segment of its own. */
  method BuildSegments(tokens: seq<Token>) returns (segments: seq<Segment>)
    requires forall t | t in tokens :: ValidToken(t)
    ensures Flatten(segments) == tokens
    ensures Grouped(segments)
  {
    segments := [];
    var i := 0;
    while i < |tokens|
      invariant 0 <= i <= |tokens|
      invariant Flatten(segments) == tokens[..i]
      invariant Grouped(segments) && (EndsInPhrase(segments) && i < |tokens| ==> !tokens[i].Literal?)
    {
      assert tokens[i] in tokens;
      var segment, next := NextSegment(tokens, i);
      AppendSegment(segments, segment);
      assert tokens[..next] == tokens[..i] + tokens[i..next];
      segments := segments + [segment];
      i := next;
    }
  }
}
