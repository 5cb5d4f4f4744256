/**
 Turning a stream of screen captures into messages. The game types a message out character by character, so a
 capture is final only when the next text does not continue it.
 */
module Finaliser {
  import opened Common
  import opened Text
  import opened Rendering

  datatype ScreenKind = OptionSelect | MoveSelect | PartyMenu

  /** A capture and the constraints in force when it was taken. */
  datatype Frame<C> = Frame(words: seq<string>, constraints: Option<C>)
  {
    function Raw(): string {
      Join(words)
    }
  }

  /** What a call hands back; `UnknownMessage` is the source's exception. */
  datatype Reply<M> = Nothing | Signal(kind: ScreenKind) | Matched(result: M) | UnknownMessage(words: seq<string>)

  type Detector = seq<string> -> Option<ScreenKind>

  predicate Continues<C>(next: Frame<C>, pending: Frame<C>) {
    StartsWith(next.Raw(), pending.Raw())
  }

  predicate IsText<C>(detect: Detector, frame: Frame<C>) {
    frame.words != [] && detect(frame.words).None?
  }

  /** The capture that becomes final when `frame` arrives. */
  function Finalised<C>(detect: Detector, pending: Option<Frame<C>>, frame: Frame<C>): seq<Frame<C>> {
    if IsText(detect, frame) && pending.Some? && !Continues(frame, pending.value) then [pending.value] else []
  }

  function NextPending<C>(detect: Detector, pending: Option<Frame<C>>, frame: Frame<C>): Option<Frame<C>> {
    if IsText(detect, frame) then Some(frame) else pending
  }

  /** The reply for a frame that has become final. */
  function ReplyFor<C, M>(finalize: (seq<string>, Option<C>) -> Option<M>, frame: Frame<C>): Reply<M> {
    var words := Clean(frame.words);
    match finalize(words, frame.constraints)
    case Some(m) => Matched(m)
    case None => UnknownMessage(words)
  }

  /** A menu is signalled, a capture that becomes final is answered for, and there is nothing to say otherwise. */
  predicate IsReply<C, M(==)>(
      detect: Detector, finalize: (seq<string>, Option<C>) -> Option<M>, pending: Option<Frame<C>>, frame: Frame<C>,
      reply: Reply<M>)
  {
    var final := Finalised(detect, pending, frame);
    reply ==
    if frame.words != [] && detect(frame.words).Some? then Signal(detect(frame.words).value)
    else if final != [] then ReplyFor(finalize, final[0])
    else Nothing
  }

  class BattleMessageMatcher<C, M> {
    const detect: Detector
    const finalize: (seq<string>, Option<C>) -> Option<M>
    var pendingWords: Option<seq<string>>
    var pendingRaw: Option<string>
    var pendingConstraints: Option<C>

    /** The three pending fields describe one frame, or are all empty. */
    predicate Valid()
      reads this
    {
      match pendingWords
      case None => pendingRaw.None? && pendingConstraints.None?
      case Some(words) => pendingRaw == Some(Join(words))
    }

    function Pending(): Option<Frame<C>>
      reads this
    {
      match pendingWords
      case None => None
      case Some(words) => Some(Frame(words, pendingConstraints))
    }

    constructor (detect: Detector, finalize: (seq<string>, Option<C>) -> Option<M>)
      ensures Valid() && Pending() == None && this.detect == detect && this.finalize == finalize
    {
      this.detect, this.finalize := detect, finalize;
      pendingWords, pendingRaw, pendingConstraints := None, None, None;
    }

    method Process(words: seq<string>, constraints: Option<C>) returns (reply: Reply<M>)
      requires Valid()
      modifies this
      ensures Valid() && Pending() == NextPending(detect, old(Pending()), Frame(words, constraints))
      ensures IsReply(detect, finalize, old(Pending()), Frame(words, constraints), reply)
    {
      if words == [] {
        return Nothing;
      }
      var screen := detect(words);
      if screen.Some? {
        return Signal(screen.value);
      }
      var currentRaw := Join(words);
      if pendingRaw.None? {
        pendingWords, pendingRaw, pendingConstraints := Some(words), Some(currentRaw), constraints;
        return Nothing;
      }
      if StartsWith(currentRaw, pendingRaw.value) {
        pendingWords, pendingRaw, pendingConstraints := Some(words), Some(currentRaw), constraints;
        return Nothing;
      }
      var oldWords, oldConstraints := pendingWords.value, pendingConstraints;
      pendingWords, pendingRaw, pendingConstraints := Some(words), Some(currentRaw), constraints;
      reply := Finalize(oldWords, oldConstraints);
    }

    method Flush() returns (reply: Reply<M>)
      requires Valid()
      modifies this
      ensures Valid() && Pending() == None
      ensures reply == if old(Pending()).None? then Nothing else ReplyFor(finalize, old(Pending()).value)
    {
      if pendingWords.None? {
        return Nothing;
      }
      var words, constraints := pendingWords.value, pendingConstraints;
      pendingWords, pendingRaw, pendingConstraints := None, None, None;
      reply := Finalize(words, constraints);
    }

    method Reset()
      modifies this
      ensures Valid() && Pending() == None
    {
      pendingWords, pendingRaw, pendingConstraints := None, None, None;
    }

    method Finalize(words: seq<string>, constraints: Option<C>) returns (reply: Reply<M>)
      ensures reply == ReplyFor(finalize, Frame(words, constraints))
    {
      var cleaned := PreprocessOcr(words);
      var result := finalize(cleaned, constraints);
      reply := if result.Some? then Matched(result.value) else UnknownMessage(cleaned);
    }
  }

  // ---------------------------------------------------------------------------
  // Whole runs
  // ---------------------------------------------------------------------------

  /** The frames finalised by feeding `frames` to a matcher and flushing it at the end. */
  function Outputs<C>(detect: Detector, pending: Option<Frame<C>>, frames: seq<Frame<C>>): seq<Frame<C>>
    decreases |frames|
  {
    if frames == [] then (if pending.None? then [] else [pending.value])
    else Finalised(detect, pending, frames[0]) + Outputs(detect, NextPending(detect, pending, frames[0]), frames[1..])
  }

  function TextFrames<C>(detect: Detector, frames: seq<Frame<C>>): seq<Frame<C>> {
    if frames == [] then []
    else (if IsText(detect, frames[0]) then [frames[0]] else []) + TextFrames(detect, frames[1..])
  }

  /** The frames of a text stream that the frame after them does not continue. */
  function Ends<C>(texts: seq<Frame<C>>): seq<Frame<C>> {
    if texts == [] then []
    else (if |texts| > 1 && Continues(texts[1], texts[0]) then [] else [texts[0]]) + Ends(texts[1..])
  }

  /** Blank captures and menus leave no trace, and each text is put out once, when the next one breaks from it. */
  lemma {:induction false} OutputsAreEnds<C>(detect: Detector, pending: Option<Frame<C>>, frames: seq<Frame<C>>)
    ensures Outputs(detect, pending, frames) ==
            Ends((if pending.None? then [] else [pending.value]) + TextFrames(detect, frames))
    decreases |frames|
  {
    var before := if pending.None? then [] else [pending.value];
    if frames == [] {
      assert before + TextFrames(detect, frames) == before;
    } else {
      var rest := TextFrames(detect, frames[1..]);
      OutputsAreEnds(detect, NextPending(detect, pending, frames[0]), frames[1..]);
      if IsText(detect, frames[0]) {
        assert TextFrames(detect, frames) == [frames[0]] + rest;
        assert (before + TextFrames(detect, frames))[|before|..] == [frames[0]] + rest;
        assert before + TextFrames(detect, frames) == before + ([frames[0]] + rest);
        assert pending.Some? ==> (before + TextFrames(detect, frames))[1..] == [frames[0]] + rest;
        assert pending.None? ==> before + TextFrames(detect, frames) == [frames[0]] + rest;
      } else {
        assert TextFrames(detect, frames) == rest;
      }
    }
  }

  function Replies<C, M>(finalize: (seq<string>, Option<C>) -> Option<M>, finals: seq<Frame<C>>): seq<Reply<M>> {
    seq(|finals|, i requires 0 <= i < |finals| => ReplyFor(finalize, finals[i]))
  }

  /** The replies still to come, and how one frame takes its own off them. */
  lemma OneMoreFrame<C, M>(
      detect: Detector, finalize: (seq<string>, Option<C>) -> Option<M>, pending: Option<Frame<C>>,
      frames: seq<Frame<C>>, i: nat)
    requires i < |frames|
    ensures Replies(finalize, Outputs(detect, pending, frames[i..])) ==
            Replies(finalize, Finalised(detect, pending, frames[i])) +
            Replies(finalize, Outputs(detect, NextPending(detect, pending, frames[i]), frames[i + 1..]))
  {
    assert frames[i..][1..] == frames[i + 1..];
  }

  /** What a call says about messages: menus and silence are no message. */
  function MessagesIn<M>(reply: Reply<M>): seq<Reply<M>> {
    if reply.Nothing? || reply.Signal? then [] else [reply]
  }

  /**
   Feeds a whole stream and flushes at the end: the messages reported, known or not, are those of exactly the texts
   that the next text does not continue, in order and once each.
   */
  method FeedAll<C, M>(matcher: BattleMessageMatcher<C, M>, frames: seq<Frame<C>>) returns (messages: seq<Reply<M>>)
    requires matcher.Valid()
    modifies matcher
    ensures matcher.Valid() && matcher.Pending() == None
    ensures
      var pending := old(matcher.Pending());
      messages == Replies(matcher.finalize,
                    Ends((if pending.None? then [] else [pending.value]) + TextFrames(matcher.detect, frames)))
  {
    messages := [];
    ghost var all := Replies(matcher.finalize, Outputs(matcher.detect, matcher.Pending(), frames));
    OutputsAreEnds(matcher.detect, matcher.Pending(), frames);
    assert frames[0..] == frames;
    for i := 0 to |frames|
      invariant matcher.Valid()
      invariant StillToCome(matcher, messages, frames, i, all)
    {
      var reply := FeedOne(matcher, messages, frames, i, all);
      messages := messages + MessagesIn(reply);
    }
    var last := matcher.Flush();
    messages := messages + MessagesIn(last);
  }

  /** A call reports exactly the capture that has become final. */
  lemma ReplyReportsFinal<C, M>(
      detect: Detector, finalize: (seq<string>, Option<C>) -> Option<M>, pending: Option<Frame<C>>, frame: Frame<C>,
      reply: Reply<M>)
    requires IsReply(detect, finalize, pending, frame, reply)
    ensures MessagesIn(reply) == Replies(finalize, Finalised(detect, pending, frame))
  {
  }

  /** What was reported and what the rest of the stream will report. */
  ghost predicate StillToCome<C, M>(
      matcher: BattleMessageMatcher<C, M>, messages: seq<Reply<M>>, frames: seq<Frame<C>>, i: nat, all: seq<Reply<M>>)
    requires i <= |frames|
    reads matcher
  {
    all == messages + Replies(matcher.finalize, Outputs(matcher.detect, matcher.Pending(), frames[i..]))
  }

  method FeedOne<C, M>(
      matcher: BattleMessageMatcher<C, M>, ghost messages: seq<Reply<M>>, frames: seq<Frame<C>>, i: nat,
      ghost all: seq<Reply<M>>)
    returns (reply: Reply<M>)
    requires matcher.Valid() && i < |frames| && StillToCome(matcher, messages, frames, i, all)
    modifies matcher
    ensures matcher.Valid() && StillToCome(matcher, messages + MessagesIn(reply), frames, i + 1, all)
  {
    ghost var pending := matcher.Pending();
    OneMoreFrame(matcher.detect, matcher.finalize, pending, frames, i);
    reply := matcher.Process(frames[i].words, frames[i].constraints);
    ReplyReportsFinal(matcher.detect, matcher.finalize, pending, frames[i], reply);
    Reassociate(messages, MessagesIn(reply), Replies(matcher.finalize, Outputs(matcher.detect, matcher.Pending(),
        frames[i + 1..])));
  }

  /** One message as it is typed out: each capture continues the one before. */
  predicate Typed<C>(message: seq<Frame<C>>) {
    message != [] && forall k | 0 < k < |message| :: Continues(message[k], message[k - 1])
  }

  function Stream<C>(messages: seq<seq<Frame<C>>>): seq<Frame<C>> {
    if messages == [] then [] else messages[0] + Stream(messages[1..])
  }

  /** The last capture of each message: the message as sent. */
  function Sent<C>(messages: seq<seq<Frame<C>>>): seq<Frame<C>>
    requires forall m | m in messages :: Typed(m)
  {
    if messages == [] then []
    else
      assert messages[0] in messages;
      assert Typed(messages[0]);
      [messages[0][|messages[0]| - 1]] + Sent(messages[1..])
  }

  /** The next message's first capture looks like more of this one. */
  predicate RunsOn<C>(messages: seq<seq<Frame<C>>>, j: nat)
    requires j + 1 < |messages|
  {
    messages[j] != [] && messages[j + 1] != [] && Continues(messages[j + 1][0], messages[j][|messages[j]| - 1])
  }

  predicate NoneRunsOn<C>(messages: seq<seq<Frame<C>>>) {
    forall j: nat | j + 1 < |messages| :: !RunsOn(messages, j)
  }

  /** A typed message in front of a stream puts out its last capture unless the stream runs on from it. */
  lemma {:induction false} EndsOfTyped<C>(message: seq<Frame<C>>, rest: seq<Frame<C>>)
    requires Typed(message)
    ensures
      var last := message[|message| - 1];
      Ends(message + rest) == (if rest != [] && Continues(rest[0], last) then [] else [last]) + Ends(rest)
    decreases |message|
  {
    var all := message + rest;
    assert all[1..] == message[1..] + rest;
    if |message| == 1 {
      assert all[1..] == rest;
    } else {
      assert Continues(message[1], message[0]) && all[1] == message[1];
      assert Typed(message[1..]);
      EndsOfTyped(message[1..], rest);
    }
  }

  lemma {:induction false} AtMostOneEach<C>(messages: seq<seq<Frame<C>>>)
    requires forall m | m in messages :: Typed(m)
    ensures |Ends(Stream(messages))| <= |messages|
    ensures |Ends(Stream(messages))| == |messages| <==> NoneRunsOn(messages)
    ensures |Ends(Stream(messages))| == |messages| ==> Ends(Stream(messages)) == Sent(messages)
    decreases |messages|
  {
    if messages != [] {
      assert messages[0] in messages;
      var rest := messages[1..];
      AtMostOneEach(rest);
      EndsOfTyped(messages[0], Stream(rest));
      assert rest != [] ==> rest[0] in messages && Stream(rest) != [] && Stream(rest)[0] == rest[0][0];
      assert forall m | m in rest :: m in messages;
      assert forall j: nat | j + 1 < |rest| :: RunsOn(messages, j + 1) == RunsOn(rest, j);
      assert NoneRunsOn(messages) <==> (NoneRunsOn(rest) && (rest != [] ==> !RunsOn(messages, 0))) by {
        assert forall j: nat | 0 < j && j + 1 < |messages| :: RunsOn(messages, j) == RunsOn(rest, j - 1);
      }
    }
  }

  /** Typed messages come out exactly as sent if and only if no message runs on into the next one. */
  lemma MessagesComeOutAsSent<C>(detect: Detector, messages: seq<seq<Frame<C>>>)
    requires forall m | m in messages :: Typed(m)
    requires forall f | f in Stream(messages) :: IsText(detect, f)
    ensures Outputs(detect, None, Stream(messages)) == Sent(messages) <==> NoneRunsOn(messages)
  {
    OutputsAreEnds<C>(detect, None, Stream(messages));
    AllText(detect, Stream(messages));
    assert [] + Stream(messages) == Stream(messages);
    AtMostOneEach(messages);
    SentLength(messages);
  }

  const SHORT: seq<string> := ["Go"]
  const LONGER: seq<string> := ["Go", "on"]

  /** A message that is lost: the next one, in a single capture, looks like more of it. */
  lemma RunOnMessageIsLost<C>(detect: Detector, constraints: Option<C>)
    requires detect(SHORT).None? && detect(LONGER).None?
    ensures
      var first, second := Frame(SHORT, constraints), Frame(LONGER, constraints);
      && Typed([first]) && Typed([second])
      && Outputs(detect, None, Stream([[first], [second]])) == [second]
  {
    var first, second := Frame(SHORT, constraints), Frame(LONGER, constraints);
    assert LONGER[1..] == ["on"] && Join(["on"]) == "on";
    assert first.Raw() == "Go" && second.Raw() == "Go" + " " + "on";
    var messages := [[first], [second]];
    assert messages[1..] == [[second]] && [[second]][1..] == [];
    assert Stream([[second]]) == [second] + Stream<C>([]) == [second];
    assert Stream(messages) == [first] + [second] == [first, second];
    assert [first, second][1..] == [second] && [second][1..] == [];
    assert Continues(second, first) by { assert second.Raw()[..2] == "Go"; }
    assert Outputs(detect, Some(second), []) == [second];
    assert Outputs(detect, Some(first), [second]) == [second];
  }

  lemma SentLength<C>(messages: seq<seq<Frame<C>>>)
    requires forall m | m in messages :: Typed(m)
    ensures |Sent(messages)| == |messages|
  {
  }

  lemma {:induction false} AllText<C>(detect: Detector, frames: seq<Frame<C>>)
    requires forall f | f in frames :: IsText(detect, f)
    ensures TextFrames(detect, frames) == frames
  {
    if frames != [] {
      AllText(detect, frames[1..]);
    }
  }

  // ---------------------------------------------------------------------------
  // Streams as the player sees them
  // ---------------------------------------------------------------------------

  /** A capture without words or of a menu might as well not have been taken. */
  lemma {:induction false} BlankOrMenuLeavesNoTrace<C>(
      detect: Detector, pending: Option<Frame<C>>, before: seq<Frame<C>>, frame: Frame<C>, after: seq<Frame<C>>)
    requires frame.words == [] || detect(frame.words).Some?
    ensures Outputs(detect, pending, before + [frame] + after) == Outputs(detect, pending, before + after)
    decreases |before|
  {
    if before == [] {
      assert [] + [frame] + after == [frame] + after && ([frame] + after)[1..] == after && [] + after == after;
    } else {
      assert (before + [frame] + after)[1..] == before[1..] + [frame] + after;
      assert (before + after)[1..] == before[1..] + after;
      BlankOrMenuLeavesNoTrace(detect, NextPending(detect, pending, before[0]), before[1..], frame, after);
    }
  }

  /** The second text begins with all of the first. */
  predicate Grows(short: string, long: string) {
    |short| <= |long| && forall i | 0 <= i < |short| :: long[i] == short[i]
  }

  /** A message is typed out when every capture shows the text of the one before, and perhaps more. */
  lemma TypedGrows<C>(message: seq<Frame<C>>)
    ensures Typed(message) <==>
      && message != []
      && forall k | 0 < k < |message| :: Grows(Join(message[k - 1].words), Join(message[k].words))
  {
    forall k | 0 < k < |message|
      ensures Continues(message[k], message[k - 1]) <==> Grows(Join(message[k - 1].words), Join(message[k].words))
    {
      var short, long := Join(message[k - 1].words), Join(message[k].words);
      assert Grows(short, long) ==> long[..|short|] == short;
    }
  }

  /**
   Typed messages of which none runs on are answered one by one: the last capture of each is cleaned and matched under
   the constraints it was taken with, or reported unknown.
   */
  lemma EachMessageIsAnswered<C, M>(
      detect: Detector, finalize: (seq<string>, Option<C>) -> Option<M>, messages: seq<seq<Frame<C>>>, j: nat)
    requires (forall m | m in messages :: Typed(m)) && NoneRunsOn(messages) && j < |messages|
    requires forall f | f in Stream(messages) :: f.words != [] && detect(f.words).None?
    ensures
      var replies := Replies(finalize, Outputs(detect, None, Stream(messages)));
      && |replies| == |messages| && messages[j] != []
      && var last := messages[j][|messages[j]| - 1];
         var found := finalize(Clean(last.words), last.constraints);
         replies[j] == if found.Some? then Matched(found.value) else UnknownMessage(Clean(last.words))
  {
    MessagesComeOutAsSent(detect, messages);
    assert messages[j] in messages;
    SentAt(messages, j);
  }

  lemma {:induction false} SentAt<C>(messages: seq<seq<Frame<C>>>, j: nat)
    requires (forall m | m in messages :: Typed(m)) && j < |messages|
    ensures |Sent(messages)| == |messages| && messages[j] != [] && Sent(messages)[j] == messages[j][|messages[j]| - 1]
  {
    SentLength(messages);
    assert messages[j] in messages;
    if j > 0 {
      SentAt(messages[1..], j - 1);
    }
  }
}
