/**
 * The conversation engine: what one caller utterance does to a call's record
 * and which response it produces, with the language-model reply and the
 * outcome of speech synthesis as inputs.
 */
module Conversation {
  import opened Options
  import opened Agents
  import opened Directives
  import opened Sessions
  import opened Summary
  import opened Text

  /** Ends a reply when the agent hands over to the next one. */
  const NextMarker: string := "NEXT_AGENT"

  /** Ends a reply when the agent wants another answer. */
  const NeedMarker: string := "NEED_MORE_INFO"

  /** Spoken when no usable reply was generated; the call is then ended. */
  const GenerationApology: string := "We're experiencing technical difficulties. Please try again later."

  /**
   * What the language-model call produced: an error (network, quota, timeout),
   * a response without text (its text is `None`), or a text.
   */
  datatype Reply = GenerationFailed | NoText | Text(text: string)

  /** The scripted line spoken when `next` takes over. */
  function TransitionLine(next: Agent): string {
    "Thank you for that insight. Now, let's hear from our " + DisplayName(next) + ". What's your take on this idea?"
  }

  /** What the recorded response is: the reply with every `marker` removed, then stripped. */
  function Clean(text: string, marker: string): (r: string)
    requires marker != []
    ensures Trimmed(r) && |r| <= |text|
  {
    Strip(RemoveAll(text, marker))
  }

  /** The rule that ends an agent's part: the hand-over marker, or a second answered utterance. */
  predicate HandsOver(s: Session, text: string) {
    Contains(text, NextMarker) || s.questionCount + 1 >= 2
  }

  /** The last agent finishing: after this reply the interview is over. */
  predicate Finishes(s: Session, reply: Reply) {
    reply.Text? && HandsOver(s, reply.text) && Next(s.agent).None?
  }

  /** The record of the call after one utterance answered by `reply`. */
  function After(s: Session, utterance: string, reply: Reply): (r: Session)
    // The agent stays or moves to its successor, and only on a hand-over; the start data is untouched.
    ensures r.agent == s.agent || Next(s.agent) == Some(r.agent)
    ensures r.agent != s.agent <==> reply.Text? && HandsOver(s, reply.text) && Next(s.agent).Some?
    ensures r.meta == s.meta
    // The transcript only grows, by exactly one entry per generated text.
    ensures |r.history| == |s.history| + (if reply.Text? then 1 else 0)
    ensures r.history[..|s.history|] == s.history
    ensures reply.Text? ==>
              r.history[|s.history|]
                == Entry(s.agent, utterance,
                         Clean(reply.text, if HandsOver(s, reply.text) then NextMarker else NeedMarker))
    // The count: reset on a hand-over, otherwise one more for every utterance the model answered.
    ensures r.agent != s.agent ==> r.questionCount == 0
    ensures r.agent == s.agent ==>
              r.questionCount == s.questionCount + (if reply.GenerationFailed? then 0 else 1)
  {
    match reply
    case GenerationFailed => s
    case NoText =>
      // The count is raised before the missing text makes the marker test fail.
      s.(questionCount := s.questionCount + 1)
    case Text(t) =>
      if HandsOver(s, t) then
        var h := s.history + [Entry(s.agent, utterance, Clean(t, NextMarker))];
        match Next(s.agent)
        case Some(n) => s.(agent := n, questionCount := 0, history := h)
        case None => s.(questionCount := s.questionCount + 1, history := h)
      else
        s.(questionCount := s.questionCount + 1,
           history := s.history + [Entry(s.agent, utterance, Clean(t, NeedMarker))])
  }

  /** What the caller hears after one utterance, and in which agent's voice. */
  datatype Speech = Speech(text: string, voice: Agent)

  /** The line spoken in answer to one utterance. */
  function Spoken(s: Session, utterance: string, reply: Reply): (sp: Speech)
    ensures !reply.Text? ==> sp == Speech(GenerationApology, s.agent)
    // A hand-over: the next agent introduces itself; the outgoing agent's feedback is not spoken.
    ensures reply.Text? && HandsOver(s, reply.text) && Next(s.agent).Some? ==>
              sp == Speech(TransitionLine(Next(s.agent).value), Next(s.agent).value)
    // The end: the summary of the whole transcript, this turn's entry included.
    ensures Finishes(s, reply) ==> sp == Speech(FinalText(After(s, utterance, reply).history), s.agent)
    // Staying: the reply as recorded in the transcript.
    ensures reply.Text? && !HandsOver(s, reply.text) ==>
              sp == Speech(After(s, utterance, reply).history[|s.history|].agentResponse, s.agent)
  {
    match reply
    case Text(t) =>
      if HandsOver(s, t) then
        match Next(s.agent)
        case Some(n) => Speech(TransitionLine(n), n)
        case None => Speech(FinalText(After(s, utterance, reply).history), s.agent)
      else
        Speech(Clean(t, NeedMarker), s.agent)
    case _ =>
      Speech(GenerationApology, s.agent)
  }

  /**
   * The response to one utterance; `synthesized` says whether speech synthesis
   * of the line that reaches the caller succeeded. The outgoing agent's own
   * feedback on a hand-over is synthesised too, but that response is replaced,
   * so its outcome does not matter.
   */
  function Response(s: Session, utterance: string, reply: Reply, synthesized: bool): (d: Directive)
    // The call is ended on every failure and after the last agent; otherwise the gateway listens again.
    ensures HangsUp(d) <==> !synthesized || !reply.Text? || Finishes(s, reply)
    ensures Listens(d) <==> reply.Text? && !Finishes(s, reply)
    ensures |d| == (if synthesized then 2 else 3)
    ensures d[|d| - 1] == (if reply.Text? && !Finishes(s, reply) then Gather else Hangup)
    ensures synthesized ==>
              d[0] == Play(Spoken(s, utterance, reply).text, VoiceId(Spoken(s, utterance, reply).voice))
  {
    var sp := Spoken(s, utterance, reply);
    var last := if reply.Text? && !Finishes(s, reply) then Gather else Hangup;
    Completed(sp.text, sp.voice, synthesized, last);
    VoiceResponse(sp.text, sp.voice, synthesized) + [last]
  }

  /**
   * On a hand-over the caller hears a different voice: the transition line is
   * played in the incoming agent's voice, never in the outgoing agent's.
   */
  lemma HandOverChangesVoice(s: Session, utterance: string, reply: Reply, synthesized: bool)
    requires synthesized && reply.Text? && HandsOver(s, reply.text) && Next(s.agent).Some?
    ensures Response(s, utterance, reply, synthesized)[0].Play?
    ensures Response(s, utterance, reply, synthesized)[0].voice != VoiceId(s.agent)
  {
    var n := Next(s.agent).value;
    assert n != s.agent;
    AgentsDistinguishable(n, s.agent);
  }

  /** One caller utterance with the outcomes of the services it triggers. */
  datatype Input = Input(utterance: string, reply: Reply, synthesized: bool)

  /** The response to `i` keeps the call open (by the contract of `Response`, it does not hang up). */
  predicate Continues(s: Session, i: Input) {
    i.synthesized && i.reply.Text? && !Finishes(s, i.reply)
  }

  /**
   * The record after the caller's utterances `inputs`, taken in order, until a
   * response ends the call; later utterances never arrive.
   */
  function Run(s: Session, inputs: seq<Input>): (r: Session)
    ensures Index(s.agent) <= Index(r.agent)
    ensures |s.history| <= |r.history| && r.history[..|s.history|] == s.history
    ensures r.meta == s.meta
    decreases |inputs|
  {
    if inputs == [] then s
    else
      var i := inputs[0];
      var t := After(s, i.utterance, i.reply);
      if !Continues(s, i) then t
      else
        var r := Run(t, inputs[1..]);
        assert r.history[..|s.history|] == r.history[..|t.history|][..|s.history|];
        r
  }

  /** The transcript is grouped in agent order and no agent has more than two entries. */
  predicate Bounded(h: seq<Entry>) {
    InAgentOrder(h) && forall a :: CountOf(h, a) <= 2
  }

  /** Every agent before `current` has answered at least once. */
  predicate EarlierAgentsHeard(h: seq<Entry>, current: Agent) {
    forall a :: Index(a) < Index(current) ==> 1 <= CountOf(h, a)
  }

  /** What holds of the record of a call that is still in progress. */
  predicate Live(s: Session) {
    && s.questionCount <= 1
    && CountOf(s.history, s.agent) == s.questionCount
    && (forall i :: 0 <= i < |s.history| ==> Index(s.history[i].agent) <= Index(s.agent))
    && Bounded(s.history)
    && EarlierAgentsHeard(s.history, s.agent)
  }

  lemma CountOfAppend(h: seq<Entry>, e: Entry)
    ensures forall a :: CountOf(h + [e], a) == CountOf(h, a) + (if e.agent == a then 1 else 0)
  {
    assert (h + [e])[..|h|] == h;
  }

  /** A new call, and the stand-in for an unknown call, satisfy the invariant. */
  lemma StartIsLive(fromNumber: Option<string>, now: int)
    ensures Live(NewCall(fromNumber, now)) && Live(Fallback)
  {
  }

  /** An agent later than every transcript entry has no entries. */
  lemma {:induction false} NoEntriesOfLaterAgent(h: seq<Entry>, a: Agent)
    requires forall i :: 0 <= i < |h| ==> Index(h[i].agent) < Index(a)
    ensures CountOf(h, a) == 0
    decreases |h|
  {
    if h != [] {
      NoEntriesOfLaterAgent(h[..|h| - 1], a);
    }
  }

  /**
   * A turn with a generated text that does not end the interview keeps the
   * invariant: the current agent has answered at most once, its entries match
   * its count, and every earlier agent was heard at most twice.
   */
  lemma TurnKeepsLive(s: Session, utterance: string, reply: Reply)
    requires Live(s) && reply.Text? && !Finishes(s, reply)
    ensures Live(After(s, utterance, reply))
  {
    if After(s, utterance, reply).agent != s.agent {
      HandOverKeepsLive(s, utterance, reply);
    } else {
      StayKeepsLive(s, utterance, reply);
    }
  }

  lemma HandOverKeepsLive(s: Session, utterance: string, reply: Reply)
    requires Live(s) && reply.Text? && After(s, utterance, reply).agent != s.agent
    ensures Live(After(s, utterance, reply))
  {
    TurnBounded(s, utterance, reply);
    var r := After(s, utterance, reply);
    forall i | 0 <= i < |r.history|
      ensures Index(r.history[i].agent) < Index(r.agent)
    {
      if i < |s.history| {
        assert r.history[i] == s.history[i];
      }
    }
    NoEntriesOfLaterAgent(r.history, r.agent);
  }

  lemma StayKeepsLive(s: Session, utterance: string, reply: Reply)
    requires Live(s) && reply.Text? && !Finishes(s, reply) && After(s, utterance, reply).agent == s.agent
    ensures Live(After(s, utterance, reply))
  {
    TurnBounded(s, utterance, reply);
    var r := After(s, utterance, reply);
    var e := r.history[|s.history|];
    assert r.history == s.history + [e];
    CountOfAppend(s.history, e);
    assert !HandsOver(s, reply.text);
    forall i | 0 <= i < |r.history|
      ensures Index(r.history[i].agent) <= Index(r.agent)
    {
      if i < |s.history| {
        assert r.history[i] == s.history[i];
      }
    }
  }

  /** Whatever the reply, one turn from a live record leaves a bounded, ordered transcript. */
  lemma TurnBounded(s: Session, utterance: string, reply: Reply)
    requires Live(s)
    ensures Bounded(After(s, utterance, reply).history)
    ensures EarlierAgentsHeard(After(s, utterance, reply).history, After(s, utterance, reply).agent)
  {
    var r := After(s, utterance, reply);
    if reply.Text? {
      var e := r.history[|s.history|];
      assert e.agent == s.agent;
      assert r.history == s.history + [e];
      CountOfAppend(s.history, e);
      forall i, j | 0 <= i < j < |r.history|
        ensures Index(r.history[i].agent) <= Index(r.history[j].agent)
      {
        if j < |s.history| {
          assert r.history[i] == s.history[i] && r.history[j] == s.history[j];
        } else {
          assert r.history[i] == s.history[i];
        }
      }
      assert InAgentOrder(r.history);
      forall a | Index(a) < Index(r.agent)
        ensures 1 <= CountOf(r.history, a)
      {
        if a != s.agent {
          assert Index(a) < Index(s.agent);
        }
      }
    } else {
      assert r.history == s.history && r.agent == s.agent;
    }
  }

  /**
   * When the last agent finishes from a live record, every agent has answered
   * once or twice, in agent order, so the summary covers all three.
   */
  lemma FinishHearsEveryAgent(s: Session, utterance: string, reply: Reply)
    requires Live(s) && Finishes(s, reply)
    ensures forall a :: 1 <= CountOf(After(s, utterance, reply).history, a) <= 2
    ensures InAgentOrder(After(s, utterance, reply).history)
  {
    TurnBounded(s, utterance, reply);
    var r := After(s, utterance, reply);
    var e := r.history[|s.history|];
    assert r.history == s.history + [e];
    CountOfAppend(s.history, e);
    assert s.agent == Business;
  }

  /**
   * However the language model and the synthesis service behave, during one
   * call no agent records more than two answers, the transcript lists the
   * agents in their fixed order, and no agent is passed without being heard.
   */
  lemma {:induction false} RunBounded(s: Session, inputs: seq<Input>)
    requires Live(s)
    ensures Bounded(Run(s, inputs).history)
    ensures EarlierAgentsHeard(Run(s, inputs).history, Run(s, inputs).agent)
    decreases |inputs|
  {
    if inputs != [] {
      var i := inputs[0];
      TurnBounded(s, i.utterance, i.reply);
      if Continues(s, i) {
        TurnKeepsLive(s, i.utterance, i.reply);
        RunBounded(After(s, i.utterance, i.reply), inputs[1..]);
      }
    }
  }

  /** The same for a call from its first webhook on. */
  lemma InterviewBounded(fromNumber: Option<string>, now: int, inputs: seq<Input>)
    ensures Bounded(Run(NewCall(fromNumber, now), inputs).history)
    ensures EarlierAgentsHeard(Run(NewCall(fromNumber, now), inputs).history, Run(NewCall(fromNumber, now), inputs).agent)
  {
    StartIsLive(fromNumber, now);
    RunBounded(NewCall(fromNumber, now), inputs);
  }

  /** Both markers are border-free: no occurrence of either can overlap another. */
  lemma MarkersBorderFree()
    ensures BorderFree(NextMarker) && BorderFree(NeedMarker)
  {
    forall k | 0 < k < |NextMarker|
      ensures NextMarker[..k] != NextMarker[|NextMarker| - k..]
    {
      if k == 2 {
        assert NextMarker[..k][1] != NextMarker[|NextMarker| - k..][1];
      } else {
        assert NextMarker[..k][0] != NextMarker[|NextMarker| - k..][0];
      }
    }
    forall k | 0 < k < |NeedMarker|
      ensures NeedMarker[..k] != NeedMarker[|NeedMarker| - k..]
    {
      if k == 3 {
        assert NeedMarker[..k][1] != NeedMarker[|NeedMarker| - k..][1];
      } else {
        assert NeedMarker[..k][0] != NeedMarker[|NeedMarker| - k..][0];
      }
    }
  }

  /**
   * The reply shape the prompts ask for, marker-free text ending in the hand-over
   * marker, hands over and records exactly that text, stripped.
   */
  lemma TrailingMarkerHandsOver(s: Session, utterance: string, text: string)
    requires !Contains(text, NextMarker)
    ensures Contains(text + NextMarker, NextMarker)
    ensures After(s, utterance, Text(text + NextMarker)).history
              == s.history + [Entry(s.agent, utterance, Strip(text))]
  {
    MarkersBorderFree();
    RemoveTrailingMarker(text, NextMarker);
    ContainsIff(text + NextMarker, NextMarker);
    assert OccursAt(text + NextMarker, NextMarker, |text|);
    var r := After(s, utterance, Text(text + NextMarker));
    assert r.history == s.history + [r.history[|s.history|]];
  }

  /** The hand-over marker followed by text is removed from the front of that text. */
  lemma RemoveLeadingMarker(inner: string, tail: string)
    requires tail == "_AGENT" && inner == NextMarker + tail
    ensures RemoveAll(inner, NextMarker) == tail
  {
    assert StartsWith(inner, NextMarker);
    assert inner[|NextMarker|..] == tail;
    ContainsFits(tail, NextMarker);
  }

  lemma RemoveSplitMarker(s: string, plain: string, inner: string, tail: string)
    requires tail == "_AGENT" && inner == NextMarker + tail && plain == "EXT"
    requires s == ['N'] + plain + inner
    ensures RemoveAll(s, NextMarker) == ['N'] + plain + tail
  {
    RemoveLeadingMarker(inner, tail);
    RemoveAllSkipsPlainPrefix(plain, inner, NextMarker);
    assert s == ['N'] + (plain + inner);
    assert s[4] != NextMarker[4];
    RemoveAllKeepsHead('N', plain + inner, NextMarker);
  }

  /** The marker split around its own copy: its first letter, then the rest. */
  lemma SplitMarkerPieces(plain: string, tail: string)
    requires plain == "EXT" && tail == "_AGENT"
    ensures ['N'] + plain + tail == NextMarker
  {
  }

  /**
   * Removing the marker does not make the text marker-free: an occurrence
   * split by another occurrence closes up when the inner one is removed.
   */
  lemma MarkerCanSurviveRemoval(s: string)
    requires s == "NEXTNEXT_AGENT_AGENT"
    ensures RemoveAll(s, NextMarker) == NextMarker
  {
    var plain, tail := "EXT", "_AGENT";
    var inner := NextMarker + tail;
    assert s == ['N'] + plain + inner;
    RemoveSplitMarker(s, plain, inner, tail);
    SplitMarkerPieces(plain, tail);
  }

  /** So the response recorded after a hand-over may still contain the hand-over marker. */
  lemma CleanedReplyMayKeepMarker(s: string)
    requires s == "NEXTNEXT_AGENT_AGENT"
    ensures Contains(Clean(s, NextMarker), NextMarker)
  {
    MarkerCanSurviveRemoval(s);
    assert Trimmed(NextMarker) by { assert NextMarker[0] == 'N' && NextMarker[9] == 'T'; }
    assert [] + NextMarker + [] == NextMarker;
    StripUnique([], NextMarker, []);
    assert StartsWith(NextMarker, NextMarker);
  }
}
