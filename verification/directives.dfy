/**
 * Call-control responses returned to the voice gateway, as an abstract list of
 * verbs, and the synthesis adapter that turns a line of text into one.
 */
module Directives {
  import opened Agents

  /**
   * One call-control verb. `Play` stands for the audio synthesised from
   * `text` with voice `voice`; the temporary file and its URL are not modelled.
   */
  datatype Verb = Play(text: string, voice: string) | Say(text: string) | Hangup | Gather

  type Directive = seq<Verb>

  /** Spoken by the gateway's own voice when synthesis fails. */
  const SynthesisApology: string :=
    "We're experiencing technical difficulties with our voice system. Please try again later."

  predicate HangsUp(d: Directive) {
    Hangup in d
  }

  predicate Listens(d: Directive) {
    Gather in d
  }

  /**
   * The response built for `text` spoken by `agent`; `synthesized` says whether
   * the speech-synthesis service returned audio. The caller always hears
   * something: the text in the agent's own voice, or else the fixed apology,
   * after which the call is ended.
   */
  function VoiceResponse(text: string, agent: Agent, synthesized: bool): (d: Directive)
    ensures d != [] && (d[0].Play? || d[0].Say?)
    ensures |d| == (if synthesized then 1 else 2)
    ensures d[0].Play? <==> synthesized
    ensures d[0].Play? ==> d[0].text == text && d[0].voice == VoiceId(agent)
    ensures !synthesized ==> d[0] == Say(SynthesisApology) && HangsUp(d)
    ensures synthesized ==> !HangsUp(d) && !Listens(d)
  {
    if synthesized then [Play(text, VoiceId(agent))]
    else [Say(SynthesisApology), Hangup]
  }

  /** A response followed by a final `Hangup` or `Gather`: whether the call ends, and whether the gateway listens. */
  lemma Completed(text: string, agent: Agent, synthesized: bool, last: Verb)
    requires last == Hangup || last == Gather
    ensures HangsUp(VoiceResponse(text, agent, synthesized) + [last]) <==> !synthesized || last == Hangup
    ensures Listens(VoiceResponse(text, agent, synthesized) + [last]) <==> last == Gather
  {
    var d := VoiceResponse(text, agent, synthesized);
    assert (d + [last])[|d|] == last;
    assert forall v :: v in d + [last] <==> v in d || v == last;
  }
}
