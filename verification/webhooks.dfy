/**
 * The three HTTP handlers around the conversation engine: call started,
 * utterance received, and the outbound-call request. The table of active
 * calls is passed in and returned; nothing guards it against concurrent
 * webhooks.
 */
module Webhooks {
  import opened Options
  import opened Agents
  import opened Directives
  import opened Sessions
  import opened Conversation

  /** The in-memory table of active calls, keyed by the gateway's call id. */
  type Store = map<string, Session>

  /** The first agent's opening line. */
  const Greeting: string :=
    "Hi! I'm your Market & Feasibility Assistant. I'd love to understand your startup idea and the problem it solves. Could you tell me about it?"

  datatype WebhookResult = WebhookResult(store: Store, directive: Directive)

  /**
   * Call started: the call gets a new record (replacing any record under the
   * same id), the first agent greets the caller and the gateway listens.
   */
  function IncomingCall(store: Store, callId: string, fromNumber: Option<string>, now: int, synthesized: bool)
    : (r: WebhookResult)
    ensures r.store.Keys == store.Keys + {callId}
    ensures forall k :: k in store && k != callId ==> r.store[k] == store[k]
    ensures r.store[callId].agent == Sequence[0]
    ensures r.store[callId].questionCount == 0 && r.store[callId].history == []
    ensures r.store[callId].meta == Some(CallMeta(now, fromNumber))
    ensures r.directive != [] && r.directive[|r.directive| - 1] == Gather
    ensures synthesized ==> r.directive == [Play(Greeting, VoiceId(Market)), Gather]
    ensures HangsUp(r.directive) <==> !synthesized
  {
    var d := VoiceResponse(Greeting, Market, synthesized);
    Completed(Greeting, Market, synthesized, Gather);
    WebhookResult(store[callId := NewCall(fromNumber, now)], d + [Gather])
  }

  /**
   * Utterance received (`speech` is the transcription, absent when the caller
   * said nothing). A known call's record is replaced by the record after the
   * turn, the final turn included: it is never removed. An unknown call is
   * answered as if its record were the stand-in, and the stand-in's changes
   * are not kept.
   */
  function Voice(store: Store, callId: string, speech: Option<string>, reply: Reply, synthesized: bool)
    : (r: WebhookResult)
    ensures r.store.Keys == store.Keys
    ensures forall k :: k in store && k != callId ==> r.store[k] == store[k]
    ensures callId !in store ==> r.store == store
    ensures callId in store ==> r.store[callId] == After(store[callId], speech.GetOr(""), reply)
    ensures r.directive
              == Response(if callId in store then store[callId] else Fallback, speech.GetOr(""), reply, synthesized)
  {
    var s := if callId in store then store[callId] else Fallback;
    var utterance := speech.GetOr("");
    var d := Response(s, utterance, reply, synthesized);
    if callId in store then WebhookResult(store[callId := After(s, utterance, reply)], d)
    else WebhookResult(store, d)
  }

  /** The start data of a record plays no part in a turn. */
  lemma TurnIgnoresMeta(s: Session, m: Option<CallMeta>, utterance: string, reply: Reply, synthesized: bool)
    ensures After(s.(meta := m), utterance, reply) == After(s, utterance, reply).(meta := m)
    ensures Response(s.(meta := m), utterance, reply, synthesized) == Response(s, utterance, reply, synthesized)
  {
    SpokenIgnoresMeta(s, m, utterance, reply);
    assert After(s.(meta := m), utterance, reply) == After(s, utterance, reply).(meta := m);
  }

  lemma SpokenIgnoresMeta(s: Session, m: Option<CallMeta>, utterance: string, reply: Reply)
    ensures Spoken(s.(meta := m), utterance, reply) == Spoken(s, utterance, reply)
  {
  }

  /**
   * An utterance for an unknown call is answered exactly as the first
   * utterance of a call that had just started would be.
   */
  lemma UnknownCallAnsweredAsNew(store: Store, callId: string, speech: Option<string>, reply: Reply,
                                 synthesized: bool, fromNumber: Option<string>, now: int, greeted: bool)
    requires callId !in store
    ensures Voice(store, callId, speech, reply, synthesized).directive
            == Voice(IncomingCall(store, callId, fromNumber, now, greeted).store, callId, speech, reply, synthesized).directive
  {
    var started := NewCall(fromNumber, now);
    assert Fallback == started.(meta := None);
    TurnIgnoresMeta(started, None, speech.GetOr(""), reply, synthesized);
  }

  /** The table after a sequence of utterance webhooks for one call id. */
  function VoiceAll(store: Store, callId: string, inputs: seq<Input>): (r: Store)
    ensures r.Keys == store.Keys
    decreases |inputs|
  {
    if inputs == [] then store
    else
      var i := inputs[0];
      VoiceAll(Voice(store, callId, Some(i.utterance), i.reply, i.synthesized).store, callId, inputs[1..])
  }

  /** An unknown call never gets a record, however many utterances arrive for it. */
  lemma {:induction false} UnknownCallStaysUnknown(store: Store, callId: string, inputs: seq<Input>)
    requires callId !in store
    ensures VoiceAll(store, callId, inputs) == store
    decreases |inputs|
  {
    if inputs != [] {
      var i := inputs[0];
      UnknownCallStaysUnknown(Voice(store, callId, Some(i.utterance), i.reply, i.synthesized).store, callId, inputs[1..]);
    }
  }

  /** The JSON body of an outbound-call request: not a JSON object at all, or an object with its `phone_number`. */
  datatype RequestBody = NotAnObject | Object(phoneNumber: Option<string>)

  datatype CallRequestReply = Initiated(callSid: string) | MissingNumber | InitiationFailed

  /**
   * The JSON answer: its status, and its `message`, `error` and `call_sid`
   * members when present.
   */
  datatype JsonReply = JsonReply(status: int, message: Option<string>, error: Option<string>, callSid: Option<string>)

  /** A started call is reported with its id; a refusal with an `error` explanation and a client or server status. */
  function Encode(r: CallRequestReply): (j: JsonReply)
    ensures 200 <= j.status < 300 <==> r.Initiated?
    ensures r.Initiated? ==> j.callSid == Some(r.callSid) && j.error.None? && j.message.Some?
    ensures !r.Initiated? ==> j.error.Some? && j.error.value != "" && j.message.None? && j.callSid.None?
    ensures r.MissingNumber? <==> 400 <= j.status < 500
    ensures r.InitiationFailed? <==> 500 <= j.status < 600
  {
    match r
    case Initiated(sid) => JsonReply(200, Some("Call initiated successfully"), None, Some(sid))
    case MissingNumber => JsonReply(400, None, Some("Phone number is required"), None)
    case InitiationFailed => JsonReply(500, None, Some("Failed to initiate call"), None)
  }

  /** The reply and the number handed to the gateway, if the gateway was asked at all. */
  datatype CallRequestOutcome = CallRequestOutcome(reply: CallRequestReply, dialed: Option<string>)

  /**
   * The outbound-call request. `placed` is what the gateway's call creation
   * returns when it is asked: the new call's id, or `None` when it fails.
   */
  function RequestCall(body: RequestBody, placed: Option<string>): (r: CallRequestOutcome)
    // An absent, null or empty number is refused before the gateway is asked.
    ensures r.reply.MissingNumber? <==> body.Object? && (body.phoneNumber.None? || body.phoneNumber.value == "")
    ensures r.reply.MissingNumber? ==> r.dialed.None?
    // Otherwise the number is dialled as given.
    ensures r.dialed.Some? <==> body.Object? && body.phoneNumber.Some? && body.phoneNumber.value != ""
    ensures r.dialed.Some? ==> r.dialed == body.phoneNumber
    ensures r.reply.Initiated? <==> r.dialed.Some? && placed.Some?
    ensures r.reply.Initiated? ==> r.reply.callSid == placed.value
  {
    match body
    case NotAnObject => CallRequestOutcome(InitiationFailed, None)
    case Object(phone) =>
      if phone.None? || phone.value == "" then CallRequestOutcome(MissingNumber, None)
      else
        match placed
        case Some(sid) => CallRequestOutcome(Initiated(sid), phone)
        case None => CallRequestOutcome(InitiationFailed, phone)
  }
}
