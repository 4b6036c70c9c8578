/** Concrete runs of a call and of the page's number check. */
module Scenarios {
  import opened Options
  import opened Text
  import opened Agents
  import opened Directives
  import opened Sessions
  import opened Conversation
  import opened Webhooks
  import opened PhoneForm

  /** The follow-up question of the first scenario. */
  const FollowUp: string := "Got it. What's your target user?"

  /** A reply with no capital `N` carries neither marker and is recorded as it is. */
  lemma PlainReply()
    ensures !Contains(FollowUp, NextMarker) && Clean(FollowUp, NeedMarker) == FollowUp
  {
    NoCapitalN();
    AbsentHeadNotContained(FollowUp, NextMarker);
    AbsentHeadNotContained(FollowUp, NeedMarker);
    assert RemoveAll(FollowUp, NeedMarker) == FollowUp;
    StripsToItself();
  }

  lemma NoCapitalN()
    ensures forall i :: 0 <= i < |FollowUp| ==> FollowUp[i] != 'N'
  {
  }

  lemma StripsToItself()
    ensures Strip(FollowUp) == FollowUp
  {
    assert Trimmed(FollowUp) by { assert FollowUp[0] == 'G' && FollowUp[|FollowUp| - 1] == '?'; }
    assert [] + FollowUp + [] == FollowUp;
    StripUnique([], FollowUp, []);
  }

  /**
   * A call starts and the first agent asks a follow-up question: the record
   * stays with the first agent with one answered utterance, and the reply is
   * recorded and spoken as it is, after which the gateway listens.
   */
  lemma FollowUpQuestion(fromNumber: Option<string>, now: int, utterance: string)
    ensures After(NewCall(fromNumber, now), utterance, Text(FollowUp))
              == Session(Market, 1, [Entry(Market, utterance, FollowUp)], Some(CallMeta(now, fromNumber)))
    ensures Response(NewCall(fromNumber, now), utterance, Text(FollowUp), true)
              == [Play(FollowUp, VoiceId(Market)), Gather]
  {
    PlainReply();
    StayingTurn(NewCall(fromNumber, now), utterance, FollowUp);
  }

  /** A first answer without the hand-over marker keeps the agent and is spoken as recorded. */
  lemma StayingTurn(s: Session, utterance: string, text: string)
    requires s.questionCount == 0
    requires !Contains(text, NextMarker) && Clean(text, NeedMarker) == text
    ensures After(s, utterance, Text(text))
              == s.(questionCount := 1, history := s.history + [Entry(s.agent, utterance, text)])
    ensures Response(s, utterance, Text(text), true) == [Play(text, VoiceId(s.agent)), Gather]
  {
    StayingRecord(s, utterance, text);
    StayingSpeech(s, utterance, text);
    StayingGoesOn(s, text);
    ListeningResponse(s, utterance, Text(text), Speech(text, s.agent));
  }

  lemma StayingRecord(s: Session, utterance: string, text: string)
    requires s.questionCount == 0
    requires !Contains(text, NextMarker) && Clean(text, NeedMarker) == text
    ensures After(s, utterance, Text(text))
              == s.(questionCount := 1, history := s.history + [Entry(s.agent, utterance, text)])
  {
    assert !HandsOver(s, text);
  }

  lemma StayingSpeech(s: Session, utterance: string, text: string)
    requires s.questionCount == 0
    requires !Contains(text, NextMarker) && Clean(text, NeedMarker) == text
    ensures Spoken(s, utterance, Text(text)) == Speech(text, s.agent)
  {
    assert !HandsOver(s, text);
    assert After(s, utterance, Text(text)).history[|s.history|] == Entry(s.agent, utterance, text);
  }

  lemma StayingGoesOn(s: Session, text: string)
    requires s.questionCount == 0
    requires !Contains(text, NextMarker)
    ensures !Finishes(s, Text(text))
  {
    assert !HandsOver(s, text);
  }

  /** A synthesised response that keeps the call open: the line, then listening. */
  lemma ListeningResponse(s: Session, utterance: string, reply: Reply, sp: Speech)
    requires reply.Text? && !Finishes(s, reply) && Spoken(s, utterance, reply) == sp
    ensures Response(s, utterance, reply, true) == [Play(sp.text, VoiceId(sp.voice)), Gather]
  {
    var d := Response(s, utterance, reply, true);
    assert d == [d[0], d[1]];
  }

  /**
   * The second answered utterance hands over whatever the reply says: the
   * second agent takes over with a fresh count and introduces itself.
   */
  lemma SecondAnswerHandsOver(s: Session, utterance: string, text: string)
    requires s.agent == Market && s.questionCount == 1
    ensures After(s, utterance, Text(text)).agent == Product
    ensures After(s, utterance, Text(text)).questionCount == 0
    ensures Response(s, utterance, Text(text), true)
              == [Play(TransitionLine(Product), VoiceId(Product)), Gather]
  {
    assert HandsOver(s, text) && Next(s.agent) == Some(Product);
    assert !Finishes(s, Text(text));
    assert Spoken(s, utterance, Text(text)) == Speech(TransitionLine(Product), Product);
    ListeningResponse(s, utterance, Text(text), Speech(TransitionLine(Product), Product));
  }

  /**
   * The language model fails: the record is kept exactly as it was (it is not
   * removed), and the caller hears the apology before the call is ended.
   */
  lemma GenerationTimeout(store: Store, callId: string, speech: Option<string>)
    requires callId in store
    ensures Voice(store, callId, speech, GenerationFailed, true).store == store
    ensures Voice(store, callId, speech, GenerationFailed, true).directive
              == [Play(GenerationApology, VoiceId(store[callId].agent)), Hangup]
  {
  }

  /** A request without a number is refused with a client error, and no call is placed. */
  lemma EmptyNumberRefused(placed: Option<string>)
    ensures RequestCall(Object(Some("")), placed) == CallRequestOutcome(MissingNumber, None)
    ensures Encode(RequestCall(Object(Some("")), placed).reply).status == 400
  {
  }

  /**
   * A formatted number and the same digits typed plainly get the same verdict:
   * "+1 (415) 555-2671" is read as "14155552671", and both pass.
   */
  lemma FormattedNumber(country: string, area: string, exchange: string, line: string)
    requires country == "+1 " && area == "(415) " && exchange == "555-" && line == "2671"
    ensures Digits(country + area + exchange + line) == "1" + "415" + "555" + line
    ensures IsValidPhone(country + area + exchange + line) && IsValidPhone("1" + "415" + "555" + line)
  {
    DigitsAppend(country + area + exchange, line);
    DigitsAppend(country + area, exchange);
    DigitsAppend(country, area);
    CountryDigits(country);
    AreaDigits(area);
    ExchangeDigits(exchange);
    DigitsOfDigits(line);
    var plain := "1" + "415" + "555" + line;
    DigitsOfDigits(plain);
    ValidPhoneIff(plain);
  }

  lemma CountryDigits(country: string)
    requires country == "+1 "
    ensures Digits(country) == "1"
  {
    assert country == ['+'] + ['1'] + [' '];
    DigitsAppend(['+'] + ['1'], [' ']);
    DigitsAppend(['+'], ['1']);
  }

  lemma AreaDigits(area: string)
    requires area == "(415) "
    ensures Digits(area) == "415"
  {
    assert area == ['('] + "415" + [')', ' '];
    DigitsAppend(['('] + "415", [')', ' ']);
    DigitsAppend(['('], "415");
    DigitsOfDigits("415");
  }

  lemma ExchangeDigits(exchange: string)
    requires exchange == "555-"
    ensures Digits(exchange) == "555"
  {
    assert exchange == "555" + ['-'];
    DigitsAppend("555", ['-']);
    DigitsOfDigits("555");
  }

  /** A leading zero, a single digit and sixteen digits are refused. */
  lemma RefusedNumbers(zero: string, short: string, long: string)
    requires zero == "0123456" && short == "+7" && long == "1234567890123456"
    ensures !IsValidPhone(zero) && !IsValidPhone(short) && !IsValidPhone(long)
  {
    DigitsOfDigits(zero);
    DigitsOfDigits(long);
    ValidPhoneIff(zero);
    ValidPhoneIff(short);
    ValidPhoneIff(long);
  }
}
