# Opinions: a model of the phone interview service

Opinions lets a founder describe a startup idea over the phone. The web page
takes a phone number, checks it, and asks the backend to place a call. On the
call, three AI agents interview the caller in a fixed order: the Market &
Feasibility Assistant, the Product & Innovation Assistant and the Business Model
& Growth Assistant. Each agent answers every caller utterance with a line from
the language model. The line is recorded in the transcript. While the agent
stays, the line is spoken in the agent's own synthetic voice. An agent hands
over to the next one when its reply carries the `NEXT_AGENT` marker, or at its
second answered utterance. On a hand-over the agent's reply is recorded but not
spoken: the caller hears the next agent's transition line, in the next agent's
voice. After the last agent's final reply, the caller hears a summary of the
whole transcript in that agent's voice, and the call is ended.

This project models that core in Dafny, as pure functions over immutable
data:

- `Agents` holds the agent order and its successor function, with the voices
  and display names.
- `Sessions` holds the per-call record (agent, question count, transcript,
  start data) and its initial values.
- `Text` holds Python's `in`, `str.replace(m, "")` and `str.strip()` as the
  turn logic uses them.
- `Directives` holds the call-control response as an abstract list of verbs
  (`Play`, `Say`, `Hangup`, `Gather`), plus the synthesis adapter that builds one.
- `Summary` holds the closing summary text.
- `Conversation` holds one utterance turn, meaning the new record and the
  response. It also holds runs of turns until the call ends, and the invariant
  that a call in progress keeps.
- `Webhooks` holds the three HTTP handlers. Two of them act on the table of
  active calls: call started and utterance received. The third is the
  outbound-call request with its JSON answer.
- `PhoneForm` holds the page's number check and the error, success and loading
  state it shows.
- `PageServer` connects the page to the outbound-call endpoint.
- `Scenarios` holds concrete runs.

The model takes as parameters:

- the language-model reply (`Reply`: a failure, a response without text, or a
  text);
- whether speech synthesis succeeded;
- the clock reading;
- the call id returned by the gateway;
- the outcome of the page's request.

Some of the code's behaviour is easy to misread. The model follows the code:

- A repeated call-started webhook replaces the call's record. Nothing reports a
  duplicate.
- A call's record is never removed. This holds after the last agent's turn and
  after a language-model failure too. On a failure the record stays exactly as
  it was.
- After a language-model failure, the apology is synthesised and played in the
  current agent's voice. The gateway's own voice is used only when that
  synthesis fails too, followed by a second hang-up.
- A language-model response without text still raises the question count. The
  code raises it before the marker test fails on the missing text.
- A hand-over is also forced by the count alone. The second answered
  utterance of an agent hands over, whatever the reply says.
- The page removes every non-digit before it applies its pattern. So the
  pattern's optional `+` never matches, and the check amounts to "2 to 15
  digits, the first not `0`" (`PhoneForm.ValidPhoneIff`).
- Removing the marker with `str.replace` does not always leave the recorded
  response marker-free (`Conversation.CleanedReplyMayKeepMarker`).

## Model

| member | source | states |
|---|---|---|
| Agents.Index | backend/app.py:156-157 | The position of an agent in the fixed order. The order lists it exactly there. |
| Agents.Next | backend/app.py:154-160 | The successor is exactly one position later. There is no successor exactly for the last agent. |
| Agents.SequenceIsChain | backend/app.py:154-160 | Each agent in the order is followed by the next one, and the last has no successor. So the order is a single chain from the first agent. |
| Agents.AgentsDistinguishable | backend/app.py:46-50 | Different agents have different synthesis voices and different display names. |
| Sessions.NewCall | backend/app.py:227-233 | A new call starts with the first agent, a count of zero, an empty transcript, and the given start time and caller number. |
| Directives.VoiceResponse | backend/app.py:162-205 | A successful synthesis gives one `Play` of the text in the agent's voice, with no hang-up. A failed one gives the fixed apology in the gateway's voice, then a hang-up. The caller always hears something first. |
| Directives.Completed | backend/app.py:199-203 | After a final `Hangup` or `Gather` is appended, the call ends exactly when synthesis failed or that verb is a hang-up. The gateway listens exactly when it is a `Gather`. |
| Text.ContainsFits | backend/app.py:282 | Python's `in`: a contained needle is no longer than the text. |
| Text.ContainsIff | backend/app.py:282 | `in` holds exactly when some position starts an occurrence. |
| Text.AbsentHeadNotContained | backend/app.py:282 | A text lacking the needle's first character does not contain it. |
| Text.RemoveAll | backend/app.py:284 | `str.replace(m, "")` never lengthens the text, and it leaves a text without `m` unchanged. `RemoveAllFirstOccurrence` states what it does to a text with `m`. |
| Text.RemoveAllFirstOccurrence | backend/app.py:284 | `str.replace(m, "")` keeps the text before the leftmost occurrence of `m`, drops that occurrence, and goes on with the rest of the text. With the marker-free case of `RemoveAll`, this fixes the result for every text. |
| Text.RemoveAllSkipsPlainPrefix | backend/app.py:284 | A prefix without the marker's first character passes through the removal unchanged. |
| Text.RemoveTrailingMarker | backend/app.py:284 | Marker-free text followed by one border-free marker loses exactly that marker. |
| Text.LStrip | backend/app.py:284 | The result is a suffix of the input. What was cut is all whitespace, and the result does not start with whitespace. |
| Text.RStrip | backend/app.py:284 | The result is a prefix of the input. What was cut is all whitespace, and the result does not end with whitespace. |
| Text.Strip | backend/app.py:284 | `str.strip()`: the result is trimmed, and the input is whitespace, the result, then whitespace. |
| Text.StripUnique | backend/app.py:284 | Any split into whitespace, trimmed text and whitespace strips to that text. Together with `Strip`'s contract, this characterises `str.strip()`. |
| Conversation.Clean | backend/app.py:284-315 | The recorded response has no surrounding whitespace and is no longer than the reply. |
| Conversation.TransitionLine | backend/app.py:301 | The line that introduces the incoming agent: a thanks, then the incoming agent's display name, then the question "What's your take on this idea?". |
| Conversation.HandsOver | backend/app.py:282 | An agent's part ends when the reply contains `NEXT_AGENT`, or when the count after this utterance reaches two. |
| Conversation.Finishes | backend/app.py:282-303 | The interview ends when the last agent, which has no successor, receives a reply text that hands over. |
| Conversation.After | backend/app.py:276-333 | A turn's effect on the record. The agent moves to its successor exactly on a hand-over and otherwise stays. The transcript grows by exactly one entry per generated text: agent, utterance and cleaned reply, with the old entries kept. The count resets on a hand-over and otherwise rises for every answered utterance. A failure changes nothing, and the start data is never touched. |
| Conversation.Spoken | backend/app.py:294-333 | Failures speak the apology. A hand-over speaks the next agent's transition line in the next agent's voice. The last agent speaks the summary of the transcript including this turn. Otherwise the recorded response is spoken. |
| Conversation.Response | backend/app.py:276-347 | The response hangs up exactly on a synthesis failure, a generation failure or the end of the interview. It ends with `Gather` exactly when the interview goes on. On a synthesis failure while the interview goes on, the response is `Say`, `Hangup`, `Gather`: it both hangs up and still ends with the `Gather`. Its first verb plays the spoken line in the right voice. |
| Conversation.HandOverChangesVoice | backend/app.py:296-302 | On a hand-over that is synthesised, the line played is in a voice different from the outgoing agent's. |
| Conversation.Run | backend/app.py:254-347 | Over successive utterances, the agent only moves forward, the transcript only grows by appending, and the start data is kept. |
| Conversation.StartIsLive | backend/app.py:262 | A new call and the stand-in record for an unknown call both satisfy the in-progress invariant. |
| Conversation.NoEntriesOfLaterAgent | backend/app.py:287-322 | An agent later than every transcript entry has no entries. |
| Conversation.TurnBounded | backend/app.py:276-333 | From a live record, any reply leaves the transcript in agent order, with at most two entries per agent and every earlier agent heard. |
| Conversation.TurnKeepsLive | backend/app.py:279-325 | A turn that goes on keeps the in-progress invariant: the count is at most one and equals the current agent's entries. |
| Conversation.HandOverKeepsLive | backend/app.py:296-300 | A hand-over keeps the invariant, and the new agent starts with no entries. |
| Conversation.StayKeepsLive | backend/app.py:313-325 | Staying with the agent keeps the invariant. |
| Conversation.FinishHearsEveryAgent | backend/app.py:303-311 | When the last agent finishes, every agent has one or two transcript entries, in agent order. |
| Conversation.RunBounded | backend/app.py:254-347 | Whatever the language model and synthesis do, no agent records more than two answers. The transcript lists the agents in their order, and no agent is passed without being heard. |
| Conversation.InterviewBounded | backend/app.py:219-347 | The same bound for a call from its first webhook on. |
| Conversation.MarkersBorderFree | backend/app.py:284-315 | Neither marker can overlap an occurrence of itself. |
| Conversation.TrailingMarkerHandsOver | backend/app.py:282-291 | A reply of marker-free text ending in `NEXT_AGENT` hands over, and the transcript records exactly that text, stripped. |
| Conversation.RemoveSplitMarker | backend/app.py:284 | Removing the inner marker from `N` + `EXT` + `NEXT_AGENT_AGENT` closes up the outer occurrence. |
| Conversation.MarkerCanSurviveRemoval | backend/app.py:284 | `"NEXTNEXT_AGENT_AGENT".replace("NEXT_AGENT", "")` is `NEXT_AGENT`. |
| Conversation.CleanedReplyMayKeepMarker | backend/app.py:284 | So the response recorded after a hand-over can still contain the hand-over marker. |
| Summary.FinalText | backend/app.py:305-309 | The closing text: the header, one line per transcript entry with the agent's display name and its recorded response, then the closing thank-you. |
| Summary.FinalTextFramed | backend/app.py:305-309 | The summary opens with its header and ends with the closing thank-you. |
| Summary.FinalTextLayout | backend/app.py:305-309 | Every transcript entry's line (display name and response) appears whole in the summary, at its own offset after the header. |
| Summary.SummaryInOrder | backend/app.py:306-307 | An earlier entry's line ends before a later entry's line begins. |
| Summary.ConcatAppend | backend/app.py:306-307 | The loop's `+=` over a concatenated transcript gives the concatenation of the two texts. |
| Summary.ConcatLayout | backend/app.py:306-307 | The loop's text holds each entry's piece at its offset. |
| Webhooks.IncomingCall | backend/app.py:219-252 | The call gets a new record, replacing any record under its id, and no other record changes. The first agent greets the caller, and the response ends by listening. It hangs up exactly when synthesis failed. |
| Webhooks.Voice | backend/app.py:254-347 | The table keeps its call ids. Only the call's own record changes, to the record after the turn. An unknown call is answered from the stand-in record and gets no record. |
| Webhooks.TurnIgnoresMeta | backend/app.py:262-333 | The start time and caller number play no part in a turn. |
| Webhooks.UnknownCallAnsweredAsNew | backend/app.py:262 | An utterance for an unknown call is answered exactly as the first utterance of a call that has just started. |
| Webhooks.VoiceAll | backend/app.py:254-347 | Any number of utterance webhooks keep the table's call ids. |
| Webhooks.UnknownCallStaysUnknown | backend/app.py:262 | However many utterances arrive for an unknown call, the table is unchanged. |
| Webhooks.Encode | backend/app.py:356-373 | A success status comes exactly with a started call and its id. A client error comes exactly for a missing number, and a server error exactly for a failure. Every refusal carries a non-empty `error` member and no `message`. |
| Webhooks.RequestCall | backend/app.py:349-373 | An absent, null or empty number is refused before the gateway is asked. Any other number is dialled as given. The call is reported started exactly when the gateway placed it, with its id. |
| PhoneForm.Digits | frontend/src/App.js:17 | Removing non-digits leaves only digits and never lengthens the input. |
| PhoneForm.DigitsAppend | frontend/src/App.js:17 | Removing non-digits commutes with concatenation. |
| PhoneForm.DigitsOfDigits | frontend/src/App.js:17 | Removing non-digits from digits changes nothing. |
| PhoneForm.PhonePattern | frontend/src/App.js:16 | The page's pattern `^\+?[1-9]\d{1,14}$`: an optional `+`, a digit other than `0`, then 1 to 14 digits, and nothing else. |
| PhoneForm.IsValidPhone | frontend/src/App.js:16-17 | A number passes when its digits, with every other character removed, match the pattern. |
| PhoneForm.DigitRunLength | frontend/src/App.js:16 | On digits, `\d{lo,hi}$` holds exactly when the length lies between `lo` and `hi`. |
| PhoneForm.ValidPhoneIff | frontend/src/App.js:16-17 | A number passes exactly when its digits number 2 to 15 and the first is not `0`. Equivalently, the `+`-less branch of the pattern matches. |
| PhoneForm.FormattingIgnored | frontend/src/App.js:17 | Inserting a non-digit anywhere changes neither the digits nor the verdict. |
| PhoneForm.SameDigitsSameVerdict | frontend/src/App.js:17 | Inputs with the same digits get the same verdict. |
| PhoneForm.OrElse | frontend/src/App.js:34 | JavaScript's logical or of a string member and a fallback: the member when present and non-empty, otherwise the fallback. |
| PhoneForm.AnswerError | frontend/src/App.js:32-35 | An error answer is shown with its `message` member. Without one, the generic message is shown, and an unreadable body gets its own message. It is never empty. |
| PhoneForm.AnswerErrorReadingError | frontend/src/App.js:32-35 | As above, but the server's `error` member is shown first when present. |
| PhoneForm.HandleSubmit | frontend/src/App.js:10-45 | A submission first clears the error and success and shows loading. The number is sent, as typed, exactly when it passes the check, and a refused number shows the fixed message. Loading always ends. Success is shown exactly for an ok answer, and exactly when no error is shown. Error answers and network failures show their messages. |
| PhoneForm.HandleSubmitReadingError | frontend/src/App.js:10-45 | The same handler, with error answers shown by `AnswerErrorReadingError`. |
| PageServer.Delivered | frontend/src/App.js:24-33 | The page reads the endpoint's status as ok exactly for a 2xx status, and sees its JSON members. |
| PageServer.RequestFromPage | frontend/src/App.js:10-45 | The endpoint hears of the number exactly when the page accepts it. An accepted number is never refused as missing, and it is dialled as typed. The page shows success exactly when the call was placed, and otherwise shows the endpoint's explanation. This holds for the corrected handler `PhoneForm.HandleSubmitReadingError` (see "## Findings"), not for the page as written. |
| PageServer.ServerExplanationLost | frontend/src/App.js:33-34 | With the page as written, a failed call creation shows the generic "Failed to request call". The endpoint's `error` explanation is different and is never shown. |
| Scenarios.FollowUpQuestion | backend/app.py:276-325 | On a new call, a first reply without markers stays with the first agent. It is recorded and played as it is, and the gateway then listens. |
| Scenarios.StayingTurn | backend/app.py:313-325 | A first answered utterance without the hand-over marker keeps the agent, raises the count to one, and plays the recorded response. |
| Scenarios.SecondAnswerHandsOver | backend/app.py:282-302 | The first agent's second answered utterance hands over to the second agent whatever the reply says. The count is fresh and the transition line is played. |
| Scenarios.GenerationTimeout | backend/app.py:327-334 | A language-model failure keeps the table unchanged and plays the apology in the agent's voice, then hangs up. |
| Scenarios.EmptyNumberRefused | backend/app.py:356-357 | An empty number is refused with status 400, and no call is placed. |
| Scenarios.FormattedNumber | frontend/src/App.js:16-17 | `+1 (415) 555-2671` reads as `14155552671`, and both forms pass. |
| Scenarios.RefusedNumbers | frontend/src/App.js:16-17 | A leading zero, the single digit of `+7` and sixteen digits are all refused. |

## Left out

- HTTP, Flask, TwiML rendering and the XML the gateway receives are left out. A response is the abstract list of verbs in `Directives.Verb`. The `Gather` options (speech input, `/voice` action, `en-GB`) are constants of the verb.
- The Gemini, ElevenLabs and Twilio calls are left out. Their outcomes are parameters: `Reply`, the `synthesized` flag and the `placed` call id.
- Only one synthesis outcome per response is modelled: the one whose response reaches the caller. On a hand-over, the outgoing agent's feedback is synthesised at backend/app.py:294, but that response is discarded, so its outcome is not a parameter.
- Prompt construction (backend/app.py:266-267) and the agents' prompt texts are left out. The language model is not modelled, so the prompt only reaches it.
- Audio file writing, uuid file names, the five-minute clean-up timer and `serve_audio` are left out. They are file-system side effects that do not change the response.
- Failures other than the ones modelled are left out. An exception from writing the audio file is one; a missing voice configuration is another. So is any other failure inside the turn after the history was appended.
- `datetime.now()` is the parameter `now`, and the `From` value is an `Option<string>`.
- A request without a `CallSid` (the key `None` in the table) is not distinguished from a call id string.
- Concurrent webhooks for the same call are left out. Each handler is modelled as one atomic step on the table, and the code has no locking.
- A `phone_number` member that is not a string is left out. A falsy non-string such as `0` or `false` is one case; a truthy non-string handed to the gateway is another. `RequestBody` has a string or no member.
- A JSON error body that parses to `null` is left out. Such a body makes the page's `errorData.message` throw a `TypeError`, and that error's own message is then shown.
- React's state batching and the rendering of the page are left out. `HandleSubmit` returns the state shown while the request is pending and the state after it.
- The page's request URL and headers (frontend/src/App.js:24-30) are left out. The model only carries the number it sends.

## Findings

| source | as written | input that shows it | evidently intended | confidence | as-written member | corrected member |
|---|---|---|---|---|---|---|
| frontend/src/App.js:33-34 | The page shows `errorData.message` for an error answer. The endpoint explains its errors in an `error` member (backend/app.py:357 and 373), never in `message`. | A valid number whose call creation fails: the endpoint answers 500 with `error` "Failed to initiate call", and the page shows "Failed to request call". | The page shows the endpoint's explanation, here "Failed to initiate call". | medium, not executed | PageServer.ServerExplanationLost | PhoneForm.HandleSubmitReadingError |

The corrected handler is the one `PageServer.RequestFromPage` uses. It proves
that a failed call creation is shown with the endpoint's own explanation.
