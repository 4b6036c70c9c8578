/**
 * The web page's call-request form: the phone-number check made before
 * anything is sent, and the error / success / loading state the form shows.
 */
module PhoneForm {
  import opened Options

  /** An ASCII decimal digit, the only characters the pattern's `\d` matches. */
  predicate IsDigit(c: char) {
    '0' <= c <= '9'
  }

  predicate AllDigits(s: string) {
    forall i :: 0 <= i < |s| ==> IsDigit(s[i])
  }

  /** The input with every non-digit removed, the rest kept in order. */
  function Digits(s: string): (r: string)
    ensures AllDigits(r) && |r| <= |s|
    decreases |s|
  {
    if s == [] then []
    else (if IsDigit(s[0]) then [s[0]] else []) + Digits(s[1..])
  }

  /** Removing non-digits commutes with concatenation. */
  lemma {:induction false} DigitsAppend(a: string, b: string)
    ensures Digits(a + b) == Digits(a) + Digits(b)
    decreases |a|
  {
    if a != [] {
      assert (a + b)[0] == a[0] && (a + b)[1..] == a[1..] + b;
      DigitsAppend(a[1..], b);
      assert Digits(a + b) == (if IsDigit(a[0]) then [a[0]] else []) + (Digits(a[1..]) + Digits(b));
    } else {
      assert a + b == b;
    }
  }

  /** A string of digits is left as it is, so removing non-digits twice removes nothing more. */
  lemma {:induction false} DigitsOfDigits(s: string)
    requires AllDigits(s)
    ensures Digits(s) == s
    decreases |s|
  {
    if s != [] {
      DigitsOfDigits(s[1..]);
    }
  }

  /** `t` matches `\d{lo,hi}` anchored at its end: between `lo` and `hi` digits and nothing else. */
  predicate DigitRun(t: string, lo: nat, hi: nat)
    decreases |t|
  {
    if t == [] then lo == 0
    else hi > 0 && IsDigit(t[0]) && DigitRun(t[1..], if lo > 0 then lo - 1 else 0, hi - 1)
  }

  /** `[1-9]\d{1,14}$`: the national number after the optional plus sign. */
  predicate NumberBody(t: string) {
    t != [] && '1' <= t[0] <= '9' && DigitRun(t[1..], 1, 14)
  }

  /** `^\+?[1-9]\d{1,14}$`, an E.164-style number with an optional leading plus sign. */
  predicate PhonePattern(s: string) {
    NumberBody(s) || (s != [] && s[0] == '+' && NumberBody(s[1..]))
  }

  /** The form's check: the pattern applied to the input with its non-digits removed. */
  predicate IsValidPhone(phone: string) {
    PhonePattern(Digits(phone))
  }

  /** On digits, the run pattern only counts them. */
  lemma {:induction false} DigitRunLength(t: string, lo: nat, hi: nat)
    requires AllDigits(t)
    ensures DigitRun(t, lo, hi) <==> lo <= |t| <= hi
    decreases |t|
  {
    if t != [] {
      DigitRunLength(t[1..], if lo > 0 then lo - 1 else 0, if hi > 0 then hi - 1 else 0);
    }
  }

  /**
   * The check reduces to a length and a first digit: after removing
   * non-digits, 2 to 15 digits of which the first is not `0`. The plus sign of
   * the pattern can never match, because it has already been removed.
   */
  lemma ValidPhoneIff(phone: string)
    ensures IsValidPhone(phone) <==> 2 <= |Digits(phone)| <= 15 && Digits(phone)[0] != '0'
    ensures IsValidPhone(phone) <==> NumberBody(Digits(phone))
  {
    var d := Digits(phone);
    if d != [] {
      DigitRunLength(d[1..], 1, 14);
      assert d[0] != '+';
    }
  }

  /** Formatting characters anywhere in the input do not change the verdict. */
  lemma FormattingIgnored(a: string, c: char, b: string)
    requires !IsDigit(c)
    ensures Digits(a + [c] + b) == Digits(a + b)
    ensures IsValidPhone(a + [c] + b) <==> IsValidPhone(a + b)
  {
    DigitsAppend(a + [c], b);
    DigitsAppend(a, [c]);
    DigitsAppend(a, b);
    assert Digits([c]) == [] + Digits([]);
  }

  /** The verdict depends only on the digits: inputs with the same digits get the same verdict. */
  lemma SameDigitsSameVerdict(p: string, q: string)
    requires Digits(p) == Digits(q)
    ensures IsValidPhone(p) <==> IsValidPhone(q)
  {
  }

  /** Shown when the number is refused. */
  const InvalidNumberMessage: string := "Please enter a valid phone number (e.g., +1234567890)"

  /** Shown when the server answers with an error whose body cannot be read. */
  const UnreadableReplyMessage: string := "Failed to request call. Please check the server."

  /** Shown when the server answers with an error but says nothing about it. */
  const RequestFailedMessage: string := "Failed to request call"

  /** Shown when the request fails without a message of its own. */
  const NetworkFailureMessage: string := "Failed to request call. Please try again later."

  /** What the form shows. */
  datatype FormState = FormState(error: string, success: bool, isLoading: bool)

  /** The state while a submission is being handled: no error, no success, loading. */
  const Pending: FormState := FormState("", false, true)

  /** The JSON body of an error answer: unreadable, or an object with its `message` and `error` members. */
  datatype ErrorBody = Unreadable | Readable(message: Option<string>, error: Option<string>)

  /**
   * What the request to the server came to: an answer, with whether its status
   * was a success and its body, or a failure of the request itself.
   */
  datatype FetchOutcome = Answered(ok: bool, body: ErrorBody) | NetworkError(message: string)

  /**
   * `x || fallback` in the page's script for a string member: the member when it
   * is present and not empty, else the fallback.
   */
  function OrElse(x: Option<string>, fallback: string): (r: string)
    ensures x.Some? && x.value != "" ==> r == x.value
    ensures x.None? || x.value == "" ==> r == fallback
  {
    if x.Some? && x.value != "" then x.value else fallback
  }

  /** The error shown for an error answer, as the page reads it: only the `message` member. */
  function AnswerError(body: ErrorBody): (m: string)
    ensures m != ""
    ensures body.Readable? && body.message.Some? && body.message.value != "" ==> m == body.message.value
    ensures body.Readable? && (body.message.None? || body.message.value == "") ==> m == RequestFailedMessage
  {
    match body
    case Unreadable => UnreadableReplyMessage
    case Readable(message, _) => OrElse(message, RequestFailedMessage)
  }

  /**
   * The error shown for an error answer when the server's `error` member is
   * read as well: the server's explanation first, then `message`.
   */
  function AnswerErrorReadingError(body: ErrorBody): (m: string)
    ensures m != ""
    ensures body.Readable? && body.error.Some? && body.error.value != "" ==> m == body.error.value
    ensures body.Readable? && (body.error.None? || body.error.value == "") ==> m == AnswerError(body)
  {
    match body
    case Unreadable => UnreadableReplyMessage
    case Readable(message, error) => OrElse(error, OrElse(message, RequestFailedMessage))
  }

  /**
   * One submission: the state shown while it is handled, the state it ends
   * in, and the number sent to the server, if any.
   */
  datatype Submission = Submission(pending: FormState, final: FormState, request: Option<string>)

  /** The handler's steps; `answerError` is what an error answer is shown with. */
  function Submit(phone: string, outcome: FetchOutcome, answerError: string): Submission {
    if !IsValidPhone(phone) then Submission(Pending, FormState(InvalidNumberMessage, false, false), None)
    else
      var final := match outcome
        case Answered(ok, _) =>
          if ok then FormState("", true, false) else FormState(answerError, false, false)
        case NetworkError(message) =>
          FormState(OrElse(Some(message), NetworkFailureMessage), false, false);
      Submission(Pending, final, Some(phone))
  }

  /**
   * The form's submit handler. Nothing of the state before the submission
   * survives it. `outcome` is what the request came to when one is sent.
   */
  function HandleSubmit(before: FormState, phone: string, outcome: FetchOutcome): (r: Submission)
    // Every submission starts by clearing the error and the success flag and showing the loading state.
    ensures r.pending == Pending
    // A number is sent, as typed, exactly when it passes the check.
    ensures r.request.Some? <==> IsValidPhone(phone)
    ensures r.request.Some? ==> r.request.value == phone
    // A refused number: the fixed message, and nothing sent.
    ensures !IsValidPhone(phone) ==> r.final == FormState(InvalidNumberMessage, false, false)
    // Whatever happens, the form stops loading, and it shows either success or an error.
    ensures !r.final.isLoading
    ensures r.final.success <==> IsValidPhone(phone) && outcome.Answered? && outcome.ok
    ensures r.final.success <==> r.final.error == ""
    ensures IsValidPhone(phone) && outcome.Answered? && !outcome.ok ==> r.final.error == AnswerError(outcome.body)
    ensures IsValidPhone(phone) && outcome.NetworkError? && outcome.message != "" ==> r.final.error == outcome.message
  {
    Submit(phone, outcome, if outcome.Answered? then AnswerError(outcome.body) else "")
  }

  /** The same handler, reading the server's `error` member of an error answer. */
  function HandleSubmitReadingError(before: FormState, phone: string, outcome: FetchOutcome): (r: Submission)
    ensures r.pending == Pending
    ensures r.request.Some? <==> IsValidPhone(phone)
    ensures r.request.Some? ==> r.request.value == phone
    ensures !IsValidPhone(phone) ==> r.final == FormState(InvalidNumberMessage, false, false)
    ensures !r.final.isLoading
    ensures r.final.success <==> IsValidPhone(phone) && outcome.Answered? && outcome.ok
    ensures r.final.success <==> r.final.error == ""
    ensures IsValidPhone(phone) && outcome.Answered? && !outcome.ok ==> r.final.error == AnswerErrorReadingError(outcome.body)
    ensures IsValidPhone(phone) && outcome.NetworkError? && outcome.message != "" ==> r.final.error == outcome.message
  {
    Submit(phone, outcome, if outcome.Answered? then AnswerErrorReadingError(outcome.body) else "")
  }
}
