/**
 * The web page and the outbound-call endpoint together: the page sends the
 * number as typed in a `phone_number` member, and reads the endpoint's JSON
 * answer.
 */
module PageServer {
  import opened Options
  import opened PhoneForm
  import opened Webhooks

  /** How the page's request reads the endpoint's answer: success is a 2xx status. */
  function Delivered(j: JsonReply): (o: FetchOutcome)
    ensures o.Answered? && o.body.Readable?
    ensures o.ok <==> 200 <= j.status < 300
    ensures o.body.message == j.message && o.body.error == j.error
  {
    Answered(200 <= j.status < 300, Readable(j.message, j.error))
  }

  /** A submission from the page and, when a request was sent, what the endpoint did with it. */
  datatype PageCall = PageCall(submission: Submission, endpoint: Option<CallRequestOutcome>)

  /**
   * Submitting `phone` on the page; `placed` is what the gateway's call
   * creation returns when the endpoint asks it.
   */
  function RequestFromPage(before: FormState, phone: string, placed: Option<string>): (r: PageCall)
    // The endpoint hears of the number exactly when the page accepts it.
    ensures r.endpoint.Some? <==> IsValidPhone(phone)
    // A number the page accepts is never refused as missing: it is dialled as typed.
    ensures r.endpoint.Some? ==> r.endpoint.value.reply != MissingNumber && r.endpoint.value.dialed == Some(phone)
    // The page reports success exactly when the gateway placed the call.
    ensures r.submission.final.success <==> IsValidPhone(phone) && placed.Some?
    // A failed call creation is reported with the endpoint's own explanation.
    ensures IsValidPhone(phone) && placed.None? ==>
              r.submission.final.error == Encode(InitiationFailed).error.value
  {
    if !IsValidPhone(phone) then
      PageCall(HandleSubmitReadingError(before, phone, NetworkError("")), None)
    else
      ValidPhoneIff(phone);
      var endpoint := RequestCall(Object(Some(phone)), placed);
      var sub := HandleSubmitReadingError(before, phone, Delivered(Encode(endpoint.reply)));
      PageCall(sub, Some(endpoint))
  }

  /**
   * The page as written reads only the `message` member of an error answer,
   * while the endpoint explains its errors in an `error` member: a failed call
   * creation is reported with the page's generic message instead.
   */
  lemma ServerExplanationLost(before: FormState, phone: string, placed: Option<string>)
    requires IsValidPhone(phone) && placed.None?
    ensures var j := Encode(RequestCall(Object(Some(phone)), placed).reply);
            HandleSubmit(before, phone, Delivered(j)).final.error == RequestFailedMessage
            && j.error.Some? && j.error.value != RequestFailedMessage
  {
    ValidPhoneIff(phone);
    var j := Encode(RequestCall(Object(Some(phone)), placed).reply);
    assert j == Encode(InitiationFailed);
    assert j.error.value[10] != RequestFailedMessage[10];
  }
}
