/** The per-call record kept in the in-memory table of active calls. */
module Sessions {
  import opened Options
  import opened Agents

  /** One completed question-response cycle. */
  datatype Entry = Entry(agent: Agent, userInput: string, agentResponse: string)

  /** Set only when the call is registered by the call-started webhook. */
  datatype CallMeta = CallMeta(startTime: int, fromNumber: Option<string>)

  /**
   * `questionCount` counts the current agent's completed cycles; `meta` is
   * `None` for the stand-in record used when a call id is unknown, which has
   * no start time and no caller number.
   */
  datatype Session = Session(agent: Agent, questionCount: nat, history: seq<Entry>, meta: Option<CallMeta>)

  /** The record a call starts with; the clock reading `now` is a parameter. */
  function NewCall(fromNumber: Option<string>, now: int): (s: Session)
    ensures s.agent == Sequence[0] && s.questionCount == 0 && s.history == []
    ensures s.meta == Some(CallMeta(now, fromNumber))
  {
    Session(Market, 0, [], Some(CallMeta(now, fromNumber)))
  }

  /** The stand-in record for a call id the table does not hold. */
  const Fallback: Session := Session(Market, 0, [], None)

  /** How many entries of `h` belong to `a`. */
  function CountOf(h: seq<Entry>, a: Agent): nat
    decreases |h|
  {
    if h == [] then 0
    else CountOf(h[..|h| - 1], a) + (if h[|h| - 1].agent == a then 1 else 0)
  }

  /** Entries are grouped by agent in the order the agents are met. */
  predicate InAgentOrder(h: seq<Entry>) {
    forall i, j :: 0 <= i < j < |h| ==> Index(h[i].agent) <= Index(h[j].agent)
  }
}
