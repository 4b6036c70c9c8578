/**
 * The agent registry: the three interview personas, their fixed order, the
 * display names spoken in transitions and summaries, and their synthesis voices.
 */
module Agents {
  import opened Options

  datatype Agent = Market | Product | Business

  /** The order in which a call meets the agents. */
  const Sequence: seq<Agent> := [Market, Product, Business]

  /** The position of `a` in `Sequence`. */
  function Index(a: Agent): (i: nat)
    ensures i < |Sequence| && Sequence[i] == a
  {
    match a
    case Market => 0
    case Product => 1
    case Business => 2
  }

  /**
   * The agent after `a`, or `None` after the last one: the next agent is
   * always exactly one position later, so the order never goes back and never
   * skips an agent.
   */
  function Next(a: Agent): (r: Option<Agent>)
    ensures r.Some? ==> Index(r.value) == Index(a) + 1
    ensures r.None? <==> Index(a) == |Sequence| - 1
  {
    var i := Index(a);
    if i < |Sequence| - 1 then Some(Sequence[i + 1]) else None
  }

  /** Every agent is reached from the first one by repeated `Next`. */
  lemma {:induction false} SequenceIsChain(i: nat)
    requires i + 1 < |Sequence|
    ensures Next(Sequence[i]) == Some(Sequence[i + 1])
    ensures Next(Sequence[|Sequence| - 1]) == None
  {
    assert Index(Sequence[i]) == i;
  }

  /** The persona's display name (the `name` field of its configuration). */
  function DisplayName(a: Agent): string {
    match a
    case Market => "Market & Feasibility Assistant"
    case Product => "Product & Innovation Assistant"
    case Business => "Business Model & Growth Assistant"
  }

  /** The synthesis voice assigned to the persona. */
  function VoiceId(a: Agent): string {
    match a
    case Market => "UgBBYS2sOqTuMpoF3BR0"
    case Product => "56AoDkrOh6qfVPDXZ7Pt"
    case Business => "21m00Tcm4TlvDq8ikWAM"
  }

  /** Different agents speak with different voices and are announced by different names. */
  lemma AgentsDistinguishable(a: Agent, b: Agent)
    requires a != b
    ensures VoiceId(a) != VoiceId(b)
    ensures DisplayName(a) != DisplayName(b)
  {
    match a
    case Market =>
      assert VoiceId(a)[0] == 'U' && DisplayName(a)[0] == 'M';
    case Product =>
      assert VoiceId(a)[0] == '5' && DisplayName(a)[0] == 'P';
    case Business =>
      assert VoiceId(a)[0] == '2' && DisplayName(a)[0] == 'B';
  }
}
