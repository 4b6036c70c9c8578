/**
 * The closing summary read to the caller after the last agent: a header, one
 * line per transcript entry in transcript order, and a closing thank-you.
 */
module Summary {
  import opened Agents
  import opened Sessions
  import opened Text

  const Header: string := "Based on our discussion, here's what we've learned about your idea:\n"

  const Closing: string :=
    "\n\nThank you for sharing your idea with us! We hope our feedback helps. Have a great day!"

  /** The summary line for one entry: the agent's display name and its recorded response. */
  function Line(e: Entry): string {
    "\n" + DisplayName(e.agent) + ": " + e.agentResponse
  }

  /** `f` applied to every element of `h`, the results joined in order (the summary loop's `+=`). */
  function Concat<T>(h: seq<T>, f: T -> string): string
    decreases |h|
  {
    if h == [] then "" else Concat(h[..|h| - 1], f) + f(h[|h| - 1])
  }

  /** Where the piece of element `i` starts within `Concat(h, f)`. */
  function Offset<T>(h: seq<T>, f: T -> string, i: nat): nat
    requires i <= |h|
  {
    |Concat(h[..i], f)|
  }

  /** The summary lines of a transcript. */
  function Lines(h: seq<Entry>): string {
    Concat(h, Line)
  }

  /** The whole text spoken when the interview ends. */
  function FinalText(h: seq<Entry>): string {
    Header + Lines(h) + Closing
  }

  /** The final text opens with the header and closes with the thank-you. */
  lemma FinalTextFramed(h: seq<Entry>)
    ensures StartsWith(FinalText(h), Header)
    ensures |Closing| <= |FinalText(h)| && FinalText(h)[|FinalText(h)| - |Closing|..] == Closing
  {
    Framed(Header, Lines(h), Closing);
  }

  /** The final text holds each transcript entry's line, whole, at its offset after the header. */
  lemma FinalTextLayout(h: seq<Entry>)
    ensures forall i :: 0 <= i < |h| ==> OccursAt(FinalText(h), Line(h[i]), |Header| + Offset(h, Line, i))
  {
    ConcatLayout(h, Line);
    Framed(Header, Lines(h), Closing);
  }

  /** The parts of `a + b + c` can be read back by position. */
  lemma Framed(a: string, b: string, c: string)
    ensures StartsWith(a + b + c, a)
    ensures (a + b + c)[|a + b + c| - |c|..] == c
    ensures forall k, m :: 0 <= k <= m <= |b| ==> (a + b + c)[|a| + k..|a| + m] == b[k..m]
  {
    var r := a + b + c;
    assert r[..|a|] == a;
    assert r[|r| - |c|..] == c;
  }

  /** Pieces are produced element by element, so the result for a concatenation concatenates. */
  lemma {:induction false} ConcatAppend<T>(a: seq<T>, b: seq<T>, f: T -> string)
    ensures Concat(a + b, f) == Concat(a, f) + Concat(b, f)
    decreases |b|
  {
    if b == [] {
      assert a + b == a;
    } else {
      var b', last := b[..|b| - 1], b[|b| - 1];
      assert (a + b)[..|a + b| - 1] == a + b';
      assert (a + b)[|a + b| - 1] == last;
      ConcatAppend(a, b', f);
    }
  }

  /** Each element's piece sits in `Concat(h, f)` at its offset. */
  lemma ConcatLayout<T>(h: seq<T>, f: T -> string)
    ensures forall i :: 0 <= i < |h| ==>
      Offset(h, f, i) + |f(h[i])| <= |Concat(h, f)| &&
      Concat(h, f)[Offset(h, f, i)..Offset(h, f, i) + |f(h[i])|] == f(h[i])
  {
    forall i | 0 <= i < |h|
      ensures Offset(h, f, i) + |f(h[i])| <= |Concat(h, f)|
      ensures Concat(h, f)[Offset(h, f, i)..Offset(h, f, i) + |f(h[i])|] == f(h[i])
    {
      assert h == h[..i + 1] + h[i + 1..];
      assert h[..i + 1][..i] == h[..i];
      ConcatAppend(h[..i + 1], h[i + 1..], f);
      var front := Concat(h[..i], f) + f(h[i]);
      assert Concat(h, f) == front + Concat(h[i + 1..], f);
      assert Concat(h, f)[Offset(h, f, i)..Offset(h, f, i) + |f(h[i])|] == front[|Concat(h[..i], f)|..];
    }
  }

  lemma {:induction false} OffsetGrows<T>(h: seq<T>, f: T -> string, i: nat, j: nat)
    requires i <= j <= |h|
    ensures Offset(h, f, i) <= Offset(h, f, j)
    decreases j - i
  {
    if i < j {
      assert h[..j][..j - 1] == h[..j - 1];
      OffsetGrows(h, f, i, j - 1);
    }
  }

  /** The piece of an earlier element ends before the piece of a later element begins. */
  lemma PiecesInOrder<T>(h: seq<T>, f: T -> string, i: nat, j: nat)
    requires i < j <= |h|
    ensures Offset(h, f, i) + |f(h[i])| <= Offset(h, f, j)
  {
    assert h[..i + 1][..i] == h[..i];
    assert Offset(h, f, i + 1) == Offset(h, f, i) + |f(h[i])|;
    OffsetGrows(h, f, i + 1, j);
  }

  /**
   * In the final text, the line for an earlier transcript entry (display name
   * and response) is spoken, whole, before the line for any later one.
   */
  lemma SummaryInOrder(h: seq<Entry>, i: nat, j: nat)
    requires i < j < |h|
    ensures OccursAt(FinalText(h), Line(h[i]), |Header| + Offset(h, Line, i))
    ensures OccursAt(FinalText(h), Line(h[j]), |Header| + Offset(h, Line, j))
    ensures |Header| + Offset(h, Line, i) + |Line(h[i])| <= |Header| + Offset(h, Line, j)
  {
    FinalTextLayout(h);
    PiecesInOrder(h, Line, i, j);
  }
}
