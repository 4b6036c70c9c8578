/**
 * The three string operations the turn logic applies to a model reply:
 * Python's `needle in haystack`, `str.replace(old, "")` and `str.strip()`.
 */
module Text {

  /** Python's `str.isspace()` on one character: the set `str.strip()` removes by default. */
  predicate IsSpace(c: char) {
    || ('\t' <= c <= '\r')              // tab, line feed, vertical tab, form feed, carriage return
    || ('\U{1c}' <= c <= '\U{1f}')      // file, group, record and unit separators
    || c == ' '
    || c == '\U{85}' || c == '\U{a0}' || c == '\U{1680}'
    || ('\U{2000}' <= c <= '\U{200a}')
    || c == '\U{2028}' || c == '\U{2029}' || c == '\U{202f}' || c == '\U{205f}' || c == '\U{3000}'
  }

  predicate AllSpace(s: string) {
    forall i :: 0 <= i < |s| ==> IsSpace(s[i])
  }

  /** Neither end of `s` is whitespace. */
  predicate Trimmed(s: string) {
    s == [] || (!IsSpace(s[0]) && !IsSpace(s[|s| - 1]))
  }

  predicate StartsWith(s: string, prefix: string) {
    |prefix| <= |s| && s[..|prefix|] == prefix
  }

  /** Python's `needle in s`: some position of `s` starts an occurrence of `needle`. */
  predicate Contains(s: string, needle: string)
    decreases |s|
  {
    StartsWith(s, needle) || (s != [] && Contains(s[1..], needle))
  }

  /** A contained needle is no longer than the text. */
  lemma {:induction false} ContainsFits(s: string, needle: string)
    ensures Contains(s, needle) ==> |needle| <= |s|
    decreases |s|
  {
    if s != [] {
      ContainsFits(s[1..], needle);
    }
  }

  /** An occurrence of `needle` in `s` begins at position `i`. */
  predicate OccursAt(s: string, needle: string, i: int) {
    0 <= i <= |s| - |needle| && s[i..i + |needle|] == needle
  }

  /** `Contains` agrees with the positional definition of a substring occurrence. */
  lemma {:induction false} ContainsIff(s: string, needle: string)
    ensures Contains(s, needle) <==> exists i :: OccursAt(s, needle, i)
    decreases |s|
  {
    if StartsWith(s, needle) {
      assert s[0..0 + |needle|] == needle;
      assert OccursAt(s, needle, 0);
    } else if s == [] {
    } else {
      ContainsIff(s[1..], needle);
      if Contains(s[1..], needle) {
        var i :| OccursAt(s[1..], needle, i);
        assert s[i + 1..i + 1 + |needle|] == s[1..][i..i + |needle|];
        assert OccursAt(s, needle, i + 1);
      }
      if exists i :: OccursAt(s, needle, i) {
        var i :| OccursAt(s, needle, i);
        assert i != 0;
        assert s[1..][i - 1..i - 1 + |needle|] == s[i..i + |needle|];
        assert OccursAt(s[1..], needle, i - 1);
      }
    }
  }

  /** A text without the needle's first character does not contain the needle. */
  lemma AbsentHeadNotContained(s: string, needle: string)
    requires needle != []
    requires forall i :: 0 <= i < |s| ==> s[i] != needle[0]
    ensures !Contains(s, needle)
  {
    ContainsIff(s, needle);
    forall i
      ensures !OccursAt(s, needle, i)
    {
      if 0 <= i && i + |needle| <= |s| {
        assert s[i..i + |needle|][0] == s[i];
      }
    }
  }

  /**
   * Python's `s.replace(needle, "")`: scanning left to right, every occurrence
   * of `needle` that does not overlap an occurrence already removed is dropped.
   */
  function RemoveAll(s: string, needle: string): (r: string)
    requires needle != []
    ensures |r| <= |s|
    ensures !Contains(s, needle) ==> r == s
    decreases |s|
  {
    if s == [] then []
    else if StartsWith(s, needle) then RemoveAll(s[|needle|..], needle)
    else [s[0]] + RemoveAll(s[1..], needle)
  }

  /**
   * The removal keeps the text before the leftmost occurrence, drops that
   * occurrence, and carries on after it. With the marker-free case of the
   * contract of `RemoveAll`, this determines the result.
   */
  lemma RemoveAllFirstOccurrence(s: string, needle: string, i: nat)
    requires needle != [] && OccursAt(s, needle, i)
    requires forall j :: 0 <= j < i ==> !OccursAt(s, needle, j)
    ensures RemoveAll(s, needle) == s[..i] + RemoveAll(s[i + |needle|..], needle)
  {
    NoneBeforeIff(s, needle, i);
    RemoveAllAtFirst(s, needle, i);
  }

  /** No occurrence of `needle` starts in `s` before position `i`, stated position by position. */
  predicate NoneBefore(s: string, needle: string, i: nat)
    decreases i
  {
    i == 0 || (s != [] && !StartsWith(s, needle) && NoneBefore(s[1..], needle, i - 1))
  }

  lemma {:induction false} NoneBeforeIff(s: string, needle: string, i: nat)
    requires i <= |s|
    requires forall j :: 0 <= j < i ==> !OccursAt(s, needle, j)
    ensures NoneBefore(s, needle, i)
    decreases i
  {
    if i > 0 {
      assert !OccursAt(s, needle, 0);
      assert !StartsWith(s, needle) by {
        if |needle| <= |s| {
          assert s[..|needle|] == s[0..0 + |needle|];
        }
      }
      var t := s[1..];
      forall j | 0 <= j < i - 1
        ensures !OccursAt(t, needle, j)
      {
        assert !OccursAt(s, needle, j + 1);
        if j + |needle| <= |t| {
          assert t[j..j + |needle|] == s[j + 1..j + 1 + |needle|];
        }
      }
      NoneBeforeIff(t, needle, i - 1);
    }
  }

  lemma {:induction false} RemoveAllAtFirst(s: string, needle: string, i: nat)
    requires needle != [] && OccursAt(s, needle, i) && NoneBefore(s, needle, i)
    ensures RemoveAll(s, needle) == s[..i] + RemoveAll(s[i + |needle|..], needle)
    decreases i
  {
    if i == 0 {
      RemoveAllLeadingOccurrence(s, needle);
    } else {
      var t := s[1..];
      RemoveAllPastHead(s, needle);
      OccursAtTail(s, needle, i);
      RemoveAllAtFirst(t, needle, i - 1);
      RemoveAllOfTail(s, needle, i);
      ConsPrefix(s, i, RemoveAll(s, needle), RemoveAll(t, needle),
                 RemoveAll(t[i - 1 + |needle|..], needle), RemoveAll(s[i + |needle|..], needle));
    }
  }

  /** An occurrence at the very start is dropped. */
  lemma RemoveAllLeadingOccurrence(s: string, needle: string)
    requires needle != [] && OccursAt(s, needle, 0)
    ensures RemoveAll(s, needle) == s[..0] + RemoveAll(s[0 + |needle|..], needle)
  {
    assert StartsWith(s, needle) by { assert s[..|needle|] == s[0..0 + |needle|]; }
    assert s[..0] + RemoveAll(s[|needle|..], needle) == RemoveAll(s[|needle|..], needle);
  }

  lemma OccursAtTail(s: string, needle: string, i: nat)
    requires 0 < i && OccursAt(s, needle, i)
    ensures OccursAt(s[1..], needle, i - 1)
  {
    assert s[1..][i - 1..i - 1 + |needle|] == s[i..i + |needle|];
  }

  lemma RemoveAllOfTail(s: string, needle: string, i: nat)
    requires needle != [] && 0 < i && i + |needle| <= |s|
    ensures RemoveAll(s[1..][i - 1 + |needle|..], needle) == RemoveAll(s[i + |needle|..], needle)
  {
    assert s[1..][i - 1 + |needle|..] == s[i + |needle|..];
  }

  /** A first character that starts no occurrence is kept. */
  lemma RemoveAllPastHead(s: string, needle: string)
    requires needle != [] && s != [] && !StartsWith(s, needle)
    ensures RemoveAll(s, needle) == [s[0]] + RemoveAll(s[1..], needle)
  {
  }

  /** A result built from the first character of `s` and a result for the rest of `s`. */
  lemma ConsPrefix(s: string, i: nat, r: string, tailResult: string, a: string, b: string)
    requires 0 < i <= |s|
    requires r == [s[0]] + tailResult && tailResult == s[1..][..i - 1] + a && a == b
    ensures r == s[..i] + b
  {
    assert [s[0]] + s[1..][..i - 1] == s[..i];
  }

  /** A character that does not start an occurrence is kept in front of the rest. */
  lemma RemoveAllKeepsHead(c: char, rest: string, needle: string)
    requires needle != [] && !StartsWith([c] + rest, needle)
    ensures RemoveAll([c] + rest, needle) == [c] + RemoveAll(rest, needle)
  {
    assert ([c] + rest)[1..] == rest;
  }

  /** Text without the needle's first character passes through unchanged. */
  lemma {:induction false} RemoveAllSkipsPlainPrefix(a: string, b: string, needle: string)
    requires needle != []
    requires forall i :: 0 <= i < |a| ==> a[i] != needle[0]
    ensures RemoveAll(a + b, needle) == a + RemoveAll(b, needle)
    decreases |a|
  {
    if a == [] {
      assert a + b == b;
    } else {
      var rest := a[1..] + b;
      assert a + b == [a[0]] + rest;
      assert !StartsWith([a[0]] + rest, needle) by {
        assert ([a[0]] + rest)[0] != needle[0];
      }
      RemoveAllKeepsHead(a[0], rest, needle);
      RemoveAllSkipsPlainPrefix(a[1..], b, needle);
      calc {
        RemoveAll(a + b, needle);
        RemoveAll([a[0]] + rest, needle);
        [a[0]] + RemoveAll(rest, needle);
        [a[0]] + (a[1..] + RemoveAll(b, needle));
        { assert [a[0]] + a[1..] == a; }
        a + RemoveAll(b, needle);
      }
    }
  }

  /** No proper prefix of `p` is also a suffix of `p`, so two occurrences of `p` can never overlap. */
  predicate BorderFree(p: string) {
    forall k :: 0 < k < |p| ==> p[..k] != p[|p| - k..]
  }

  /** Before a trailing border-free marker, marker-free text cannot start an occurrence. */
  lemma NoMatchBeforeMarker(t: string, marker: string)
    requires t != [] && BorderFree(marker)
    requires !Contains(t, marker)
    ensures !StartsWith(t + marker, marker)
  {
    var s := t + marker;
    if |t| >= |marker| {
      assert s[..|marker|] == t[..|marker|];
    } else {
      var k := |marker| - |t|;
      assert marker[..k] != marker[|marker| - k..];
      assert s[..|marker|][|t|..] == marker[..k];
    }
  }

  /**
   * A reply that is marker-free text followed by one border-free marker loses
   * exactly that marker.
   */
  lemma {:induction false} RemoveTrailingMarker(t: string, marker: string)
    requires marker != [] && BorderFree(marker)
    requires !Contains(t, marker)
    ensures RemoveAll(t + marker, marker) == t
    decreases |t|
  {
    var s := t + marker;
    if t == [] {
      assert s == marker;
      assert StartsWith(s, marker);
      assert s[|marker|..] == [];
    } else {
      NoMatchBeforeMarker(t, marker);
      assert s[1..] == t[1..] + marker;
      RemoveTrailingMarker(t[1..], marker);
    }
  }

  /** Python's `str.lstrip()`: drops the leading whitespace. */
  function LStrip(s: string): (r: string)
    ensures |r| <= |s| && r == s[|s| - |r|..]
    ensures AllSpace(s[..|s| - |r|])
    ensures r == [] || !IsSpace(r[0])
    decreases |s|
  {
    if s != [] && IsSpace(s[0]) then
      var r := LStrip(s[1..]);
      LStripStep(s, r);
      r
    else s
  }

  lemma LStripStep(s: string, r: string)
    requires s != [] && IsSpace(s[0])
    requires |r| <= |s| - 1 && r == s[1..][|s| - 1 - |r|..] && AllSpace(s[1..][..|s| - 1 - |r|])
    ensures r == s[|s| - |r|..] && AllSpace(s[..|s| - |r|])
  {
    var k := |s| - |r|;
    assert s[1..][k - 1..] == s[k..];
    forall j | 0 <= j < k
      ensures IsSpace(s[..k][j])
    {
      if j > 0 {
        assert s[..k][j] == s[1..][..k - 1][j - 1];
      }
    }
  }

  /** Python's `str.rstrip()`: drops the trailing whitespace. */
  function RStrip(s: string): (r: string)
    ensures |r| <= |s| && r == s[..|r|]
    ensures AllSpace(s[|r|..])
    ensures r == [] || !IsSpace(r[|r| - 1])
    decreases |s|
  {
    if s != [] && IsSpace(s[|s| - 1]) then
      var r := RStrip(s[..|s| - 1]);
      RStripStep(s, r);
      r
    else s
  }

  lemma RStripStep(s: string, r: string)
    requires s != [] && IsSpace(s[|s| - 1])
    requires |r| <= |s| - 1 && r == s[..|s| - 1][..|r|] && AllSpace(s[..|s| - 1][|r|..])
    ensures r == s[..|r|] && AllSpace(s[|r|..])
  {
    assert s[..|s| - 1][..|r|] == s[..|r|];
    forall j | 0 <= j < |s| - |r|
      ensures IsSpace(s[|r|..][j])
    {
      if j < |s| - 1 - |r| {
        assert s[|r|..][j] == s[..|s| - 1][|r|..][j];
      }
    }
  }

  /** `s` is whitespace, then `r` from position `i`, then whitespace. */
  predicate SplitsAround(s: string, r: string, i: int) {
    0 <= i <= |s| - |r| && s[i..i + |r|] == r && AllSpace(s[..i]) && AllSpace(s[i + |r|..])
  }

  /** Python's `str.strip()`: the middle of `s` between its leading and trailing whitespace. */
  function Strip(s: string): (r: string)
    ensures Trimmed(r)
    ensures exists i :: SplitsAround(s, r, i)
  {
    var l := LStrip(s);
    var r := RStrip(l);
    StripSplits(s, l, r);
    r
  }

  /** Leading whitespace cut off `s` leaves `l`, trailing whitespace cut off `l` leaves `r`. */
  lemma StripSplits(s: string, l: string, r: string)
    requires |l| <= |s| && l == s[|s| - |l|..] && AllSpace(s[..|s| - |l|]) && (l == [] || !IsSpace(l[0]))
    requires |r| <= |l| && r == l[..|r|] && AllSpace(l[|r|..]) && (r == [] || !IsSpace(r[|r| - 1]))
    ensures Trimmed(r) && SplitsAround(s, r, |s| - |l|)
  {
    var i := |s| - |l|;
    assert s[i..] == l;
    assert s[i..i + |r|] == r by {
      forall k | 0 <= k < |r|
        ensures s[i..i + |r|][k] == r[k]
      {
        assert s[i..i + |r|][k] == s[i + k] == l[k];
      }
    }
    assert s[i + |r|..] == l[|r|..];
    assert AllSpace(s[..i]) && AllSpace(s[i + |r|..]);
    if r != [] {
      assert r[0] == l[0];
    }
  }

  lemma {:induction false} LStripSpacePrefix(a: string, u: string)
    requires AllSpace(a)
    requires u == [] || !IsSpace(u[0])
    ensures LStrip(a + u) == u
    decreases |a|
  {
    if a == [] {
      assert a + u == u;
    } else {
      assert (a + u)[1..] == a[1..] + u;
      LStripSpacePrefix(a[1..], u);
    }
  }

  lemma {:induction false} RStripSpaceSuffix(u: string, b: string)
    requires AllSpace(b)
    requires u == [] || !IsSpace(u[|u| - 1])
    ensures RStrip(u + b) == u
    decreases |b|
  {
    if b == [] {
      assert u + b == u;
    } else {
      assert (u + b)[..|u + b| - 1] == u + b[..|b| - 1];
      RStripSpaceSuffix(u, b[..|b| - 1]);
    }
  }

  /**
   * `Strip` is the only way to cut `s` into whitespace, trimmed text,
   * whitespace: together with the contract of `Strip`, this characterises it.
   */
  lemma StripUnique(a: string, t: string, b: string)
    requires AllSpace(a) && AllSpace(b) && Trimmed(t)
    ensures Strip(a + t + b) == t
  {
    if t == [] {
      assert a + t + b == (a + b) + [];
      assert AllSpace(a + b);
      LStripSpacePrefix(a + b, []);
    } else {
      assert a + t + b == a + (t + b);
      LStripSpacePrefix(a, t + b);
      RStripSpaceSuffix(t, b);
    }
  }
}
