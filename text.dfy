/** Option type shared by the lookups of the model. */
module Wrappers {
  datatype Option<+T> = None | Some(value: T)
}

/**
 * The string operations the chat bot relies on: Python's substring test
 * `t in s`, `str.lower()` and `str.strip()`, restricted to ASCII.
 */
module Text {

  /** `t` is a prefix of `s`. */
  predicate IsPrefix(t: string, s: string) {
    |t| <= |s| && s[..|t|] == t
  }

  /** `t` occurs in `s` starting at position `i`. */
  predicate OccursAt(s: string, t: string, i: int) {
    0 <= i && i + |t| <= |s| && s[i..i + |t|] == t
  }

  /** Python's `t in s` for strings: a search from the left, one start position at a time. */
  predicate Contains(s: string, t: string)
    decreases |s|
  {
    IsPrefix(t, s) || (|s| > 0 && Contains(s[1..], t))
  }

  /** The search agrees with the positional definition of a substring, in both directions. */
  lemma {:induction false} ContainsIff(s: string, t: string)
    ensures Contains(s, t) <==> exists i :: OccursAt(s, t, i)
    decreases |s|
  {
    if IsPrefix(t, s) {
      assert OccursAt(s, t, 0);
    } else if |s| == 0 {
      assert forall i :: !OccursAt(s, t, i);
    } else {
      ContainsIff(s[1..], t);
      forall i | OccursAt(s[1..], t, i) ensures OccursAt(s, t, i + 1) {
        assert s[i + 1..i + 1 + |t|] == s[1..][i..i + |t|];
      }
      forall i | OccursAt(s, t, i) ensures OccursAt(s[1..], t, i - 1) {
        assert s[1..][i - 1..i - 1 + |t|] == s[i..i + |t|];
      }
    }
  }

  /** A witness position is enough to show containment. */
  lemma ContainsWitness(s: string, t: string, i: int)
    requires OccursAt(s, t, i)
    ensures Contains(s, t)
  {
    ContainsIff(s, t);
  }

  /** `any(k in text for k in keys)`: some keyword of the list is a substring of the text. */
  predicate MentionsAny(text: string, keys: seq<string>) {
    exists i :: 0 <= i < |keys| && Contains(text, keys[i])
  }

  /** ASCII lower-casing of one character. */
  function LowerChar(c: char): char {
    if 'A' <= c <= 'Z' then (c as int + 32) as char else c
  }

  /** `str.lower()` on the ASCII range: every character lower-cased, nothing else changed. */
  function Lower(s: string): (r: string)
    ensures |r| == |s|
    ensures forall i :: 0 <= i < |s| ==> r[i] == LowerChar(s[i])
  {
    if s == [] then [] else [LowerChar(s[0])] + Lower(s[1..])
  }

  /** Lower-casing twice is lower-casing once. */
  lemma LowerIdempotent(s: string)
    ensures Lower(Lower(s)) == Lower(s)
  {
    assert forall i :: 0 <= i < |s| ==> LowerChar(LowerChar(s[i])) == LowerChar(s[i]);
  }

  /** The characters `str.strip()` removes that lie in the ASCII range. */
  predicate IsSpace(c: char) {
    c == ' ' || ('\t' <= c <= '\r') || ('\U{1C}' <= c <= '\U{1F}')
  }

  /** Drops leading white space: the result is a suffix of `s` and only spaces were dropped. */
  function TrimLeft(s: string): (r: string)
    ensures |r| <= |s| && r == s[|s| - |r|..]
    ensures forall k :: 0 <= k < |s| - |r| ==> IsSpace(s[k])
    ensures r != [] ==> !IsSpace(r[0])
  {
    if s != [] && IsSpace(s[0]) then TrimLeft(s[1..]) else s
  }

  /** Drops trailing white space: the result is a prefix of `s` and only spaces were dropped. */
  function TrimRight(s: string): (r: string)
    ensures |r| <= |s| && r == s[..|r|]
    ensures forall k :: |r| <= k < |s| ==> IsSpace(s[k])
    ensures r != [] ==> !IsSpace(r[|r| - 1])
  {
    if s != [] && IsSpace(s[|s| - 1]) then TrimRight(s[..|s| - 1]) else s
  }

  /** `s` is `r` at position `i` with only white space around it. */
  predicate PaddedAt(s: string, r: string, i: int) {
    OccursAt(s, r, i) && forall k :: 0 <= k < |s| && !(i <= k < i + |r|) ==> IsSpace(s[k])
  }

  /**
   * `str.strip()`: the result is a contiguous piece of `s`, everything outside it
   * is white space, and it neither starts nor ends with white space.
   */
  function Strip(s: string): (r: string)
    ensures exists i :: PaddedAt(s, r, i)
    ensures r != [] ==> !IsSpace(r[0]) && !IsSpace(r[|r| - 1])
  {
    var a := TrimLeft(s);
    var r := TrimRight(a);
    TrimmedPadded(s, a, r);
    r
  }

  /** What both trims leave is the input with white space only around it. */
  lemma TrimmedPadded(s: string, a: string, r: string)
    requires |a| <= |s| && a == s[|s| - |a|..] && forall k :: 0 <= k < |s| - |a| ==> IsSpace(s[k])
    requires |r| <= |a| && r == a[..|r|] && forall k :: |r| <= k < |a| ==> IsSpace(a[k])
    ensures PaddedAt(s, r, |s| - |a|)
  {
    var i := |s| - |a|;
    assert s[i..i + |r|] == r;
    forall k | 0 <= k < |s| && !(i <= k < i + |r|) ensures IsSpace(s[k]) {
      if k >= i {
        assert s[k] == a[k - i];
      }
    }
  }

  /** Stripping a stripped string changes nothing. */
  lemma StripIdempotent(s: string)
    ensures Strip(Strip(s)) == Strip(s)
  {
    var r := Strip(s);
    if r != [] {
      assert TrimLeft(r) == r;
      assert TrimRight(r) == r;
    }
  }

  /** The inbound text as the webhook sees it: lower-cased, then stripped. */
  function Normalize(body: string): string {
    Strip(Lower(body))
  }

  /** Normalised text is already lower case. */
  lemma NormalizeIsLower(body: string)
    ensures Lower(Normalize(body)) == Normalize(body)
  {
    PieceOfLowerIsLower(body, Strip(Lower(body)));
  }

  /** Normalised text is already stripped. */
  lemma NormalizeIsStripped(body: string)
    ensures Strip(Normalize(body)) == Normalize(body)
  {
    StripIdempotent(Lower(body));
  }

  /** Any piece of a lower-cased string is itself lower case. */
  lemma PieceOfLowerIsLower(body: string, r: string)
    requires exists i :: OccursAt(Lower(body), r, i)
    ensures Lower(r) == r
  {
    var low := Lower(body);
    var i :| OccursAt(low, r, i);
    forall k | 0 <= k < |r| ensures Lower(r)[k] == r[k] {
      assert r[k] == low[i + k] == LowerChar(body[i + k]);
    }
  }
}
