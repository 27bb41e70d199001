/**
 The string primitives the schedule parser relies on: Python's substring test
 (`needle in haystack`), `str.strip()` with no argument, and the character
 classes used by the class-entry pattern.
 */
module Text {

  /** Python's `str.isspace()`: the characters `str.strip()` removes from both ends. */
  predicate IsSpace(c: char) {
    || ('\t' <= c <= '\r')
    || ('\U{1C}' <= c <= ' ')
    || c == '\U{85}'
    || c == '\U{A0}'
    || c == '\U{1680}'
    || ('\U{2000}' <= c <= '\U{200A}')
    || c == '\U{2028}'
    || c == '\U{2029}'
    || c == '\U{202F}'
    || c == '\U{205F}'
    || c == '\U{3000}'
  }

  predicate IsDigit(c: char) {
    '0' <= c <= '9'
  }

  predicate IsUpper(c: char) {
    'A' <= c <= 'Z'
  }

  /** No character of `s` is whitespace. */
  predicate NoSpace(s: string) {
    forall i :: 0 <= i < |s| ==> !IsSpace(s[i])
  }

  /* ----- substring test ----- */

  predicate IsPrefix(p: string, s: string) {
    |p| <= |s| && s[..|p|] == p
  }

  /** Python's `sub in s`, scanning the start positions of `s` left to right. */
  predicate Contains(s: string, sub: string)
    decreases |s|
  {
    IsPrefix(sub, s) || (|s| > 0 && Contains(s[1..], sub))
  }

  /** `sub` occurs in `s` starting at index `i`. */
  predicate OccursAt(s: string, sub: string, i: int) {
    0 <= i && i + |sub| <= |s| && s[i..i + |sub|] == sub
  }

  /** The scanning definition of `Contains` agrees with "occurs at some index". */
  lemma {:induction false} ContainsIffOccurs(s: string, sub: string)
    ensures Contains(s, sub) <==> exists i :: OccursAt(s, sub, i)
    decreases |s|
  {
    if |s| == 0 {
      if Contains(s, sub) {
        assert OccursAt(s, sub, 0);
      }
    } else {
      ContainsIffOccurs(s[1..], sub);
      if Contains(s, sub) {
        if IsPrefix(sub, s) {
          assert OccursAt(s, sub, 0);
        } else {
          var i :| OccursAt(s[1..], sub, i);
          assert s[1..][i..i + |sub|] == s[i + 1..i + 1 + |sub|];
          assert OccursAt(s, sub, i + 1);
        }
      }
      if exists i :: OccursAt(s, sub, i) {
        var i :| OccursAt(s, sub, i);
        if i == 0 {
          assert IsPrefix(sub, s);
        } else {
          assert s[1..][i - 1..i - 1 + |sub|] == s[i..i + |sub|];
          assert OccursAt(s[1..], sub, i - 1);
        }
      }
    }
  }

  /** A needle holding a character the haystack lacks does not occur in it. */
  lemma AbsentCharRulesOut(s: string, sub: string, k: int)
    requires 0 <= k < |sub|
    requires forall i :: 0 <= i < |s| ==> s[i] != sub[k]
    ensures !Contains(s, sub)
  {
    forall i | 0 <= i && i + |sub| <= |s|
      ensures !OccursAt(s, sub, i)
    {
      assert s[i..i + |sub|][k] == s[i + k];
    }
    ContainsIffOccurs(s, sub);
  }

  /* ----- str.strip() ----- */

  /** Drops the longest all-whitespace prefix. */
  function TrimLeft(s: string): (r: string)
    ensures |r| <= |s| && r == s[|s| - |r|..]
    ensures forall i :: 0 <= i < |s| - |r| ==> IsSpace(s[i])
    ensures r == [] || !IsSpace(r[0])
  {
    if |s| > 0 && IsSpace(s[0]) then TrimLeft(s[1..]) else s
  }

  /** Drops the longest all-whitespace suffix. */
  function TrimRight(s: string): (r: string)
    ensures |r| <= |s| && r == s[..|r|]
    ensures forall i :: |r| <= i < |s| ==> IsSpace(s[i])
    ensures r == [] || !IsSpace(r[|r| - 1])
  {
    if |s| > 0 && IsSpace(s[|s| - 1]) then TrimRight(s[..|s| - 1]) else s
  }

  /** Python's `str.strip()`. */
  function Strip(s: string): (r: string)
    ensures r == [] || (!IsSpace(r[0]) && !IsSpace(r[|r| - 1]))
  {
    TrimRight(TrimLeft(s))
  }

  /** A string whose end characters are not whitespace is its own strip. */
  lemma StripTrimmed(s: string)
    requires s == [] || (!IsSpace(s[0]) && !IsSpace(s[|s| - 1]))
    ensures Strip(s) == s
  {
    assert TrimLeft(s) == s;
  }

  /** `Strip(s)` is the slice of `s` left after removing whitespace from both ends. */
  lemma StripIsSlice(s: string) returns (a: nat, b: nat)
    ensures a <= b <= |s| && Strip(s) == s[a..b]
    ensures forall i :: 0 <= i < a ==> IsSpace(s[i])
    ensures forall i :: b <= i < |s| ==> IsSpace(s[i])
  {
    var t := TrimLeft(s);
    a := |s| - |t|;
    b := a + |Strip(s)|;
    assert Strip(s) == t[..|Strip(s)|];
    assert t[..|Strip(s)|] == s[a..b];
    forall i | b <= i < |s|
      ensures IsSpace(s[i])
    {
      assert s[i] == t[i - a];
    }
  }

  /** An occurrence inside a slice is an occurrence in the whole string. */
  lemma OccursInSlice(s: string, a: nat, b: nat, w: string, i: int)
    requires a <= b <= |s| && OccursAt(s[a..b], w, i)
    ensures OccursAt(s, w, a + i)
  {
    var t := s[a..b];
    var u, v := t[i..i + |w|], s[a + i..a + i + |w|];
    assert forall k :: 0 <= k < |w| ==> u[k] == v[k];
    assert u == v;
  }

  /** An occurrence of a word whose two end characters are not whitespace lies
      between the whitespace prefix and the whitespace suffix. */
  lemma OccursBetweenSpaces(s: string, a: nat, b: nat, w: string, i: int)
    requires a <= b <= |s| && OccursAt(s, w, i) && |w| > 0
    requires !IsSpace(w[0]) && !IsSpace(w[|w| - 1])
    requires forall j :: 0 <= j < a ==> IsSpace(s[j])
    requires forall j :: b <= j < |s| ==> IsSpace(s[j])
    ensures OccursAt(s[a..b], w, i - a)
  {
    assert s[i] == s[i..i + |w|][0];
    assert s[i + |w| - 1] == s[i..i + |w|][|w| - 1];
    var t := s[a..b];
    var u, v := t[i - a..i - a + |w|], s[i..i + |w|];
    assert forall k :: 0 <= k < |w| ==> u[k] == v[k];
    assert u == v;
  }

  /** Stripping never changes whether a non-empty, space-free word occurs in a line. */
  lemma StripKeepsWord(s: string, w: string)
    requires |w| > 0 && NoSpace(w)
    ensures Contains(Strip(s), w) <==> Contains(s, w)
  {
    var a, b := StripIsSlice(s);
    ContainsIffOccurs(s[a..b], w);
    ContainsIffOccurs(s, w);
    if Contains(s[a..b], w) {
      var i :| OccursAt(s[a..b], w, i);
      OccursInSlice(s, a, b, w, i);
    }
    if Contains(s, w) {
      var i :| OccursAt(s, w, i);
      OccursBetweenSpaces(s, a, b, w, i);
    }
  }
}
