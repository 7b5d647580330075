/** The two string operations of the host language's standard library that
    literal decoding relies on: trimming whitespace and find-and-replace. */
module Str {

  /** The Unicode White_Space property, which is what `char::is_whitespace`
      and hence `str::trim` test. */
  predicate IsWhitespace(c: char) {
    ('\t' <= c <= '\r') || c == ' ' || c == '\U{85}' || c == '\U{A0}' || c == '\U{1680}'
    || ('\U{2000}' <= c <= '\U{200A}') || c == '\U{2028}' || c == '\U{2029}'
    || c == '\U{202F}' || c == '\U{205F}' || c == '\U{3000}'
  }

  /** `trim_start`: drop the leading whitespace. */
  function TrimStart(s: string): (r: string)
    ensures |r| <= |s| && r == s[|s| - |r|..]
    ensures forall k :: 0 <= k < |s| - |r| ==> IsWhitespace(s[k])
    ensures r != [] ==> !IsWhitespace(r[0])
  {
    if s != [] && IsWhitespace(s[0]) then TrimStart(s[1..]) else s
  }

  /** `trim_end`: drop the trailing whitespace. */
  function TrimEnd(s: string): (r: string)
    ensures |r| <= |s| && r == s[..|r|]
    ensures forall k :: |r| <= k < |s| ==> IsWhitespace(s[k])
    ensures r != [] ==> !IsWhitespace(r[|r| - 1])
  {
    if s != [] && IsWhitespace(s[|s| - 1]) then TrimEnd(s[..|s| - 1]) else s
  }

  /** `r` is the slice of `s` at `i` that neither starts nor ends with
      whitespace, and everything of `s` around it is whitespace. */
  predicate Trimmed(s: string, i: int, r: string) {
    0 <= i && i + |r| <= |s|
    && (forall k :: 0 <= k < |r| ==> r[k] == s[i + k])
    && (forall k :: 0 <= k < i ==> IsWhitespace(s[k]))
    && (forall k :: i + |r| <= k < |s| ==> IsWhitespace(s[k]))
    && (r != [] ==> !IsWhitespace(r[0]) && !IsWhitespace(r[|r| - 1]))
  }

  /** `trim`: the longest slice of `s` that neither starts nor ends with
      whitespace, once all the whitespace around it is removed. */
  function Trim(s: string): (r: string)
    ensures |r| <= |s|
    ensures Trimmed(s, |s| - |TrimStart(s)|, r)
  {
    var t := TrimStart(s);
    var r := TrimEnd(t);
    PrefixOfSuffix(s, t, r);
    r
  }

  /** A prefix `r` of a suffix `t` of `s` is a slice of `s`; whitespace
      before `t` and after `r` in `t` is whitespace around that slice. */
  lemma PrefixOfSuffix(s: string, t: string, r: string)
    requires |t| <= |s| && t == s[|s| - |t|..]
    requires forall k :: 0 <= k < |s| - |t| ==> IsWhitespace(s[k])
    requires t != [] ==> !IsWhitespace(t[0])
    requires |r| <= |t| && r == t[..|r|]
    requires forall k :: |r| <= k < |t| ==> IsWhitespace(t[k])
    requires r != [] ==> !IsWhitespace(r[|r| - 1])
    ensures |r| <= |s| && Trimmed(s, |s| - |t|, r)
  {
    var i := |s| - |t|;
    forall k | i + |r| <= k < |s| ensures IsWhitespace(s[k]) {
      assert s[k] == t[k - i];
    }
    if r != [] {
      assert r[0] == t[0];
    }
  }

  /** A text that neither starts nor ends with whitespace is its own trim. */
  lemma TrimSolid(s: string)
    requires s != [] && !IsWhitespace(s[0]) && !IsWhitespace(s[|s| - 1])
    ensures Trim(s) == s
  {
    assert TrimStart(s) == s;
    assert TrimEnd(s) == s;
  }

  /** One space in front of a text that is its own trim is trimmed away, as
      the space after `///` in a doc comment is. */
  lemma TrimLead(msg: string)
    requires Trim(msg) == msg
    ensures Trim(" " + msg) == msg
  {
    assert (" " + msg)[1..] == msg;
    assert TrimStart(" " + msg) == TrimStart(msg);
    assert TrimStart(msg) == msg;
  }

  /** The two-character pattern `ab` occurs somewhere in `s`. */
  predicate Occurs(s: string, a: char, b: char) {
    exists k :: 0 <= k < |s| - 1 && s[k] == a && s[k + 1] == b
  }

  /** `str::replace` for a two-character pattern `ab` and a one-character
      replacement: matches are found left to right and never overlap. */
  function Replace(s: string, a: char, b: char, c: char): (r: string)
    ensures |r| <= |s|
  {
    if |s| < 2 then s
    else if s[0] == a && s[1] == b then [c] + Replace(s[2..], a, b, c)
    else [s[0]] + Replace(s[1..], a, b, c)
  }

  /** A string without the pattern comes back unchanged. */
  lemma {:induction false} ReplaceAbsent(s: string, a: char, b: char, c: char)
    requires !Occurs(s, a, b)
    ensures Replace(s, a, b, c) == s
  {
    if |s| >= 2 {
      assert !(s[0] == a && s[1] == b) by { assert 0 < |s| - 1; }
      assert !Occurs(s[1..], a, b) by {
        forall k | 0 <= k < |s[1..]| - 1
          ensures !(s[1..][k] == a && s[1..][k + 1] == b)
        {
          assert s[1..][k] == s[k + 1] && s[1..][k + 1] == s[k + 2];
        }
      }
      ReplaceAbsent(s[1..], a, b, c);
    }
  }

  /** The text gets shorter exactly when the pattern occurs: the length is
      kept exactly when there is no match. */
  lemma {:induction false} ReplaceShrinks(s: string, a: char, b: char, c: char)
    ensures |Replace(s, a, b, c)| == |s| <==> !Occurs(s, a, b)
  {
    if |s| < 2 {
    } else if s[0] == a && s[1] == b {
      assert Occurs(s, a, b) by { assert s[0] == a && s[1] == b; }
    } else {
      ReplaceShrinks(s[1..], a, b, c);
      if Occurs(s[1..], a, b) {
        var k :| 0 <= k < |s[1..]| - 1 && s[1..][k] == a && s[1..][k + 1] == b;
        assert s[k + 1] == a && s[k + 2] == b;
      }
      if Occurs(s, a, b) {
        var k :| 0 <= k < |s| - 1 && s[k] == a && s[k + 1] == b;
        assert k != 0;
        assert s[1..][k - 1] == a && s[1..][k] == b;
      }
    }
  }
}
