/** Strings as sequences of characters: the ASCII part of JavaScript's
    `toLowerCase` and the substring test of `String.prototype.includes`. */
module Text {

  /** True for the 26 ASCII capital letters. */
  predicate IsUpper(c: char) {
    'A' <= c <= 'Z'
  }

  /** Lower-cases one character; every character outside 'A'..'Z' is kept. */
  function LowerChar(c: char): (r: char)
    ensures !IsUpper(r)
    ensures IsUpper(c) ==> r as int == c as int + 32
    ensures !IsUpper(c) ==> r == c
  {
    if IsUpper(c) then (c as int + 32) as char else c
  }

  /** `s.toLowerCase()` restricted to ASCII letters. */
  function Lower(s: string): (r: string)
    ensures |r| == |s|
    ensures forall i :: 0 <= i < |s| ==> r[i] == LowerChar(s[i])
  {
    if s == [] then [] else [LowerChar(s[0])] + Lower(s[1..])
  }

  /** Lower-casing twice is lower-casing once. */
  lemma LowerIdempotent(s: string)
    ensures Lower(Lower(s)) == Lower(s)
  {
    var once := Lower(s);
    var twice := Lower(once);
    assert forall i :: 0 <= i < |s| ==> twice[i] == once[i];
  }

  /** `p` is a prefix of `s`. */
  predicate IsPrefix(p: string, s: string) {
    |p| <= |s| && s[..|p|] == p
  }

  /** `s.includes(q)`: `q` occurs in `s` at some position, searched from
      the left one position at a time. */
  function Contains(s: string, q: string): (r: bool)
    decreases |s|
    ensures q == [] ==> r
    ensures r ==> |q| <= |s|
  {
    IsPrefix(q, s) || (s != [] && Contains(s[1..], q))
  }

  /** `q` occurs in `s` at offset `i`. */
  predicate OccursAt(s: string, q: string, i: int) {
    0 <= i && i + |q| <= |s| && s[i..i + |q|] == q
  }

  /** An occurrence at any offset is found by the left-to-right search. */
  lemma {:induction false} OccursAtContains(s: string, q: string, i: int)
    requires OccursAt(s, q, i)
    ensures Contains(s, q)
    decreases i
  {
    if i > 0 {
      assert s[1..][i - 1..i - 1 + |q|] == s[i..i + |q|];
      OccursAtContains(s[1..], q, i - 1);
    }
  }

  /** A successful left-to-right search stops at an occurrence. */
  lemma {:induction false} ContainsOccursAt(s: string, q: string) returns (i: int)
    requires Contains(s, q)
    ensures OccursAt(s, q, i)
    decreases |s|
  {
    if IsPrefix(q, s) {
      i := 0;
    } else {
      var j := ContainsOccursAt(s[1..], q);
      assert s[1..][j..j + |q|] == s[j + 1..j + 1 + |q|];
      i := j + 1;
    }
  }

  /** The left-to-right search agrees with the declarative definition of a
      substring occurrence, in both directions. */
  lemma ContainsIff(s: string, q: string)
    ensures Contains(s, q) <==> exists i :: OccursAt(s, q, i)
  {
    if Contains(s, q) {
      var i := ContainsOccursAt(s, q);
    }
    forall i | OccursAt(s, q, i) ensures Contains(s, q) {
      OccursAtContains(s, q, i);
    }
  }

  /** The empty query occurs in every string. */
  lemma ContainsEmpty(s: string)
    ensures Contains(s, "")
  {
    assert s[..0] == "";
  }
}
