/**
 * The parts of JavaScript's string semantics that the core relies on:
 * `String.prototype.trim`, the regular-expression class `\s`, and `length`,
 * which counts UTF-16 code units rather than characters.
 */
module Strings {

  /**
   * WhiteSpace and LineTerminator as ECMAScript defines them (sections 12.2 and
   * 12.3 of ECMA-262): the set both `trim` removes and `\s` matches.
   */
  predicate IsWhitespace(c: char) {
    || c == '\t' || c == '\n' || c == '\U{000B}' || c == '\U{000C}' || c == '\r'
    || c == ' ' || c == '\U{00A0}' || c == '\U{1680}'
    || ('\U{2000}' <= c <= '\U{200A}')
    || c == '\U{2028}' || c == '\U{2029}' || c == '\U{202F}' || c == '\U{205F}'
    || c == '\U{3000}' || c == '\U{FEFF}'
  }

  /** Whether every character of `s` is whitespace. */
  predicate AllWhitespace(s: string) {
    s == [] || (IsWhitespace(s[0]) && AllWhitespace(s[1..]))
  }

  /** The recursive reading of AllWhitespace agrees with the characterwise one. */
  lemma {:induction false} AllWhitespaceAt(s: string)
    ensures AllWhitespace(s) <==> forall k :: 0 <= k < |s| ==> IsWhitespace(s[k])
  {
    if s != [] {
      AllWhitespaceAt(s[1..]);
      assert forall k :: 1 <= k < |s| ==> s[k] == s[1..][k - 1];
    }
  }

  lemma {:induction false} AllWhitespaceConcat(a: string, b: string)
    ensures AllWhitespace(a + b) <==> AllWhitespace(a) && AllWhitespace(b)
  {
    if a == [] {
      assert a + b == b;
    } else {
      assert (a + b)[1..] == a[1..] + b;
      AllWhitespaceConcat(a[1..], b);
    }
  }

  /** How much leading whitespace `s` has: a blank prefix, followed by a non-blank or the end. */
  function TrimStartCut(s: string): (k: nat)
    ensures k <= |s| && AllWhitespace(s[..k])
    ensures k < |s| ==> !IsWhitespace(s[k])
  {
    if s != [] && IsWhitespace(s[0]) then
      var k := TrimStartCut(s[1..]);
      assert s[..k + 1] == [s[0]] + s[1..][..k];
      AllWhitespaceConcat([s[0]], s[1..][..k]);
      k + 1
    else
      assert s[..0] == [];
      0
  }

  /** Where the trailing whitespace of `s` begins: a blank suffix, after a non-blank or the start. */
  function TrimEndCut(s: string): (k: nat)
    ensures k <= |s| && AllWhitespace(s[k..])
    ensures k > 0 ==> !IsWhitespace(s[k - 1])
  {
    if s != [] && IsWhitespace(s[|s| - 1]) then
      var init := s[..|s| - 1];
      var k := TrimEndCut(init);
      assert s[k..] == init[k..] + [s[|s| - 1]];
      AllWhitespaceConcat(init[k..], [s[|s| - 1]]);
      k
    else
      assert s[|s|..] == [];
      |s|
  }

  /**
   * JavaScript's `s.trim()`: whitespace removed at both ends, so the result
   * neither starts nor ends with whitespace (TrimIsInnerSlice says what is kept).
   */
  function Trim(s: string): (r: string)
    ensures |r| <= |s|
    ensures r != [] ==> !IsWhitespace(r[0]) && !IsWhitespace(r[|r| - 1])
  {
    var t := s[TrimStartCut(s)..];
    t[..TrimEndCut(t)]
  }

  /** What `trim` keeps is one slice of the input, with only whitespace before and after it. */
  lemma TrimIsInnerSlice(s: string)
    ensures var r := Trim(s);
      exists i :: 0 <= i <= |s| - |r| && r == s[i..i + |r|]
                  && AllWhitespace(s[..i]) && AllWhitespace(s[i + |r|..])
  {
    var i := TrimStartCut(s);
    InnerSlice(s, s[i..], Trim(s), i);
  }

  /** A prefix `r` of the suffix `t` of `s` is a slice of `s`; blank around `r` means blank around it in `s`. */
  lemma InnerSlice(s: string, t: string, r: string, i: nat)
    requires i <= |s| && t == s[i..] && |r| <= |t| && r == t[..|r|]
    requires AllWhitespace(s[..i]) && AllWhitespace(t[|r|..])
    ensures exists j :: 0 <= j <= |s| - |r| && r == s[j..j + |r|]
                        && AllWhitespace(s[..j]) && AllWhitespace(s[j + |r|..])
  {
    SliceOfSuffix(s, i, |r|);
    assert r == s[i..i + |r|] && AllWhitespace(s[i + |r|..]);
  }

  /** Slicing a suffix is slicing the whole string further on. */
  lemma SliceOfSuffix(s: string, i: nat, n: nat)
    requires i + n <= |s|
    ensures s[i..][..n] == s[i..i + n]
    ensures s[i..][n..] == s[i + n..]
  {
  }

  /** Trimming twice trims nothing more. */
  lemma TrimIdempotent(s: string)
    ensures Trim(Trim(s)) == Trim(s)
  {
    var r := Trim(s);
    assert TrimStartCut(r) == 0 && r[0..] == r;
    assert TrimEndCut(r) == |r| && r[..|r|] == r;
  }

  /** A string with no character to keep trims to the empty string and back. */
  lemma {:induction false} TrimAllWhitespace(s: string)
    ensures AllWhitespace(s) <==> Trim(s) == []
  {
    if AllWhitespace(s) {
      AllWhitespaceCut(s);
      assert s[|s|..] == [];
    }
    if Trim(s) == [] {
      var i := TrimStartCut(s);
      var t := s[i..];
      assert TrimEndCut(t) == 0 && t[0..] == t;
      assert s == s[..i] + t;
      AllWhitespaceConcat(s[..i], t);
    }
  }

  lemma {:induction false} AllWhitespaceCut(s: string)
    requires AllWhitespace(s)
    ensures TrimStartCut(s) == |s|
  {
    if s != [] {
      AllWhitespaceCut(s[1..]);
    }
  }

  /**
   * JavaScript's `s.length`: the number of UTF-16 code units, two for every
   * character outside the Basic Multilingual Plane.
   */
  function Utf16Length(s: string): (n: nat)
    ensures |s| <= n <= 2 * |s|
    ensures n == |s| <==> forall k :: 0 <= k < |s| ==> s[k] as int <= 0xFFFF
  {
    if s == [] then 0
    else Utf16Length(s[..|s| - 1]) + (if s[|s| - 1] as int > 0xFFFF then 2 else 1)
  }

  /** A string's JavaScript length is at least 2 iff it has two characters or one astral one. */
  lemma Utf16AtLeastTwo(s: string)
    ensures Utf16Length(s) >= 2 <==> |s| >= 2 || (|s| == 1 && s[0] as int > 0xFFFF)
  {
    if |s| == 1 {
      assert s[..0] == [];
    }
  }
}
