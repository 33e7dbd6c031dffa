/** Python's `str.strip()` without arguments, on strings as sequences of code
    points: it removes every leading and every trailing whitespace code point. */
module PyStr {

  /** `str.isspace()` for a single code point: the code points CPython treats
      as whitespace (bidirectional class WS, B or S, or general category Zs). */
  predicate IsSpace(c: char)
    ensures c == ' ' || c == '\t' || c == '\n' || c == '\r' ==> IsSpace(c)
    ensures ('a' <= c <= 'z') || ('A' <= c <= 'Z') || ('0' <= c <= '9') ==> !IsSpace(c)
    ensures IsSpace(c) ==> c as int <= 0x3000
  {
    var n := c as int;
    (0x09 <= n <= 0x0D) || (0x1C <= n <= 0x20) || n == 0x85 || n == 0xA0
    || n == 0x1680 || (0x2000 <= n <= 0x200A) || n == 0x2028 || n == 0x2029
    || n == 0x202F || n == 0x205F || n == 0x3000
  }

  /** Every code point of `s` is whitespace (true of the empty string). */
  predicate AllSpace(s: string) {
    forall k :: 0 <= k < |s| ==> IsSpace(s[k])
  }

  /** `s` neither starts nor ends with whitespace. */
  predicate Trimmed(s: string) {
    s == [] || (!IsSpace(s[0]) && !IsSpace(s[|s| - 1]))
  }

  /** The length of the longest all-whitespace prefix of `s`. */
  function LeadingSpaces(s: string): (n: nat)
    ensures n <= |s|
    ensures AllSpace(s[..n])
    ensures n < |s| ==> !IsSpace(s[n])
  {
    if s == [] || !IsSpace(s[0]) then 0 else 1 + LeadingSpaces(s[1..])
  }

  /** The length of the longest all-whitespace suffix of `s`. */
  function TrailingSpaces(s: string): (n: nat)
    ensures n <= |s|
    ensures AllSpace(s[|s| - n..])
    ensures n < |s| ==> !IsSpace(s[|s| - 1 - n])
  {
    if s == [] || !IsSpace(s[|s| - 1]) then 0 else 1 + TrailingSpaces(s[..|s| - 1])
  }

  /** `s.strip()`: `s` with its whitespace removed at both ends. The result is
      a slice of `s` with trimmed ends, only whitespace lies outside it, and it
      is empty exactly when `s` is all whitespace. */
  function Strip(s: string): (r: string)
    ensures |r| <= |s|
    ensures Trimmed(r)
    ensures r == [] <==> AllSpace(s)
    ensures var lo := LeadingSpaces(s);
      && lo + |r| <= |s|
      && r == s[lo..lo + |r|]
      && AllSpace(s[..lo])
      && AllSpace(s[lo + |r|..])
  {
    var rest := s[LeadingSpaces(s)..];
    rest[..|rest| - TrailingSpaces(rest)]
  }

  /** Strip is the only way to split a string into whitespace, a trimmed
      middle and whitespace: whatever such split is given, Strip returns its
      middle. */
  lemma {:induction false} StripCharacterised(s: string, pre: string, core: string, post: string)
    requires s == pre + core + post
    requires AllSpace(pre) && AllSpace(post) && Trimmed(core)
    ensures Strip(s) == core
  {
    var r := Strip(s);
    var lo := LeadingSpaces(s);
    if core == [] {
      assert AllSpace(s) by {
        forall k | 0 <= k < |s| ensures IsSpace(s[k]) {
          if k < |pre| { assert s[k] == pre[k]; } else { assert s[k] == post[k - |pre|]; }
        }
      }
    } else {
      assert s[|pre|] == core[0];
      assert s[|pre| + |core| - 1] == core[|core| - 1];
      // The leading run of whitespace ends exactly where `core` begins, and
      // the kept slice ends exactly where `core` ends.
      assert lo == |pre|;
      assert lo + |r| == |pre| + |core|;
      assert s[|pre|..|pre| + |core|] == core;
    }
  }

  /** Stripping twice is stripping once. */
  lemma StripIdempotent(s: string)
    ensures Strip(Strip(s)) == Strip(s)
  {
    var r := Strip(s);
    assert r == [] + r + [];
    StripCharacterised(r, [], r, []);
  }

  /** Whitespace padding added around a string with trimmed ends is exactly
      what Strip takes away again. */
  lemma StripOfPaddedTrimmed(pad: string, s: string)
    requires AllSpace(pad) && Trimmed(s)
    ensures Strip(pad + s + pad) == s
  {
    StripCharacterised(pad + s + pad, pad, s, pad);
  }
}
