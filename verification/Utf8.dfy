/** Which byte strings are UTF-8, and what the JSON codec makes of those that are not: each
    byte that starts no character becomes U+FFFD. */
module Utf8 {
  import opened Bytes

  predicate Tail(b: byte) {
    0x80 <= b <= 0xbf
  }

  /** The second byte of a character of three or four: no overlong forms, no surrogates,
      nothing past U+10FFFF. */
  predicate SecondOk(first: byte, b: byte) {
    && (if first == 0xe0 then 0xa0 else if first == 0xf0 then 0x90 else 0x80) <= b
    && b <= (if first == 0xed then 0x9f else if first == 0xf4 then 0x8f else 0xbf)
  }

  /** The length of the character at the front, or 0 if there is none. */
  function RuneLen(s: Str): (n: nat)
    ensures n <= |s| && (n > 0 ==> !Tail(s[0])) && forall i :: 0 < i < n ==> Tail(s[i])
  {
    if s == [] then 0
    else if s[0] < 0x80 then 1
    else if 0xc2 <= s[0] <= 0xdf && |s| >= 2 && Tail(s[1]) then 2
    else if 0xe0 <= s[0] <= 0xef && |s| >= 3 && SecondOk(s[0], s[1]) && Tail(s[2]) then 3
    else if 0xf0 <= s[0] <= 0xf4 && |s| >= 4 && SecondOk(s[0], s[1]) && Tail(s[2]) && Tail(s[3]) then 4
    else 0
  }

  predicate Valid(s: Str) {
    s == [] || (RuneLen(s) > 0 && Valid(s[RuneLen(s)..]))
  }

  const REPLACEMENT: Str := [0xef, 0xbf, 0xbd]

  /** What comes back of a string that was marshalled to JSON. */
  function Coerced(s: Str): Str {
    if s == [] then []
    else
      var n := RuneLen(s);
      if n > 0 then s[..n] + Coerced(s[n..]) else REPLACEMENT + Coerced(s[1..])
  }

  /** A string comes back unchanged exactly if it is UTF-8, and never empty if it was not. */
  lemma {:induction false} CoercedIff(s: Str)
    ensures Coerced(s) == s <==> Valid(s)
    ensures |Coerced(s)| >= |s|
    ensures !Valid(s) ==> |Coerced(s)| > |s|
    decreases |s|
  {
    hide RuneLen;
    if s != [] {
      var n := RuneLen(s);
      if n > 0 {
        CoercedIff(s[n..]);
        assert s == s[..n] + s[n..];
      } else {
        CoercedIff(s[1..]);
      }
    }
  }

  lemma RuneLenOfPrefix(a: Str, b: Str)
    requires a <= b && RuneLen(a) > 0
    ensures RuneLen(b) == RuneLen(a)
  {
    assert forall i :: 0 <= i < |a| ==> a[i] == b[i];
  }

  /** UTF-8 splits into UTF-8 wherever the byte is none that continues a character. */
  lemma {:induction false} ValidSplit(s: Str, q: nat)
    requires Valid(s) && q <= |s| && (q < |s| ==> !Tail(s[q]))
    ensures Valid(s[..q]) && Valid(s[q..])
    decreases |s|
  {
    if q > 0 {
      var n := RuneLen(s);
      assert q >= n;
      hide RuneLen;
      ValidSplit(s[n..], q - n);
      assert s[n..][q - n..] == s[q..];
      assert s[..q][n..] == s[n..][..q - n];
      RuneLenOfTake(s, q);
    }
  }

  lemma RuneLenOfTake(s: Str, q: nat)
    requires RuneLen(s) <= q <= |s|
    ensures RuneLen(s[..q]) == RuneLen(s)
  {
  }

  lemma {:induction false} ValidConcat(a: Str, b: Str)
    requires Valid(a) && Valid(b)
    ensures Valid(a + b)
    decreases |a|
  {
    if a == [] {
      assert a + b == b;
    } else {
      var n := RuneLen(a);
      ValidConcat(a[n..], b);
      RuneLenOfPrefix(a, a + b);
      assert (a + b)[n..] == a[n..] + b;
    }
  }

  /** Where the last character of a string starts. */
  lemma {:induction false} LastRune(s: Str) returns (q: nat)
    requires Valid(s) && s != []
    ensures q < |s| && !Tail(s[q]) && RuneLen(s[q..]) == |s| - q
    decreases |s|
  {
    var n := RuneLen(s);
    if n == |s| {
      q := 0;
      assert s[0..] == s;
    } else {
      var r := LastRune(s[n..]);
      q := n + r;
      assert s[n..][r..] == s[q..];
    }
  }

  /** What a string of UTF-8 is up to the end of an occurrence of another is UTF-8. */
  lemma ValidUpTo(s: Str, d: Str, n: nat)
    requires Valid(s) && Valid(d) && d != [] && |d| <= n <= |s| && s[n - |d|..n] == d
    ensures Valid(s[..n])
  {
    hide Valid;
    var q := LastRune(d);
    var t := n - |d| + q;
    assert s[t] == d[q];
    ValidSplit(s, t);
    assert d[q..] == s[t..n];
    RuneIsValid(d[q..]);
    ValidConcat(s[..t], d[q..]);
    assert s[..n] == s[..t] + d[q..];
  }

  lemma RuneIsValid(s: Str)
    requires s != [] && RuneLen(s) == |s|
    ensures Valid(s)
  {
    assert s[|s|..] == [];
  }
}
