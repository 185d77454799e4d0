/** Byte strings in the bytewise lexicographic order that Go's string comparison
    and a binary-collated SQL column use. */
module Bytes {

  type byte = x: int | 0 <= x < 256

  type Str = seq<byte>

  /** The length of the longest common prefix of two byte strings. */
  function Lcp(a: Str, b: Str): (m: nat)
    ensures m <= |a| && m <= |b|
    ensures a[..m] == b[..m]
    ensures m < |a| && m < |b| ==> a[m] != b[m]
  {
    if a == [] || b == [] || a[0] != b[0] then 0
    else
      var n := Lcp(a[1..], b[1..]);
      assert forall i | 0 < i < n + 1 :: a[i] == a[1..][..n][i - 1] && b[i] == b[1..][..n][i - 1];
      n + 1
  }

  /** a < b, bytewise. */
  predicate Less(a: Str, b: Str) {
    var m := Lcp(a, b);
    m < |b| && (m == |a| || a[m] < b[m])
  }

  predicate AtMost(a: Str, b: Str) {
    a == b || Less(a, b)
  }

  /** Any split point at which two strings agree before and part after is their Lcp. */
  lemma LcpUnique(a: Str, b: Str, m: nat)
    requires m <= |a| && m <= |b| && a[..m] == b[..m]
    requires m == |a| || m == |b| || a[m] != b[m]
    ensures Lcp(a, b) == m
  {
    var n := Lcp(a, b);
    assert forall i | 0 <= i < m :: a[i] == a[..m][i] && b[i] == b[..m][i];
    assert forall i | 0 <= i < n :: a[i] == a[..n][i] && b[i] == b[..n][i];
  }

  lemma LessTotal(a: Str, b: Str)
    ensures Less(a, b) || a == b || Less(b, a)
    ensures !(Less(a, b) && Less(b, a))
    ensures !Less(a, a)
  {
    var m := Lcp(a, b);
    LcpUnique(b, a, m);
    LcpUnique(a, a, |a|);
    if m == |a| && m == |b| {
      assert a == a[..m] == b[..m] == b;
    }
  }

  lemma LessTransitive(a: Str, b: Str, c: Str)
    requires Less(a, b) && Less(b, c)
    ensures Less(a, c)
  {
    var m, n := Lcp(a, b), Lcp(b, c);
    var k := if m < n then m else n;
    assert a[..k] == a[..m][..k] == b[..m][..k] == b[..n][..k] == c[..n][..k] == c[..k];
    if m < n {
      assert b[m] == b[..n][m] == c[..n][m] == c[m];
    } else if n < m {
      assert a[n] == a[..m][n] == b[..m][n] == b[n];
    }
    LcpUnique(a, c, k);
  }

  /** The order is total, antisymmetric and transitive, strict or not. */
  lemma AtMostOrders(a: Str, b: Str, c: Str)
    ensures AtMost(a, a) && (AtMost(a, b) || AtMost(b, a))
    ensures AtMost(a, b) && AtMost(b, a) ==> a == b
    ensures AtMost(a, b) && AtMost(b, c) ==> AtMost(a, c)
    ensures !(Less(a, b) && Less(b, a)) && !Less(a, a)
    ensures Less(a, b) && Less(b, c) ==> Less(a, c)
  {
    hide Less;
    LessTotal(a, b);
    LessTotal(b, a);
    if Less(a, b) && Less(b, c) { LessTransitive(a, b, c); }
  }

  /** A prefix never comes after the string it starts. */
  lemma PrefixAtMost(p: Str, s: Str)
    requires p <= s
    ensures AtMost(p, s)
    ensures p != s ==> Less(p, s)
  {
    LcpUnique(p, s, |p|);
  }

  /** Parting at position m with a smaller byte decides the order, whatever follows. */
  lemma LessAt(a: Str, b: Str, m: nat)
    requires m < |a| && m < |b| && a[..m] == b[..m] && a[m] < b[m]
    ensures Less(a, b)
  {
    LcpUnique(a, b, m);
  }

  /** Everything above p that does not extend it lies above every extension of p. */
  lemma AboveExtensions(p: Str, t: Str, s: Str)
    requires p <= t && Less(p, s) && !(p <= s)
    ensures Less(t, s)
  {
    var m := Lcp(p, s);
    assert m < |p|;
    assert t[..m] == p[..m] == s[..m];
    LessAt(t, s, m);
  }

  // ---- Substring search (strings.Index)

  predicate OccursAt(s: Str, d: Str, i: int) {
    0 <= i && i + |d| <= |s| && s[i..i + |d|] == d
  }

  /** The first position of d in s, or -1. */
  function Index(s: Str, d: Str): (r: int)
    ensures r == -1 || OccursAt(s, d, r)
    ensures forall j :: OccursAt(s, d, j) ==> 0 <= r <= j
  {
    if d <= s then
      assert s[0..|d|] == d;
      0
    else if s == [] then
      assert forall j :: !OccursAt(s, d, j);
      -1
    else
      var r := Index(s[1..], d);
      OccursInTail(s, d);
      if r < 0 then -1 else r + 1
  }

  /** A string that does not start with d has d exactly where its tail has it. */
  lemma OccursInTail(s: Str, d: Str)
    requires s != [] && !(d <= s)
    ensures forall j :: OccursAt(s, d, j) <==> j > 0 && OccursAt(s[1..], d, j - 1)
  {
    forall j
      ensures OccursAt(s, d, j) <==> j > 0 && OccursAt(s[1..], d, j - 1)
    {
      if 0 < j && j + |d| <= |s| {
        assert s[1..][j - 1..j - 1 + |d|] == s[j..j + |d|];
      }
      assert OccursAt(s, d, 0) ==> d <= s;
    }
  }

  predicate Contains(s: Str, d: Str) {
    Index(s, d) >= 0
  }

  predicate HasSuffix(s: Str, d: Str) {
    |d| <= |s| && s[|s| - |d|..] == d
  }

  /** Occurrences inside a prefix are occurrences in the whole, and back. */
  lemma OccursInPrefix(s: Str, t: Str, d: Str, i: int)
    requires t <= s && i + |d| <= |t|
    ensures OccursAt(s, d, i) <==> OccursAt(t, d, i)
  {
    if 0 <= i {
      assert t[i..i + |d|] == s[i..i + |d|];
    }
  }

  // ---- Lists in strictly increasing order of a string

  ghost predicate StrictBy<T(!new)>(f: T -> Str, s: seq<T>) {
    forall i, j :: 0 <= i < j < |s| ==> Less(f(s[i]), f(s[j]))
  }

  lemma StrictInit<T(!new)>(f: T -> Str, s: seq<T>, x: T)
    requires StrictBy(f, s) && s != []
    ensures StrictBy(f, s[..|s| - 1])
    ensures x in s[..|s| - 1] <==> x in s && x != s[|s| - 1]
    ensures x in s ==> x == s[|s| - 1] || Less(f(x), f(s[|s| - 1]))
  {
    var n := |s| - 1;
    assert s == s[..n] + [s[n]];
    LessTotal(f(s[n]), f(s[n]));
  }

  /** Two strictly increasing lists with the same members are the same list. */
  lemma {:induction false} StrictListsEqual<T(!new)>(f: T -> Str, a: seq<T>, b: seq<T>)
    requires StrictBy(f, a) && StrictBy(f, b)
    requires forall x :: x in a <==> x in b
    ensures a == b
  {
    assert b != [] ==> b[0] in b;
    if a != [] {
      var n, m := |a| - 1, |b| - 1;
      assert a[n] in b;
      StrictInit(f, a, b[m]);
      StrictInit(f, b, a[n]);
      LessTotal(f(a[n]), f(b[m]));
      forall x
        ensures x in a[..n] <==> x in b[..m]
      {
        StrictInit(f, a, x);
        StrictInit(f, b, x);
      }
      StrictListsEqual(f, a[..n], b[..m]);
      assert a == a[..n] + [a[n]] && b == b[..m] + [b[m]];
    }
  }
}
