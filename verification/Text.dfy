/** The small text functions of Go's strings, encoding/hex and strconv packages that the
    handlers rely on. */
module Text {
  import opened Bytes
  import opened Metadata

  /** The bytes of an ASCII literal. */
  function Ascii(s: string): Str {
    seq(|s|, i requires 0 <= i < |s| => (s[i] as int) % 256)
  }

  function TrimRight(s: Str, cut: set<byte>): Str {
    if s != [] && s[|s| - 1] in cut then TrimRight(s[..|s| - 1], cut) else s
  }

  function TrimLeft(s: Str, cut: set<byte>): Str {
    if s != [] && s[0] in cut then TrimLeft(s[1..], cut) else s
  }

  function Trim(s: Str, cut: set<byte>): Str {
    TrimRight(TrimLeft(s, cut), cut)
  }

  /** What is left is a stretch of the text that neither starts nor ends with a byte to cut, and
      all around it is to be cut. */
  lemma {:induction false} TrimMeans(s: Str, cut: set<byte>) returns (i: nat, j: nat)
    ensures i <= j <= |s| && Trim(s, cut) == s[i..j]
    ensures (forall k :: 0 <= k < i || j <= k < |s| ==> s[k] in cut)
    ensures i < j ==> s[i] !in cut && s[j - 1] !in cut
  {
    i := TrimLeftMeans(s, cut);
    var n := TrimRightMeans(s[i..], cut);
    j := i + n;
    assert s[i..][..n] == s[i..j];
    assert forall k | j <= k < |s| :: s[k] == s[i..][k - i];
  }

  lemma {:induction false} TrimLeftMeans(s: Str, cut: set<byte>) returns (i: nat)
    ensures i <= |s| && TrimLeft(s, cut) == s[i..] && (i < |s| ==> s[i] !in cut)
    ensures forall k :: 0 <= k < i ==> s[k] in cut
  {
    i := 0;
    if s != [] && s[0] in cut {
      var n := TrimLeftMeans(s[1..], cut);
      i := n + 1;
      assert forall k | 0 < k < i :: s[k] == s[1..][k - 1];
    }
  }

  lemma {:induction false} TrimRightMeans(s: Str, cut: set<byte>) returns (j: nat)
    ensures j <= |s| && TrimRight(s, cut) == s[..j] && (j > 0 ==> s[j - 1] !in cut)
    ensures forall k :: j <= k < |s| ==> s[k] in cut
  {
    j := |s|;
    if s != [] && s[|s| - 1] in cut { j := TrimRightMeans(s[..|s| - 1], cut); }
  }

  const Space: set<byte> := {9, 10, 11, 12, 13, 32}

  function Lower(b: byte): byte {
    if 65 <= b <= 90 then b + 32 else b
  }

  /** strings.ToUpper on ASCII. */
  function ToUpper(s: Str): Str {
    seq(|s|, i requires 0 <= i < |s| => if 97 <= s[i] <= 122 then s[i] - 32 else s[i])
  }

  /** The text in lower case, with the two characters beyond ASCII that fold to ASCII letters:
      U+017F, the long s, and U+212A, the Kelvin sign. */
  function FoldCase(s: Str): Str {
    if s == [] then []
    else if [0xc5, 0xbf] <= s then [115] + FoldCase(s[2..])
    else if [0xe2, 0x84, 0xaa] <= s then [107] + FoldCase(s[3..])
    else [Lower(s[0])] + FoldCase(s[1..])
  }

  /** strings.EqualFold of any text with an ASCII one. */
  predicate EqualFold(a: Str, b: Str) {
    FoldCase(a) == FoldCase(b)
  }

  predicate IsAscii(s: Str) {
    forall i :: 0 <= i < |s| ==> s[i] < 128
  }

  /** On ASCII that is equality up to the case of each letter. */
  lemma {:induction false} EqualFoldAscii(a: Str, b: Str)
    requires IsAscii(a) && IsAscii(b)
    ensures EqualFold(a, b) <==> |a| == |b| && forall i :: 0 <= i < |a| ==> Lower(a[i]) == Lower(b[i])
  {
    FoldAscii(a);
    FoldAscii(b);
    if |a| == |b| && forall i :: 0 <= i < |a| ==> Lower(a[i]) == Lower(b[i]) {
      assert FoldCase(a) == FoldCase(b);
    }
    if FoldCase(a) == FoldCase(b) {
      assert forall i :: 0 <= i < |a| ==> FoldCase(a)[i] == FoldCase(b)[i];
    }
  }

  lemma {:induction false} FoldAscii(s: Str)
    requires IsAscii(s)
    ensures |FoldCase(s)| == |s| && forall i :: 0 <= i < |s| ==> FoldCase(s)[i] == Lower(s[i])
  {
    if s != [] {
      FoldAscii(s[1..]);
      assert [0xc5, 0xbf][0] == 0xc5 && [0xe2, 0x84, 0xaa][0] == 0xe2;
      assert !([0xc5, 0xbf] <= s) && !([0xe2, 0x84, 0xaa] <= s);
    }
  }

  // ---- Hexadecimal

  function HexDigit(b: byte): (v: int)
    ensures -1 <= v < 16
  {
    if 48 <= b <= 57 then b - 48
    else if 97 <= b <= 102 then b - 87
    else if 65 <= b <= 70 then b - 55
    else -1
  }

  function HexByte(v: nat): (b: byte)
    requires v < 16
    ensures HexDigit(b) == v
  {
    if v < 10 then 48 + v else 87 + v
  }

  /** hex.EncodeToString. */
  function HexEncode(s: Str): Str {
    if s == [] then [] else [HexByte(s[0] / 16), HexByte(s[0] % 16)] + HexEncode(s[1..])
  }

  /** hex.DecodeString. */
  function HexDecode(s: Str): Option<Str> {
    if s == [] then Some([])
    else if |s| == 1 || HexDigit(s[0]) < 0 || HexDigit(s[1]) < 0 then None
    else
      var rest := HexDecode(s[2..]);
      if rest.None? then None else Some([16 * HexDigit(s[0]) + HexDigit(s[1])] + rest.value)
  }

  lemma {:induction false} HexRoundTrip(s: Str)
    ensures HexDecode(HexEncode(s)) == Some(s)
  {
    if s != [] {
      HexRoundTrip(s[1..]);
      assert HexEncode(s)[2..] == HexEncode(s[1..]);
      assert s == [s[0]] + s[1..];
    }
  }

  lemma {:induction false} HexHasNoQuotes(s: Str)
    ensures forall b :: b in HexEncode(s) ==> HexDigit(b) >= 0
    ensures Trim(HexEncode(s), {34}) == HexEncode(s)
  {
    if s != [] {
      HexHasNoQuotes(s[1..]);
      var t := HexEncode(s);
      assert t[0] in t && t[|t| - 1] in t;
    }
  }

  /** strconv.Itoa on a count. */
  function Itoa(n: nat): Str {
    if n < 10 then [48 + n] else Itoa(n / 10) + [48 + n % 10]
  }

  // ---- Decimal numbers

  /** The value of a non-empty run of digits. */
  function Digits(s: Str): Option<nat> {
    if s == [] || !(48 <= s[|s| - 1] <= 57) then None
    else if |s| == 1 then Some(s[0] - 48)
    else
      var high := Digits(s[..|s| - 1]);
      if high.None? then None else Some(10 * high.value + (s[|s| - 1] - 48))
  }

  const MAX_INT := 0x7fff_ffff_ffff_ffff

  /** strconv.Atoi: an optional sign and digits, within 64 bits. */
  function Atoi(s: Str): Option<int> {
    var signed := s != [] && s[0] in {43, 45};
    var v := Digits(if signed then s[1..] else s);
    if v.None? then None
    else
      var abs: int := v.value;
      var n := if signed && s[0] == 45 then -abs else abs;
      if -MAX_INT - 1 <= n <= MAX_INT then Some(n) else None
  }

  lemma {:induction false} ItoaDigits(n: nat)
    ensures Itoa(n) != [] && 48 <= Itoa(n)[0] <= 57 && Digits(Itoa(n)) == Some(n)
  {
    if n >= 10 {
      ItoaDigits(n / 10);
      var s := Itoa(n);
      assert s[..|s| - 1] == Itoa(n / 10);
    }
  }

  lemma AtoiItoa(n: nat)
    requires n <= MAX_INT
    ensures Atoi(Itoa(n)) == Some(n)
  {
    ItoaDigits(n);
  }

  // ---- Splitting and joining

  /** strings.Split on a one-byte separator. */
  function Split(s: Str, sep: byte): (parts: seq<Str>)
    ensures |parts| >= 1
  {
    if s == [] then [[]]
    else if s[0] == sep then [[]] + Split(s[1..], sep)
    else
      var rest := Split(s[1..], sep);
      [[s[0]] + rest[0]] + rest[1..]
  }

  /** strings.Join. */
  function Join(parts: seq<Str>, sep: Str): Str {
    if |parts| == 0 then []
    else if |parts| == 1 then parts[0]
    else parts[0] + sep + Join(parts[1..], sep)
  }

  /** A separator-free stretch goes to the front of the first part. */
  function Prepend(b: byte, parts: seq<Str>): seq<Str>
    requires |parts| >= 1
  {
    [[b] + parts[0]] + parts[1..]
  }

  lemma PrependConcat(b: byte, x: seq<Str>, y: seq<Str>)
    requires |x| >= 1
    ensures Prepend(b, x + y) == Prepend(b, x) + y
    ensures [[]] + (x + y) == ([[]] + x) + y
  {
  }

  lemma SplitCons(b: byte, s: Str, sep: byte)
    ensures Split([b] + s, sep) == if b == sep then [[]] + Split(s, sep) else Prepend(b, Split(s, sep))
  {
    assert ([b] + s)[1..] == s;
  }

  lemma {:induction false} SplitAt(a: Str, sep: byte, b: Str)
    ensures Split(a + [sep] + b, sep) == Split(a, sep) + Split(b, sep)
  {
    hide Prepend, Split;
    if a == [] {
      SplitCons(sep, b, sep);
      assert a + [sep] + b == [sep] + b;
      SplitEmpty(sep);
    } else {
      var c, rest := a[0], a[1..];
      SplitAt(rest, sep, b);
      SplitCons(c, rest, sep);
      SplitCons(c, rest + [sep] + b, sep);
      assert a == [c] + rest && a + [sep] + b == [c] + (rest + [sep] + b);
      PrependConcat(c, Split(rest, sep), Split(b, sep));
    }
  }

  lemma SplitEmpty(sep: byte)
    ensures Split([], sep) == [[]]
  {
  }

  lemma {:induction false} SplitFree(s: Str, sep: byte)
    ensures sep !in s <==> |Split(s, sep)| == 1
    ensures sep !in s ==> Split(s, sep) == [s]
  {
    if s != [] {
      SplitFree(s[1..], sep);
      assert s == [s[0]] + s[1..];
    }
  }

  /** Joining parts that are free of the separator can be undone. */
  lemma {:induction false} SplitJoin(parts: seq<Str>, sep: byte)
    requires |parts| >= 1 && forall p :: p in parts ==> sep !in p
    ensures Split(Join(parts, [sep]), sep) == parts
  {
    SplitFree(parts[0], sep);
    if |parts| > 1 {
      SplitJoin(parts[1..], sep);
      SplitAt(parts[0], sep, Join(parts[1..], [sep]));
    }
  }

  /** strings.Fields: the runs of bytes between white space. */
  function Fields(s: Str): seq<Str> {
    if s == [] then []
    else if s[0] in Space then Fields(s[1..])
    else if |s| == 1 || s[1] in Space then [[s[0]]] + Fields(s[1..])
    else
      var rest := Fields(s[1..]);
      if rest == [] then [[s[0]]] else [[s[0]] + rest[0]] + rest[1..]
  }

  /** strings.ToLower on ASCII. */
  function ToLower(s: Str): Str {
    seq(|s|, i requires 0 <= i < |s| => Lower(s[i]))
  }

  predicate Solid(f: Str) {
    f != [] && forall b :: b in f ==> b !in Space
  }

  lemma {:induction false} FieldsAreSolid(s: Str)
    ensures forall f :: f in Fields(s) ==> Solid(f)
  {
    if s != [] {
      FieldsAreSolid(s[1..]);
      var rest := Fields(s[1..]);
      if s[0] !in Space && !(|s| == 1 || s[1] in Space) && rest != [] {
        assert rest[0] in rest;
        assert forall f :: f in rest[1..] ==> f in rest;
        assert forall b :: b in [s[0]] + rest[0] ==> b == s[0] || b in rest[0];
      }
    }
  }

  /** A solid piece in front of a blank is a field of its own. */
  lemma {:induction false} FieldsFront(f: Str, rest: Str)
    requires Solid(f) && (rest == [] || rest[0] in Space)
    ensures Fields(f + rest) == [f] + Fields(rest)
    decreases |f|
  {
    var s := f + rest;
    assert s[0] == f[0] && f[0] in f;
    if |f| == 1 {
      assert s[1..] == rest;
      assert f == [f[0]];
    } else {
      assert f[1] in f && s[1] == f[1];
      assert s[1..] == f[1..] + rest;
      FieldsFront(f[1..], rest);
      assert f == [f[0]] + f[1..];
    }
  }

  /** Fields joined by blanks are the same fields again. */
  lemma {:induction false} FieldsOfJoin(fs: seq<Str>)
    requires forall f :: f in fs ==> Solid(f)
    ensures Fields(Join(fs, [32])) == fs
  {
    if fs != [] {
      var later := Join(fs[1..], [32]);
      assert fs[0] in fs;
      FieldsOfJoin(fs[1..]);
      if |fs| == 1 {
        FieldsFront(fs[0], []);
        assert fs[0] + [] == fs[0];
      } else {
        FieldsFront(fs[0], [32] + later);
        assert fs[0] + [32] + later == fs[0] + ([32] + later);
        assert ([32] + later)[1..] == later;
      }
      assert fs == [fs[0]] + fs[1..];
    }
  }
}
