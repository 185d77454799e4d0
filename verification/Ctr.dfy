/** Counter mode (section 6.5 of NIST SP 800-38A): big-endian counter arithmetic, the
    keystream, and the stream object that hands it out block by block. */
module Ctr {
  import opened Arith
  import opened Bytes

  // ---- Big-endian values

  function Pow256(n: nat): (r: nat)
    ensures r > 0
  {
    if n == 0 then 1 else 256 * Pow256(n - 1)
  }

  /** The big-endian value of a byte string. */
  function Value(s: Str): nat {
    if s == [] then 0 else 256 * Value(s[..|s| - 1]) + s[|s| - 1]
  }

  function Encode(v: nat, n: nat): Str {
    if n == 0 then [] else Encode(v / 256, n - 1) + [v % 256]
  }

  lemma {:induction false} ValueBelow(s: Str)
    ensures Value(s) < Pow256(|s|)
  {
    if s != [] { ValueBelow(s[..|s| - 1]); }
  }

  lemma {:induction false} EncodeValue(s: Str)
    ensures Encode(Value(s), |s|) == s
  {
    if s != [] {
      EncodeValue(s[..|s| - 1]);
      assert s == s[..|s| - 1] + [s[|s| - 1]];
    }
  }

  lemma {:induction false} ValueEncode(v: nat, n: nat)
    requires v < Pow256(n)
    ensures |Encode(v, n)| == n && Value(Encode(v, n)) == v
  {
    if n > 0 {
      ValueEncode(v / 256, n - 1);
      assert Encode(v, n)[..n - 1] == Encode(v / 256, n - 1);
    }
  }

  /** A counter block moved on by n, modulo 256^len. */
  function Advance(iv: Str, n: nat): Str {
    Encode((Value(iv) + n) % Pow256(|iv|), |iv|)
  }

  lemma AdvanceValue(iv: Str, n: nat)
    ensures |Advance(iv, n)| == |iv|
    ensures Value(Advance(iv, n)) == (Value(iv) + n) % Pow256(|iv|)
  {
    hide Value, Encode, Pow256;
    ModBelow(Value(iv) + n, Pow256(|iv|));
    ValueEncode((Value(iv) + n) % Pow256(|iv|), |iv|);
  }

  lemma AdvanceLength(iv: Str, n: nat)
    ensures |Advance(iv, n)| == |iv|
  {
    AdvanceValue(iv, n);
  }

  lemma AdvanceNone(iv: Str)
    ensures Advance(iv, 0) == iv
  {
    hide Value, Encode, Pow256;
    ValueBelow(iv);
    DivIs(Value(iv), Pow256(|iv|), 0);
    EncodeValue(iv);
  }

  /** Two advances compose to the advance by their sum. */
  lemma AdvanceCompose(iv: Str, a: nat, b: nat)
    ensures Advance(Advance(iv, a), b) == Advance(iv, a + b)
  {
    hide Value, Encode, Pow256;
    AdvanceValue(iv, a);
    ModAdd(Value(iv) + a, b, Pow256(|iv|));
  }

  lemma ModAdd(x: nat, y: nat, m: nat)
    requires m > 0
    ensures (x % m + y) % m == (x + y) % m
  {
    var q, r := x / m, (x % m + y) / m;
    assert q * m + x % m == x;
    assert r * m + (x % m + y) % m == x % m + y;
    assert (q + r) * m == q * m + r * m;
    DivIs(x + y, m, q + r);
  }

  newtype uint64 = x: int | 0 <= x < 0x1_0000_0000_0000_0000

  /** Changing the byte at position i moves the value by the change times its weight. */
  lemma {:induction false} ValueUpdate(s: Str, i: nat, b: byte)
    requires i < |s|
    ensures Value(s[i := b]) == Value(s) + (b - s[i]) * Pow256(|s| - 1 - i)
  {
    hide Value, Pow256;
    var n := |s| - 1;
    var t := s[i := b];
    ValueLast(s);
    ValueLast(t);
    Weights(n - i);
    if i < n {
      assert t[..n] == s[..n][i := b];
      ValueUpdate(s[..n], i, b);
      Times256(b - s[i], Pow256(n - 1 - i));
    } else {
      assert t[..n] == s[..n];
    }
  }

  lemma ValueLast(s: Str)
    requires s != []
    ensures Value(s) == 256 * Value(s[..|s| - 1]) + s[|s| - 1]
  {
  }

  lemma Weights(n: nat)
    ensures Pow256(0) == 1 && (n > 0 ==> Pow256(n) == 256 * Pow256(n - 1))
  {
  }

  lemma Times256(d: int, w: int)
    ensures d * (256 * w) == 256 * (d * w)
  {
  }

  /** advanceCTRIV: the carry loop is big-endian addition modulo 256^len, and its carry
      stays within uint64. */
  method AdvanceCtrIv(iv: Str, blocks: int) returns (out: Str)
    requires 0 <= blocks < 0x8000_0000_0000_0000
    ensures out == Advance(iv, blocks)
  {
    var n := |iv|;
    var buf := new byte[n](k requires 0 <= k < n => iv[k]);
    var carry := blocks as uint64;
    var i := n - 1;
    assert buf[..] == iv;
    while i >= 0 && carry > 0
      invariant -1 <= i < n
      invariant carry < 0x8000_0000_0000_0000
      invariant Value(buf[..]) + carry as int * Pow256(n - 1 - i) == Value(iv) + blocks
    {
      ghost var before, c := buf[..], carry as int;
      var sum: uint64 := buf[i] as uint64 + carry % 256;
      buf[i] := (sum % 256) as int;
      carry := carry / 256 + sum / 256;
      ValueUpdate(before, i, (sum % 256) as int);
      assert buf[..] == before[i := (sum % 256) as int];
      CarryStep(Pow256(n - 1 - i), c, before[i], buf[i], carry as int);
      i := i - 1;
    }
    out := buf[..];
    assert carry == 0 || i == -1;
    Settled(iv, blocks, out, if carry == 0 then 0 else carry as int);
  }

  lemma CarryStep(w: nat, carry: nat, old_: byte, new_: byte, carry': nat)
    requires new_ - old_ + 256 * carry' == carry
    ensures (new_ - old_) * w + carry' * (256 * w) == carry * w
  {
    assert carry * w == (new_ - old_ + 256 * carry') * w;
    assert (new_ - old_ + 256 * carry') * w == (new_ - old_) * w + 256 * carry' * w;
  }

  lemma Settled(iv: Str, blocks: nat, out: Str, carry: nat)
    requires |out| == |iv| && Value(out) + carry * Pow256(|iv|) == Value(iv) + blocks
    ensures out == Advance(iv, blocks)
  {
    hide Value, Encode, Pow256;
    ValueBelow(out);
    DivIs(Value(iv) + blocks, Pow256(|iv|), carry);
    EncodeValue(out);
  }

  // ---- Exclusive or of bytes

  function XorBits(a: nat, b: nat, n: nat): nat {
    if n == 0 then 0 else (a + b) % 2 + 2 * XorBits(a / 2, b / 2, n - 1)
  }

  lemma XorBitTwice(a: nat, b: nat, rest: nat)
    ensures ((a + b) % 2 + 2 * rest + b) % 2 == a % 2
    ensures ((a + b) % 2 + 2 * rest) / 2 == rest
  {
  }

  lemma {:induction false} XorBitsInvolution(a: nat, b: nat, n: nat)
    requires a < Pow2(n)
    ensures XorBits(a, b, n) < Pow2(n) && XorBits(XorBits(a, b, n), b, n) == a
  {
    if n > 0 {
      var rest := XorBits(a / 2, b / 2, n - 1);
      XorBitsInvolution(a / 2, b / 2, n - 1);
      XorBitTwice(a, b, rest);
      var x := XorBits(a, b, n);
      assert x == (a + b) % 2 + 2 * rest;
      assert XorBits(x, b, n) == a % 2 + 2 * (a / 2);
    }
  }

  lemma Pow2Of8()
    ensures Pow2(8) == 256
  {
    assert Pow2(4) == 16;
  }

  function XorByte(a: byte, b: byte): byte {
    Pow2Of8();
    XorBitsInvolution(a, b, 8);
    XorBits(a, b, 8)
  }

  lemma XorByteInvolution(a: byte, b: byte)
    ensures XorByte(XorByte(a, b), b) == a
  {
    Pow2Of8();
    XorBitsInvolution(a, b, 8);
  }

  // ---- The keystream

  const BLOCK := 16

  /** A block cipher under a fixed key: any function from blocks to blocks. */
  ghost predicate BlockCipher(e: Str -> Str) {
    forall x: Str :: |x| == BLOCK ==> |e(x)| == BLOCK
  }

  function KeyByte(e: Str -> Str, iv: Str, j: nat): byte
    requires BlockCipher(e) && |iv| == BLOCK
  {
    AdvanceLength(iv, j / BLOCK);
    e(Advance(iv, j / BLOCK))[j % BLOCK]
  }

  /** src combined with the keystream of iv from byte position `at` on. */
  ghost function Apply(e: Str -> Str, iv: Str, at: nat, src: Str): (out: Str)
    requires BlockCipher(e) && |iv| == BLOCK
    ensures |out| == |src|
  {
    seq(|src|, k requires 0 <= k < |src| => XorByte(src[k], KeyByte(e, iv, at + k)))
  }

  /** The keystream of the advanced counter is the original one further on. */
  lemma KeyByteShift(e: Str -> Str, iv: Str, blocks: nat, j: nat)
    requires BlockCipher(e) && |iv| == BLOCK
    ensures |Advance(iv, blocks)| == BLOCK
    ensures KeyByte(e, Advance(iv, blocks), j) == KeyByte(e, iv, BLOCK * blocks + j)
  {
    hide Advance;
    AdvanceLength(iv, blocks);
    AdvanceCompose(iv, blocks, j / BLOCK);
    assert (BLOCK * blocks + j) / BLOCK == blocks + j / BLOCK;
    assert (BLOCK * blocks + j) % BLOCK == j % BLOCK;
  }

  /** Applying the keystream twice at the same position gives the text back. */
  lemma ApplyTwice(e: Str -> Str, iv: Str, at: nat, src: Str)
    requires BlockCipher(e) && |iv| == BLOCK
    ensures Apply(e, iv, at, Apply(e, iv, at, src)) == src
  {
    hide KeyByte, XorByte;
    var once := Apply(e, iv, at, src);
    forall k | 0 <= k < |src|
      ensures Apply(e, iv, at, once)[k] == src[k]
    {
      XorByteInvolution(src[k], KeyByte(e, iv, at + k));
    }
  }

  lemma ApplySlice(e: Str -> Str, iv: Str, at: nat, src: Str, lo: nat, hi: nat)
    requires BlockCipher(e) && |iv| == BLOCK && lo <= hi <= |src|
    ensures Apply(e, iv, at, src)[lo..hi] == Apply(e, iv, at + lo, src[lo..hi])
  {
    hide KeyByte, XorByte;
  }

  lemma ApplyConcat(e: Str -> Str, iv: Str, at: nat, a: Str, b: Str)
    requires BlockCipher(e) && |iv| == BLOCK
    ensures Apply(e, iv, at, a + b) == Apply(e, iv, at, a) + Apply(e, iv, at + |a|, b)
  {
    hide KeyByte, XorByte;
  }

  lemma ApplyShift(e: Str -> Str, iv: Str, blocks: nat, at: nat, src: Str)
    requires BlockCipher(e) && |iv| == BLOCK
    ensures |Advance(iv, blocks)| == BLOCK
    ensures Apply(e, Advance(iv, blocks), at, src) == Apply(e, iv, BLOCK * blocks + at, src)
  {
    AdvanceLength(iv, blocks);
    hide KeyByte;
    var moved, plain := Apply(e, Advance(iv, blocks), at, src), Apply(e, iv, BLOCK * blocks + at, src);
    hide Advance, XorByte;
    forall k | 0 <= k < |src|
      ensures moved[k] == plain[k]
    {
      KeyByteShift(e, iv, blocks, at + k);
      assert BLOCK * blocks + (at + k) == BLOCK * blocks + at + k;
    }
  }

  /** A counter-mode stream: it encrypts the counter block, moves it on by one, and uses
      the output byte by byte, however the data is cut into calls. */
  class CtrStream {
    const e: Str -> Str
    const iv: Str
    var counter: Str
    var block: Str
    var used: nat
    ghost var pos: nat     // keystream bytes handed out so far
    ghost var blocks: nat  // counter blocks encrypted so far

    ghost predicate Valid()
      reads this
    {
      && BlockCipher(e) && |iv| == BLOCK
      && used <= BLOCK && pos + BLOCK == BLOCK * blocks + used
      && counter == Advance(iv, blocks)
      && (used < BLOCK ==> blocks > 0 && block == e(Advance(iv, blocks - 1)))
    }

    constructor (e: Str -> Str, iv: Str)
      requires BlockCipher(e) && |iv| == BLOCK
      ensures Valid() && pos == 0 && this.e == e && this.iv == iv
    {
      this.e, this.iv, counter, block, used, pos, blocks := e, iv, iv, [], BLOCK, 0, 0;
      AdvanceNone(iv);
    }

    method NextByte(b: byte) returns (x: byte)
      requires Valid()
      modifies this
      ensures Valid() && pos == old(pos) + 1
      ensures x == XorByte(b, KeyByte(e, iv, old(pos)))
    {
      hide Advance, XorByte;
      if used == BLOCK {
        AdvanceCompose(iv, blocks, 1);
        block, counter, used, blocks := e(counter), Advance(counter, 1), 0, blocks + 1;
      }
      AdvanceLength(iv, blocks - 1);
      assert pos / BLOCK == blocks - 1 && pos % BLOCK == used;
      x := XorByte(b, block[used]);
      used, pos := used + 1, pos + 1;
    }

    method XorKeyStream(src: Str) returns (dst: Str)
      requires Valid()
      modifies this
      ensures Valid() && pos == old(pos) + |src|
      ensures dst == Apply(e, iv, old(pos), src)
    {
      hide KeyByte, XorByte, Advance;
      dst := [];
      for k := 0 to |src|
        invariant Valid() && pos == old(pos) + k
        invariant dst == Apply(e, iv, old(pos), src)[..k]
      {
        var x := NextByte(src[k]);
        dst := dst + [x];
      }
    }
  }
}
