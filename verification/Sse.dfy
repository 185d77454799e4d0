/** SSE-S3: objects encrypted in counter mode behind a random IV, and range reads that
    start in the middle of the keystream (internal/server/sse.go). */
module Sse {
  import opened Bytes
  import opened Metadata
  import opened Ctr

  datatype Result<+T> = Ok(value: T) | Err

  function Flatten(chunks: seq<Str>): Str {
    if chunks == [] then [] else Flatten(chunks[..|chunks| - 1]) + chunks[|chunks| - 1]
  }

  // ---- Writing

  /** The running hashes see the bytes that passed through, in order. */
  class HashingReader {
    var size: nat
    var hashed: Str

    constructor ()
      ensures size == 0 && hashed == []
    {
      size, hashed := 0, [];
    }

    method Read(chunk: Str)
      modifies this
      ensures size == old(size) + |chunk| && hashed == old(hashed) + chunk
    {
      if |chunk| > 0 {
        size, hashed := size + |chunk|, hashed + chunk;
      }
    }
  }

  /** The stored form of a plaintext. */
  ghost function Encrypted(e: Str -> Str, iv: Str, plain: Str): Str
    requires BlockCipher(e) && |iv| == BLOCK
  {
    iv + Apply(e, iv, 0, plain)
  }

  /** writeMaybeEncryptedObject: whatever pieces the body arrives in, the file is the IV
      and the encrypted body, and size and hashes are those of the plaintext. */
  method WriteEncrypted(e: Str -> Str, iv: Str, pieces: seq<Str>) returns (file: Str, size: nat, hashed: Str)
    requires BlockCipher(e) && |iv| == BLOCK
    ensures file == Encrypted(e, iv, Flatten(pieces))
    ensures size == |Flatten(pieces)| && hashed == Flatten(pieces)
  {
    hide Apply, Advance;
    var stream := new CtrStream(e, iv);
    var plain := new HashingReader();
    file := iv;
    for i := 0 to |pieces|
      invariant stream.Valid() && stream.e == e && stream.iv == iv
      invariant stream.pos == plain.size == |plain.hashed|
      invariant plain.hashed == Flatten(pieces[..i])
      invariant file == Encrypted(e, iv, Flatten(pieces[..i]))
    {
      plain.Read(pieces[i]);
      var out := stream.XorKeyStream(pieces[i]);
      assert pieces[..i + 1][..i] == pieces[..i];
      ApplyConcat(e, iv, 0, Flatten(pieces[..i]), pieces[i]);
      file := file + out;
    }
    assert pieces[..|pieces|] == pieces;
    size, hashed := plain.size, plain.hashed;
  }

  // ---- Reading a range

  datatype ByteRange = ByteRange(start: int, end: int)

  function Wanted(size: int, br: Option<ByteRange>): ByteRange {
    if br.Some? then br.value else ByteRange(0, size - 1)
  }

  predicate InvalidRange(size: int, r: ByteRange) {
    r.start < 0 || r.end < r.start || r.end >= size
  }

  function Min(a: int, b: int): int { if a < b then a else b }

  /** What a range read of any file yields: every delivered byte is the stored one
      combined with the keystream at its own position. */
  ghost function Delivered(e: Str -> Str, file: Str, size: int, br: Option<ByteRange>): Result<Str>
    requires BlockCipher(e)
  {
    var r := Wanted(size, br);
    if |file| < BLOCK || InvalidRange(size, r) then Err
    else
      var data := file[BLOCK..];
      if |data| < r.start && r.start % BLOCK != 0 then Err
      else Ok(Apply(e, file[..BLOCK], r.start, data[Min(r.start, |data|)..Min(r.end + 1, |data|)]))
  }

  /** Read src through the stream in pieces of any size. */
  method CopyThrough(stream: CtrStream, src: Str) returns (dst: Str)
    requires stream.Valid()
    modifies stream
    ensures stream.Valid() && stream.pos == old(stream.pos) + |src|
    ensures dst == Apply(stream.e, stream.iv, old(stream.pos), src)
  {
    hide Apply, Advance;
    dst := [];
    var done := 0;
    while done < |src|
      invariant done <= |src| && stream.Valid() && stream.pos == old(stream.pos) + done
      invariant dst == Apply(stream.e, stream.iv, old(stream.pos), src[..done])
    {
      var n :| 0 < n <= |src| - done;
      var piece := stream.XorKeyStream(src[done..done + n]);
      ApplyConcat(stream.e, stream.iv, old(stream.pos), src[..done], src[done..done + n]);
      assert src[..done + n] == src[..done] + src[done..done + n];
      dst := dst + piece;
      done := done + n;
    }
    assert src[..done] == src;
  }

  /** The bytes a read streams: from the start of the block that holds the range. */
  function Limited(data: Str, blockStart: nat, end: nat): Str
    requires blockStart <= end
  {
    data[Min(blockStart, |data|)..Min(end + 1, |data|)]
  }

  /** What is left of the streamed bytes once those before the range are dropped. */
  lemma AlignedSlice(data: Str, blockStart: nat, r: ByteRange)
    requires blockStart <= r.start <= r.end
    ensures var limited, discard := Limited(data, blockStart, r.end), r.start - blockStart;
            && (discard > |limited| <==> |data| < r.start && discard != 0)
            && (discard <= |limited| ==> limited[discard..] == data[Min(r.start, |data|)..Min(r.end + 1, |data|)])
  {
  }

  lemma Aligned(start: nat)
    ensures var blockStart := start - start % BLOCK;
            && 0 <= blockStart <= start && blockStart == BLOCK * (blockStart / BLOCK)
            && (start % BLOCK != 0 <==> start != blockStart)
  {
  }

  /** Reading from the aligned block with the advanced counter, and dropping the bytes
      before the range, delivers the range. */
  lemma AlignedRead(e: Str -> Str, file: Str, size: int, br: Option<ByteRange>, blocks: nat)
    requires BlockCipher(e) && |file| >= BLOCK && !InvalidRange(size, Wanted(size, br))
    requires var r := Wanted(size, br);
             BLOCK * blocks <= r.start && (r.start % BLOCK != 0 <==> r.start != BLOCK * blocks)
    ensures var r := Wanted(size, br);
            var discard, streamIV := r.start - BLOCK * blocks, Advance(file[..BLOCK], blocks);
            var limited := Limited(file[BLOCK..], BLOCK * blocks, r.end);
            && |streamIV| == BLOCK
            && Delivered(e, file, size, br) ==
               if discard > |limited| then Err else Ok(Apply(e, streamIV, discard, limited[discard..]))
  {
    hide Apply, Advance, Limited, Min;
    var r, data, iv := Wanted(size, br), file[BLOCK..], file[..BLOCK];
    var discard, limited := r.start - BLOCK * blocks, Limited(data, BLOCK * blocks, r.end);
    AdvanceLength(iv, blocks);
    AlignedSlice(data, BLOCK * blocks, r);
    if discard <= |limited| {
      ApplyShift(e, iv, blocks, discard, limited[discard..]);
    }
  }

  /** readMaybeEncryptedObject: align to a block, advance the counter, seek, limit, and
      discard the bytes before the range. */
  method ReadEncrypted(e: Str -> Str, file: Str, size: int, br: Option<ByteRange>) returns (r: Result<Str>)
    requires BlockCipher(e) && size < 0x8000_0000_0000_0000
    ensures r == Delivered(e, file, size, br)
  {
    if |file| < BLOCK {
      return Err;
    }
    var start, end := 0, size - 1;
    if br.Some? {
      start, end := br.value.start, br.value.end;
    }
    if start < 0 || end < start || end >= size {
      return Err;
    }
    var blockStart := start - start % BLOCK;
    Aligned(start);
    AlignedRead(e, file, size, br, blockStart / BLOCK);
    r := ReadFrom(e, file, blockStart, start, end);
  }

  /** The read from an aligned block on. */
  method ReadFrom(e: Str -> Str, file: Str, blockStart: nat, start: nat, end: nat) returns (r: Result<Str>)
    requires BlockCipher(e) && |file| >= BLOCK && blockStart <= start <= end < 0x8000_0000_0000_0000
    requires blockStart == BLOCK * (blockStart / BLOCK)
    ensures var limited, discard := Limited(file[BLOCK..], blockStart, end), start - blockStart;
            var streamIV := Advance(file[..BLOCK], blockStart / BLOCK);
            && |streamIV| == BLOCK
            && r == if discard > |limited| then Err else Ok(Apply(e, streamIV, discard, limited[discard..]))
  {
    hide Apply, Advance;
    var iv := file[..BLOCK];
    AdvanceLength(iv, blockStart / BLOCK);
    var streamIV := AdvanceCtrIv(iv, blockStart / BLOCK);
    var data := file[BLOCK..];
    var limited := data[Min(blockStart, |data|)..Min(end + 1, |data|)];
    var discard := start - blockStart;
    if discard > |limited| {
      return Err;
    }
    var out := DiscardThenCopy(e, streamIV, limited, discard);
    r := Ok(out);
  }

  /** io.CopyN to nowhere, then io.Copy of the rest. */
  method DiscardThenCopy(e: Str -> Str, iv: Str, limited: Str, discard: nat) returns (out: Str)
    requires BlockCipher(e) && |iv| == BLOCK && discard <= |limited|
    ensures out == Apply(e, iv, discard, limited[discard..])
  {
    hide Apply, Advance;
    var stream := new CtrStream(e, iv);
    if discard > 0 {
      var _ := CopyThrough(stream, limited[..discard]);
    }
    out := CopyThrough(stream, limited[discard..]);
  }

  // ---- Round trip

  /** Reading a range of an encrypted object returns exactly that slice of the plaintext;
      reading without a range returns all of it, unless it is empty, which fails like any
      range outside the object. */
  lemma RangeRoundTrip(e: Str -> Str, iv: Str, plain: Str, br: Option<ByteRange>)
    requires BlockCipher(e) && |iv| == BLOCK
    ensures var r := Wanted(|plain|, br);
            Delivered(e, Encrypted(e, iv, plain), |plain|, br) ==
            if InvalidRange(|plain|, r) then Err else Ok(plain[r.start..r.end + 1])
    ensures br.None? ==> Delivered(e, Encrypted(e, iv, plain), |plain|, br) == if plain == [] then Err else Ok(plain)
  {
    var r, file := Wanted(|plain|, br), Encrypted(e, iv, plain);
    if !InvalidRange(|plain|, r) {
      var data := Apply(e, iv, 0, plain);
      assert file[..BLOCK] == iv && file[BLOCK..] == data;
      ApplySlice(e, iv, 0, plain, r.start, r.end + 1);
      ApplyTwice(e, iv, r.start, plain[r.start..r.end + 1]);
      assert br.None? ==> plain[r.start..r.end + 1] == plain;
    }
  }

  /** Writing in any pieces and then reading any range, through the two code paths. */
  method WriteThenRead(e: Str -> Str, iv: Str, pieces: seq<Str>, start: nat, end: nat) returns (r: Result<Str>)
    requires BlockCipher(e) && |iv| == BLOCK
    requires start <= end < |Flatten(pieces)| < 0x8000_0000_0000_0000
    ensures r == Ok(Flatten(pieces)[start..end + 1])
  {
    var file, size, _ := WriteEncrypted(e, iv, pieces);
    r := ReadEncrypted(e, file, size, Some(ByteRange(start, end)));
    RangeRoundTrip(e, iv, Flatten(pieces), Some(ByteRange(start, end)));
  }
}
