/** The aws-chunked body decoder (internal/server/aws_chunked.go). Its framing is close to
    section 7.1 of RFC 9112, with the chunk extensions of AWS Signature Version 4. */
module AwsChunked {
  import opened Bytes
  import opened Metadata
  import opened Text

  const CR: byte := 13
  const LF: byte := 10
  const SEMICOLON: byte := 59

  // ---- The size line

  function IndexByte(s: Str, b: byte): (r: int)
    ensures -1 <= r < |s|
    ensures r >= 0 ==> s[r] == b
    ensures forall k :: 0 <= k < (if r < 0 then |s| else r) ==> s[k] != b
  {
    if s == [] then -1
    else if s[0] == b then 0
    else
      var r := IndexByte(s[1..], b);
      assert forall k | 0 < k < |s| :: s[k] == s[1..][k - 1];
      if r < 0 then -1 else r + 1
  }

  const LineEnd: set<byte> := {CR, LF}

  predicate AllHex(s: Str) {
    forall b :: b in s ==> HexDigit(b) >= 0
  }

  function HexValue(s: Str): nat
    requires AllHex(s)
  {
    if s == [] then 0
    else
      assert s[|s| - 1] in s;
      16 * HexValue(s[..|s| - 1]) + HexDigit(s[|s| - 1])
  }

  const MAX_INT64 := 0x7fff_ffff_ffff_ffff

  /** strconv.ParseInt(s, 16, 64), then the check for a negative size. */
  function ParseSize(s: Str): Option<nat> {
    var digits := if s != [] && s[0] in {43, 45} then s[1..] else s;
    if digits == [] || !AllHex(digits) || HexValue(digits) > MAX_INT64 then None
    else if s[0] == 45 && HexValue(digits) > 0 then None
    else Some(HexValue(digits))
  }

  /** The chunk size a line announces: line ending, extensions and blanks dropped. */
  function SizeOfLine(line: Str): Option<nat> {
    var t := TrimRight(line, LineEnd);
    var i := IndexByte(t, SEMICOLON);
    ParseSize(Trim(if i >= 0 then t[..i] else t, Space))
  }

  // ---- The decoder as one function of the stream

  datatype End = Eof | Malformed

  datatype Decoded = Decoded(payload: Str, end: End)

  /** What a decoder in the given state delivers of the remaining stream, and how it ends.
      A stream that stops anywhere ends like a complete one. */
  function Decode(rest: Str, remain: nat, done: bool, needCRLF: bool): Decoded
    decreases |rest|
  {
    if done then Decoded([], Eof)
    else if remain > 0 then
      if |rest| < remain then Decoded(rest, Eof)
      else
        var later := Decode(rest[remain..], 0, false, true);
        Decoded(rest[..remain] + later.payload, later.end)
    else if needCRLF then
      if |rest| < 2 then Decoded([], Eof)
      else if rest[..2] != [CR, LF] then Decoded([], Malformed)
      else Decode(rest[2..], 0, false, false)
    else
      var i := IndexByte(rest, LF);
      if i < 0 then Decoded([], Eof)
      else
        var size := SizeOfLine(rest[..i + 1]);
        if size.None? then Decoded([], Malformed)
        else if size.value == 0 then Decoded([], Eof)
        else Decode(rest[i + 1..], size.value, false, false)
  }

  // ---- The reader

  datatype Line = Line(text: Str, err: Option<End>)

  /** What discarding trailers consumes, and whether it fails. */
  function TrailersOf(rest: Str): (nat, Option<End>)
    decreases |rest|
  {
    var i := IndexByte(rest, LF);
    if i < 0 then (|rest|, if rest == [] then None else Some(Eof))
    else if TrimRight(rest[..i + 1], LineEnd) == [] then (i + 1, None)
    else
      var (n, err) := TrailersOf(rest[i + 1..]);
      (i + 1 + n, err)
  }

  lemma TrailersStep(rest: Str)
    ensures var i := IndexByte(rest, LF);
            && (i < 0 ==> TrailersOf(rest) == (|rest|, if rest == [] then None else Some(Eof)))
            && (i >= 0 && TrimRight(rest[..i + 1], LineEnd) == [] ==> TrailersOf(rest) == (i + 1, None))
            && (i >= 0 && TrimRight(rest[..i + 1], LineEnd) != [] ==>
                var later := TrailersOf(rest[i + 1..]);
                TrailersOf(rest) == (i + 1 + later.0, later.1))
  {
    hide IndexByte, TrimRight;
  }

  class AwsChunkedReader {
    const data: Str
    var pos: nat
    var remain: nat
    var done: bool
    var needCRLF: bool

    ghost predicate Valid()
      reads this
    {
      pos <= |data|
    }

    ghost function Pending(): Decoded
      reads this
      requires Valid()
    {
      Decode(data[pos..], remain, done, needCRLF)
    }

    constructor (data: Str)
      ensures Valid() && this.data == data && Pending() == Decode(data, 0, false, false)
      ensures pos == 0 && remain == 0 && !done && !needCRLF
    {
      this.data, pos, remain, done, needCRLF := data, 0, 0, false, false;
      new;
      assert data[0..] == data;
    }

    /** bufio.Reader.ReadString('\n'). */
    method ReadString() returns (line: Line)
      requires Valid()
      modifies this`pos
      ensures Valid()
      ensures var i := IndexByte(old(data[pos..]), LF);
              if i < 0 then pos == |data| && line == Line(old(data[pos..]), Some(Eof))
              else pos == old(pos) + i + 1 && line == Line(old(data[pos..])[..i + 1], None)
    {
      var i := IndexByte(data[pos..], LF);
      if i < 0 {
        line := Line(data[pos..], Some(Eof));
        pos := |data|;
      } else {
        line := Line(data[pos..][..i + 1], None);
        pos := pos + i + 1;
      }
    }

    /** bufio.Reader.ReadByte. */
    method ReadByte() returns (b: Option<byte>)
      requires Valid()
      modifies this`pos
      ensures Valid() && pos == old(pos) + (if b.Some? then 1 else 0)
      ensures if old(pos) < |data| then b == Some(data[old(pos)]) else b.None?
    {
      if pos < |data| {
        b := Some(data[pos]);
        pos := pos + 1;
      } else {
        b := None;
      }
    }

    method ReadCRLF() returns (err: Option<End>)
      requires Valid()
      modifies this`pos
      ensures Valid()
      ensures var rest := old(data[pos..]);
              if |rest| < 2 then err == Some(Eof)
              else if rest[..2] != [CR, LF] then err == Some(Malformed)
              else err.None? && pos == old(pos) + 2
    {
      var cr := ReadByte();
      if cr.None? {
        return Some(Eof);
      }
      var lf := ReadByte();
      if lf.None? {
        return Some(Eof);
      }
      if cr.value != CR || lf.value != LF {
        return Some(Malformed);
      }
      err := None;
    }

    method ReadChunkSize() returns (size: nat, err: Option<End>)
      requires Valid()
      modifies this`pos
      ensures Valid()
      ensures var rest := old(data[pos..]);
              var i := IndexByte(rest, LF);
              if i < 0 then err == Some(Eof)
              else if SizeOfLine(rest[..i + 1]).None? then err == Some(Malformed)
              else err.None? && size == SizeOfLine(rest[..i + 1]).value && pos == old(pos) + i + 1
    {
      var line := ReadString();
      if line.err.Some? {
        return 0, line.err;
      }
      var parsed := SizeOfLine(line.text);
      if parsed.None? {
        return 0, Some(Malformed);
      }
      size, err := parsed.value, None;
    }

    /** The bytes up to and with the first blank line go; a stream that ends in the middle of
        a line is an error. */
    method DiscardTrailers() returns (err: Option<End>)
      requires Valid()
      modifies this`pos
      ensures Valid() && (err.Some? ==> err == Some(Eof))
      ensures pos == old(pos) + TrailersOf(old(data[pos..])).0 && err == TrailersOf(old(data[pos..])).1
    {
      hide IndexByte, TrimRight, TrailersOf;
      ghost var all := TrailersOf(data[pos..]);
      while true
        invariant Valid() && pos >= old(pos)
        invariant all.0 == pos - old(pos) + TrailersOf(data[pos..]).0 && all.1 == TrailersOf(data[pos..]).1
        decreases |data| - pos
      {
        TrailersStep(data[pos..]);
        ghost var i, start := IndexByte(data[pos..], LF), pos;
        var line := ReadString();
        assert i >= 0 ==> data[start..][i + 1..] == data[pos..];
        if line.err.Some? {
          if line.text == [] {
            return None;
          }
          return line.err;
        }
        if TrimRight(line.text, LineEnd) == [] {
          return None;
        }
      }
      err := None;
    }

    /** bufio.Reader.Read: any number of the available bytes, and possibly the end of the
        source together with its last bytes. A source that never stalls gives at least one. */
    method ReadSome(max: nat, stalls: bool) returns (out: Str, err: Option<End>)
      requires Valid() && max > 0
      modifies this`pos
      ensures Valid() && pos == old(pos) + |out| && out == data[old(pos)..pos] && |out| <= max
      ensures old(pos) == |data| ==> err == Some(Eof)
      ensures err.Some? ==> err == Some(Eof) && pos == |data|
      ensures !stalls && err.None? ==> out != []
    {
      var available := |data| - pos;
      if available == 0 {
        return [], Some(Eof);
      }
      var n :| 0 <= n <= max && n <= available && (!stalls ==> n > 0);
      var withEof: bool :| withEof ==> n == available;
      out := data[pos..pos + n];
      pos := pos + n;
      err := if withEof then Some(Eof) else None;
    }

    /** Between chunks: the terminator of the last one, the next size line, and the end of
        the stream after the final one. */
    method NextChunk() returns (err: Option<End>)
      requires Valid() && !done && remain == 0
      modifies this
      ensures Valid()
      ensures err.Some? ==> old(Pending()) == Decoded([], err.value)
      ensures err.None? ==> !done && remain > 0 && Pending() == old(Pending())
    {
      hide IndexByte, SizeOfLine;
      if needCRLF {
        err := ReadCRLF();
        if err.Some? {
          return;
        }
        needCRLF := false;
        assert data[pos..] == old(data[pos..])[2..];
      }
      assert Pending() == old(Pending());
      err := StartChunk();
    }

    /** The size line of the next chunk, or of the final one with its trailers. */
    method StartChunk() returns (err: Option<End>)
      requires Valid() && !done && remain == 0 && !needCRLF
      modifies this
      ensures Valid()
      ensures err.Some? ==> old(Pending()) == Decoded([], err.value)
      ensures err.None? ==> !done && remain > 0 && Pending() == old(Pending())
    {
      hide IndexByte, SizeOfLine, TrailersOf;
      ghost var rest := data[pos..];
      var size;
      size, err := ReadChunkSize();
      if err.Some? {
        return;
      }
      if size == 0 {
        err := DiscardTrailers();
        if err.Some? {
          return;
        }
        done := true;
        return Some(Eof);
      }
      remain := size;
      assert data[pos..] == rest[IndexByte(rest, LF) + 1..];
    }

    /** Read: whatever the buffer size and however short the source reads, the bytes
        delivered come off the front of what the decoder still has to deliver, and an
        error comes exactly when and as the whole stream ends. */
    method Read(max: nat, stalls: bool) returns (out: Str, err: Option<End>)
      requires Valid()
      modifies this
      ensures Valid() && |out| <= max
      ensures err.None? ==> old(Pending()) == Decoded(out + Pending().payload, Pending().end)
      ensures err.Some? ==> old(Pending()) == Decoded(out, err.value)
      ensures !stalls && max > 0 && err.None? ==> out != []
    {
      if done {
        return [], Some(Eof);
      }
      hide Decode;
      if max == 0 {
        return [], None;
      }
      if remain == 0 {
        err := NextChunk();
        if err.Some? {
          return [], err;
        }
      }
      out, err := TakePayload(max, stalls);
    }

    method TakePayload(max: nat, stalls: bool) returns (out: Str, err: Option<End>)
      requires Valid() && !done && remain > 0 && max > 0
      modifies this
      ensures Valid() && |out| <= max
      ensures err.None? ==> old(Pending()) == Decoded(out + Pending().payload, Pending().end)
      ensures err.Some? ==> old(Pending()) == Decoded(out, err.value)
      ensures !stalls && err.None? ==> out != []
    {
      hide Decode;
      out, err := ReadSome(if max > remain then remain else max, stalls);
      if |out| > 0 {
        remain := remain - |out|;
        if remain == 0 {
          needCRLF := true;
        }
      }
      TakeFront(old(data[pos..]), old(remain), |out|, old(needCRLF));
      assert data[pos..] == old(data[pos..])[|out|..];
      assert out == old(data[pos..])[..|out|];
      assert out + [] == out;
    }
  }

  /** Taking part of a chunk's payload off the stream takes it off the decoded payload. */
  lemma TakeFront(rest: Str, remain: nat, n: nat, needCRLF: bool)
    requires remain > 0 && n <= remain && n <= |rest|
    ensures var before := Decode(rest, remain, false, needCRLF);
            var after := Decode(rest[n..], remain - n, false, needCRLF || n == remain);
            && before == Decoded(rest[..n] + after.payload, after.end)
            && (n == |rest| ==> after == Decoded([], Eof))
  {
    if n == remain {
      var later := Decode(rest[remain..], 0, false, true);
    } else if |rest| < remain {
      assert rest == rest[..n] + rest[n..];
    } else {
      assert rest[n..][remain - n..] == rest[remain..];
      assert rest[..remain] == rest[..n] + rest[n..][..remain - n];
    }
  }

  /** Read with any list of buffer sizes, stalling or not: what was delivered and what is
      still to come make up the one decoding of the stream. */
  method ReadMany(r: AwsChunkedReader, sizes: seq<nat>, stalls: bool) returns (out: Str, err: Option<End>)
    requires r.Valid()
    modifies r
    ensures r.Valid()
    ensures err.None? ==> old(r.Pending()) == Decoded(out + r.Pending().payload, r.Pending().end)
    ensures err.Some? ==> old(r.Pending()) == Decoded(out, err.value)
  {
    hide Decode;
    out, err := [], None;
    for i := 0 to |sizes|
      invariant r.Valid() && err.None?
      invariant old(r.Pending()) == Decoded(out + r.Pending().payload, r.Pending().end)
    {
      var piece;
      piece, err := r.Read(sizes[i], stalls);
      out := out + piece;
      if err.Some? {
        return;
      }
    }
  }

  /** io.ReadAll over any positive buffer sizes: it ends, with the decoding of the stream. */
  method ReadAll(data: Str, size: nat -> nat) returns (out: Str, end: End)
    requires forall i :: size(i) > 0
    ensures Decoded(out, end) == Decode(data, 0, false, false)
  {
    hide Decode;
    var r := new AwsChunkedReader(data);
    out := [];
    var i := 0;
    var err: Option<End> := None;
    while err.None?
      invariant r.Valid()
      invariant err.None? ==> Decode(data, 0, false, false) == Decoded(out + r.Pending().payload, r.Pending().end)
      invariant err.Some? ==> Decode(data, 0, false, false) == Decoded(out, err.value)
      decreases err.None?, |r.Pending().payload|
    {
      var piece;
      piece, err := r.Read(size(i), false);
      out := out + piece;
      i := i + 1;
    }
    end := err.value;
  }

  // ---- Well-formed streams

  /** One chunk: the text of its size line up to the line feed, and its payload. */
  datatype Chunk = Chunk(header: Str, payload: Str)

  predicate WellFormed(c: Chunk) {
    c.payload != [] && LF !in c.header && SizeOfLine(c.header + [LF]) == Some(|c.payload|)
  }

  predicate FinalHeader(last: Str) {
    LF !in last && SizeOfLine(last + [LF]) == Some(0)
  }

  function Payload(chunks: seq<Chunk>): Str {
    if chunks == [] then [] else chunks[0].payload + Payload(chunks[1..])
  }

  function EncodeOne(c: Chunk): Str {
    c.header + [LF] + c.payload + [CR, LF]
  }

  /** The stream of the chunks, the final size line and any trailers. */
  function Encode(chunks: seq<Chunk>, last: Str, trailers: Str): Str {
    if chunks == [] then last + [LF] + trailers
    else EncodeOne(chunks[0]) + Encode(chunks[1..], last, trailers)
  }

  lemma FirstLine(header: Str, tail: Str)
    requires LF !in header
    ensures IndexByte(header + [LF] + tail, LF) == |header|
    ensures (header + [LF] + tail)[..|header| + 1] == header + [LF]
    ensures (header + [LF] + tail)[|header| + 1..] == tail
  {
    var s := header + [LF] + tail;
    assert s[|header|] == LF;
    assert forall k | 0 <= k < |header| :: s[k] == header[k] && header[k] in header;
  }

  /** Cutting a line before its end leaves no line feed. */
  lemma NoLine(header: Str, tail: Str, n: nat)
    requires LF !in header && n <= |header| <= |header + [LF] + tail|
    ensures IndexByte((header + [LF] + tail)[..n], LF) == -1
  {
    var t := (header + [LF] + tail)[..n];
    assert t == header[..n];
    assert forall k | 0 <= k < n :: t[k] == header[k] && header[k] in header;
  }

  /** Decoding undoes the encoding: exactly the payload, then the end. Any truncation
      delivers a prefix of the payload, and then ends just like a complete stream. */
  lemma {:induction false} DecodePrefix(chunks: seq<Chunk>, last: Str, trailers: Str, n: nat)
    requires (forall c :: c in chunks ==> WellFormed(c)) && FinalHeader(last)
    requires n <= |Encode(chunks, last, trailers)|
    ensures var d := Decode(Encode(chunks, last, trailers)[..n], 0, false, false);
            && d.end == Eof && d.payload <= Payload(chunks)
            && (n == |Encode(chunks, last, trailers)| ==> d.payload == Payload(chunks))
    decreases |chunks|
  {
    var all := Encode(chunks, last, trailers);
    if chunks == [] {
      if n <= |last| {
        NoLine(last, trailers, n);
      } else {
        assert all[..n] == last + [LF] + trailers[..n - |last| - 1];
        FirstLine(last, trailers[..n - |last| - 1]);
      }
    } else {
      var c := chunks[0];
      assert c in chunks;
      DecodeChunkPrefix(c, Encode(chunks[1..], last, trailers), n);
      var k := |EncodeOne(c)|;
      if n >= k {
        DecodePrefix(chunks[1..], last, trailers, n - k);
      }
    }
  }

  /** Whatever follows well-formed chunks, their payload comes first. */
  lemma {:induction false} ChunksFirst(chunks: seq<Chunk>, last: Str, rest: Str)
    requires forall c :: c in chunks ==> WellFormed(c)
    ensures var d := Decode(last + [LF] + rest, 0, false, false);
            Decode(Encode(chunks, last, rest), 0, false, false) == Decoded(Payload(chunks) + d.payload, d.end)
    decreases |chunks|
  {
    hide Decode;
    if chunks != [] {
      var c, later := chunks[0], Encode(chunks[1..], last, rest);
      assert c in chunks;
      var all := EncodeOne(c) + later;
      DecodeChunkPrefix(c, later, |all|);
      assert all[..|all|] == all && later[..|later|] == later;
      ChunksFirst(chunks[1..], last, rest);
    }
  }

  /** A size line that announces no size ends the stream with an error, after the payload before. */
  lemma BadSizeRefused(chunks: seq<Chunk>, line: Str, rest: Str)
    requires (forall c :: c in chunks ==> WellFormed(c)) && LF !in line && SizeOfLine(line + [LF]).None?
    ensures Decode(Encode(chunks, line, rest), 0, false, false) == Decoded(Payload(chunks), Malformed)
  {
    ChunksFirst(chunks, line, rest);
    FirstLine(line, rest);
  }

  /** So does a chunk that is not followed by a line end, after its own payload. */
  lemma BadChunkEndRefused(chunks: seq<Chunk>, c: Chunk, tail: Str)
    requires (forall x :: x in chunks ==> WellFormed(x)) && WellFormed(c) && |tail| >= 2 && tail[..2] != [CR, LF]
    ensures Decode(Encode(chunks, c.header, c.payload + tail), 0, false, false)
         == Decoded(Payload(chunks) + c.payload, Malformed)
  {
    var rest := c.payload + tail;
    ChunksFirst(chunks, c.header, rest);
    FirstLine(c.header, rest);
    assert rest[..|c.payload|] == c.payload && rest[|c.payload|..] == tail;
    assert Decode(tail, 0, false, true) == Decoded([], Malformed);
    assert Decode(rest, |c.payload|, false, false) == Decoded(c.payload + [], Malformed);
  }

  /** The first n bytes of a chunk and what follows it. */
  lemma DecodeChunkPrefix(c: Chunk, later: Str, n: nat)
    requires WellFormed(c) && n <= |EncodeOne(c) + later|
    ensures var k := |EncodeOne(c)|;
            var d := Decode((EncodeOne(c) + later)[..n], 0, false, false);
            if n < k then d.end == Eof && d.payload <= c.payload
            else var rest := Decode(later[..n - k], 0, false, false);
                 d == Decoded(c.payload + rest.payload, rest.end)
  {
    var k, h, p := |EncodeOne(c)|, c.header, c.payload;
    var t := (EncodeOne(c) + later)[..n];
    assert EncodeOne(c) + later == h + [LF] + (p + [CR, LF] + later);
    if n <= |h| {
      NoLine(h, p + [CR, LF] + later, n);
    } else {
      var m := n - |h| - 1;
      var body := (p + [CR, LF] + later)[..m];
      assert t == h + [LF] + body;
      FirstLine(h, body);
      assert Decode(t, 0, false, false) == Decode(body, |p|, false, false);
      DecodeBodyPrefix(p, later, m);
    }
  }

  lemma DecodeBodyPrefix(p: Str, later: Str, m: nat)
    requires p != [] && m <= |p + [CR, LF] + later|
    ensures var d := Decode((p + [CR, LF] + later)[..m], |p|, false, false);
            if m < |p| + 2 then d.end == Eof && d.payload <= p
            else var rest := Decode(later[..m - |p| - 2], 0, false, false);
                 d == Decoded(p + rest.payload, rest.end)
  {
    var body := (p + [CR, LF] + later)[..m];
    if m < |p| {
      assert body == p[..m];
    } else {
      assert body[..|p|] == p;
      var tail := body[|p|..];
      if m < |p| + 2 {
        assert |tail| < 2;
        assert p + [] == p;
      } else {
        assert tail[0] == body[|p|] == CR && tail[1] == body[|p| + 1] == LF;
        assert tail[..2] == [CR, LF];
        assert tail[2..] == later[..m - |p| - 2];
      }
    }
  }

  /** The whole stream, read through the reader in buffers of any size. */
  method ReadEncoded(chunks: seq<Chunk>, last: Str, trailers: Str, size: nat -> nat) returns (out: Str, end: End)
    requires (forall c :: c in chunks ==> WellFormed(c)) && FinalHeader(last) && forall i :: size(i) > 0
    ensures out == Payload(chunks) && end == Eof
  {
    var all := Encode(chunks, last, trailers);
    DecodePrefix(chunks, last, trailers, |all|);
    assert all[..|all|] == all;
    out, end := ReadAll(all, size);
  }

  // ---- The size lines clients write

  function HexText(n: nat): Str {
    if n < 16 then [HexByte(n)] else HexText(n / 16) + [HexByte(n % 16)]
  }

  lemma {:induction false} HexTextValue(n: nat)
    ensures AllHex(HexText(n)) && HexText(n) != [] && HexValue(HexText(n)) == n
  {
    var t := HexText(n);
    if n >= 16 {
      HexTextValue(n / 16);
      assert t[..|t| - 1] == HexText(n / 16);
    }
  }

  lemma {:induction false} TrimRightStops(s: Str, t: Str, cut: set<byte>)
    requires s != [] && s[|s| - 1] !in cut
    ensures s <= TrimRight(s + t, cut)
    ensures (forall b :: b in t ==> b in cut) ==> TrimRight(s + t, cut) == s
    decreases |t|
  {
    if t == [] {
      assert s + t == s;
    } else {
      var u := s + t;
      assert u[..|u| - 1] == s + t[..|t| - 1] && u[|u| - 1] == t[|t| - 1] && t[|t| - 1] in t;
      assert forall b :: b in t[..|t| - 1] ==> b in t;
      TrimRightStops(s, t[..|t| - 1], cut);
    }
  }

  lemma HexIsPlain(s: Str)
    requires AllHex(s) && s != []
    ensures Trim(s, Space) == s && SEMICOLON !in s && s[0] !in {43, 45} && s[|s| - 1] !in LineEnd
  {
    assert s[0] in s && s[|s| - 1] in s;
  }

  /** A lower-case hexadecimal size, with or without a chunk extension, announces itself. */
  lemma CanonicalHeader(n: nat, ext: Str)
    requires n <= MAX_INT64 && (ext == [] || ext[0] == SEMICOLON)
    ensures SizeOfLine(HexText(n) + ext + [CR, LF]) == Some(n)
  {
    var h := HexText(n);
    HexTextValue(n);
    HexIsPlain(h);
    if ext == [] {
      assert h + ext + [CR, LF] == h + [CR, LF];
      TrimRightStops(h, [CR, LF], LineEnd);
    } else {
      var s := h + [SEMICOLON];
      assert h + ext + [CR, LF] == s + (ext[1..] + [CR, LF]);
      TrimRightStops(s, ext[1..] + [CR, LF], LineEnd);
      var t := TrimRight(h + ext + [CR, LF], LineEnd);
      assert t[|h|] == s[|h|] == SEMICOLON && t[..|h|] == h;
      FirstSemicolon(t, |h|);
    }
  }

  lemma FirstSemicolon(t: Str, k: nat)
    requires k < |t| && t[k] == SEMICOLON && SEMICOLON !in t[..k]
    ensures IndexByte(t, SEMICOLON) == k
  {
    assert forall j | 0 <= j < k :: t[j] == t[..k][j] && t[..k][j] in t[..k];
  }
}
