/** What a signature covers: which requests have the same canonical form, and which requests
    the signature of a presigned URL is good for (internal/auth/sigv4.go). */
module SignatureCover {
  import opened Bytes
  import opened Metadata
  import opened Text
  import opened Sorting
  import opened SigV4
  import opened Presign
  import C = Credentials

  const LF: byte := 10

  // ---- A request as HTTP can carry it

  /** No line feeds, and header names are tokens: they have no semicolon. */
  ghost predicate OneLine(r: Request) {
    && LF !in r.httpMethod && LF !in r.escapedPath && LF !in r.host && LF !in r.urlHost
    && forall n :: n in r.headers ==> LF !in n && 59 !in n && forall v :: v in r.headers[n] ==> LF !in v
  }

  function Sent(q: Query, key: Str): seq<Str> {
    if key in q then q[key] else []
  }

  /** Every parameter that is signed occurs equally often, with the same values. */
  ghost predicate SameParameters(q: Query, p: Query, presigned: bool) {
    forall key :: !(presigned && EqualFold(key, SIGNATURE_KEY)) ==> multiset(Sent(q, key)) == multiset(Sent(p, key))
  }

  /** The host without blanks around it, or the folded values of any other header. */
  predicate SameHeader(r: Request, s: Request, name: Str) {
    if name == HOST then
      Trim(if r.host == [] then r.urlHost else r.host, Space) == Trim(if s.host == [] then s.urlHost else s.host, Space)
    else Join(FoldedValues(Sent(r.headers, name)), [44]) == Join(FoldedValues(Sent(s.headers, name)), [44])
  }

  /** The payload hash the request declares, folded if it is among the signed headers. */
  function HashSent(r: Request, names: seq<Str>): Str {
    var values := Sent(r.headers, CONTENT_SHA);
    var first := if values == [] then [] else values[0];
    var hash := if CONTENT_SHA in names then Folded(first) else first;
    if hash == [] then UNSIGNED_PAYLOAD else hash
  }

  /** Method, path (an empty one is "/"), signed parameters, signed headers and payload hash. */
  ghost predicate Agree(r: Request, s: Request, names: seq<Str>, presigned: bool) {
    && r.httpMethod == s.httpMethod
    && (if r.escapedPath == [] then [47] else r.escapedPath) == (if s.escapedPath == [] then [47] else s.escapedPath)
    && SameParameters(r.query, s.query, presigned)
    && (forall name :: name in names ==> SameHeader(r, s, name))
    && HashSent(r, names) == HashSent(s, names)
  }

  // ---- The canonical request, line by line

  ghost function NamesOf(signed: seq<Str>): seq<Str> {
    SortedBy(AtMost, Normalized(signed))
  }

  ghost function CanonicalLines(r: Request, names: seq<Str>, presigned: bool): seq<Str>
    requires HeaderLines(r, names).Got?
  {
    [r.httpMethod, if r.escapedPath == [] then [47] else r.escapedPath, CanonicalQueryOf(r.query, presigned)]
    + HeaderLines(r, names).value + [[], Join(names, [59]), PayloadHash(FoldedFor(r.headers, names))]
  }

  lemma {:induction false} JoinConcat(a: seq<Str>, b: seq<Str>, sep: Str)
    requires a != [] && b != []
    ensures Join(a + b, sep) == Join(a, sep) + sep + Join(b, sep)
    decreases |a|
  {
    if |a| == 1 {
      assert (a + b)[1..] == b;
    } else {
      JoinConcat(a[1..], b, sep);
      assert (a + b)[1..] == a[1..] + b;
    }
  }

  lemma JoinThree(a: Str, b: Str, c: Str, sep: Str)
    ensures Join([a, b, c], sep) == a + sep + b + sep + c
  {
    assert [a, b, c][1..] == [b, c] && [b, c][1..] == [c];
    assert Join([b, c], sep) == b + sep + c;
    assert a + sep + (b + sep + c) == a + sep + b + sep + c;
  }

  lemma JoinSix(a: Str, b: Str, c: Str, d: Str, e: Str, f: Str, sep: Str)
    ensures Join([a, b, c, d, e, f], sep) == Join([a, b, c], sep) + sep + (d + sep + e + sep + f)
  {
    JoinConcat([a, b, c], [d, e, f], sep);
    JoinThree(d, e, f, sep);
    assert [a, b, c] + [d, e, f] == [a, b, c, d, e, f];
  }

  lemma {:induction false} HeaderLineAt(r: Request, names: seq<Str>)
    requires HeaderLines(r, names).Got?
    ensures |HeaderLines(r, names).value| == |names|
    ensures forall i :: 0 <= i < |names| ==>
              && names[i] != [] && HeaderValue(r, names[i]).Some?
              && HeaderLines(r, names).value[i] == names[i] + [58] + HeaderValue(r, names[i]).value
  {
    hide HeaderValue;
    if names != [] { HeaderLineAt(r, names[..|names| - 1]); }
  }

  /** The canonical request is these lines. */
  lemma CanonicalIsLines(r: Request, signed: seq<Str>, presigned: bool)
    requires signed != [] && CanonicalRequestOf(r, signed, presigned).Got?
    ensures HeaderLines(r, NamesOf(signed)).Got? && NamesOf(signed) != []
    ensures CanonicalRequestOf(r, signed, presigned).value
         == Join(CanonicalLines(r, NamesOf(signed), presigned), NEWLINE)
  {
    var names := NamesOf(signed);
    NamesNotEmpty(signed);
    hide SortedBy, Normalized, HeaderLines, CanonicalQueryOf, Join, PayloadHash, FoldedFor;
    var lines := HeaderLines(r, names).value;
    HeaderLineAt(r, names);
    var m, p := r.httpMethod, if r.escapedPath == [] then [47] else r.escapedPath;
    var q := CanonicalQueryOf(r.query, presigned);
    var n, h := Join(names, [59]), PayloadHash(FoldedFor(r.headers, names));
    JoinWithLines(m, p, q, lines, n, h, NEWLINE);
  }

  /** A blank line ends the header lines. */
  lemma JoinWithLines(m: Str, p: Str, q: Str, lines: seq<Str>, n: Str, h: Str, sep: Str)
    requires lines != []
    ensures Join([m, p, q, Join(lines, sep) + sep, n, h], sep) == Join([m, p, q] + lines + [[], n, h], sep)
  {
    hide Join;
    var l, front := Join(lines, sep), Join([m, p, q], sep);
    JoinSix(m, p, q, l + sep, n, h, sep);
    JoinConcat([m, p, q] + lines, [[], n, h], sep);
    JoinConcat([m, p, q], lines, sep);
    JoinThree([], n, h, sep);
    assert front + sep + ((l + sep) + sep + n + sep + h) == (front + sep + l) + sep + ([] + sep + n + sep + h);
  }

  lemma NamesNotEmpty(signed: seq<Str>)
    requires signed != []
    ensures NamesOf(signed) != []
  {
    hide Normalized, AtMost;
    StringOrder();
    assert |Normalized(signed)| == |signed| by { NormalizedLength(signed); }
    SortedByMeans(AtMost, Normalized(signed));
    assert |multiset(NamesOf(signed))| == |multiset(Normalized(signed))|;
  }

  lemma NormalizedLength(signed: seq<Str>)
    ensures |Normalized(signed)| == |signed|
  {
  }

  // ---- Its lines have no line feeds

  lemma {:induction false} JoinFree(parts: seq<Str>, sep: Str, b: byte)
    requires b !in sep && forall p :: p in parts ==> b !in p
    ensures b !in Join(parts, sep)
  {
    if parts != [] {
      JoinFree(parts[1..], sep, b);
      assert parts[0] in parts;
    }
  }

  lemma {:induction false} TrimLeftFree(s: Str, cut: set<byte>, b: byte)
    requires b !in s
    ensures b !in TrimLeft(s, cut)
  {
    if s != [] && s[0] in cut { TrimLeftFree(s[1..], cut, b); }
  }

  lemma {:induction false} TrimRightFree(s: Str, cut: set<byte>, b: byte)
    requires b !in s
    ensures b !in TrimRight(s, cut)
  {
    if s != [] && s[|s| - 1] in cut { TrimRightFree(s[..|s| - 1], cut, b); }
  }

  lemma FoldedFree(s: Str)
    ensures LF !in Folded(s)
  {
    FieldsAreSolid(s);
    JoinFree(Fields(s), [32], LF);
  }

  lemma {:induction false} AwsFree(s: Str)
    ensures LF !in AwsEncode(s)
  {
    if s != [] { AwsFree(s[1..]); }
  }

  lemma QueryFree(q: Query, presigned: bool)
    ensures LF !in CanonicalQueryOf(q, presigned)
  {
    hide AwsEncode, CanonicalPairs, Join;
    var ps := CanonicalPairs(q, presigned);
    forall i | 0 <= i < |ps|
      ensures LF !in EncodePair(ps[i])
    {
      AwsFree(ps[i].key);
      AwsFree(ps[i].value);
    }
    JoinFree(EncodePairs(ps), [38], LF);
  }

  lemma ValueFree(r: Request, name: Str)
    requires OneLine(r) && HeaderValue(r, name).Some?
    ensures LF !in HeaderValue(r, name).value && LF !in name && 59 !in name
  {
    hide Join, Fields, TrimLeft, TrimRight, Folded;
    if name == HOST {
      var host := if r.host == [] then r.urlHost else r.host;
      TrimLeftFree(host, Space, LF);
      TrimRightFree(TrimLeft(host, Space), Space, LF);
    } else {
      var values := r.headers[name];
      forall i | 0 <= i < |values|
        ensures LF !in Folded(values[i])
      {
        FoldedFree(values[i]);
      }
      JoinFree(FoldedValues(values), [44], LF);
    }
  }

  lemma UnsignedPayloadFree()
    ensures LF !in UNSIGNED_PAYLOAD && |CONTENT_SHA| == 20
  {
    assert forall i | 0 <= i < 16 :: UNSIGNED_PAYLOAD[i] != LF;
  }

  /** The hash line is the hash the request declares. */
  lemma HashIsSent(r: Request, names: seq<Str>)
    ensures PayloadHash(FoldedFor(r.headers, names)) == HashSent(r, names)
  {
    UnsignedPayloadFree();
    hide Ascii;
    assert CONTENT_SHA != HOST && Folded([]) == [];
  }

  lemma HashFree(r: Request, names: seq<Str>)
    requires OneLine(r)
    ensures LF !in HashSent(r, names)
  {
    UnsignedPayloadFree();
    hide Folded, Ascii;
    var values := Sent(r.headers, CONTENT_SHA);
    if values != [] {
      assert values[0] in values;
      FoldedFree(values[0]);
    } else {
      FoldedFree([]);
    }
  }

  lemma LinesFree(r: Request, names: seq<Str>, presigned: bool)
    requires OneLine(r) && HeaderLines(r, names).Got?
    ensures forall l :: l in CanonicalLines(r, names, presigned) ==> LF !in l
    ensures forall n :: n in names ==> 59 !in n
  {
    HashIsSent(r, names);
    hide CanonicalQueryOf, HeaderValue, HeaderLines, Join, PayloadHash, FoldedFor, HashSent;
    QueryFree(r.query, presigned);
    HashFree(r, names);
    HeaderLineAt(r, names);
    var lines := HeaderLines(r, names).value;
    forall i | 0 <= i < |names|
      ensures LF !in lines[i] && LF !in names[i] && 59 !in names[i]
    {
      ValueFree(r, names[i]);
    }
    JoinFree(names, [59], LF);
  }

  // ---- Which requests have the same canonical form

  lemma CountIsSent(q: Query, presigned: bool, key: Str, value: Str)
    ensures Count(q, presigned, Pair(key, value)) ==
            if presigned && EqualFold(key, SIGNATURE_KEY) then 0 else multiset(Sent(q, key))[value]
  {
    hide EqualFold;
  }

  lemma SameParametersIff(q: Query, p: Query, presigned: bool)
    ensures SameParameters(q, p, presigned) <==> forall x :: Count(q, presigned, x) == Count(p, presigned, x)
  {
    hide Count, EqualFold, Sent;
    forall key, value { CountIsSent(q, presigned, key, value); }
    forall key, value { CountIsSent(p, presigned, key, value); }
    if SameParameters(q, p, presigned) {
      forall x
        ensures Count(q, presigned, x) == Count(p, presigned, x)
      {
        CountIsSent(q, presigned, x.key, x.value);
        CountIsSent(p, presigned, x.key, x.value);
      }
    }
    if forall x :: Count(q, presigned, x) == Count(p, presigned, x) {
      forall key | !(presigned && EqualFold(key, SIGNATURE_KEY))
        ensures multiset(Sent(q, key)) == multiset(Sent(p, key))
      {
        forall value
          ensures multiset(Sent(q, key))[value] == multiset(Sent(p, key))[value]
        {
          assert Count(q, presigned, Pair(key, value)) == Count(p, presigned, Pair(key, value));
        }
      }
    }
  }

  lemma ValueIsSame(r: Request, s: Request, name: Str)
    requires HeaderValue(r, name).Some? && HeaderValue(s, name).Some?
    ensures HeaderValue(r, name) == HeaderValue(s, name) <==> SameHeader(r, s, name)
  {
    hide Join, Trim;
  }

  /** Canonical lines of the same names agree exactly if the requests do. */
  lemma LinesIff(r: Request, s: Request, names: seq<Str>, presigned: bool)
    requires HeaderLines(r, names).Got? && HeaderLines(s, names).Got?
    ensures CanonicalLines(r, names, presigned) == CanonicalLines(s, names, presigned)
       <==> Agree(r, s, names, presigned)
  {
    HashIsSent(r, names);
    HashIsSent(s, names);
    hide CanonicalQueryOf, HeaderValue, HeaderLines, Join, PayloadHash, FoldedFor, HashSent, SameHeader, SameParameters;
    CanonicalQueryIff(r.query, s.query, presigned);
    SameParametersIff(r.query, s.query, presigned);
    HeaderLineAt(r, names);
    HeaderLineAt(s, names);
    var a, b, n := CanonicalLines(r, names, presigned), CanonicalLines(s, names, presigned), |names|;
    var la, lb := HeaderLines(r, names).value, HeaderLines(s, names).value;
    forall i | 0 <= i < n
      ensures la[i] == lb[i] <==> SameHeader(r, s, names[i])
    {
      SuffixSame(names[i] + [58], HeaderValue(r, names[i]).value, HeaderValue(s, names[i]).value);
      ValueIsSame(r, s, names[i]);
    }
    if a == b {
      assert a[0] == b[0] && a[1] == b[1] && a[2] == b[2] && a[n + 5] == b[n + 5];
      forall i | 0 <= i < n
        ensures SameHeader(r, s, names[i])
      {
        assert a[i + 3] == la[i] && b[i + 3] == lb[i];
      }
    }
    if Agree(r, s, names, presigned) {
      assert forall i | 0 <= i < n :: names[i] in names;
      assert la == lb;
    }
  }

  lemma SuffixSame(p: Str, a: Str, b: Str)
    ensures p + a == p + b <==> a == b
  {
    if p + a == p + b {
      assert a == (p + a)[|p|..] && b == (p + b)[|p|..];
    }
  }

  /** The names line and the number of lines give the names away. */
  lemma SameNames(r: Request, names: seq<Str>, s: Request, others: seq<Str>, presigned: bool)
    requires OneLine(r) && OneLine(s) && names != [] && others != []
    requires HeaderLines(r, names).Got? && HeaderLines(s, others).Got?
    requires CanonicalLines(r, names, presigned) == CanonicalLines(s, others, presigned)
    ensures names == others
  {
    LinesFree(r, names, presigned);
    LinesFree(s, others, presigned);
    HeaderLineAt(r, names);
    HeaderLineAt(s, others);
    hide CanonicalQueryOf, HeaderValue, HeaderLines, Join, PayloadHash, FoldedFor;
    var a, b := CanonicalLines(r, names, presigned), CanonicalLines(s, others, presigned);
    assert |a| == |names| + 6 && |b| == |others| + 6;
    assert a[|names| + 4] == Join(names, [59]) && b[|names| + 4] == Join(others, [59]);
    SplitJoin(names, 59);
    SplitJoin(others, 59);
  }

  /** Two requests have the same canonical form if and only if they sign the same headers and
      agree in method, path, signed parameters, signed headers and payload hash. */
  lemma CanonicalIff(r: Request, signed: seq<Str>, s: Request, others: seq<Str>, presigned: bool)
    requires OneLine(r) && OneLine(s) && signed != [] && others != []
    requires CanonicalRequestOf(r, signed, presigned).Got? && CanonicalRequestOf(s, others, presigned).Got?
    ensures CanonicalRequestOf(r, signed, presigned) == CanonicalRequestOf(s, others, presigned)
       <==> NamesOf(signed) == NamesOf(others) && Agree(r, s, NamesOf(signed), presigned)
  {
    CanonicalIsLines(r, signed, presigned);
    CanonicalIsLines(s, others, presigned);
    hide CanonicalRequestOf, NamesOf, Join, Agree, CanonicalLines;
    var names, names' := NamesOf(signed), NamesOf(others);
    var a, b := CanonicalLines(r, names, presigned), CanonicalLines(s, names', presigned);
    LinesFree(r, names, presigned);
    LinesFree(s, names', presigned);
    assert |a| >= 1 && |b| >= 1 by { LinesNotEmpty(r, names, presigned); LinesNotEmpty(s, names', presigned); }
    SplitJoin(a, LF);
    SplitJoin(b, LF);
    if a == b { SameNames(r, names, s, names', presigned); }
    if names == names' { LinesIff(r, s, names, presigned); }
  }

  lemma LinesNotEmpty(r: Request, names: seq<Str>, presigned: bool)
    requires HeaderLines(r, names).Got?
    ensures |CanonicalLines(r, names, presigned)| >= 1
  {
  }

  /** The text over the host alone, as AWS Signature Version 4 lays it down: method, path, query, the
      host header, a blank line, the signed names and the payload hash. */
  lemma HostForm(r: Request, presigned: bool)
    requires CanonicalRequestOf(r, [HOST], presigned).Got?
    ensures var path := if r.escapedPath == [] then [47] else r.escapedPath;
            var host := Trim(if r.host == [] then r.urlHost else r.host, Space);
            CanonicalRequestOf(r, [HOST], presigned).value ==
            r.httpMethod + [LF] + path + [LF] + CanonicalQueryOf(r.query, presigned) + [LF]
            + (Ascii("host:") + host + [LF] + [LF] + Ascii("host") + [LF] + HashSent(r, [HOST]))
  {
    var path := if r.escapedPath == [] then [47] else r.escapedPath;
    var host, hash := Trim(if r.host == [] then r.urlHost else r.host, Space), HashSent(r, [HOST]);
    hide CanonicalQueryOf, CanonicalLines, HashSent, Trim, SortedBy, Normalized, CanonicalRequestOf, Ascii, Join;
    HostOnly();
    CanonicalIsLines(r, [HOST], presigned);
    HostLines(r, presigned);
    HostText();
    SevenLines(r.httpMethod, path, CanonicalQueryOf(r.query, presigned), HOST + [58] + host, HOST, hash);
  }

  lemma HostText()
    ensures Ascii("host") == HOST && Ascii("host:") == HOST + [58]
  {
  }

  lemma HostLines(r: Request, presigned: bool)
    requires HeaderLines(r, [HOST]).Got?
    ensures var path := if r.escapedPath == [] then [47] else r.escapedPath;
            var host := Trim(if r.host == [] then r.urlHost else r.host, Space);
            CanonicalLines(r, [HOST], presigned) ==
            [r.httpMethod, path, CanonicalQueryOf(r.query, presigned), HOST + [58] + host, [], HOST,
             HashSent(r, [HOST])]
  {
    HashIsSent(r, [HOST]);
    HeaderLineAt(r, [HOST]);
    hide CanonicalQueryOf, PayloadHash, FoldedFor, HashSent, Trim;
  }

  lemma SevenLines(m: Str, p: Str, q: Str, line: Str, n: Str, h: Str)
    ensures Join([m, p, q, line, [], n, h], NEWLINE)
         == m + [LF] + p + [LF] + q + [LF] + (line + [LF] + [LF] + n + [LF] + h)
  {
    hide Join;
    JoinConcat([m, p, q], [line, [], n, h], NEWLINE);
    JoinThree(m, p, q, NEWLINE);
    JoinConcat([line], [[], n, h], NEWLINE);
    JoinThree([], n, h, NEWLINE);
    JoinOne(line, NEWLINE);
    assert [m, p, q] + [line, [], n, h] == [m, p, q, line, [], n, h] && [line] + [[], n, h] == [line, [], n, h];
    assert line + [LF] + ([] + [LF] + n + [LF] + h) == line + [LF] + [LF] + n + [LF] + h;
  }

  lemma JoinOne(a: Str, sep: Str)
    ensures Join([a], sep) == a
  {
  }

  // ---- What a signature is made of

  /** A keyed digest no two inputs share, and a digest no two texts share. */
  ghost predicate Ideal(c: Crypto) {
    && (forall k, t, l, u :: c.hmac(k, t) == c.hmac(l, u) ==> k == l && t == u)
    && (forall t, u :: c.sha256(t) == c.sha256(u) ==> t == u)
  }

  lemma HexInjective(a: Str, b: Str)
    requires HexEncode(a) == HexEncode(b)
    ensures a == b
  {
    hide HexEncode, HexDecode;
    HexRoundTrip(a);
    HexRoundTrip(b);
  }

  /** With an ideal digest a signature gives secret, day, region, service, terminal and text away. */
  lemma SignCovers(c: Crypto, s1: Str, scope1: Scope, t1: Str, s2: Str, scope2: Scope, t2: Str)
    requires Ideal(c) && Sign(c, s1, scope1, t1) == Sign(c, s2, scope2, t2)
    ensures s1 == s2 && t1 == t2 && scope1.day == scope2.day && scope1.region == scope2.region
    ensures scope1.service == scope2.service && scope1.terminal == scope2.terminal
  {
    hide HexEncode, Ascii;
    var d1, d2 := c.hmac(Ascii("AWS4") + s1, scope1.day), c.hmac(Ascii("AWS4") + s2, scope2.day);
    var r1, r2 := c.hmac(d1, scope1.region), c.hmac(d2, scope2.region);
    var v1, v2 := c.hmac(r1, scope1.service), c.hmac(r2, scope2.service);
    var k1, k2 := c.hmac(v1, scope1.terminal), c.hmac(v2, scope2.terminal);
    HexInjective(c.hmac(k1, t1), c.hmac(k2, t2));
    SuffixSame(Ascii("AWS4"), s1, s2);
  }

  lemma {:induction false} HexFree(s: Str)
    ensures LF !in HexEncode(s)
  {
    if s != [] {
      HexFree(s[1..]);
      assert HexByte(s[0] / 16) != LF && HexByte(s[0] % 16) != LF;
    }
  }

  /** The text to sign ends in the digest of the canonical request. */
  lemma TextCoversForm(c: Crypto, at1: int, scope1: Str, form1: Str, at2: int, scope2: Str, form2: Str)
    requires StringToSign(c, at1, scope1, form1) == StringToSign(c, at2, scope2, form2)
    ensures c.sha256(form1) == c.sha256(form2)
  {
    hide HexEncode, Split;
    var h1, h2 := HexEncode(c.sha256(form1)), HexEncode(c.sha256(form2));
    var a1, a2 := [ALGORITHM, c.stamp(at1), scope1], [ALGORITHM, c.stamp(at2), scope2];
    JoinConcat(a1, [h1], NEWLINE);
    JoinConcat(a2, [h2], NEWLINE);
    assert a1 + [h1] == [ALGORITHM, c.stamp(at1), scope1, h1] && a2 + [h2] == [ALGORITHM, c.stamp(at2), scope2, h2];
    HexFree(c.sha256(form1));
    HexFree(c.sha256(form2));
    LastLine(Join(a1, NEWLINE), h1, Join(a2, NEWLINE), h2);
    HexInjective(c.sha256(form1), c.sha256(form2));
  }

  lemma LastLine(a: Str, h: Str, b: Str, k: Str)
    requires a + NEWLINE + h == b + NEWLINE + k && LF !in h && LF !in k
    ensures h == k
  {
    hide Split;
    SplitAt(a, LF, h);
    SplitAt(b, LF, k);
    SplitFree(h, LF);
    SplitFree(k, LF);
    var x, y := Split(a, LF) + [h], Split(b, LF) + [k];
    assert x == y;
    assert x[|x| - 1] == h && y[|y| - 1] == k;
  }

  // ---- Which requests are accepted

  /** The canonical form a check compares: over the headers the query says are signed. */
  ghost function CheckedForm(r: Request): Outcome<Str> {
    CanonicalRequestOf(r, Split(Get(r.query, SIGNED_HEADERS_KEY), 59), true)
  }

  ghost predicate SignedBy(c: Crypto, secrets: seq<Str>, scope: Scope, text: Str, signature: Str) {
    exists x :: x in secrets && Sign(c, x, scope, text) == signature
  }

  /** Any request at all is accepted if and only if it passes every check. */
  lemma VerifiedIff(c: Crypto, v: Verifier, creds: C.Creds, r: Request, now: int)
    ensures var q := r.query;
            var at, scope, expires := c.parseStamp(Get(q, DATE_KEY)), ParseScope(Get(q, CREDENTIAL_KEY)),
                                      Atoi(Get(q, EXPIRES_KEY));
            Verify(c, v, creds, r, now) == Verified <==>
            && Get(q, ALGORITHM_KEY) == ALGORITHM && Get(q, DATE_KEY) != [] && at.Some?
            && (now <= at.value + v.maxSkew || v.maxSkew == MAX_DURATION)
            && (at.value <= now + v.maxSkew || now <= at.value + MIN_DURATION)
            && expires.Some? && 1 <= expires.value <= 604800 && now <= at.value + expires.value * SECOND
            && scope.Some? && scope.value.service == v.service && scope.value.terminal == v.terminal
            && Split(Get(q, SIGNED_HEADERS_KEY), 59)[0] != [] && Get(q, SIGNATURE_KEY) != []
            && scope.value.accessKeyId in creds && creds[scope.value.accessKeyId].status == C.Active
            && CheckedForm(r).Got?
            && SignedBy(c, C.Secrets(creds[scope.value.accessKeyId], now), scope.value,
                        StringToSign(c, at.value, scope.value.raw, CheckedForm(r).value), Get(q, SIGNATURE_KEY))
  {
    hide CanonicalRequestOf, StringToSign, Sign, C.Secrets, Atoi, Split, ParseScope, Get, Precheck, Matches, SignedBy;
    FormVerdict(r, Split(Get(r.query, SIGNED_HEADERS_KEY), 59), true);
    PrecheckIff(c, v, r.query, now);
    forall secrets, scope, text, signature { MatchesMeans(c, secrets, scope, text, signature); }
  }

  lemma MatchesMeans(c: Crypto, secrets: seq<Str>, scope: Scope, text: Str, signature: Str)
    ensures Matches(c, secrets, scope, text, signature) <==> SignedBy(c, secrets, scope, text, signature)
  {
    hide Sign;
  }

  lemma PrecheckIff(c: Crypto, v: Verifier, q: Query, now: int)
    ensures Precheck(c, v, q, now) != Failed(Verified)
    ensures var at, scope, expires := c.parseStamp(Get(q, DATE_KEY)), ParseScope(Get(q, CREDENTIAL_KEY)),
                                      Atoi(Get(q, EXPIRES_KEY));
            var pre := Precheck(c, v, q, now);
            && (pre.Got? <==>
                && Get(q, ALGORITHM_KEY) == ALGORITHM && Get(q, DATE_KEY) != [] && at.Some?
                && (now <= at.value + v.maxSkew || v.maxSkew == MAX_DURATION)
                && (at.value <= now + v.maxSkew || now <= at.value + MIN_DURATION)
                && expires.Some? && 1 <= expires.value <= 604800 && now <= at.value + expires.value * SECOND
                && scope.Some? && scope.value.service == v.service && scope.value.terminal == v.terminal
                && Split(Get(q, SIGNED_HEADERS_KEY), 59)[0] != [] && Get(q, SIGNATURE_KEY) != [])
            && (pre.Got? ==> pre.value == (at.value, scope.value))
  {
    hide Atoi, Split, ParseScope, Get, Ascii;
  }

  lemma FormVerdict(r: Request, signed: seq<Str>, presigned: bool)
    ensures CanonicalRequestOf(r, signed, presigned) != Failed(Verified)
  {
    hide SortedBy, Normalized, Join, CanonicalQueryOf, PayloadHash, FoldedFor;
    LinesVerdict(r, NamesOf(signed));
  }

  lemma {:induction false} LinesVerdict(r: Request, names: seq<Str>)
    ensures HeaderLines(r, names) != Failed(Verified)
  {
    hide HeaderValue;
    if names != [] { LinesVerdict(r, names[..|names| - 1]); }
  }

  // ---- What the signature of a presigned URL is good for

  /** Nobody found another text with this signature, under the secrets in use, or another canonical
      form with the same digest. */
  ghost predicate Unforged(c: Crypto, creds: C.Creds, r: Request, now: int, text: Str, form: Str, signature: Str) {
    var at, scope := c.parseStamp(Get(r.query, DATE_KEY)), ParseScope(Get(r.query, CREDENTIAL_KEY));
    var other := CheckedForm(r);
    at.Some? && scope.Some? && other.Got? && scope.value.accessKeyId in creds ==>
      && (c.sha256(other.value) == c.sha256(form) ==> other.value == form)
      && var t := StringToSign(c, at.value, scope.value.raw, other.value);
         SignedBy(c, C.Secrets(creds[scope.value.accessKeyId], now), scope.value, t, signature) ==> t == text
  }

  /** An ideal digest leaves no room for that. */
  lemma IdealUnforged(c: Crypto, creds: C.Creds, r: Request, now: int, secret: Str, scope: Scope, text: Str, form: Str)
    requires Ideal(c)
    ensures Unforged(c, creds, r, now, text, form, Sign(c, secret, scope, text))
  {
    hide CanonicalRequestOf, StringToSign, Sign, C.Secrets, Split, ParseScope, Get;
    forall x, other, t | Sign(c, x, other, t) == Sign(c, secret, scope, text)
      ensures t == text
    {
      SignCovers(c, x, other, t, secret, scope, text);
    }
  }

  /** The signing parameters are themselves signed. */
  lemma KeysSigned()
    ensures !EqualFold(ALGORITHM_KEY, SIGNATURE_KEY) && !EqualFold(CREDENTIAL_KEY, SIGNATURE_KEY)
    ensures !EqualFold(DATE_KEY, SIGNATURE_KEY) && !EqualFold(EXPIRES_KEY, SIGNATURE_KEY)
    ensures !EqualFold(SIGNED_HEADERS_KEY, SIGNATURE_KEY)
  {
    KeysDiffer();
    SixthDiffers();
    AsciiKeys();
    hide EqualFold, Ascii;
    EqualFoldAscii(ALGORITHM_KEY, SIGNATURE_KEY);
    EqualFoldAscii(CREDENTIAL_KEY, SIGNATURE_KEY);
    EqualFoldAscii(DATE_KEY, SIGNATURE_KEY);
    EqualFoldAscii(EXPIRES_KEY, SIGNATURE_KEY);
    EqualFoldAscii(SIGNED_HEADERS_KEY, SIGNATURE_KEY);
  }

  lemma AsciiIsAscii(s: string)
    requires forall i :: 0 <= i < |s| ==> s[i] as int < 128
    ensures IsAscii(Ascii(s))
  {
  }

  lemma AsciiKeys()
    ensures IsAscii(ALGORITHM_KEY) && IsAscii(CREDENTIAL_KEY) && IsAscii(DATE_KEY) && IsAscii(EXPIRES_KEY)
    ensures IsAscii(SIGNED_HEADERS_KEY) && IsAscii(SIGNATURE_KEY)
  {
    hide Ascii, IsAscii;
    AsciiIsAscii("X-Amz-Algorithm");
    AsciiIsAscii("X-Amz-Credential");
    AsciiIsAscii("X-Amz-Date");
    AsciiIsAscii("X-Amz-Expires");
    AsciiIsAscii("X-Amz-SignedHeaders");
    AsciiIsAscii("X-Amz-Signature");
  }

  lemma SixthDiffers()
    ensures |ALGORITHM_KEY| > 6 && |SIGNATURE_KEY| > 6 && Lower(ALGORITHM_KEY[6]) != Lower(SIGNATURE_KEY[6])
  {
  }

  lemma OneValue(a: seq<Str>, x: Str)
    requires multiset(a) == multiset([x])
    ensures a == [x]
  {
    assert |a| == |multiset(a)| == |multiset([x])| == 1;
    assert a[0] in multiset(a);
  }

  /** A parameter given once, and signed, reads the same in a query with the same parameters. */
  lemma SameGet(q: Query, p: Query, key: Str)
    requires SameParameters(q, p, true) && !EqualFold(key, SIGNATURE_KEY) && |Sent(p, key)| == 1
    ensures Get(p, key) == Get(q, key)
  {
    hide EqualFold;
    assert multiset(Sent(q, key)) == multiset(Sent(p, key));
    OneValue(Sent(q, key), Sent(p, key)[0]);
  }

  /** A value without blanks around it, or what stands for a blank one. */
  function Given(value: Str, otherwise: Str): Str {
    var t := Trim(value, Space);
    if t == [] then otherwise else t
  }

  predicate SigningKey(key: Str) {
    || key == ALGORITHM_KEY || key == CREDENTIAL_KEY || key == DATE_KEY || key == EXPIRES_KEY
    || key == SIGNED_HEADERS_KEY || key == SIGNATURE_KEY
  }

  /** Presigning leaves every other parameter alone. */
  lemma OtherParameters(c: Crypto, r: Request, accessKeyId: Str, secret: Str, o: Options, at: int, key: Str)
    requires !SigningKey(key)
    ensures Sent(PresignOf(c, r, accessKeyId, secret, o, at).0, key) == Sent(r.query, key)
  {
    hide Trim, CanonicalRequestOf, StringToSign, Sign, Itoa, Ascii, ScopeFor;
  }

  /** What a presigned URL says: algorithm, credential with its scope, date, expiry in seconds (a
      quarter of an hour if none is given) and the signed header, each once. */
  lemma PresignedSays(c: Crypto, r: Request, accessKeyId: Str, secret: Str, o: Options, at: int)
    requires PresignOf(c, r, accessKeyId, secret, o, at).1 == Signed
    ensures var q := PresignOf(c, r, accessKeyId, secret, o, at).0;
            var scope := [c.day(at), Given(o.region, Ascii("us-east-1")), Given(o.service, Ascii("s3")),
                          Given(o.terminal, Ascii("aws4_request"))];
            && o.expires >= 0
            && Sent(q, Ascii("X-Amz-Algorithm")) == [Ascii("AWS4-HMAC-SHA256")]
            && Sent(q, Ascii("X-Amz-Credential")) == [Join([accessKeyId] + scope, [47])]
            && Sent(q, Ascii("X-Amz-Date")) == [c.stamp(at)]
            && Sent(q, Ascii("X-Amz-Expires")) == [Itoa(if o.expires == 0 then 900 else o.expires / SECOND)]
            && Sent(q, Ascii("X-Amz-SignedHeaders")) == [HOST]
            && |Sent(q, Ascii("X-Amz-Signature"))| == 1
  {
    SignedIff(c, r, accessKeyId, secret, o, at);
    ScopeSays(c, accessKeyId, o, at);
    ExpirySays(o);
    hide Ascii, Trim, Join, Itoa, Sign, SignedText, CheckedForm, CanonicalRequestOf, StringToSign, PresignOf, Sent;
    hide ScopeFor, Given, Expires, CanonicalHost;
    PresignedQuery(c, r, accessKeyId, secret, o, at);
  }

  lemma ExpirySays(o: Options)
    requires o.expires >= 0
    ensures Expires(o) / SECOND == if o.expires == 0 then 900 else o.expires / SECOND
  {
    assert 15 * MINUTE == 900 * SECOND;
  }

  lemma ScopeSays(c: Crypto, accessKeyId: Str, o: Options, at: int)
    ensures var scope := [c.day(at), Given(o.region, Ascii("us-east-1")), Given(o.service, Ascii("s3")),
                          Given(o.terminal, Ascii("aws4_request"))];
            accessKeyId + [47] + ScopeFor(c, accessKeyId, o, at).raw == Join([accessKeyId] + scope, [47])
  {
    hide Ascii, Trim, Join;
    var region, service := Given(o.region, Ascii("us-east-1")), Given(o.service, Ascii("s3"));
    JoinFive(accessKeyId, c.day(at), region, service, Given(o.terminal, Ascii("aws4_request")));
  }

  lemma JoinFive(a: Str, b: Str, c: Str, d: Str, e: Str)
    ensures Join([a] + [b, c, d, e], [47]) == a + [47] + ScopeText(b, c, d, e)
  {
    JoinConcat([a], [b, c, d, e], [47]);
    JoinFour(b, c, d, e);
  }

  /** What the query of a presigned request says. */
  lemma PresignedQuery(c: Crypto, r: Request, accessKeyId: Str, secret: Str, o: Options, at: int)
    requires PresignOf(c, r, accessKeyId, secret, o, at).1 == Signed
    ensures var q, scope := PresignOf(c, r, accessKeyId, secret, o, at).0, ScopeFor(c, accessKeyId, o, at);
            && Sent(q, ALGORITHM_KEY) == [ALGORITHM] && Sent(q, DATE_KEY) == [c.stamp(at)]
            && Sent(q, CREDENTIAL_KEY) == [accessKeyId + [47] + scope.raw]
            && Sent(q, EXPIRES_KEY) == [Itoa(Expires(o) / SECOND)] && Sent(q, SIGNED_HEADERS_KEY) == [HOST]
            && CheckedForm(r.(query := q)).Got?
            && Sent(q, SIGNATURE_KEY) == [Sign(c, secret, scope, SignedText(c, r, accessKeyId, o, at))]
            && SignedText(c, r, accessKeyId, o, at) == StringToSign(c, at, scope.raw, CheckedForm(r.(query := q)).value)
  {
    hide Trim, CanonicalRequestOf, StringToSign, Sign, Itoa, Split, Ascii;
    KeysDiffer();
    var scope, expires := ScopeFor(c, accessKeyId, o, at), Expires(o) / SECOND;
    var plain := Unsigned(c, r.query, scope, expires, at);
    var q := PresignOf(c, r, accessKeyId, secret, o, at).0;
    assert Get(q, SIGNED_HEADERS_KEY) == HOST;
    SplitFree(HOST, 59);
    SignatureNotSigned(r, plain, q[SIGNATURE_KEY][0], [HOST]);
  }

  /** Requests that agree with a presigned one in what is signed, and carry its signature, get its
      verdict. */
  lemma SameVerdict(c: Crypto, v: Verifier, creds: C.Creds, r: Request, s: Request, accessKeyId: Str, secret: Str,
                    o: Options, at: int, now: int)
    requires PresignOf(c, r, accessKeyId, secret, o, at).1 == Signed
    requires var p := r.(query := PresignOf(c, r, accessKeyId, secret, o, at).0);
             && OneLine(r) && OneLine(s) && Agree(p, s, [HOST], true)
             && Get(s.query, SIGNATURE_KEY) == Get(p.query, SIGNATURE_KEY)
    ensures var p := r.(query := PresignOf(c, r, accessKeyId, secret, o, at).0);
            Verify(c, v, creds, s, now) == Verify(c, v, creds, p, now)
  {
    hide PresignOf, Verify, Agree, CheckedForm, Get, OneLine;
    var p := r.(query := PresignOf(c, r, accessKeyId, secret, o, at).0);
    SameGets(c, r, s, accessKeyId, secret, o, at);
    assert CheckedForm(s) == CheckedForm(p) by {
      SameOneLine(r, p.query);
      SameForm(c, r, s, accessKeyId, secret, o, at);
    }
    ReadsAlike(c, v, creds, p, s, now);
  }

  /** The verdict depends on a few parameters and the checked form. */
  lemma ReadsAlike(c: Crypto, v: Verifier, creds: C.Creds, p: Request, s: Request, now: int)
    requires CheckedForm(p) == CheckedForm(s) && SameChecked(p.query, s.query)
    ensures Verify(c, v, creds, p, now) == Verify(c, v, creds, s, now)
  {
    hide CanonicalRequestOf, StringToSign, Sign, Atoi, Split, ParseScope, C.Secrets, Skewed, Matches, Ascii, Get;
  }

  /** The parameters a check reads are the same. */
  predicate SameChecked(q: Query, p: Query) {
    && Get(q, ALGORITHM_KEY) == Get(p, ALGORITHM_KEY) && Get(q, DATE_KEY) == Get(p, DATE_KEY)
    && Get(q, CREDENTIAL_KEY) == Get(p, CREDENTIAL_KEY) && Get(q, EXPIRES_KEY) == Get(p, EXPIRES_KEY)
    && Get(q, SIGNED_HEADERS_KEY) == Get(p, SIGNED_HEADERS_KEY) && Get(q, SIGNATURE_KEY) == Get(p, SIGNATURE_KEY)
  }

  lemma SameGets(c: Crypto, r: Request, s: Request, accessKeyId: Str, secret: Str, o: Options, at: int)
    requires PresignOf(c, r, accessKeyId, secret, o, at).1 == Signed
    requires var p := r.(query := PresignOf(c, r, accessKeyId, secret, o, at).0);
             Agree(p, s, [HOST], true) && Get(s.query, SIGNATURE_KEY) == Get(p.query, SIGNATURE_KEY)
    ensures SameChecked(PresignOf(c, r, accessKeyId, secret, o, at).0, s.query)
  {
    var q := PresignOf(c, r, accessKeyId, secret, o, at).0;
    assert SameParameters(s.query, q, true);
    hide PresignOf, Sign, Itoa, EqualFold, Ascii, Agree, Get, SameParameters, CheckedForm, SignedText, ScopeFor;
    PresignedQuery(c, r, accessKeyId, secret, o, at);
    KeysSigned();
    SameGet(s.query, q, ALGORITHM_KEY);
    SameGet(s.query, q, DATE_KEY);
    SameGet(s.query, q, CREDENTIAL_KEY);
    SameGet(s.query, q, EXPIRES_KEY);
    SameGet(s.query, q, SIGNED_HEADERS_KEY);
  }

  lemma SameForm(c: Crypto, r: Request, s: Request, accessKeyId: Str, secret: Str, o: Options, at: int)
    requires PresignOf(c, r, accessKeyId, secret, o, at).1 == Signed
    requires var p := r.(query := PresignOf(c, r, accessKeyId, secret, o, at).0);
             && OneLine(p) && OneLine(s) && Agree(p, s, [HOST], true)
             && SameChecked(p.query, s.query)
    ensures CheckedForm(s) == CheckedForm(r.(query := PresignOf(c, r, accessKeyId, secret, o, at).0))
  {
    hide PresignOf, CanonicalRequestOf, Split, Agree, OneLine, Ascii, Sign, SignedText, ScopeFor, Itoa;
    var p := r.(query := PresignOf(c, r, accessKeyId, secret, o, at).0);
    PresignedQuery(c, r, accessKeyId, secret, o, at);
    SplitFree(HOST, 59);
    AgreeingForm(p, s);
  }

  /** A request that agrees with one that has a canonical form over its host has the same. */
  lemma AgreeingForm(p: Request, s: Request)
    requires OneLine(p) && OneLine(s) && Agree(p, s, [HOST], true) && CanonicalRequestOf(p, [HOST], true).Got?
    ensures CanonicalRequestOf(s, [HOST], true) == CanonicalRequestOf(p, [HOST], true)
  {
    HostOnly();
    hide Trim, SortedBy, Normalized, Join, CanonicalQueryOf, PayloadHash, FoldedFor, HashSent;
    assert SameHeader(p, s, HOST) by { assert HOST in [HOST]; }
    assert [HOST][..0] == [];
    assert HeaderLines(s, [HOST]).Got?;
    hide CanonicalRequestOf, Agree;
    CanonicalIff(p, [HOST], s, [HOST], true);
  }

  /** The signature of a presigned URL is good for exactly the requests that agree with the one it
      was made for, in method, path, host, payload hash and every parameter: any request with that
      signature is accepted if and only if it does and the presigned one is. */
  lemma SignatureGoodForIff(c: Crypto, v: Verifier, creds: C.Creds, r: Request, s: Request, accessKeyId: Str,
                            secret: Str, o: Options, at: int, now: int)
    requires PresignOf(c, r, accessKeyId, secret, o, at).1 == Signed
    requires var p := r.(query := PresignOf(c, r, accessKeyId, secret, o, at).0);
             && OneLine(r) && OneLine(s) && Get(s.query, SIGNATURE_KEY) == Get(p.query, SIGNATURE_KEY)
             && (CheckedForm(p).Got? ==>
                   Unforged(c, creds, s, now, SignedText(c, r, accessKeyId, o, at), CheckedForm(p).value,
                            Get(p.query, SIGNATURE_KEY)))
    ensures var p := r.(query := PresignOf(c, r, accessKeyId, secret, o, at).0);
            Verify(c, v, creds, s, now) == Verified <==>
            Verify(c, v, creds, p, now) == Verified && Agree(p, s, [HOST], true)
  {
    hide PresignOf, CanonicalRequestOf, StringToSign, Sign, Itoa, Atoi, Split, ParseScope, C.Secrets, Ascii, Agree;
    hide Verify, SignedText, SignedBy, Get, OneLine;
    var q := PresignOf(c, r, accessKeyId, secret, o, at).0;
    var p := r.(query := q);
    PresignedQuery(c, r, accessKeyId, secret, o, at);
    SameOneLine(r, q);
    if Verify(c, v, creds, s, now) == Verified {
      VerifiedIff(c, v, creds, s, now);
      var text, form := SignedText(c, r, accessKeyId, o, at), CheckedForm(p).value;
      var at', scope' := c.parseStamp(Get(s.query, DATE_KEY)).value, ParseScope(Get(s.query, CREDENTIAL_KEY)).value;
      TextCoversForm(c, at', scope'.raw, CheckedForm(s).value, at, ScopeFor(c, accessKeyId, o, at).raw, form);
      FormCovers(p, s);
    }
    if Agree(p, s, [HOST], true) {
      SameVerdict(c, v, creds, r, s, accessKeyId, secret, o, at, now);
    }
  }

  lemma SameOneLine(r: Request, q: Query)
    ensures OneLine(r.(query := q)) == OneLine(r)
  {
  }

  /** The checked form gives everything away that is signed. */
  lemma FormCovers(p: Request, s: Request)
    requires OneLine(p) && OneLine(s) && Sent(p.query, SIGNED_HEADERS_KEY) == [HOST]
    requires CheckedForm(p).Got? && CheckedForm(s) == CheckedForm(p)
    ensures Agree(p, s, [HOST], true)
  {
    hide CanonicalRequestOf, Split, Agree, Ascii, OneLine;
    SplitFree(HOST, 59);
    HostOnly();
    CanonicalIff(p, [HOST], s, Split(Get(s.query, SIGNED_HEADERS_KEY), 59), true);
  }
}
