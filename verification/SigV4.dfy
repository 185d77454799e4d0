/** AWS Signature Version 4: canonical query, canonical request and signature
    (internal/auth/sigv4.go). */
module SigV4 {
  import opened Bytes
  import opened Metadata
  import opened Text
  import opened Sorting

  /** url.Values: every value list of a parsed query. */
  type Query = map<Str, seq<Str>>

  datatype Pair = Pair(key: Str, value: Str)

  const ALGORITHM_KEY: Str := Ascii("X-Amz-Algorithm")
  const CREDENTIAL_KEY: Str := Ascii("X-Amz-Credential")
  const DATE_KEY: Str := Ascii("X-Amz-Date")
  const EXPIRES_KEY: Str := Ascii("X-Amz-Expires")
  const SIGNED_HEADERS_KEY: Str := Ascii("X-Amz-SignedHeaders")
  const SIGNATURE_KEY: Str := Ascii("X-Amz-Signature")
  const ALGORITHM: Str := Ascii("AWS4-HMAC-SHA256")
  const HOST: Str := [104, 111, 115, 116]
  const CONTENT_SHA: Str := Ascii("x-amz-content-sha256")
  const UNSIGNED_PAYLOAD: Str := Ascii("UNSIGNED-PAYLOAD")
  const NEWLINE: Str := [10]

  // ---- Orders

  predicate PairLe(a: Pair, b: Pair) {
    if a.key == b.key then AtMost(a.value, b.value) else Less(a.key, b.key)
  }

  lemma StringOrder()
    ensures TotalPreorder(AtMost) && Antisymmetric(AtMost) && forall x :: AtMost(x, x)
  {
    hide Less, AtMost;
    forall a, b, c { AtMostOrders(a, b, c); }
  }

  lemma PairOrders(a: Pair, b: Pair, c: Pair)
    ensures PairLe(a, a) && (PairLe(a, b) || PairLe(b, a))
    ensures PairLe(a, b) && PairLe(b, a) ==> a == b
    ensures PairLe(a, b) && PairLe(b, c) ==> PairLe(a, c)
  {
    hide Less, AtMost;
    AtMostOrders(a.key, b.key, c.key);
    AtMostOrders(a.value, b.value, c.value);
    LessTotal(a.key, b.key);
  }

  lemma PairOrder()
    ensures TotalPreorder(PairLe) && Antisymmetric(PairLe) && forall x :: PairLe(x, x)
  {
    hide PairLe;
    forall a, b, c { PairOrders(a, b, c); }
  }

  // ---- The canonical query

  predicate Skipped(key: Str, presigned: bool) {
    presigned && EqualFold(key, SIGNATURE_KEY)
  }

  /** How often a pair occurs among the signed parameters. */
  function Count(q: Query, presigned: bool, p: Pair): nat {
    if p.key in q && !Skipped(p.key, presigned) then multiset(q[p.key])[p.value] else 0
  }

  ghost predicate Enumerates(q: Query, presigned: bool, ps: seq<Pair>) {
    forall p :: multiset(ps)[p] == Count(q, presigned, p)
  }

  function PairsOf(key: Str, values: seq<Str>): seq<Pair> {
    seq(|values|, i requires 0 <= i < |values| => Pair(key, values[i]))
  }

  lemma {:induction false} PairsOfCount(key: Str, values: seq<Str>, p: Pair)
    ensures multiset(PairsOf(key, values))[p] == if p.key == key then multiset(values)[p.value] else 0
  {
    if values != [] {
      var n := |values| - 1;
      PairsOfCount(key, values[..n], p);
      assert PairsOf(key, values) == PairsOf(key, values[..n]) + [Pair(key, values[n])];
      assert values == values[..n] + [values[n]];
    }
  }

  /** Adding one key's values to an enumeration of the rest. */
  lemma AddKey(q: Query, presigned: bool, key: Str, rest: seq<Pair>, values: seq<Str>)
    requires key in q && Enumerates(q - {key}, presigned, rest) && multiset(values) == multiset(q[key])
    ensures Enumerates(q, presigned, if Skipped(key, presigned) then rest else rest + PairsOf(key, values))
  {
    hide Skipped, PairsOf;
    forall p { PairsOfCount(key, values, p); }
  }

  lemma {:induction false} EnumerationExists(q: Query, presigned: bool)
    ensures exists ps :: Enumerates(q, presigned, ps)
    decreases |q|
  {
    hide Skipped, PairsOf;
    if q == map[] {
      assert Enumerates(q, presigned, []);
    } else {
      var key :| key in q;
      assert q.Keys == (q - {key}).Keys + {key};
      EnumerationExists(q - {key}, presigned);
      var rest :| Enumerates(q - {key}, presigned, rest);
      AddKey(q, presigned, key, rest, q[key]);
    }
  }

  /** The signed parameters in the order of key and value. */
  ghost function CanonicalPairs(q: Query, presigned: bool): seq<Pair> {
    EnumerationExists(q, presigned);
    var ps :| Enumerates(q, presigned, ps);
    SortedBy(PairLe, ps)
  }

  lemma CanonicalMeans(q: Query, presigned: bool)
    ensures Sorted(PairLe, CanonicalPairs(q, presigned)) && Enumerates(q, presigned, CanonicalPairs(q, presigned))
  {
    hide PairLe, Skipped, SortedBy, Sorted;
    EnumerationExists(q, presigned);
    PairOrder();
    forall ps | Enumerates(q, presigned, ps)
      ensures Sorted(PairLe, SortedBy(PairLe, ps)) && Enumerates(q, presigned, SortedBy(PairLe, ps))
    {
      SortedByMeans(PairLe, ps);
    }
  }

  /** There is one sorted enumeration, so the order a map is walked in does not matter. */
  lemma CanonicalUnique(q: Query, presigned: bool, out: seq<Pair>)
    requires Sorted(PairLe, out) && Enumerates(q, presigned, out)
    ensures out == CanonicalPairs(q, presigned)
  {
    hide PairLe, Sorted, CanonicalPairs, Count;
    CanonicalMeans(q, presigned);
    PairOrder();
    var ps := CanonicalPairs(q, presigned);
    assert forall p :: multiset(out)[p] == Count(q, presigned, p) && multiset(ps)[p] == Count(q, presigned, p);
    assert multiset(out) == multiset(ps);
    SortedUnique(PairLe, out, ps);
  }

  // ---- Percent encoding

  predicate Unreserved(b: byte) {
    65 <= b <= 90 || 97 <= b <= 122 || 48 <= b <= 57 || b in {45, 95, 46, 126}
  }

  function UpperHex(v: nat): (b: byte)
    requires v < 16
    ensures HexDigit(b) == v && (48 <= b <= 57 || 65 <= b <= 70)
  {
    if v < 10 then 48 + v else 55 + v
  }

  /** awsEncode: unreserved bytes stay, every other byte becomes % and two upper-case digits. */
  function AwsEncode(s: Str): Str {
    if s == [] then []
    else (if Unreserved(s[0]) then [s[0]] else [37, UpperHex(s[0] / 16), UpperHex(s[0] % 16)]) + AwsEncode(s[1..])
  }

  function AwsDecode(s: Str): Str {
    if s == [] then []
    else if s[0] == 37 && |s| >= 3 && HexDigit(s[1]) >= 0 && HexDigit(s[2]) >= 0 then
      [16 * HexDigit(s[1]) + HexDigit(s[2])] + AwsDecode(s[3..])
    else [s[0]] + AwsDecode(s[1..])
  }

  lemma {:induction false} AwsRoundTrip(s: Str)
    ensures AwsDecode(AwsEncode(s)) == s
    ensures 38 !in AwsEncode(s) && 61 !in AwsEncode(s)
  {
    if s != [] {
      AwsRoundTrip(s[1..]);
      var t := AwsEncode(s);
      assert t[if Unreserved(s[0]) then 1 else 3..] == AwsEncode(s[1..]);
      assert s == [s[0]] + s[1..];
    }
  }

  function EncodePair(p: Pair): Str {
    AwsEncode(p.key) + [61] + AwsEncode(p.value)
  }

  function EncodePairs(ps: seq<Pair>): seq<Str> {
    seq(|ps|, i requires 0 <= i < |ps| => EncodePair(ps[i]))
  }

  ghost function CanonicalQueryOf(q: Query, presigned: bool): Str {
    Join(EncodePairs(CanonicalPairs(q, presigned)), [38])
  }

  /** canonicalQuery: the keys of the map come in any order. */
  method CanonicalQuery(q: Query, presigned: bool) returns (out: Str)
    ensures out == CanonicalQueryOf(q, presigned)
  {
    hide Skipped, PairsOf, PairLe, Sorted, SortedBy, CanonicalPairs, AwsEncode, AtMost;
    StringOrder();
    PairOrder();
    var pairs: seq<Pair> := [];
    var todo, done := q.Keys, map[];
    assert q - q.Keys == map[];
    while todo != {}
      invariant todo <= q.Keys && done == q - todo
      invariant Enumerates(done, presigned, pairs)
      decreases |todo|
    {
      var key :| key in todo;
      todo := todo - {key};
      assert (q - todo) - {key} == done;
      done := q - todo;
      var values := Sort(AtMost, q[key]);
      AddKey(done, presigned, key, pairs, values);
      if Skipped(key, presigned) {
        continue;
      }
      pairs := AppendPairs(pairs, key, values);
    }
    assert done == q;
    var sorted := Sort(PairLe, pairs);
    CanonicalUnique(q, presigned, sorted);
    out := EncodeAll(sorted);
  }

  method AppendPairs(pairs: seq<Pair>, key: Str, values: seq<Str>) returns (out: seq<Pair>)
    ensures out == pairs + PairsOf(key, values)
  {
    out := pairs;
    for i := 0 to |values|
      invariant out == pairs + PairsOf(key, values[..i])
    {
      assert PairsOf(key, values[..i + 1]) == PairsOf(key, values[..i]) + [Pair(key, values[i])];
      out := out + [Pair(key, values[i])];
    }
    assert values[..|values|] == values;
  }

  method EncodeAll(ps: seq<Pair>) returns (out: Str)
    ensures out == Join(EncodePairs(ps), [38])
  {
    hide AwsEncode, Join;
    var parts: seq<Str> := [];
    for i := 0 to |ps|
      invariant parts == EncodePairs(ps[..i])
    {
      parts := parts + [AwsEncode(ps[i].key) + [61] + AwsEncode(ps[i].value)];
    }
    assert ps[..|ps|] == ps;
    out := Join(parts, [38]);
  }

  // ---- The canonical query tells queries apart

  lemma EncodePairInjective(a: Pair, b: Pair)
    requires EncodePair(a) == EncodePair(b)
    ensures a == b
  {
    hide AwsEncode, AwsDecode, Split;
    AwsRoundTrip(a.key);
    AwsRoundTrip(a.value);
    AwsRoundTrip(b.key);
    AwsRoundTrip(b.value);
    SplitAt(AwsEncode(a.key), 61, AwsEncode(a.value));
    SplitAt(AwsEncode(b.key), 61, AwsEncode(b.value));
    SplitFree(AwsEncode(a.key), 61);
    SplitFree(AwsEncode(a.value), 61);
    SplitFree(AwsEncode(b.key), 61);
    SplitFree(AwsEncode(b.value), 61);
    assert [AwsEncode(a.key)] + [AwsEncode(a.value)] == [AwsEncode(b.key)] + [AwsEncode(b.value)];
    assert ([AwsEncode(a.key)] + [AwsEncode(a.value)])[0] == ([AwsEncode(b.key)] + [AwsEncode(b.value)])[0];
    assert ([AwsEncode(a.key)] + [AwsEncode(a.value)])[1] == ([AwsEncode(b.key)] + [AwsEncode(b.value)])[1];
  }

  lemma EncodedPairsFree(ps: seq<Pair>)
    ensures forall s :: s in EncodePairs(ps) ==> 38 !in s && s != []
  {
    hide AwsEncode, AwsDecode;
    forall i | 0 <= i < |ps|
      ensures 38 !in EncodePair(ps[i]) && EncodePair(ps[i]) != []
    {
      AwsRoundTrip(ps[i].key);
      AwsRoundTrip(ps[i].value);
    }
  }

  /** Two lists of pairs with the same encoding are the same list. */
  lemma EncodedPairsInjective(a: seq<Pair>, b: seq<Pair>)
    requires Join(EncodePairs(a), [38]) == Join(EncodePairs(b), [38])
    ensures a == b
  {
    hide AwsEncode, Join, Split, EncodePair;
    EncodedPairsFree(a);
    EncodedPairsFree(b);
    JoinEmpty(EncodePairs(a));
    JoinEmpty(EncodePairs(b));
    if a != [] && b != [] {
      SplitJoin(EncodePairs(a), 38);
      SplitJoin(EncodePairs(b), 38);
      forall i | 0 <= i < |a|
        ensures a[i] == b[i]
      {
        assert EncodePairs(a)[i] == EncodePairs(b)[i];
        EncodePairInjective(a[i], b[i]);
      }
    }
  }

  lemma JoinEmpty(parts: seq<Str>)
    requires forall s :: s in parts ==> s != []
    ensures Join(parts, [38]) == [] <==> parts == []
  {
    assert parts != [] ==> parts[0] in parts;
  }

  /** Two queries have the same canonical form exactly when each signed parameter occurs
      equally often in both. */
  lemma CanonicalQueryIff(q: Query, r: Query, presigned: bool)
    ensures CanonicalQueryOf(q, presigned) == CanonicalQueryOf(r, presigned)
       <==> forall p :: Count(q, presigned, p) == Count(r, presigned, p)
  {
    hide PairLe, Sorted, CanonicalPairs, Join, EncodePairs, Count;
    CanonicalMeans(q, presigned);
    CanonicalMeans(r, presigned);
    if CanonicalQueryOf(q, presigned) == CanonicalQueryOf(r, presigned) {
      EncodedPairsInjective(CanonicalPairs(q, presigned), CanonicalPairs(r, presigned));
      assert forall p :: multiset(CanonicalPairs(q, presigned))[p] == Count(q, presigned, p);
    }
    if forall p :: Count(q, presigned, p) == Count(r, presigned, p) {
      assert Enumerates(r, presigned, CanonicalPairs(q, presigned));
      CanonicalUnique(r, presigned, CanonicalPairs(q, presigned));
    }
  }

  // ---- The canonical request

  /** Header names are lower case: the lookup they are used for ignores case. */
  datatype Request = Request(
    httpMethod: Str,
    escapedPath: Str,
    host: Str,
    urlHost: Str,
    headers: map<Str, seq<Str>>,
    query: Query)

  datatype Verdict =
    Verified | InvalidRequest | TimeTooSkewed | AccessDenied | InvalidAccessKeyId | SignatureDoesNotMatch

  datatype Outcome<+T> = Got(value: T) | Failed(verdict: Verdict)

  function Get(q: Query, key: Str): Str {
    if key in q && q[key] != [] then q[key][0] else []
  }

  function CanonicalHost(r: Request): Str {
    Trim(if r.host == [] then r.urlHost else r.host, Space)
  }

  function Folded(value: Str): Str {
    Join(Fields(value), [32])
  }

  function FoldedValues(values: seq<Str>): seq<Str> {
    seq(|values|, i requires 0 <= i < |values| => Folded(values[i]))
  }

  /** Folding white space twice is folding it once. */
  lemma FoldedTwice(values: seq<Str>)
    ensures FoldedValues(FoldedValues(values)) == FoldedValues(values)
  {
    hide Join, Fields;
    forall i | 0 <= i < |values|
      ensures Folded(Folded(values[i])) == Folded(values[i])
    {
      FieldsAreSolid(values[i]);
      FieldsOfJoin(Fields(values[i]));
    }
  }

  /** The headers with the values of the named ones folded. */
  function FoldedFor(headers: map<Str, seq<Str>>, names: seq<Str>): map<Str, seq<Str>> {
    map k | k in headers :: if k in names && k != HOST then FoldedValues(headers[k]) else headers[k]
  }

  function HeaderValue(r: Request, name: Str): Option<Str> {
    if name == HOST then (if CanonicalHost(r) == [] then None else Some(CanonicalHost(r)))
    else if name !in r.headers || r.headers[name] == [] then None
    else Some(Join(FoldedValues(r.headers[name]), [44]))
  }

  /** A header value does not depend on which headers were folded before. */
  lemma FoldedReads(r: Request, names: seq<Str>, name: Str)
    ensures HeaderValue(r.(headers := FoldedFor(r.headers, names)), name) == HeaderValue(r, name)
  {
    hide Join, Trim;
    if name in r.headers { FoldedTwice(r.headers[name]); }
  }

  lemma FoldedNext(headers: map<Str, seq<Str>>, names: seq<Str>, name: Str)
    ensures var h := FoldedFor(headers, names);
            FoldedFor(headers, names + [name]) ==
            if name == HOST || name !in h then h else h[name := FoldedValues(h[name])]
  {
    hide FoldedValues;
    if name in headers { FoldedTwice(headers[name]); }
  }

  function Normalized(names: seq<Str>): seq<Str> {
    seq(|names|, i requires 0 <= i < |names| => ToLower(Trim(names[i], Space)))
  }

  /** One "name:value" line per header name, or the first name that has none. */
  function HeaderLines(r: Request, names: seq<Str>): Outcome<seq<Str>> {
    if names == [] then Got([])
    else
      var name, before := names[|names| - 1], HeaderLines(r, names[..|names| - 1]);
      if before.Failed? then before
      else if name == [] then Failed(InvalidRequest)
      else if HeaderValue(r, name).None? then Failed(SignatureDoesNotMatch)
      else Got(before.value + [name + [58] + HeaderValue(r, name).value])
  }

  function PayloadHash(headers: map<Str, seq<Str>>): Str {
    var h := Get(headers, CONTENT_SHA);
    if h == [] then UNSIGNED_PAYLOAD else h
  }

  ghost function CanonicalRequestOf(r: Request, signed: seq<Str>, presigned: bool): Outcome<Str> {
    var names := SortedBy(AtMost, Normalized(signed));
    var lines := HeaderLines(r, names);
    if lines.Failed? then Failed(lines.verdict)
    else Got(Join([r.httpMethod, if r.escapedPath == [] then [47] else r.escapedPath,
                   CanonicalQueryOf(r.query, presigned), Join(lines.value, NEWLINE) + NEWLINE,
                   Join(names, [59]), PayloadHash(FoldedFor(r.headers, names))], NEWLINE))
  }

  /** How many names have lines before the first that has none. */
  function Readable(r: Request, names: seq<Str>): (n: nat)
    ensures n <= |names|
  {
    if names == [] then 0
    else
      var last := |names| - 1;
      if HeaderLines(r, names).Got? then |names| else Readable(r, names[..last])
  }

  /** What building the canonical request leaves in the headers: the values of those it read
      are folded. */
  ghost function HeadersLeft(r: Request, signed: seq<Str>): map<Str, seq<Str>> {
    var names := SortedBy(AtMost, Normalized(signed));
    FoldedFor(r.headers, names[..Readable(r, names)])
  }

  /** A request checked again after its headers were folded in place has the same canonical form. */
  lemma CanonicalTwice(r: Request, signed: seq<Str>, presigned: bool)
    ensures CanonicalRequestOf(r.(headers := HeadersLeft(r, signed)), signed, presigned)
         == CanonicalRequestOf(r, signed, presigned)
  {
    hide SortedBy, Normalized, AtMost, Join, CanonicalQueryOf, FoldedFor, Readable, HeaderLines;
    var names := SortedBy(AtMost, Normalized(signed));
    LinesOfFolded(r, names[..Readable(r, names)], names);
    if HeaderLines(r, names).Got? {
      AllReadable(r, names);
      assert names[..|names|] == names;
      FoldedForTwice(r.headers, names);
    }
  }

  lemma {:induction false} LinesOfFolded(r: Request, folded: seq<Str>, names: seq<Str>)
    ensures HeaderLines(r.(headers := FoldedFor(r.headers, folded)), names) == HeaderLines(r, names)
  {
    hide HeaderValue, FoldedFor;
    if names != [] {
      LinesOfFolded(r, folded, names[..|names| - 1]);
      FoldedReads(r, folded, names[|names| - 1]);
    }
  }

  lemma FoldedForTwice(headers: map<Str, seq<Str>>, names: seq<Str>)
    ensures FoldedFor(FoldedFor(headers, names), names) == FoldedFor(headers, names)
  {
    hide FoldedValues;
    forall k | k in headers
      ensures FoldedValues(FoldedValues(headers[k])) == FoldedValues(headers[k])
    {
      FoldedTwice(headers[k]);
    }
  }

  /** A request whose query is rewritten when it is presigned, and whose header values are
      folded in place when they are signed or checked. */
  class HttpRequest {
    const fixed: Request
    var headers: map<Str, seq<Str>>
    var query: Query

    constructor (r: Request)
      ensures Value() == r
    {
      fixed, headers, query := r, r.headers, r.query;
    }

    function Value(): Request
      reads this
    {
      fixed.(headers := headers, query := query)
    }

    /** canonicalHeaderValue: the values of the header are folded in place. */
    method CanonicalHeaderValue(name: Str) returns (value: Option<Str>)
      modifies this`headers
      ensures value == HeaderValue(old(Value()), name)
      ensures headers == if name == HOST || name !in old(headers) then old(headers)
                         else old(headers)[name := FoldedValues(old(headers)[name])]
    {
      hide Trim, Join, Fields;
      if name == HOST {
        var host := fixed.host;
        if host == [] {
          host := fixed.urlHost;
        }
        host := Trim(host, Space);
        return if host == [] then None else Some(host);
      }
      if name !in headers {
        return None;
      }
      var values := headers[name];
      for i := 0 to |values|
        invariant |values| == |old(headers)[name]|
        invariant forall j :: 0 <= j < |values| ==>
                    values[j] == if j < i then Folded(old(headers)[name][j]) else old(headers)[name][j]
      {
        values := values[i := Join(Fields(values[i]), [32])];
      }
      assert values == FoldedValues(old(headers)[name]);
      headers := headers[name := values];
      value := if values == [] then None else Some(Join(values, [44]));
    }
  }

  method NormalizeNames(signed: seq<Str>) returns (names: seq<Str>)
    ensures names == SortedBy(AtMost, Normalized(signed))
  {
    hide Trim, AtMost, SortedBy;
    names := [];
    for i := 0 to |signed|
      invariant names == Normalized(signed[..i])
    {
      names := names + [ToLower(Trim(signed[i], Space))];
    }
    assert signed[..|signed|] == signed;
    StringOrder();
    SortedByMeans(AtMost, names);
    var sorted := Sort(AtMost, names);
    SortedUnique(AtMost, sorted, SortedBy(AtMost, names));
    names := sorted;
  }

  /** buildCanonicalRequest: besides, the values of every header it read stay folded. */
  method BuildCanonicalRequest(req: HttpRequest, signed: seq<Str>, presigned: bool) returns (out: Outcome<Str>)
    modifies req`headers
    ensures out == CanonicalRequestOf(old(req.Value()), signed, presigned)
    ensures req.headers == HeadersLeft(old(req.Value()), signed)
  {
    hide Trim, Join, Normalized, SortedBy, CanonicalQueryOf, HeaderValue, AtMost, FoldedFor, FoldedValues, Readable;
    var names := NormalizeNames(signed);
    var lines: seq<Str> := [];
    ghost var r := req.Value();
    NoneFolded(req.headers);
    assert names[..0] == [];
    for i := 0 to |names|
      invariant req.Value() == r.(headers := req.headers) && req.headers == FoldedFor(r.headers, names[..i])
      invariant HeaderLines(r, names[..i]) == Got(lines)
    {
      FailsEarly(r, names, i + 1);
      ReadableAt(r, names, i);
      assert names[..i + 1] == names[..i] + [names[i]] && names[..i + 1][..i] == names[..i];
      if names[i] == [] {
        return Failed(InvalidRequest);
      }
      FoldedReads(r, names[..i], names[i]);
      FoldedNext(r.headers, names[..i], names[i]);
      MissingUnfolded(r, names[i], req.headers, names[..i]);
      var value := req.CanonicalHeaderValue(names[i]);
      if value.None? {
        return Failed(SignatureDoesNotMatch);
      }
      lines := lines + [names[i] + [58] + value.value];
    }
    assert names[..|names|] == names;
    AllReadable(r, names);
    var query := CanonicalQuery(req.query, presigned);
    var path := if req.fixed.escapedPath == [] then [47] else req.fixed.escapedPath;
    out := Got(Join([req.fixed.httpMethod, path, query, Join(lines, NEWLINE) + NEWLINE, Join(names, [59]),
                     PayloadHash(req.headers)], NEWLINE));
  }

  lemma NoneFolded(headers: map<Str, seq<Str>>)
    ensures FoldedFor(headers, []) == headers
  {
  }

  lemma AllReadable(r: Request, names: seq<Str>)
    requires HeaderLines(r, names).Got?
    ensures Readable(r, names) == |names|
  {
  }

  /** The first name without a line ends the readable ones. */
  lemma {:induction false} ReadableAt(r: Request, names: seq<Str>, i: nat)
    requires i < |names| && HeaderLines(r, names[..i]).Got?
    ensures HeaderLines(r, names[..i + 1]).Failed? ==> Readable(r, names) == i
    decreases |names|
  {
    hide HeaderValue;
    var n := |names| - 1;
    if HeaderLines(r, names[..i + 1]).Failed? {
      FailsEarly(r, names, i + 1);
      if i == n {
        AllReadable(r, names[..n]);
      } else {
        assert names[..n][..i] == names[..i] && names[..n][..i + 1] == names[..i + 1];
        ReadableAt(r, names[..n], i);
      }
    }
  }

  /** A header with no value has nothing to fold. */
  lemma MissingUnfolded(r: Request, name: Str, headers: map<Str, seq<Str>>, names: seq<Str>)
    requires headers == FoldedFor(r.headers, names)
    ensures HeaderValue(r, name).None? && name != HOST && name in headers ==>
              headers[name := FoldedValues(headers[name])] == headers
  {
    hide Join, Trim, Fields;
    if HeaderValue(r, name).None? && name != HOST && name in headers {
      assert headers[name] == [] && FoldedValues([]) == [];
    }
  }

  lemma {:induction false} FailsEarly(r: Request, names: seq<Str>, i: nat)
    requires i <= |names|
    ensures HeaderLines(r, names[..i]).Failed? ==> HeaderLines(r, names) == HeaderLines(r, names[..i])
    decreases |names|
  {
    hide HeaderValue;
    if i < |names| {
      var n := |names| - 1;
      FailsEarly(r, names[..n], i);
      assert names[..n][..i] == names[..i];
    } else {
      assert names[..i] == names;
    }
  }

  // ---- Signing

  /** Digests and the two time formats ("20060102" and "20060102T150405Z"). */
  datatype Crypto = Crypto(
    hmac: (Str, Str) -> Str,
    sha256: Str -> Str,
    day: int -> Str,
    stamp: int -> Str,
    parseStamp: Str -> Option<int>)

  /** A stamp drops fractions of a second and reads back if its year has four digits, and does
      not parse otherwise; days have no slashes; digests are not empty. */
  ghost predicate CryptoOk(c: Crypto, at: int) {
    && (forall k, t :: c.hmac(k, t) != [])
    && c.parseStamp(c.stamp(at)) == (if Expressible(at) then Some(Floor(at)) else None)
    && c.stamp(Floor(at)) == c.stamp(at) && c.stamp(at) != []
    && c.day(at) != [] && 47 !in c.day(at)
  }

  function StringToSign(c: Crypto, at: int, scope: Str, canonical: Str): Str {
    Join([ALGORITHM, c.stamp(at), scope, HexEncode(c.sha256(canonical))], NEWLINE)
  }

  datatype Scope = Scope(raw: Str, accessKeyId: Str, day: Str, region: Str, service: Str, terminal: Str)

  /** signString: a chain of keys, one per field of the scope. */
  function Sign(c: Crypto, secret: Str, scope: Scope, text: Str): Str {
    var kDate := c.hmac(Ascii("AWS4") + secret, scope.day);
    var kRegion := c.hmac(kDate, scope.region);
    var kService := c.hmac(kRegion, scope.service);
    var kSigning := c.hmac(kService, scope.terminal);
    HexEncode(c.hmac(kSigning, text))
  }

  /** parseCredentialScope. */
  function ParseScope(credential: Str): Option<Scope> {
    var parts := Split(credential, 47);
    if |parts| != 5 || [] in parts then None
    else Some(Scope(Join(parts[1..], [47]), parts[0], parts[1], parts[2], parts[3], parts[4]))
  }

  function ScopeText(day: Str, region: Str, service: Str, terminal: Str): Str {
    day + [47] + region + [47] + service + [47] + terminal
  }

  /** A credential field parses back to its parts exactly when none of them is empty or
      contains a slash. */
  lemma ScopeRoundTrip(accessKeyId: Str, day: Str, region: Str, service: Str, terminal: Str)
    ensures var raw := ScopeText(day, region, service, terminal);
            var fields := [accessKeyId, day, region, service, terminal];
            ParseScope(accessKeyId + [47] + raw) ==
            if (forall f :: f in fields ==> f != [] && 47 !in f)
            then Some(Scope(raw, accessKeyId, day, region, service, terminal)) else None
  {
    hide Split;
    var fields := [accessKeyId, day, region, service, terminal];
    SplitFive(accessKeyId, day, region, service, terminal);
    SplitFree(accessKeyId, 47);
    SplitFree(day, 47);
    SplitFree(region, 47);
    SplitFree(service, 47);
    SplitFree(terminal, 47);
    assert forall f :: f in fields <==> f == accessKeyId || f == day || f == region || f == service || f == terminal;
    var parts := Split(accessKeyId + [47] + ScopeText(day, region, service, terminal), 47);
    if forall f :: f in fields ==> 47 !in f {
      assert parts == fields;
      assert fields[1..] == [day, region, service, terminal];
      JoinFour(day, region, service, terminal);
    }
  }

  lemma SplitFive(a: Str, b: Str, c: Str, d: Str, e: Str)
    ensures Split(a + [47] + ScopeText(b, c, d, e), 47)
         == Split(a, 47) + (Split(b, 47) + (Split(c, 47) + (Split(d, 47) + Split(e, 47))))
  {
    hide Split;
    assert ScopeText(b, c, d, e) == b + [47] + (c + [47] + (d + [47] + e));
    SplitAt(a, 47, ScopeText(b, c, d, e));
    SplitAt(b, 47, c + [47] + (d + [47] + e));
    SplitAt(c, 47, d + [47] + e);
    SplitAt(d, 47, e);
  }

  lemma JoinFour(a: Str, b: Str, c: Str, d: Str)
    ensures Join([a, b, c, d], [47]) == ScopeText(a, b, c, d)
  {
    assert [a, b, c, d][1..] == [b, c, d] && [b, c, d][1..] == [c, d] && [c, d][1..] == [d];
    assert Join([c, d], [47]) == c + [47] + d;
    assert Join([b, c, d], [47]) == b + [47] + (c + [47] + d);
  }
}
