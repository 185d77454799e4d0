/** Presigned URLs: signing a request into its own query, and checking one
    (internal/auth/presign.go, internal/auth/sigv4.go). */
module Presign {
  import opened Bytes
  import opened Metadata
  import opened Text
  import opened Sorting
  import opened SigV4
  import C = Credentials

  const MINUTE := 60 * SECOND
  const MAX_EXPIRY := 7 * 24 * 60 * MINUTE

  datatype Options = Options(region: Str, service: Str, terminal: Str, expires: int)

  datatype Reply = Signed | Rejected | Unsignable(verdict: Verdict)

  function Or(value: Str, default: Str): Str {
    if Trim(value, Space) == [] then default else Trim(value, Space)
  }

  function Blank(value: Str): bool {
    Trim(value, Space) == []
  }

  function Expires(o: Options): int {
    if o.expires == 0 then 15 * MINUTE else o.expires
  }

  function ScopeFor(c: Crypto, accessKeyId: Str, o: Options, at: int): Scope {
    var day, region := c.day(at), Or(o.region, Ascii("us-east-1"));
    var service, terminal := Or(o.service, Ascii("s3")), Or(o.terminal, Ascii("aws4_request"));
    Scope(ScopeText(day, region, service, terminal), accessKeyId, day, region, service, terminal)
  }

  /** The query before the signature is added. */
  function Unsigned(c: Crypto, q: Query, scope: Scope, expires: nat, at: int): Query {
    q[ALGORITHM_KEY := [ALGORITHM]]
     [CREDENTIAL_KEY := [scope.accessKeyId + [47] + scope.raw]]
     [DATE_KEY := [c.stamp(at)]]
     [EXPIRES_KEY := [Itoa(expires)]]
     [SIGNED_HEADERS_KEY := [HOST]]
    - {SIGNATURE_KEY}
  }

  predicate Refused(r: Request, accessKeyId: Str, secret: Str, o: Options) {
    || Blank(r.httpMethod) || Blank(accessKeyId) || Blank(secret)
    || Expires(o) <= 0 || Expires(o) > MAX_EXPIRY
  }

  /** The query a presigning leaves behind, and its reply. */
  ghost function PresignOf(c: Crypto, r: Request, accessKeyId: Str, secret: Str, o: Options, at: int): (Query, Reply) {
    if Refused(r, accessKeyId, secret, o) then (r.query, Rejected)
    else
      var scope := ScopeFor(c, accessKeyId, o, at);
      var q := Unsigned(c, r.query, scope, Expires(o) / SECOND, at);
      var canonical := CanonicalRequestOf(r.(query := q), [HOST], true);
      if canonical.Failed? then (q, Unsignable(canonical.verdict))
      else (q[SIGNATURE_KEY := [Sign(c, secret, scope, StringToSign(c, at, scope.raw, canonical.value))]], Signed)
  }

  /** PresignRequest: the request's query is rewritten in place. */
  method PresignRequest(c: Crypto, req: HttpRequest, accessKeyId: Str, secret: Str, o: Options, at: int)
    returns (reply: Reply)
    modifies req
    ensures (req.query, reply) == PresignOf(c, old(req.Value()), accessKeyId, secret, o, at)
    ensures req.headers == old(req.headers)
  {
    hide Trim, CanonicalRequestOf, StringToSign, Sign, Itoa;
    if Trim(req.fixed.httpMethod, Space) == [] || Trim(accessKeyId, Space) == [] || Trim(secret, Space) == [] {
      return Rejected;
    }
    var expires := o.expires;
    if expires == 0 {
      expires := 15 * MINUTE;
    }
    if expires <= 0 || expires > MAX_EXPIRY {
      return Rejected;
    }
    var region, service, terminal := Trim(o.region, Space), Trim(o.service, Space), Trim(o.terminal, Space);
    if region == [] {
      region := Ascii("us-east-1");
    }
    if service == [] {
      service := Ascii("s3");
    }
    if terminal == [] {
      terminal := Ascii("aws4_request");
    }
    var day := c.day(at);
    var scope := Scope(day + [47] + region + [47] + service + [47] + terminal,
                       accessKeyId, day, region, service, terminal);
    assert scope == ScopeFor(c, accessKeyId, o, at);
    var q := req.query;
    q := q[ALGORITHM_KEY := [ALGORITHM]];
    q := q[CREDENTIAL_KEY := [accessKeyId + [47] + scope.raw]];
    q := q[DATE_KEY := [c.stamp(at)]];
    q := q[EXPIRES_KEY := [Itoa(expires / SECOND)]];
    q := q[SIGNED_HEADERS_KEY := [HOST]];
    q := q - {SIGNATURE_KEY};
    req.query := q;
    var canonical := BuildCanonicalRequest(req, [HOST], true);
    HostUnfolded(old(req.headers), Readable(old(req.Value()).(query := q), [HOST]));
    HostOnly();
    if canonical.Failed? {
      return Unsignable(canonical.verdict);
    }
    var signature := Sign(c, secret, scope, StringToSign(c, at, scope.raw, canonical.value));
    req.query := req.query[SIGNATURE_KEY := [signature]];
    reply := Signed;
  }

  /** Signing the host alone folds no header. */
  lemma HostUnfolded(headers: map<Str, seq<Str>>, n: nat)
    requires n <= 1
    ensures FoldedFor(headers, [HOST][..n]) == headers
  {
  }

  // ---- Checking

  /** NewVerifier replaces a limit that is not positive. */
  type Limit = d: Duration | d > 0 witness 1

  datatype Verifier = Verifier(maxSkew: Limit, service: Str, terminal: Str)

  /** The request is later than the limit allows, or earlier: unless it is so far ahead of now
      that their difference has no negation in 64 bits. */
  predicate Skewed(v: Verifier, requestTime: int, now: int) {
    || (v.maxSkew < MAX_DURATION && now - requestTime > v.maxSkew)
    || MIN_DURATION < now - requestTime < 0 - v.maxSkew
  }

  method SkewExceeded(v: Verifier, requestTime: int, now: int) returns (exceeded: bool)
    ensures exceeded <==> Skewed(v, requestTime, now)
  {
    var delta := Sub(now, requestTime);
    if delta < 0 {
      delta := Wrap(-delta);
    }
    exceeded := delta > v.maxSkew;
  }

  /** What is settled before any secret is looked at. */
  function Precheck(c: Crypto, v: Verifier, q: Query, now: int): Outcome<(int, Scope)> {
    var requestTime := if Get(q, DATE_KEY) == [] then None else c.parseStamp(Get(q, DATE_KEY));
    var expires := Atoi(Get(q, EXPIRES_KEY));
    var scope := ParseScope(Get(q, CREDENTIAL_KEY));
    if Get(q, ALGORITHM_KEY) != ALGORITHM || requestTime.None? then Failed(InvalidRequest)
    else if Skewed(v, requestTime.value, now) then Failed(TimeTooSkewed)
    else if expires.None? || expires.value <= 0 || expires.value > 604800 then Failed(InvalidRequest)
    else if now > requestTime.value + expires.value * SECOND then Failed(AccessDenied)
    else if scope.None? || scope.value.service != v.service || scope.value.terminal != v.terminal then
      Failed(InvalidRequest)
    else if Split(Get(q, SIGNED_HEADERS_KEY), 59)[0] == [] || Get(q, SIGNATURE_KEY) == [] then Failed(InvalidRequest)
    else Got((requestTime.value, scope.value))
  }

  predicate Matches(c: Crypto, secrets: seq<Str>, scope: Scope, text: Str, signature: Str) {
    exists s :: s in secrets && Sign(c, s, scope, text) == signature
  }

  ghost function Verify(c: Crypto, v: Verifier, creds: C.Creds, r: Request, now: int): Verdict {
    var pre := Precheck(c, v, r.query, now);
    if pre.Failed? then pre.verdict
    else
      var (at, scope) := pre.value;
      var canonical := CanonicalRequestOf(r, Split(Get(r.query, SIGNED_HEADERS_KEY), 59), true);
      if scope.accessKeyId !in creds then InvalidAccessKeyId
      else if creds[scope.accessKeyId].status != C.Active then AccessDenied
      else if canonical.Failed? then canonical.verdict
      else if Matches(c, C.Secrets(creds[scope.accessKeyId], now), scope,
                      StringToSign(c, at, scope.raw, canonical.value), Get(r.query, SIGNATURE_KEY)) then Verified
      else SignatureDoesNotMatch
  }

  /** The checks get as far as the headers. */
  predicate LooksAtHeaders(c: Crypto, v: Verifier, creds: C.Creds, q: Query, now: int) {
    var pre := Precheck(c, v, q, now);
    && pre.Got? && pre.value.1.accessKeyId in creds && creds[pre.value.1.accessKeyId].status == C.Active
  }

  /** verifyPresignedURL: besides, if it gets as far as the headers, it folds those it reads. */
  method VerifyPresignedURL(c: Crypto, v: Verifier, store: C.CredentialStore, req: HttpRequest, now: int)
    returns (verdict: Verdict)
    modifies req`headers
    ensures verdict == Verify(c, v, store.creds, old(req.Value()), now)
    ensures req.headers == if LooksAtHeaders(c, v, store.creds, req.query, now)
                           then HeadersLeft(old(req.Value()), Split(Get(req.query, SIGNED_HEADERS_KEY), 59))
                           else old(req.headers)
  {
    hide CanonicalRequestOf, HeadersLeft, StringToSign, Sign, C.Secrets, Atoi, Split, ParseScope, Get;
    var q := req.query;
    if Get(q, ALGORITHM_KEY) != ALGORITHM {
      return InvalidRequest;
    }
    if Get(q, DATE_KEY) == [] {
      return InvalidRequest;
    }
    var requestTime := c.parseStamp(Get(q, DATE_KEY));
    if requestTime.None? {
      return InvalidRequest;
    }
    var exceeded := SkewExceeded(v, requestTime.value, now);
    if exceeded {
      return TimeTooSkewed;
    }
    var expires := Atoi(Get(q, EXPIRES_KEY));
    if expires.None? || expires.value <= 0 || expires.value > 604800 {
      return InvalidRequest;
    }
    if now > requestTime.value + expires.value * SECOND {
      return AccessDenied;
    }
    var scope := ParseScope(Get(q, CREDENTIAL_KEY));
    if scope.None? || scope.value.service != v.service || scope.value.terminal != v.terminal {
      return InvalidRequest;
    }
    var signedHeaders := Split(Get(q, SIGNED_HEADERS_KEY), 59);
    var signature := Get(q, SIGNATURE_KEY);
    if signedHeaders[0] == [] || signature == [] {
      return InvalidRequest;
    }
    var secrets, known, active := store.ResolveSecrets(scope.value.accessKeyId, now);
    if !known {
      return InvalidAccessKeyId;
    }
    if !active {
      return AccessDenied;
    }
    var canonical := BuildCanonicalRequest(req, signedHeaders, true);
    if canonical.Failed? {
      return canonical.verdict;
    }
    var text := StringToSign(c, requestTime.value, scope.value.raw, canonical.value);
    var matched := TrySecrets(c, secrets, scope.value, text, signature);
    verdict := if matched then Verified else SignatureDoesNotMatch;
  }

  /** Folding the headers does not change what a second check says. */
  lemma VerifyTwice(c: Crypto, v: Verifier, creds: C.Creds, r: Request, later: int)
    ensures var signed := Split(Get(r.query, SIGNED_HEADERS_KEY), 59);
            Verify(c, v, creds, r.(headers := HeadersLeft(r, signed)), later) == Verify(c, v, creds, r, later)
  {
    hide CanonicalRequestOf, HeadersLeft, StringToSign, Sign, Precheck, C.Secrets, Split, Get, Matches;
    CanonicalTwice(r, Split(Get(r.query, SIGNED_HEADERS_KEY), 59), true);
  }

  method TrySecrets(c: Crypto, secrets: seq<Str>, scope: Scope, text: Str, signature: Str) returns (matched: bool)
    ensures matched <==> Matches(c, secrets, scope, text, signature)
  {
    hide Sign;
    for i := 0 to |secrets|
      invariant forall j :: 0 <= j < i ==> Sign(c, secrets[j], scope, text) != signature
    {
      var expected := Sign(c, secrets[i], scope, text);
      if expected == signature {
        return true;
      }
    }
    matched := false;
  }

  // ---- What checking says of a presigned request

  lemma KeysDiffer()
    ensures |ALGORITHM_KEY| == |SIGNATURE_KEY| == 15 && ALGORITHM_KEY != SIGNATURE_KEY
    ensures |CREDENTIAL_KEY| == 16 && |DATE_KEY| == 10 && |EXPIRES_KEY| == 13 && |SIGNED_HEADERS_KEY| == 19
  {
    assert ALGORITHM_KEY[6] == 65 && SIGNATURE_KEY[6] == 83;
  }

  lemma PresignedParams(c: Crypto, q: Query, scope: Scope, expires: nat, at: int, signature: Str)
    ensures var p := Unsigned(c, q, scope, expires, at)[SIGNATURE_KEY := [signature]];
            && Get(p, ALGORITHM_KEY) == ALGORITHM && Get(p, DATE_KEY) == c.stamp(at)
            && Get(p, CREDENTIAL_KEY) == scope.accessKeyId + [47] + scope.raw
            && Get(p, EXPIRES_KEY) == Itoa(expires) && Get(p, SIGNED_HEADERS_KEY) == HOST
            && Get(p, SIGNATURE_KEY) == signature
  {
    hide Itoa;
    KeysDiffer();
  }

  lemma {:induction false} HeadersIgnoreQuery(r: Request, q: Query, names: seq<Str>)
    ensures HeaderLines(r.(query := q), names) == HeaderLines(r, names)
  {
    if names != [] { HeadersIgnoreQuery(r, q, names[..|names| - 1]); }
  }

  /** The signature parameter is not part of what is signed. */
  lemma SignatureNotSigned(r: Request, q: Query, signature: Str, signed: seq<Str>)
    requires SIGNATURE_KEY !in q
    ensures CanonicalRequestOf(r.(query := q[SIGNATURE_KEY := [signature]]), signed, true)
         == CanonicalRequestOf(r.(query := q), signed, true)
  {
    hide HeaderLines, SortedBy, Normalized, Join, CanonicalQueryOf;
    var p := q[SIGNATURE_KEY := [signature]];
    HeadersIgnoreQuery(r, q, SortedBy(AtMost, Normalized(signed)));
    HeadersIgnoreQuery(r, p, SortedBy(AtMost, Normalized(signed)));
    assert Skipped(SIGNATURE_KEY, true);
    assert forall x :: Count(p, true, x) == Count(q, true, x);
    CanonicalQueryIff(p, q, true);
  }

  lemma HexNotEmpty(s: Str)
    requires s != []
    ensures HexEncode(s) != []
  {
  }

  /** None of the fields of the scope contains a slash, and the verifier serves it. */
  predicate Addressed(v: Verifier, scope: Scope) {
    && 47 !in scope.accessKeyId && 47 !in scope.region && 47 !in scope.service && 47 !in scope.terminal
    && scope.service == v.service && scope.terminal == v.terminal
  }

  predicate Expired(o: Options, at: int, now: int) {
    now > Floor(at) + Expires(o) / SECOND * SECOND
  }

  lemma PrecheckOfPresigned(c: Crypto, v: Verifier, r: Request, accessKeyId: Str, secret: Str, o: Options, at: int,
                            now: int)
    requires CryptoOk(c, at) && PresignOf(c, r, accessKeyId, secret, o, at).1 == Signed
    ensures var q, scope := PresignOf(c, r, accessKeyId, secret, o, at).0, ScopeFor(c, accessKeyId, o, at);
            Precheck(c, v, q, now) ==
            if !Expressible(at) then Failed(InvalidRequest)
            else if Skewed(v, Floor(at), now) then Failed(TimeTooSkewed)
            else if Expires(o) < SECOND then Failed(InvalidRequest)
            else if Expired(o, at, now) then Failed(AccessDenied)
            else if !Addressed(v, scope) then Failed(InvalidRequest)
            else Got((Floor(at), scope))
  {
    hide Trim, CanonicalRequestOf, StringToSign, Sign, Itoa, Atoi, Split, ParseScope, Get, Unsigned;
    var scope, expires := ScopeFor(c, accessKeyId, o, at), Expires(o) / SECOND;
    var canonical := CanonicalRequestOf(r.(query := Unsigned(c, r.query, scope, expires, at)), [HOST], true);
    var text := StringToSign(c, at, scope.raw, canonical.value);
    PresignedParams(c, r.query, scope, expires, at, Sign(c, secret, scope, text));
    SignNotEmpty(c, secret, scope, text);
    AtoiItoa(expires);
    ScopeRoundTrip(scope.accessKeyId, scope.day, scope.region, scope.service, scope.terminal);
    ScopeFields(c, accessKeyId, o, at);
    SplitFree(HOST, 59);
  }

  lemma SignNotEmpty(c: Crypto, secret: Str, scope: Scope, text: Str)
    requires forall k, t :: c.hmac(k, t) != []
    ensures Sign(c, secret, scope, text) != []
  {
    hide HexEncode;
    var kRegion := c.hmac(c.hmac(Ascii("AWS4") + secret, scope.day), scope.region);
    var kSigning := c.hmac(c.hmac(kRegion, scope.service), scope.terminal);
    HexNotEmpty(c.hmac(kSigning, text));
  }

  lemma ScopeFields(c: Crypto, accessKeyId: Str, o: Options, at: int)
    requires CryptoOk(c, at) && !Blank(accessKeyId)
    ensures var s := ScopeFor(c, accessKeyId, o, at);
            && s.raw == ScopeText(s.day, s.region, s.service, s.terminal) && s.accessKeyId == accessKeyId
            && s.accessKeyId != [] && s.day != [] && s.region != [] && s.service != [] && s.terminal != []
            && 47 !in s.day
  {
    hide TrimLeft, TrimRight;
    assert Trim([], Space) == [] by { TrimEmpty(); }
    assert |Ascii("us-east-1")| == 9 && |Ascii("s3")| == 2 && |Ascii("aws4_request")| == 12;
  }

  lemma TrimEmpty()
    ensures Trim([], Space) == []
  {
  }

  /** Exactly what checking a presigned request at any time says: a signing time without a
      four-digit year cannot be read, the skew is taken from the
      signing time cut to the second, the expiry is cut to whole seconds, and the secrets are
      those valid at the time of the check. */
  lemma PresignedVerdict(c: Crypto, v: Verifier, creds: C.Creds, r: Request, accessKeyId: Str, secret: Str,
                         o: Options, at: int, now: int)
    requires CryptoOk(c, at) && PresignOf(c, r, accessKeyId, secret, o, at).1 == Signed
    ensures var q, scope := PresignOf(c, r, accessKeyId, secret, o, at).0, ScopeFor(c, accessKeyId, o, at);
            var text := SignedText(c, r, accessKeyId, o, at);
            Verify(c, v, creds, r.(query := q), now) ==
            if !Expressible(at) then InvalidRequest
            else if Skewed(v, Floor(at), now) then TimeTooSkewed
            else if Expires(o) < SECOND then InvalidRequest
            else if Expired(o, at, now) then AccessDenied
            else if !Addressed(v, scope) then InvalidRequest
            else if accessKeyId !in creds then InvalidAccessKeyId
            else if creds[accessKeyId].status != C.Active then AccessDenied
            else if Matches(c, C.Secrets(creds[accessKeyId], now), scope, text, Sign(c, secret, scope, text)) then
              Verified
            else SignatureDoesNotMatch
  {
    hide Trim, CanonicalRequestOf, StringToSign, Sign, Itoa, Precheck, Split, Get, Unsigned, Matches, ScopeFor;
    hide Skewed, Expired, Addressed, C.Secrets, CryptoOk;
    var scope, expires := ScopeFor(c, accessKeyId, o, at), Expires(o) / SECOND;
    var q := Unsigned(c, r.query, scope, expires, at);
    var canonical := CanonicalRequestOf(r.(query := q), [HOST], true);
    var text := StringToSign(c, at, scope.raw, canonical.value);
    var signature := Sign(c, secret, scope, text);
    PrecheckOfPresigned(c, v, r, accessKeyId, secret, o, at, now);
    PresignedParams(c, r.query, scope, expires, at, signature);
    SplitFree(HOST, 59);
    UnsignedHasNone(c, r.query, scope, expires, at);
    SignatureNotSigned(r, q, signature, [HOST]);
    SameText(c, at, scope.raw, canonical.value);
    ScopeKey(c, accessKeyId, o, at);
  }

  /** The text a presigning signs. */
  ghost function SignedText(c: Crypto, r: Request, accessKeyId: Str, o: Options, at: int): Str {
    var scope := ScopeFor(c, accessKeyId, o, at);
    var expires := if Expires(o) < 0 then 0 else Expires(o) / SECOND;
    var canonical := CanonicalRequestOf(r.(query := Unsigned(c, r.query, scope, expires, at)), [HOST], true);
    if canonical.Failed? then [] else StringToSign(c, at, scope.raw, canonical.value)
  }

  lemma ScopeKey(c: Crypto, accessKeyId: Str, o: Options, at: int)
    ensures ScopeFor(c, accessKeyId, o, at).accessKeyId == accessKeyId
  {
  }

  lemma UnsignedHasNone(c: Crypto, q: Query, scope: Scope, expires: nat, at: int)
    ensures SIGNATURE_KEY !in Unsigned(c, q, scope, expires, at)
  {
  }

  lemma SameText(c: Crypto, at: int, scope: Str, canonical: Str)
    requires CryptoOk(c, at)
    ensures StringToSign(c, Floor(at), scope, canonical) == StringToSign(c, at, scope, canonical)
  {
  }

  // ---- When a presigned request is accepted

  /** A presigning succeeds exactly when its inputs are given and the request names a host. */
  lemma SignedIff(c: Crypto, r: Request, accessKeyId: Str, secret: Str, o: Options, at: int)
    ensures PresignOf(c, r, accessKeyId, secret, o, at).1 == Signed
       <==> && Trim(r.httpMethod, Space) != [] && Trim(accessKeyId, Space) != [] && Trim(secret, Space) != []
            && 0 <= o.expires <= 604800 * SECOND
            && Trim(if r.host == [] then r.urlHost else r.host, Space) != []
  {
    hide Trim, Unsigned, CanonicalQueryOf, Join, StringToSign, Sign, PayloadHash;
    HostOnly();
    if !Refused(r, accessKeyId, secret, o) {
      var q := Unsigned(c, r.query, ScopeFor(c, accessKeyId, o, at), Expires(o) / SECOND, at);
      HeadersIgnoreQuery(r, q, [HOST]);
      assert [HOST][..0] == [];
    }
  }

  lemma HostOnly()
    ensures SortedBy(AtMost, Normalized([HOST])) == [HOST]
  {
    assert Trim(HOST, Space) == HOST;
    assert ToLower(HOST) == HOST;
    assert Normalized([HOST]) == [HOST];
    assert [HOST][..0] == [];
    assert SortedBy(AtMost, [HOST]) == Insert(AtMost, SortedBy(AtMost, []), HOST);
  }

  /** No other of these secrets would have made the same signature. */
  ghost predicate TellsApart(c: Crypto, secrets: seq<Str>, scope: Scope, text: Str, secret: Str) {
    forall s :: s in secrets && Sign(c, s, scope, text) == Sign(c, secret, scope, text) ==> s == secret
  }

  /** The times at which the limits let a presigned request pass: around the signing time, and
      all those that are 2^63 nanoseconds or more before it. */
  predicate InTime(v: Verifier, o: Options, at: int, now: int) {
    && Expressible(at)
    && (Floor(at) - v.maxSkew <= now <= Floor(at) + v.maxSkew || now <= Floor(at) + MIN_DURATION)
    && SECOND <= Expires(o) && now <= Floor(at) + Expires(o) / SECOND * SECOND
  }

  /** A presigned request is accepted exactly while both limits hold, by a verifier it is
      addressed to, and as long as its secret may still sign for an active credential. */
  lemma AcceptedIff(c: Crypto, v: Verifier, creds: C.Creds, r: Request, accessKeyId: Str, secret: Str,
                    o: Options, at: int, now: int)
    requires CryptoOk(c, at) && PresignOf(c, r, accessKeyId, secret, o, at).1 == Signed
    requires accessKeyId in creds ==>
             TellsApart(c, C.Secrets(creds[accessKeyId], now), ScopeFor(c, accessKeyId, o, at),
                        SignedText(c, r, accessKeyId, o, at), secret)
    ensures Verify(c, v, creds, r.(query := PresignOf(c, r, accessKeyId, secret, o, at).0), now) == Verified
       <==> && InTime(v, o, at, now) && Addressed(v, ScopeFor(c, accessKeyId, o, at))
            && accessKeyId in creds && creds[accessKeyId].status == C.Active
            && secret in C.Secrets(creds[accessKeyId], now)
  {
    SignedIff(c, r, accessKeyId, secret, o, at);
    hide PresignOf, Verify, SignedText, ScopeFor, Sign, C.Secrets, CryptoOk, Addressed, CanonicalHost, Blank;
    PresignedVerdict(c, v, creds, r, accessKeyId, secret, o, at, now);
    InTimeIff(v, o, at, now);
  }

  lemma InTimeIff(v: Verifier, o: Options, at: int, now: int)
    requires Expires(o) <= 604800 * SECOND
    ensures InTime(v, o, at, now) <==>
            Expressible(at) && !Skewed(v, Floor(at), now) && SECOND <= Expires(o) && !Expired(o, at, now)
  {
    hide Expressible;
  }

  const LAST_STAMP := Ascii("99991231T235959Z")

  /** A request presigned for the last second that has a stamp is accepted, by a verifier it is
      addressed to and for an active credential, at every time more than 2^63 nanoseconds
      earlier, whatever the skew limit. */
  lemma LastSecondAccepted(c: Crypto, v: Verifier, creds: C.Creds, r: Request, accessKeyId: Str, secret: Str,
                           o: Options, now: int)
    requires var at := END_TIME - SECOND;
             && CryptoOk(c, at) && c.stamp(at) == LAST_STAMP && now <= at + MIN_DURATION
             && PresignOf(c, r, accessKeyId, secret, o, at).1 == Signed && Expires(o) >= SECOND
             && Addressed(v, ScopeFor(c, accessKeyId, o, at))
    requires accessKeyId in creds && creds[accessKeyId].status == C.Active
    requires secret in C.Secrets(creds[accessKeyId], now)
    ensures var q := PresignOf(c, r, accessKeyId, secret, o, END_TIME - SECOND).0;
            Get(q, DATE_KEY) == LAST_STAMP && Verify(c, v, creds, r.(query := q), now) == Verified
  {
    var at := END_TIME - SECOND;
    hide PresignOf, Verify, Addressed, ScopeFor, C.Secrets, CryptoOk, Get, SignedText, Sign, Ascii, Matches, Expires;
    PresignedVerdict(c, v, creds, r, accessKeyId, secret, o, at, now);
    StampOfPresigned(c, r, accessKeyId, secret, o, at);
    LastSecondInTime(v, o, now);
    assert Matches(c, C.Secrets(creds[accessKeyId], now), ScopeFor(c, accessKeyId, o, at),
                   SignedText(c, r, accessKeyId, o, at),
                   Sign(c, secret, ScopeFor(c, accessKeyId, o, at), SignedText(c, r, accessKeyId, o, at))) by {
      MatchesOwn(c, C.Secrets(creds[accessKeyId], now), ScopeFor(c, accessKeyId, o, at),
                 SignedText(c, r, accessKeyId, o, at), secret);
    }
  }

  lemma LastSecondInTime(v: Verifier, o: Options, now: int)
    requires now <= END_TIME - SECOND + MIN_DURATION && SECOND <= Expires(o)
    ensures var at := END_TIME - SECOND;
            Expressible(at) && !Skewed(v, Floor(at), now) && !Expired(o, at, now)
  {
  }

  lemma MatchesOwn(c: Crypto, secrets: seq<Str>, scope: Scope, text: Str, secret: Str)
    requires secret in secrets
    ensures Matches(c, secrets, scope, text, Sign(c, secret, scope, text))
  {
    hide Sign;
  }

  lemma StampOfPresigned(c: Crypto, r: Request, accessKeyId: Str, secret: Str, o: Options, at: int)
    requires PresignOf(c, r, accessKeyId, secret, o, at).1 == Signed
    ensures Get(PresignOf(c, r, accessKeyId, secret, o, at).0, DATE_KEY) == c.stamp(at)
  {
    hide Trim, CanonicalRequestOf, StringToSign, Sign, Itoa, Get, Unsigned;
    var scope, expires := ScopeFor(c, accessKeyId, o, at), Expires(o) / SECOND;
    var canonical := CanonicalRequestOf(r.(query := Unsigned(c, r.query, scope, expires, at)), [HOST], true);
    PresignedParams(c, r.query, scope, expires, at,
                    Sign(c, secret, scope, StringToSign(c, at, scope.raw, canonical.value)));
  }

  /** One rotation: what the old secret signed is accepted in time and before the overlap
      ends; what the new secret signs is accepted in time. */
  lemma AcceptedAcrossRotation(c: Crypto, v: Verifier, creds: C.Creds, hash: Str -> Str, r: Request, accessKeyId: Str,
                               newSecret: Str, overlap: int, rotatedAt: int, byOld: bool, o: Options, at: int, now: int)
    requires CryptoOk(c, at) && accessKeyId in creds && creds[accessKeyId].status == C.Active
    requires creds[accessKeyId].secret != [] && newSecret != [] && newSecret != creds[accessKeyId].secret
    requires Addressed(v, ScopeFor(c, accessKeyId, o, at))
    requires var secret := if byOld then creds[accessKeyId].secret else newSecret;
             && PresignOf(c, r, accessKeyId, secret, o, at).1 == Signed
             && TellsApart(c, [newSecret, creds[accessKeyId].secret], ScopeFor(c, accessKeyId, o, at),
                           SignedText(c, r, accessKeyId, o, at), secret)
    ensures var secret := if byOld then creds[accessKeyId].secret else newSecret;
            var rotated := creds[accessKeyId := C.Rotated(hash, creds[accessKeyId], newSecret, overlap, rotatedAt)];
            Verify(c, v, rotated, r.(query := PresignOf(c, r, accessKeyId, secret, o, at).0), now) == Verified
            <==> InTime(v, o, at, now) && (byOld ==> now < rotatedAt + overlap)
  {
    hide PresignOf, Verify, SignedText, ScopeFor, Sign, CryptoOk, Addressed, InTime;
    var before := creds[accessKeyId];
    var rec := C.Rotated(hash, before, newSecret, overlap, rotatedAt);
    var secret := if byOld then before.secret else newSecret;
    var secrets := C.Secrets(rec, now);
    assert secrets == [newSecret] + if now < rotatedAt + overlap then [before.secret] else [];
    assert forall s :: s in secrets ==> s in [newSecret, before.secret];
    assert secret in secrets <==> (byOld ==> now < rotatedAt + overlap);
    AcceptedIff(c, v, creds[accessKeyId := rec], r, accessKeyId, secret, o, at, now);
  }

  /** A second rotation ends the overlap of the first, however long it was meant to be. */
  lemma SecondRotationDropsOldest(hash: Str -> Str, rec: C.Credential, s1: Str, overlap1: int, t1: int,
                                  s2: Str, overlap2: int, t2: int, now: int)
    requires rec.secret != s1 && rec.secret != s2 && s1 != []
    ensures var twice := C.Rotated(hash, C.Rotated(hash, rec, s1, overlap1, t1), s2, overlap2, t2);
            && rec.secret !in C.Secrets(twice, now)
            && (s1 in C.Secrets(twice, now) <==> s1 == s2 || now < t2 + overlap2)
  {
  }
}
