/**
 * The request signer: a fixed-service subset of AWS Signature Version 4 for `execute-api`.
 * UTF-8 encoding, SHA-256 and HMAC-SHA-256 are injected and left uninterpreted; what is modelled
 * is the text that gets hashed and signed, the key-derivation chain, the hex digest, the split of
 * the endpoint, and the update of the caller's header dictionary.
 */
module AwsAuth {
  import opened Wrappers
  import opened Strings
  import opened Dicts

  const ALGORITHM := "AWS4-HMAC-SHA256"
  const CONTENT_TYPE := "application/json"
  const SERVICE := "execute-api"
  const TERMINATOR := "aws4_request"
  const SIGNED_HEADERS := "content-type;host;x-amz-date"

  type byte = b: int | 0 <= b < 256
  type Bytes = seq<byte>

  /** `str.encode('utf-8')`, `hashlib.sha256(..).digest()` and `hmac.new(key, msg, sha256).digest()`. */
  datatype Crypto = Crypto(utf8: string -> Bytes, sha256: Bytes -> Bytes, hmac: (Bytes, Bytes) -> Bytes)

  const HEX_DIGITS := "0123456789abcdef"

  /** Lower-case hexadecimal, two digits per byte, as `hexdigest()` writes it. */
  function Hex(bs: Bytes): (r: string)
    ensures |r| == 2 * |bs|
    ensures forall i :: 0 <= i < |r| ==> r[i] in HEX_DIGITS
    decreases |bs|
  {
    if bs == [] then []
    else [HEX_DIGITS[bs[0] / 16], HEX_DIGITS[bs[0] % 16]] + Hex(bs[1..])
  }

  /** The value of one lower-case hexadecimal digit. */
  function DigitValue(c: char): nat {
    if '0' <= c <= '9' then c as nat - '0' as nat
    else if 'a' <= c <= 'f' then c as nat - 'a' as nat + 10
    else 0
  }

  /** Reads a hex digest back into bytes. */
  function Unhex(s: string): Bytes
    decreases |s|
  {
    if |s| < 2 then []
    else
      var hi, lo := DigitValue(s[0]) % 16, DigitValue(s[1]) % 16;
      [hi * 16 + lo] + Unhex(s[2..])
  }

  lemma DigitRoundTrip(n: nat)
    requires n < 16
    ensures DigitValue(HEX_DIGITS[n]) == n
  {
  }

  /** Two digits written for one byte read back as that byte. */
  lemma UnhexStep(b: byte, rest: string)
    ensures Unhex([HEX_DIGITS[b / 16], HEX_DIGITS[b % 16]] + rest) == [b] + Unhex(rest)
  {
    var hi, lo := HEX_DIGITS[b / 16], HEX_DIGITS[b % 16];
    var s := [hi, lo] + rest;
    DigitRoundTrip(b / 16);
    DigitRoundTrip(b % 16);
    assert s[0] == hi && s[1] == lo && s[2..] == rest;
    assert Unhex(s) == [DigitValue(hi) % 16 * 16 + DigitValue(lo) % 16] + Unhex(rest);
    var q, r := b / 16, b % 16;
    assert q < 16 && q % 16 == q && r % 16 == r;
    assert q * 16 + r == b;
  }

  /** The hex digest loses nothing: different digests mean different bytes. */
  lemma {:induction false} UnhexHex(bs: Bytes)
    ensures Unhex(Hex(bs)) == bs
    decreases |bs|
  {
    if bs != [] {
      UnhexHex(bs[1..]);
      UnhexStep(bs[0], Hex(bs[1..]));
      assert bs == [bs[0]] + bs[1..];
    }
  }

  /** `sign(key, string)`: HMAC-SHA-256 of the UTF-8 text under `key`. */
  function Sign(c: Crypto, key: Bytes, s: string): Bytes {
    c.hmac(key, c.utf8(s))
  }

  /** `hash(string)`: the hex SHA-256 digest of the UTF-8 text. */
  function Hash(c: Crypto, s: string): (r: string)
    ensures |r| == 2 * |c.sha256(c.utf8(s))|
    ensures Unhex(r) == c.sha256(c.utf8(s))
    ensures forall i :: 0 <= i < |r| ==> r[i] in HEX_DIGITS
  {
    UnhexHex(c.sha256(c.utf8(s)));
    Hex(c.sha256(c.utf8(s)))
  }

  /** `get_signature_key`: the secret, prefixed with `AWS4`, signs date, region, service, terminator in turn. */
  function SignatureKey(c: Crypto, secret: string, dateStamp: string, region: string): Bytes {
    var dateKey := Sign(c, c.utf8("AWS4" + secret), dateStamp);
    var regionKey := Sign(c, dateKey, region);
    var serviceKey := Sign(c, regionKey, SERVICE);
    Sign(c, serviceKey, TERMINATOR)
  }

  /** Each step's digest is the key that signs the next piece of text. */
  function KeyChain(c: Crypto, key: Bytes, pieces: seq<string>): Bytes
    decreases |pieces|
  {
    if pieces == [] then key else KeyChain(c, Sign(c, key, pieces[0]), pieces[1..])
  }

  /** `{date_stamp}/{region}/execute-api/aws4_request`. */
  function CredentialScope(dateStamp: string, region: string): string {
    dateStamp + "/" + region + "/" + SERVICE + "/" + TERMINATOR
  }

  /** The scope reads back as its four parts when date and region hold no `/`. */
  lemma CredentialScopeParts(dateStamp: string, region: string)
    requires '/' !in dateStamp && '/' !in region
    ensures Split(CredentialScope(dateStamp, region), '/') == [dateStamp, region, SERVICE, TERMINATOR]
  {
    assert '/' !in SERVICE && '/' !in TERMINATOR;
    SplitFour(dateStamp, region, SERVICE, TERMINATOR);
  }

  /** Four pieces without `/`, joined by `/`, split back into those pieces. */
  lemma SplitFour(a: string, b: string, c: string, d: string)
    requires '/' !in a && '/' !in b && '/' !in c && '/' !in d
    ensures Split(a + "/" + b + "/" + c + "/" + d, '/') == [a, b, c, d]
  {
    var parts := [a, b, c, d];
    assert forall k :: 0 <= k < |parts| ==> '/' !in parts[k];
    SplitJoin(parts, '/');
    JoinSnoc("/", [a], b);
    JoinSnoc("/", [a, b], c);
    JoinSnoc("/", [a, b, c], d);
    assert [a] + [b] == [a, b] && [a, b] + [c] == [a, b, c] && [a, b, c] + [d] == parts;
  }

  /**
   * The signing key is the HMAC chain from `AWS4` + secret over exactly the parts of the
   * credential scope, in order: the same date, region and service the signature names.
   */
  lemma SignatureKeyFollowsScope(c: Crypto, secret: string, dateStamp: string, region: string)
    requires '/' !in dateStamp && '/' !in region
    ensures SignatureKey(c, secret, dateStamp, region)
            == KeyChain(c, c.utf8("AWS4" + secret), Split(CredentialScope(dateStamp, region), '/'))
  {
    CredentialScopeParts(dateStamp, region);
    var parts := [dateStamp, region, SERVICE, TERMINATOR];
    var k0 := c.utf8("AWS4" + secret);
    var k1 := Sign(c, k0, dateStamp);
    var k2 := Sign(c, k1, region);
    var k3 := Sign(c, k2, SERVICE);
    var k4 := Sign(c, k3, TERMINATOR);
    assert parts[1..] == [region, SERVICE, TERMINATOR];
    assert parts[2..] == [SERVICE, TERMINATOR];
    assert parts[3..] == [TERMINATOR];
    assert KeyChain(c, k4, []) == k4;
    assert KeyChain(c, k3, parts[3..]) == k4;
    assert KeyChain(c, k2, parts[2..]) == k4;
    assert KeyChain(c, k1, parts[1..]) == k4;
    assert KeyChain(c, k0, parts) == k4;
  }

  /** Access and secret key of the configured profile. */
  datatype Credentials = Credentials(accessKey: string, secretKey: string)

  /** The UTC moment read from the clock. */
  datatype Instant = Instant(year: nat, month: nat, day: nat, hour: nat, minute: nat, second: nat)
  {
    /** A four-digit year and in-range fields, as a `datetime` holds them. */
    predicate Valid() {
      && 1000 <= year <= 9999 && 1 <= month <= 12 && 1 <= day <= 31
      && hour < 24 && minute < 60 && second < 60
    }
  }

  function Pow10(w: nat): (p: nat)
    ensures p >= 1
  {
    if w == 0 then 1 else 10 * Pow10(w - 1)
  }

  predicate IsDigit(c: char) {
    '0' <= c <= '9'
  }

  /** `n` written with exactly `w` decimal digits, zero-padded, as `strftime` pads its fields. */
  function Pad(n: nat, w: nat): (r: string)
    requires n < Pow10(w)
    ensures |r| == w
    ensures forall i :: 0 <= i < w ==> IsDigit(r[i])
    decreases w
  {
    if w == 0 then []
    else Pad(n / 10, w - 1) + [('0' as int + n % 10) as char]
  }

  /** The number a string of decimal digits denotes. */
  function DecimalValue(s: string): nat
    decreases |s|
  {
    if s == [] then 0
    else 10 * DecimalValue(s[..|s| - 1]) + (s[|s| - 1] as int - '0' as int) % 10
  }

  /** Padding loses nothing: the digits read back as the number. */
  lemma {:induction false} PadRoundTrip(n: nat, w: nat)
    requires n < Pow10(w)
    ensures DecimalValue(Pad(n, w)) == n
    decreases w
  {
    if w > 0 {
      PadRoundTrip(n / 10, w - 1);
      var r := Pad(n, w);
      assert r[..|r| - 1] == Pad(n / 10, w - 1);
    }
  }

  /** `strftime("%Y%m%dT%H%M%SZ")`. */
  function AmzDate(t: Instant): (r: string)
    requires t.Valid()
    ensures |r| == 16 && r[8] == 'T' && r[15] == 'Z'
  {
    Pad(t.year, 4) + Pad(t.month, 2) + Pad(t.day, 2) + "T" + Pad(t.hour, 2) + Pad(t.minute, 2) + Pad(t.second, 2) + "Z"
  }

  /** `strftime("%Y%m%d")`. */
  function DateStamp(t: Instant): (r: string)
    requires t.Valid()
    ensures |r| == 8 && forall i :: 0 <= i < 8 ==> IsDigit(r[i])
  {
    Pad(t.year, 4) + Pad(t.month, 2) + Pad(t.day, 2)
  }

  /** Both strings come from one reading of the clock, so the date stamp starts the timestamp. */
  lemma DateStampStartsAmzDate(t: Instant)
    requires t.Valid()
    ensures DateStamp(t) == AmzDate(t)[..8]
    ensures '/' !in DateStamp(t)
  {
    var d := DateStamp(t);
    assert AmzDate(t) == d + "T" + Pad(t.hour, 2) + Pad(t.minute, 2) + Pad(t.second, 2) + "Z";
    assert forall i :: 0 <= i < 8 ==> d[i] != '/';
  }

  /** Each field of the moment sits at a fixed place in the timestamp. */
  lemma AmzDateFields(t: Instant)
    requires t.Valid()
    ensures var a := AmzDate(t);
            && a[0..4] == Pad(t.year, 4) && a[4..6] == Pad(t.month, 2) && a[6..8] == Pad(t.day, 2)
            && a[9..11] == Pad(t.hour, 2) && a[11..13] == Pad(t.minute, 2) && a[13..15] == Pad(t.second, 2)
  {
  }

  lemma PadInjective(m: nat, n: nat, w: nat)
    requires m < Pow10(w) && n < Pow10(w) && Pad(m, w) == Pad(n, w)
    ensures m == n
  {
    PadRoundTrip(m, w);
    PadRoundTrip(n, w);
  }

  /** Different moments give different timestamps. */
  lemma AmzDateInjective(t1: Instant, t2: Instant)
    requires t1.Valid() && t2.Valid()
    requires AmzDate(t1) == AmzDate(t2)
    ensures t1 == t2
  {
    AmzDateFields(t1);
    AmzDateFields(t2);
    PadInjective(t1.year, t2.year, 4);
    PadInjective(t1.month, t2.month, 2);
    PadInjective(t1.day, t2.day, 2);
    PadInjective(t1.hour, t2.hour, 2);
    PadInjective(t1.minute, t2.minute, 2);
    PadInjective(t1.second, t2.second, 2);
  }

  /** Host and path of an endpoint. */
  datatype Target = Target(host: string, uri: string)

  /** `split_endpoint`: drop every `https://`, then the host runs up to the first `/`, the rest is the path. */
  function SplitEndpoint(endpoint: string): Target {
    var parts := Split(Replace(endpoint, "https://", ""), '/');
    Target(parts[0], "/" + Join("/", parts[1..]))
  }

  /**
   * The host holds no `/` and the path always starts with one; together they give back the
   * endpoint (with `https://` removed) when it has a path, and the path is just `/` when it has none.
   */
  lemma SplitEndpointParts(endpoint: string)
    ensures var stripped := Replace(endpoint, "https://", "");
            var t := SplitEndpoint(endpoint);
            && '/' !in t.host
            && |t.uri| >= 1 && t.uri[0] == '/'
            && ('/' in stripped ==> t.host + t.uri == stripped)
            && ('/' !in stripped ==> t.host == stripped && t.uri == "/")
  {
    HostAndPath(Replace(endpoint, "https://", ""));
  }

  /** Splitting any text at its first `/` into a host and a path that starts with `/`. */
  lemma HostAndPath(s: string)
    ensures var parts := Split(s, '/');
            var host, uri := parts[0], "/" + Join("/", parts[1..]);
            && '/' !in host
            && |uri| >= 1 && uri[0] == '/'
            && ('/' in s ==> host + uri == s)
            && ('/' !in s ==> host == s && uri == "/")
  {
    SplitHead(s, '/');
    if '/' in s {
      PathRejoins(s);
    } else {
      assert Split(s, '/')[1..] == [];
    }
  }

  lemma PathRejoins(s: string)
    requires '/' in s
    ensures var parts := Split(s, '/');
            parts[0] + ("/" + Join("/", parts[1..])) == s
  {
    var parts := Split(s, '/');
    SplitHead(s, '/');
    var h := parts[0];
    var tail := s[|h| + 1..];
    JoinSplit(tail, '/');
    assert Join("/", parts[1..]) == tail;
    assert s[|h|..] == [s[|h|]] + tail;
    assert s == s[..|h|] + s[|h|..];
  }

  /** The three canonical header lines, each ending in a newline. */
  function CanonicalHeaders(host: string, amzDate: string): string {
    "content-type:" + CONTENT_TYPE + "\n" + "host:" + host + "\n" + "x-amz-date:" + amzDate + "\n"
  }

  /** The canonical request: method, path, empty query string, headers, signed header names, payload hash. */
  function CanonicalRequest(verb: string, uri: string, host: string, amzDate: string, payloadHash: string): string {
    verb + "\n" + uri + "\n" + "" + "\n" + CanonicalHeaders(host, amzDate) + "\n" + SIGNED_HEADERS + "\n" + payloadHash
  }

  /** The lines of the canonical request, when none of its parts spans a line break. */
  function CanonicalLines(verb: string, uri: string, host: string, amzDate: string, payloadHash: string): seq<string> {
    [verb, uri, "", "content-type:" + CONTENT_TYPE, "host:" + host, "x-amz-date:" + amzDate, "", SIGNED_HEADERS, payloadHash]
  }

  lemma CanonicalHeadersAreLines(host: string, amzDate: string)
    ensures CanonicalHeaders(host, amzDate)
            == Join("\n", ["content-type:" + CONTENT_TYPE, "host:" + host, "x-amz-date:" + amzDate]) + "\n"
  {
    var h1, h2, h3 := "content-type:" + CONTENT_TYPE, "host:" + host, "x-amz-date:" + amzDate;
    var nl := "\n";
    JoinSnoc(nl, [h1], h2);
    JoinSnoc(nl, [h1, h2], h3);
    assert [h1] + [h2] == [h1, h2] && [h1, h2] + [h3] == [h1, h2, h3];
    var ch := CanonicalHeaders(host, amzDate);
    assert ch == h1 + nl + ("host:" + host) + nl + ("x-amz-date:" + amzDate) + nl;
    assert Join(nl, [h1, h2, h3]) == h1 + nl + h2 + nl + h3;
  }

  lemma FirstSixLines(verb: string, uri: string, host: string, amzDate: string)
    ensures var hs := Join("\n", ["content-type:" + CONTENT_TYPE, "host:" + host, "x-amz-date:" + amzDate]);
            Join("\n", [verb, uri, "", "content-type:" + CONTENT_TYPE, "host:" + host, "x-amz-date:" + amzDate])
            == verb + "\n" + uri + "\n" + "" + "\n" + hs
  {
    var h1, h2, h3 := "content-type:" + CONTENT_TYPE, "host:" + host, "x-amz-date:" + amzDate;
    var nl := "\n";
    JoinSnoc(nl, [verb], uri);
    JoinSnoc(nl, [verb, uri], "");
    assert [verb] + [uri] == [verb, uri] && [verb, uri] + [""] == [verb, uri, ""];
    JoinAppend(nl, [verb, uri, ""], [h1, h2, h3]);
    assert [verb, uri, ""] + [h1, h2, h3] == [verb, uri, "", h1, h2, h3];
  }

  lemma CanonicalRequestIsJoin(verb: string, uri: string, host: string, amzDate: string, payloadHash: string)
    ensures CanonicalRequest(verb, uri, host, amzDate, payloadHash)
            == Join("\n", CanonicalLines(verb, uri, host, amzDate, payloadHash))
  {
    var h1, h2, h3 := "content-type:" + CONTENT_TYPE, "host:" + host, "x-amz-date:" + amzDate;
    var nl := "\n";
    CanonicalHeadersAreLines(host, amzDate);
    FirstSixLines(verb, uri, host, amzDate);
    var hs := Join(nl, [h1, h2, h3]);
    var l6 := [verb, uri, "", h1, h2, h3];
    var l7, l8, l9 := l6 + [""], l6 + ["", SIGNED_HEADERS], l6 + ["", SIGNED_HEADERS, payloadHash];
    JoinSnoc(nl, l6, "");
    JoinSnoc(nl, l7, SIGNED_HEADERS);
    JoinSnoc(nl, l8, payloadHash);
    assert l7 + [SIGNED_HEADERS] == l8 && l8 + [payloadHash] == l9;
    assert l9 == CanonicalLines(verb, uri, host, amzDate, payloadHash);
    var pre := verb + nl + uri + nl + "";
    assert Join(nl, l9) == pre + nl + hs + nl + "" + nl + SIGNED_HEADERS + nl + payloadHash;
    assert CanonicalRequest(verb, uri, host, amzDate, payloadHash) == pre + nl + (hs + nl) + nl + SIGNED_HEADERS + nl + payloadHash;
  }

  /**
   * The canonical request is exactly nine lines: method, path, an empty query string, the three
   * header lines, an empty line, the signed header names and the payload hash.
   */
  lemma CanonicalRequestLines(verb: string, uri: string, host: string, amzDate: string, payloadHash: string)
    requires '\n' !in verb && '\n' !in uri && '\n' !in host && '\n' !in amzDate && '\n' !in payloadHash
    ensures Split(CanonicalRequest(verb, uri, host, amzDate, payloadHash), '\n')
            == CanonicalLines(verb, uri, host, amzDate, payloadHash)
  {
    var ls := CanonicalLines(verb, uri, host, amzDate, payloadHash);
    forall k | 0 <= k < |ls|
      ensures '\n' !in ls[k]
    {
    }
    CanonicalRequestIsJoin(verb, uri, host, amzDate, payloadHash);
    SplitJoin(ls, '\n');
  }

  /** The string to sign: algorithm, timestamp, scope and the hash of the canonical request. */
  function StringToSign(amzDate: string, scope: string, requestHash: string): string {
    ALGORITHM + "\n" + amzDate + "\n" + scope + "\n" + requestHash
  }

  /** The string to sign is exactly four lines. */
  lemma StringToSignLines(amzDate: string, scope: string, requestHash: string)
    requires '\n' !in amzDate && '\n' !in scope && '\n' !in requestHash
    ensures Split(StringToSign(amzDate, scope, requestHash), '\n') == [ALGORITHM, amzDate, scope, requestHash]
  {
    var ls := [ALGORITHM, amzDate, scope, requestHash];
    forall k | 0 <= k < |ls|
      ensures '\n' !in ls[k]
    {
    }
    assert Join("\n", ls[2..]) == scope + "\n" + requestHash;
    assert Join("\n", ls) == StringToSign(amzDate, scope, requestHash);
    SplitJoin(ls, '\n');
  }

  /** `AWS4-HMAC-SHA256 Credential=.., SignedHeaders=.., Signature=..`. */
  function AuthorizationHeader(accessKey: string, scope: string, signature: string): string {
    ALGORITHM + " Credential=" + accessKey + "/" + scope + ", SignedHeaders=" + SIGNED_HEADERS + ", Signature=" + signature
  }

  /** The three values the signer writes into the headers. */
  /**
   * The authorization value opens with the algorithm and the credential (access key, then
   * scope), and closes with the signature.
   */
  lemma AuthorizationLayout(accessKey: string, scope: string, signature: string)
    ensures var auth := AuthorizationHeader(accessKey, scope, signature);
            var head := ALGORITHM + " Credential=" + accessKey + "/" + scope;
            var tail := ", Signature=" + signature;
            && head <= auth
            && |head| + |tail| <= |auth|
            && auth[|auth| - |tail|..] == tail
  {
    var auth := AuthorizationHeader(accessKey, scope, signature);
    var head := ALGORITHM + " Credential=" + accessKey + "/" + scope;
    var middle := ", SignedHeaders=" + SIGNED_HEADERS;
    var tail := ", Signature=" + signature;
    assert auth == head + middle + tail;
    assert auth[..|head|] == head;
    assert auth[|auth| - |tail|..] == tail;
  }

  datatype AwsHeaders = AwsHeaders(contentType: string, amzDate: string, authorization: string)

  /** Everything `add_aws_headers` computes, for credentials and a moment supplied by the caller. */
  function Signing(c: Crypto, creds: Credentials, now: Instant, endpoint: string, region: string,
                   verb: string, body: string): AwsHeaders
    requires now.Valid()
  {
    var amzDate := AmzDate(now);
    var dateStamp := DateStamp(now);
    var target := SplitEndpoint(endpoint);
    var payloadHash := Hash(c, body);
    var signingKey := SignatureKey(c, creds.secretKey, dateStamp, region);
    var request := CanonicalRequest(verb, target.uri, target.host, amzDate, payloadHash);
    var scope := CredentialScope(dateStamp, region);
    var toSign := StringToSign(amzDate, scope, Hash(c, request));
    var signature := Hex(Sign(c, signingKey, toSign));
    AwsHeaders(CONTENT_TYPE, amzDate, AuthorizationHeader(creds.accessKey, scope, signature))
  }

  /**
   * The authorization value names the access key and the same scope the signing key was derived
   * over, lists the signed headers, and ends with the hex signature of the string to sign, which
   * in turn carries the hash of the canonical request built from this endpoint, method and body.
   */
  lemma SigningLayout(c: Crypto, creds: Credentials, now: Instant, endpoint: string, region: string,
                      verb: string, body: string)
    requires now.Valid()
    ensures var h := Signing(c, creds, now, endpoint, region, verb, body);
            var scope := CredentialScope(DateStamp(now), region);
            var target := SplitEndpoint(endpoint);
            var request := CanonicalRequest(verb, target.uri, target.host, AmzDate(now), Hash(c, body));
            var key := SignatureKey(c, creds.secretKey, DateStamp(now), region);
            var signature := Hex(Sign(c, key, StringToSign(AmzDate(now), scope, Hash(c, request))));
            && h.contentType == CONTENT_TYPE
            && h.amzDate == AmzDate(now)
            && h.amzDate[..8] == DateStamp(now)
            && h.authorization == AuthorizationHeader(creds.accessKey, scope, signature)
            && Unhex(signature) == Sign(c, key, StringToSign(AmzDate(now), scope, Hash(c, request)))
  {
    DateStampStartsAmzDate(now);
    var scope := CredentialScope(DateStamp(now), region);
    var target := SplitEndpoint(endpoint);
    var request := CanonicalRequest(verb, target.uri, target.host, AmzDate(now), Hash(c, body));
    var key := SignatureKey(c, creds.secretKey, DateStamp(now), region);
    UnhexHex(Sign(c, key, StringToSign(AmzDate(now), scope, Hash(c, request))));
  }

  /** The headers after the three writes: each overwrites an earlier value or is appended. */
  function WithAwsHeaders(headers: seq<Entry<string>>, h: AwsHeaders): (r: seq<Entry<string>>)
    ensures Lookup(r, "content-type") == Some(h.contentType)
    ensures Lookup(r, "x-amz-date") == Some(h.amzDate)
    ensures Lookup(r, "Authorization") == Some(h.authorization)
    ensures forall k :: k != "content-type" && k != "x-amz-date" && k != "Authorization" ==> Lookup(r, k) == Lookup(headers, k)
    ensures forall k :: k in Keys(headers) ==> k in Keys(r)
    ensures Distinct(Keys(headers)) ==> Distinct(Keys(r))
  {
    var h1 := Put(headers, "content-type", h.contentType);
    var h2 := Put(h1, "x-amz-date", h.amzDate);
    Put(h2, "Authorization", h.authorization)
  }

  /**
   * `add_aws_headers`: signs the request and writes `content-type`, `x-amz-date` and
   * `Authorization` into the caller's dictionary, which it also returns.
   */
  method AddAwsHeaders(c: Crypto, creds: Credentials, now: Instant, endpoint: string, region: string,
                       verb: string, params: seq<Entry<string>>, headers: Dict<string>, body: string)
    returns (r: Dict<string>)
    requires now.Valid()
    modifies headers
    ensures r == headers
    ensures headers.entries == WithAwsHeaders(old(headers.entries), Signing(c, creds, now, endpoint, region, verb, body))
  {
    var h := Signing(c, creds, now, endpoint, region, verb, body);
    headers.Set("content-type", h.contentType);
    headers.Set("x-amz-date", h.amzDate);
    headers.Set("Authorization", h.authorization);
    r := headers;
  }
}
