/**
 * The hand-made token of the API: base64 of the JSON header, base64 of the
 * JSON payload and base64 of an HMAC-SHA256 signature over the first two,
 * joined by dots, each with its `=` padding removed. The JSON, base64,
 * UTF-8 and HMAC functions are the fields of a `Codec`; the clock is a
 * parameter in milliseconds. The auth middleware reads the `Token` header,
 * verifies it and hands the user id to the rest of the request.
 */
module Token {
  import opened Wrappers
  import opened JsValue
  import opened Text

  type byte = x: int | 0 <= x < 256

  /** The foreign functions the token code calls, with the signing key fixed. */
  datatype Codec = Codec(
    stringify: Value -> string,              // `JSON.stringify`
    parse: string -> Option<Value>,          // `JSON.parse`; `None` where it throws
    utf8: string -> seq<byte>,               // `TextEncoder.encode`
    utf8Decode: seq<byte> -> string,         // `TextDecoder.decode`
    base64: seq<byte> -> string,             // `base64Encode`
    unbase64: string -> Option<seq<byte>>,   // `base64Decode`; `None` where it throws
    hmac: seq<byte> -> seq<byte>)            // HMAC-SHA256 under the secret `gouguoa`

  /** Seven days, in seconds. */
  const Lifetime := 60 * 60 * 24 * 7

  const Header: Value := Obj(map["alg" := Str("HS256"), "typ" := Str("JWT")])

  /** `Math.floor(Date.now() / 1000)`. */
  function Seconds(nowMs: int): int {
    nowMs / 1000
  }

  /** The payload issued for `userId` at `nowMs`. */
  function IssuedPayload(userId: Value, nowMs: int): Value {
    var now := Seconds(nowMs);
    Obj(map[
      "data" := Obj(map["userid" := userId]),
      "exp" := Num((now + Lifetime) as real),
      "iat" := Num(now as real)])
  }

  /** One segment: base64 of the UTF-8 text, `=` removed. */
  function Segment(codec: Codec, bytes: seq<byte>): string {
    Remove(codec.base64(bytes), '=')
  }

  datatype GenerateError = InvalidUserId

  /** `generateToken(userId)`: refused for a falsy or non-numeric user id. */
  function GenerateToken(userId: Value, nowMs: int, codec: Codec): (r: Result<string, GenerateError>)
    ensures r.Ok? <==> userId.Num? && userId.x != 0.0
  {
    if !Truthy(userId) || !userId.Num? then Err(InvalidUserId)
    else
      var headerB64 := Segment(codec, codec.utf8(codec.stringify(Header)));
      var payloadB64 := Segment(codec, codec.utf8(codec.stringify(IssuedPayload(userId, nowMs))));
      var data := headerB64 + "." + payloadB64;
      var signatureB64 := Segment(codec, codec.hmac(codec.utf8(data)));
      Ok(data + "." + signatureB64)
  }

  /** The payload says the token lives exactly seven days from the second it was issued in. */
  lemma IssuedTimes(userId: Value, nowMs: int)
    ensures var p := IssuedPayload(userId, nowMs).fields;
      p["iat"].Num? && p["exp"].Num? && IsInteger(p["iat"].x) &&
      p["exp"].x - p["iat"].x == 604800.0 &&
      p["iat"].x * 1000.0 <= nowMs as real < p["iat"].x * 1000.0 + 1000.0
  {
  }

  datatype TokenError = InvalidFormat | BadEncoding | InvalidSignature | MalformedPayload | Expired

  /** `n` padding characters. */
  function PadChars(n: nat): string {
    seq(n, _ => '=')
  }

  /** How a segment gets its padding back before it is decoded. */
  datatype Padding =
    | AppendTwo         // `segment + '=='`, as `verifyToken` writes it
    | ToMultipleOfFour  // as many `=` as bring the length to a multiple of four

  /** The segment with its padding put back: `s` followed by `=` characters only. */
  function Repad(padding: Padding, s: string): (r: string)
    ensures |s| <= |r| && r == s + PadChars(|r| - |s|)
    ensures padding.AppendTwo? ==> |r| == |s| + 2
    ensures padding.ToMultipleOfFour? ==> |r| % 4 == 0 && |r| - |s| < 4
  {
    match padding
    case AppendTwo => s + "=="
    case ToMultipleOfFour => s + PadChars((4 - |s| % 4) % 4)
  }

  /**
   * `verifyToken(token)` at `nowMs`, decoding each segment after `padding`:
   * the token must split into three parts at its dots, its signature must be
   * the HMAC of the first two parts joined by a dot, its payload must parse,
   * and its `exp` must not be before the current second.
   */
  function VerifyToken(padding: Padding, token: string, nowMs: int, codec: Codec): (r: Result<Value, TokenError>)
    ensures |Split(token, '.')| != 3 ==> r == Err(InvalidFormat)
    ensures r.Ok? ==>
      var parts := Split(token, '.');
      |parts| == 3 &&
      codec.unbase64(Repad(padding, parts[2])) == Some(codec.hmac(codec.utf8(parts[0] + "." + parts[1]))) &&
      Member(r.value, "exp").Some? && !LessThan(Member(r.value, "exp").value, Seconds(nowMs))
  {
    var parts := Split(token, '.');
    if |parts| != 3 then Err(InvalidFormat)
    else
      var data := parts[0] + "." + parts[1];
      match codec.unbase64(Repad(padding, parts[2]))
      case None => Err(BadEncoding)
      case Some(signature) =>
        if codec.hmac(codec.utf8(data)) != signature then Err(InvalidSignature)
        else
          match codec.unbase64(Repad(padding, parts[1]))
          case None => Err(BadEncoding)
          case Some(bytes) =>
            match codec.parse(codec.utf8Decode(bytes))
            case None => Err(MalformedPayload)
            case Some(payload) =>
              match Member(payload, "exp")
              case None => Err(MalformedPayload)
              case Some(exp) => if LessThan(exp, Seconds(nowMs)) then Err(Expired) else Ok(payload)
  }

  /** `payload.data.userid` of the verified token; `None` where verification or the property read throws. */
  function VerifiedUid(token: string, nowMs: int, codec: Codec): (r: Option<Value>)
    ensures r.Some? ==> VerifyToken(ToMultipleOfFour, token, nowMs, codec).Ok?
  {
    match VerifyToken(ToMultipleOfFour, token, nowMs, codec)
    case Err(_) => None
    case Ok(payload) =>
      match Member(payload, "data")
      case None => None
      case Some(d) => Member(d, "userid")
  }

  /** The base64 alphabet of section 4 of RFC 4648 has no dot. */
  ghost predicate NoDot(codec: Codec) {
    forall b :: Free(codec.base64(b), '.')
  }

  /**
   * `e` is its `=`-free text followed by at most two `=`, in groups of four
   * characters, as section 4 of RFC 4648 pads base64.
   */
  predicate PaddedText(e: string) {
    var body := Remove(e, '=');
    |e| % 4 == 0 && |body| <= |e| <= |body| + 2 && e == body + PadChars(|e| - |body|)
  }

  /** The encoder pads as section 4 of RFC 4648 says. */
  ghost predicate PaddedBase64(codec: Codec) {
    forall b :: PaddedText(codec.base64(b))
  }

  /** Decoding gives back the bytes that were encoded. */
  ghost predicate Decodes(codec: Codec) {
    forall b :: codec.unbase64(codec.base64(b)) == Some(b)
  }

  /** Base64 of `n` bytes without its padding has 4n/3 characters, rounded up. */
  ghost predicate UnpaddedLength(codec: Codec) {
    forall b :: |Segment(codec, b)| == (4 * |b| + 2) / 3
  }

  /** HMAC-SHA256 gives 32 bytes. */
  ghost predicate MacLength(codec: Codec) {
    forall d :: |codec.hmac(d)| == 32
  }

  /**
   * The decoder refuses a text whose length leaves remainder one when divided
   * by four, as `atob` (the forgiving-base64 decode of the HTML standard) does.
   */
  ghost predicate RefusesRemainderOne(codec: Codec) {
    forall s :: |s| % 4 == 1 ==> codec.unbase64(s).None?
  }

  /** Padding an unpadded segment up to a multiple of four gives back the padded text. */
  lemma RepadRestores(e: string)
    requires PaddedText(e)
    ensures Repad(ToMultipleOfFour, Remove(e, '=')) == e
  {
    var body := Remove(e, '=');
    var k := |e| - |body|;
    assert (4 - |body| % 4) % 4 == k by {
      assert (|body| + k) % 4 == 0;
      if k == 0 {} else if k == 1 {} else {}
    }
  }

  /** The JSON of `v`, encoded as UTF-8 and decoded again, parses back to `v`. */
  predicate JsonRoundTrip(codec: Codec, v: Value) {
    codec.parse(codec.utf8Decode(codec.utf8(codec.stringify(v)))) == Some(v)
  }

  /** Removing one character keeps a text free of another. */
  lemma RemoveKeepsFree(s: string, c: char, d: char)
    requires Free(s, d)
    ensures Free(Remove(s, c), d)
  {
    var r := Remove(s, c);
    forall i | 0 <= i < |r| ensures r[i] != d {
      assert r[i] in r;
    }
  }

  /** A segment has no dot when the base64 alphabet has none. */
  lemma SegmentNoDot(codec: Codec, bytes: seq<byte>)
    requires NoDot(codec)
    ensures Free(Segment(codec, bytes), '.')
  {
    RemoveKeepsFree(codec.base64(bytes), '=', '.');
  }

  /** Three dot-free segments joined by dots split back into those segments. */
  lemma SplitThree(a: string, b: string, c: string)
    requires Free(a, '.') && Free(b, '.') && Free(c, '.')
    ensures Split(a + "." + b + "." + c, '.') == [a, b, c]
  {
    assert a + "." + b + "." + c == a + ['.'] + (b + ['.'] + c);
    SplitAt(a, '.', b + ['.'] + c);
    SplitAt(b, '.', c);
    SplitFree(c, '.');
  }

  /**
   * An issued token is three `=`-free segments joined by dots, and it splits
   * into exactly those three parts.
   */
  lemma TokenSegments(userId: Value, nowMs: int, codec: Codec)
    requires NoDot(codec) && GenerateToken(userId, nowMs, codec).Ok?
    ensures var t := GenerateToken(userId, nowMs, codec).value;
      var parts := Split(t, '.');
      |parts| == 3 && t == parts[0] + "." + parts[1] + "." + parts[2] &&
      forall i :: 0 <= i < 3 ==> Free(parts[i], '=')
  {
    var h := Segment(codec, codec.utf8(codec.stringify(Header)));
    var p := Segment(codec, codec.utf8(codec.stringify(IssuedPayload(userId, nowMs))));
    var s := Segment(codec, codec.hmac(codec.utf8(h + "." + p)));
    SegmentNoDot(codec, codec.utf8(codec.stringify(Header)));
    SegmentNoDot(codec, codec.utf8(codec.stringify(IssuedPayload(userId, nowMs))));
    SegmentNoDot(codec, codec.hmac(codec.utf8(h + "." + p)));
    SplitThree(h, p, s);
  }

  /**
   * An issued token verifies, and yields the issued payload, up to and
   * including the second its `exp` names; from the next second on it is
   * refused as expired.
   */
  lemma IssuedTokenVerifies(userId: Value, issuedMs: int, nowMs: int, codec: Codec)
    requires NoDot(codec) && PaddedBase64(codec) && Decodes(codec)
    requires JsonRoundTrip(codec, IssuedPayload(userId, issuedMs))
    requires GenerateToken(userId, issuedMs, codec).Ok?
    ensures var r := VerifyToken(ToMultipleOfFour, GenerateToken(userId, issuedMs, codec).value, nowMs, codec);
      (Seconds(nowMs) <= Seconds(issuedMs) + Lifetime ==> r == Ok(IssuedPayload(userId, issuedMs))) &&
      (Seconds(nowMs) > Seconds(issuedMs) + Lifetime ==> r == Err(Expired))
  {
    var t := GenerateToken(userId, issuedMs, codec).value;
    var payload := IssuedPayload(userId, issuedMs);
    var hb, pb := codec.utf8(codec.stringify(Header)), codec.utf8(codec.stringify(payload));
    var h, p := Segment(codec, hb), Segment(codec, pb);
    var sb := codec.hmac(codec.utf8(h + "." + p));
    IssuedParts(userId, issuedMs, codec);
    RepadRestores(codec.base64(sb));
    RepadRestores(codec.base64(pb));
    assert Member(payload, "exp") == Some(Num((Seconds(issuedMs) + Lifetime) as real));
    DecodedToken(ToMultipleOfFour, t, nowMs, codec, pb, payload);
  }

  /**
   * A three-part token whose signature decodes to the HMAC of its first two
   * parts and whose payload decodes and parses is refused exactly when its
   * `exp` is before the current second.
   */
  lemma DecodedToken(padding: Padding, token: string, nowMs: int, codec: Codec, bytes: seq<byte>, payload: Value)
    requires var parts := Split(token, '.');
      |parts| == 3 &&
      codec.unbase64(Repad(padding, parts[2])) == Some(codec.hmac(codec.utf8(parts[0] + "." + parts[1]))) &&
      codec.unbase64(Repad(padding, parts[1])) == Some(bytes) &&
      codec.parse(codec.utf8Decode(bytes)) == Some(payload) && Member(payload, "exp").Some?
    ensures VerifyToken(padding, token, nowMs, codec) ==
      if LessThan(Member(payload, "exp").value, Seconds(nowMs)) then Err(Expired) else Ok(payload)
  {
  }

  /** A freshly issued token, verified before it expires, yields the user id it was issued for. */
  lemma IssuedTokenUid(userId: Value, issuedMs: int, nowMs: int, codec: Codec)
    requires NoDot(codec) && PaddedBase64(codec) && Decodes(codec)
    requires JsonRoundTrip(codec, IssuedPayload(userId, issuedMs))
    requires GenerateToken(userId, issuedMs, codec).Ok?
    requires Seconds(nowMs) <= Seconds(issuedMs) + Lifetime
    ensures VerifiedUid(GenerateToken(userId, issuedMs, codec).value, nowMs, codec) == Some(userId)
  {
    IssuedTokenVerifies(userId, issuedMs, nowMs, codec);
  }

  /**
   * As written, with `==` appended to the signature segment, no issued token
   * verifies: the 32-byte HMAC has 43 characters of base64 once its one `=`
   * is removed, and 45 characters after `==` leave remainder one.
   */
  lemma IssuedTokenRefused(userId: Value, issuedMs: int, nowMs: int, codec: Codec)
    requires NoDot(codec) && UnpaddedLength(codec) && MacLength(codec) && RefusesRemainderOne(codec)
    requires GenerateToken(userId, issuedMs, codec).Ok?
    ensures VerifyToken(AppendTwo, GenerateToken(userId, issuedMs, codec).value, nowMs, codec) == Err(BadEncoding)
  {
    var h := Segment(codec, codec.utf8(codec.stringify(Header)));
    var p := Segment(codec, codec.utf8(codec.stringify(IssuedPayload(userId, issuedMs))));
    var t := GenerateToken(userId, issuedMs, codec).value;
    IssuedParts(userId, issuedMs, codec);
    SignatureLength(codec, codec.utf8(h + "." + p));
    SignatureOf43Refused(t, nowMs, codec);
  }

  /** The signature segment has 43 characters. */
  lemma SignatureLength(codec: Codec, data: seq<byte>)
    requires UnpaddedLength(codec) && MacLength(codec)
    ensures |Segment(codec, codec.hmac(data))| == 43
  {
    assert |codec.hmac(data)| == 32;
  }

  /** The three parts of an issued token. */
  lemma IssuedParts(userId: Value, issuedMs: int, codec: Codec)
    requires NoDot(codec) && GenerateToken(userId, issuedMs, codec).Ok?
    ensures var h := Segment(codec, codec.utf8(codec.stringify(Header)));
      var p := Segment(codec, codec.utf8(codec.stringify(IssuedPayload(userId, issuedMs))));
      Split(GenerateToken(userId, issuedMs, codec).value, '.') == [h, p, Segment(codec, codec.hmac(codec.utf8(h + "." + p)))]
  {
    var hb := codec.utf8(codec.stringify(Header));
    var pb := codec.utf8(codec.stringify(IssuedPayload(userId, issuedMs)));
    var h, p := Segment(codec, hb), Segment(codec, pb);
    var sb := codec.hmac(codec.utf8(h + "." + p));
    SegmentNoDot(codec, hb);
    SegmentNoDot(codec, pb);
    SegmentNoDot(codec, sb);
    SplitThree(h, p, Segment(codec, sb));
  }

  /** A three-part token whose signature segment does not decode is refused as badly encoded. */
  lemma SignatureRefused(padding: Padding, token: string, nowMs: int, codec: Codec)
    requires |Split(token, '.')| == 3 && codec.unbase64(Repad(padding, Split(token, '.')[2])).None?
    ensures VerifyToken(padding, token, nowMs, codec) == Err(BadEncoding)
  {
  }

  /** As written, a three-part token whose signature part has 43 characters is refused as badly encoded. */
  lemma SignatureOf43Refused(token: string, nowMs: int, codec: Codec)
    requires RefusesRemainderOne(codec)
    requires |Split(token, '.')| == 3 && |Split(token, '.')[2]| == 43
    ensures VerifyToken(AppendTwo, token, nowMs, codec) == Err(BadEncoding)
  {
    assert |Repad(AppendTwo, Split(token, '.')[2])| % 4 == 1;
    SignatureRefused(AppendTwo, token, nowMs, codec);
  }

  /** A token without exactly two dots is refused as malformed, whatever else it holds. */
  lemma WrongDotCountRejected(padding: Padding, token: string, nowMs: int, codec: Codec)
    requires Count(token, '.') != 2
    ensures VerifyToken(padding, token, nowMs, codec) == Err(InvalidFormat)
    ensures VerifiedUid(token, nowMs, codec).None?
  {
  }

  /** The body the middleware answers with on refusal. */
  datatype ErrorBody = ErrorBody(code: int, msg: string)

  const MissingToken := ErrorBody(401, "token不能为空")
  const IllegalRequest := ErrorBody(401, "非法请求")

  /** The parts of the request context the middleware writes. */
  class AuthContext {
    var status: int
    var body: Option<ErrorBody>
    var jwtUid: Option<Value>

    constructor(status0: int)
      ensures status == status0 && body.None? && jwtUid.None?
    {
      status := status0;
      body := None;
      jwtUid := None;
    }

    /**
     * `authMiddleware(ctx, next)` for the `Token` header `token`. The result
     * says whether `next` ran; `downstreamThrows` is whether it threw.
     */
    method AuthMiddleware(token: Option<string>, nowMs: int, codec: Codec, downstreamThrows: bool)
      returns (ranNext: bool)
      modifies this
      ensures token.None? || token.value == "" ==>
        !ranNext && status == 401 && body == Some(MissingToken) && jwtUid == old(jwtUid)
      ensures token.Some? && token.value != "" && VerifiedUid(token.value, nowMs, codec).None? ==>
        !ranNext && status == 401 && body == Some(IllegalRequest) && jwtUid == old(jwtUid)
      ensures token.Some? && token.value != "" && VerifiedUid(token.value, nowMs, codec).Some? ==>
        ranNext && jwtUid == VerifiedUid(token.value, nowMs, codec) &&
        (downstreamThrows ==> status == 401 && body == Some(IllegalRequest)) &&
        (!downstreamThrows ==> status == old(status) && body == old(body))
    {
      if token.None? || token.value == "" {
        status := 401;
        body := Some(MissingToken);
        return false;
      }
      var uid := VerifiedUid(token.value, nowMs, codec);
      if uid.None? {
        status := 401;
        body := Some(IllegalRequest);
        return false;
      }
      jwtUid := uid;
      ranNext := true;
      if downstreamThrows {
        status := 401;
        body := Some(IllegalRequest);
      }
    }
  }
}
