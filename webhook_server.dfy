/**
 * The standalone webhook server in `index.js`: the HMAC signature check,
 * body parsing, event-type dispatch and the status each request gets.
 * HMAC-SHA256, UTF-8 decoding and `JSON.parse` are given functions.
 */
module WebhookServer {
  import opened Wrappers
  import opened Text
  import opened Js

  type Byte = b: int | 0 <= b < 256

  /** An HMAC-SHA256 digest: 32 bytes. */
  type Digest = s: seq<Byte> | |s| == 32 witness seq(32, _ => 0)

  const DefaultMaxBodySize: int := 1048576
  const SignaturePrefix := "sha256="

  /** The functions the server calls but this model does not define. */
  datatype Oracles = Oracles(
    /** `createHmac('sha256', secret).update(body).digest()`. */
    hmac: (string, string) -> Digest,
    /** `Buffer.toString()`: UTF-8 decoding. */
    decode: seq<Byte> -> string,
    /** `JSON.parse`, or None when it throws. */
    jsonParse: string -> Option<Value>)

  /**
   * Process configuration: `WEBHOOK_SECRET` ("" when unset) and
   * `parseInt(MAX_BODY_SIZE, 10)`, None when that is NaN (then no body is
   * ever too large, since every comparison with NaN is false).
   */
  datatype Config = Config(secret: string, maxBodySize: Option<int>)

  // ---- Hex ------------------------------------------------------------------

  predicate IsHexDigit(c: char) {
    '0' <= c <= '9' || 'a' <= c <= 'f' || 'A' <= c <= 'F'
  }

  function HexValue(c: char): (r: nat)
    requires IsHexDigit(c)
    ensures r < 16
  {
    if '0' <= c <= '9' then c as int - '0' as int
    else if 'a' <= c <= 'f' then c as int - 'a' as int + 10
    else c as int - 'A' as int + 10
  }

  function HexChar(n: nat): (c: char)
    requires n < 16
    ensures IsHexDigit(c) && HexValue(c) == n
  {
    if n < 10 then ('0' as int + n) as char else ('a' as int + n - 10) as char
  }

  /** `digest('hex')`: two lower-case digits per byte. */
  function HexEncode(bytes: seq<Byte>): (r: string)
    ensures |r| == 2 * |bytes|
  {
    if bytes == [] then []
    else [HexChar(bytes[0] / 16), HexChar(bytes[0] % 16)] + HexEncode(bytes[1..])
  }

  /**
   * `Buffer.from(s, 'hex')`: one byte per pair of hex digits, up to the
   * first pair that is not one; an odd last digit is dropped.  It never
   * throws.
   */
  function HexDecode(s: string): (r: seq<Byte>)
    ensures |r| <= |s| / 2
  {
    if |s| >= 2 && IsHexDigit(s[0]) && IsHexDigit(s[1]) then
      [HexValue(s[0]) * 16 + HexValue(s[1])] + HexDecode(s[2..])
    else []
  }

  lemma {:induction false} HexRoundTrip(bytes: seq<Byte>)
    ensures HexDecode(HexEncode(bytes)) == bytes
  {
    if bytes != [] {
      var s := HexEncode(bytes);
      assert s[2..] == HexEncode(bytes[1..]);
      HexRoundTrip(bytes[1..]);
      assert bytes == [bytes[0]] + bytes[1..];
    }
  }

  /** `timingSafeEqual(a, b)`: None where it throws because the lengths differ. */
  function TimingSafeEqual(a: seq<Byte>, b: seq<Byte>): (r: Option<bool>)
    ensures r.Some? <==> |a| == |b|
    ensures r == Some(true) <==> a == b
  {
    if |a| != |b| then None else Some(a == b)
  }

  // ---- verifySignature --------------------------------------------------------

  /** The signature with one leading `sha256=` removed. */
  function StripPrefix(signature: string): (r: string)
    ensures StartsWith(signature, SignaturePrefix) ==> signature == SignaturePrefix + r
    ensures !StartsWith(signature, SignaturePrefix) ==> r == signature
  {
    if StartsWith(signature, SignaturePrefix) then signature[|SignaturePrefix|..] else signature
  }

  /** `verifySignature(body, signature, secret)`; an absent signature header is "". */
  function VerifySignature(o: Oracles, body: string, signature: string, secret: string): (r: bool)
    ensures secret == "" || signature == "" ==> !r
    ensures r ==> |HexDecode(StripPrefix(signature))| == 32
  {
    if secret == "" || signature == "" then false
    else
      HexRoundTrip(o.hmac(secret, body));
      var expected := HexDecode(HexEncode(o.hmac(secret, body)));
      match TimingSafeEqual(expected, HexDecode(StripPrefix(signature)))
      case None => false
      case Some(equal) => equal
  }

  /** The hex digest of the body, bare or prefixed, verifies. */
  lemma AcceptsDigest(o: Oracles, body: string, secret: string)
    requires secret != ""
    ensures VerifySignature(o, body, HexEncode(o.hmac(secret, body)), secret)
    ensures VerifySignature(o, body, SignaturePrefix + HexEncode(o.hmac(secret, body)), secret)
  {
    var d := o.hmac(secret, body);
    HexRoundTrip(d);
    var bare := HexEncode(d);
    assert !StartsWith(bare, SignaturePrefix) by {
      assert bare[0] == HexChar(d[0] / 16);
    }
    assert StripPrefix(SignaturePrefix + bare) == bare by {
      assert (SignaturePrefix + bare)[..|SignaturePrefix|] == SignaturePrefix;
    }
  }

  /** A signature verifies exactly when it decodes to the body's digest. */
  lemma VerifiesIffDigest(o: Oracles, body: string, signature: string, secret: string)
    ensures VerifySignature(o, body, signature, secret)
            <==> secret != "" && signature != "" && HexDecode(StripPrefix(signature)) == o.hmac(secret, body)
  {
    HexRoundTrip(o.hmac(secret, body));
  }

  /** Prefixing a bare signature with `sha256=` does not change the verdict. */
  lemma PrefixIrrelevant(o: Oracles, body: string, signature: string, secret: string)
    requires !StartsWith(signature, SignaturePrefix)
    ensures VerifySignature(o, body, SignaturePrefix + signature, secret) == VerifySignature(o, body, signature, secret)
  {
    var s := SignaturePrefix + signature;
    assert s[..|SignaturePrefix|] == SignaturePrefix;
    assert s[|SignaturePrefix|..] == signature;
    if signature == "" {
      assert HexDecode("") == [];
    }
  }

  /** Fewer than 64 hex digits after the prefix (bad hex stops decoding early) never verify. */
  lemma ShortSignatureRejected(o: Oracles, body: string, signature: string, secret: string)
    requires |StripPrefix(signature)| < 64 || (StripPrefix(signature) != "" && !IsHexDigit(StripPrefix(signature)[0]))
    ensures !VerifySignature(o, body, signature, secret)
  {
  }

  // ---- parseBody --------------------------------------------------------------

  /** `Buffer.concat(chunks)`. */
  function Concat(chunks: seq<seq<Byte>>): seq<Byte> {
    if chunks == [] then [] else chunks[0] + Concat(chunks[1..])
  }

  lemma {:induction false} ConcatAppend(p: seq<seq<Byte>>, q: seq<seq<Byte>>)
    ensures Concat(p + q) == Concat(p) + Concat(q)
  {
    if p != [] {
      assert (p + q)[0] == p[0] && (p + q)[1..] == p[1..] + q;
      ConcatAppend(p[1..], q);
    } else {
      assert p + q == q;
    }
  }

  /** The result of `parseBody`: `error` is present only when the JSON is invalid. */
  datatype Parsed = Parsed(data: Value, raw: string, error: Option<string>)

  function ParseBody(o: Oracles, chunks: seq<seq<Byte>>): (r: Parsed)
    ensures r.raw == o.decode(Concat(chunks))
    ensures r.error.Some? <==> o.jsonParse(r.raw).None?
    ensures r.error.Some? ==> r.error.value == "Invalid JSON" && r.data == Null
    ensures r.error.None? ==> Some(r.data) == o.jsonParse(r.raw)
  {
    var body := o.decode(Concat(chunks));
    match o.jsonParse(body)
    case Some(data) => Parsed(data, body, None)
    case None => Parsed(Null, body, Some("Invalid JSON"))
  }

  lemma SingleChunk(c: seq<Byte>)
    ensures Concat([c]) == c
  {
    assert [c][1..] == [];
  }

  /** Splitting one chunk in two anywhere does not change what is parsed. */
  lemma SplitChunk(o: Oracles, chunks: seq<seq<Byte>>, i: nat, m: nat)
    requires i < |chunks| && m <= |chunks[i]|
    ensures ParseBody(o, chunks[..i] + [chunks[i][..m], chunks[i][m..]] + chunks[i + 1..]) == ParseBody(o, chunks)
  {
    var before, after, x := chunks[..i], chunks[i + 1..], chunks[i];
    var split := before + [x[..m], x[m..]] + after;
    ConcatAppend(before + [x[..m], x[m..]], after);
    ConcatAppend(before, [x[..m], x[m..]]);
    ConcatAppend(before + [x], after);
    ConcatAppend(before, [x]);
    ConcatAppend([x[..m]], [x[m..]]);
    assert [x[..m], x[m..]] == [x[..m]] + [x[m..]];
    SingleChunk(x[..m]);
    SingleChunk(x[m..]);
    SingleChunk(x);
    assert x[..m] + x[m..] == x;
    assert chunks == before + [chunks[i]] + after;
  }

  // ---- handleWebhookEvent ---------------------------------------------------------

  const HandledTypes: set<string> := {
    "appointment.created", "appointment.updated", "appointment.cancelled",
    "customer.created", "customer.updated",
    "payment.completed", "payment.failed"
  }

  /** `{ status, type }` as the handlers return it. */
  datatype Handled = Handled(status: string, eventType: Value)

  /**
   * `handleWebhookEvent(event)`: destructuring `{ type, data }` throws on
   * `null` (a body of `null` is valid JSON), which the server answers with
   * 500; otherwise the switch compares `type` with `===`.
   */
  function HandleWebhookEvent(event: Value): (r: Result<Handled, string>)
    ensures r.Err? <==> IsNullish(event)
    ensures r.Ok? ==> r.value.eventType == Get(event, "type")
    ensures r.Ok? ==> (r.value.status == "processed" <==> Get(event, "type").Str? && Get(event, "type").s in HandledTypes)
    ensures r.Ok? ==> (r.value.status == "ignored" <==> !(Get(event, "type").Str? && Get(event, "type").s in HandledTypes))
  {
    if IsNullish(event) then Err("Cannot destructure event")
    else
      var eventType := Get(event, "type");
      match eventType
      case Str("appointment.created") => Ok(Handled("processed", eventType))
      case Str("appointment.updated") => Ok(Handled("processed", eventType))
      case Str("appointment.cancelled") => Ok(Handled("processed", eventType))
      case Str("customer.created") => Ok(Handled("processed", eventType))
      case Str("customer.updated") => Ok(Handled("processed", eventType))
      case Str("payment.completed") => Ok(Handled("processed", eventType))
      case Str("payment.failed") => Ok(Handled("processed", eventType))
      case _ => Ok(Handled("ignored", eventType))
  }

  // ---- The request handler ------------------------------------------------------

  /** A request: HTTP method, URL, the body's chunks as they arrive, and lower-cased header values. */
  datatype Request = Request(verb: string, url: string, chunks: seq<seq<Byte>>, headers: map<string, string>)

  function Header(req: Request, name: string): string {
    if name in req.headers then req.headers[name] else ""
  }

  /** `headers['x-vagaro-signature'] || headers['x-webhook-signature']`. */
  function SignatureOf(req: Request): string {
    if Header(req, "x-vagaro-signature") != "" then Header(req, "x-vagaro-signature") else Header(req, "x-webhook-signature")
  }

  function TotalSize(chunks: seq<seq<Byte>>): (r: nat) {
    if chunks == [] then 0 else |chunks[0]| + TotalSize(chunks[1..])
  }

  lemma {:induction false} TotalSizeAppend(p: seq<seq<Byte>>, c: seq<Byte>)
    ensures TotalSize(p + [c]) == TotalSize(p) + |c|
  {
    if p != [] {
      assert (p + [c])[1..] == p[1..] + [c];
      TotalSizeAppend(p[1..], c);
    }
  }

  lemma {:induction false} TotalSizePrefix(chunks: seq<seq<Byte>>, i: nat)
    requires i <= |chunks|
    ensures TotalSize(chunks[..i]) <= TotalSize(chunks)
    decreases |chunks| - i
  {
    if i < |chunks| {
      TotalSizeAppend(chunks[..i], chunks[i]);
      assert chunks[..i + 1] == chunks[..i] + [chunks[i]];
      TotalSizePrefix(chunks, i + 1);
    } else {
      assert chunks[..i] == chunks;
    }
  }

  /** `bodySize > MAX_BODY_SIZE`. */
  predicate Exceeds(cfg: Config, size: int) {
    cfg.maxBodySize.Some? && size > cfg.maxBodySize.value
  }

  function ResultBody(h: Handled): Value {
    Obj(map["success" := Bool(true), "result" := Obj(map["status" := Str(h.status), "type" := h.eventType])])
  }

  /** The response a request gets once its whole body is in and not too large. */
  function Finish(cfg: Config, o: Oracles, req: Request): (res: Reply) {
    var parsed := ParseBody(o, req.chunks);
    if parsed.error.Some? then Reply(400, ErrorBody(parsed.error.value))
    else if cfg.secret != "" && !VerifySignature(o, parsed.raw, SignatureOf(req), cfg.secret) then
      Reply(401, ErrorBody("Invalid signature"))
    else
      match HandleWebhookEvent(parsed.data)
      case Ok(h) => Reply(200, ResultBody(h))
      case Err(_) => Reply(500, ErrorBody("Processing failed"))
  }

  /**
   * The response the server sends.  The limit is checked on each chunk as it
   * arrives, and running totals only grow, so a body is refused exactly when
   * at least one chunk arrived and the whole body exceeds the limit (an
   * empty body is never checked, even against a negative limit).
   */
  function Respond(cfg: Config, o: Oracles, req: Request): (res: Reply) {
    if req.verb != "POST" || req.url != "/webhook" then Reply(404, ErrorBody("Not found"))
    else if req.chunks != [] && Exceeds(cfg, TotalSize(req.chunks)) then Reply(413, ErrorBody("Request body too large"))
    else Finish(cfg, o, req)
  }

  /**
   * The server's request callback: the size check runs on each `data`
   * event, and the connection is destroyed at the first chunk that takes
   * the running total over the limit (that chunk is not kept).
   */
  method Serve(cfg: Config, o: Oracles, req: Request) returns (res: Reply)
    ensures res == Respond(cfg, o, req)
  {
    if req.verb != "POST" || req.url != "/webhook" {
      return Reply(404, ErrorBody("Not found"));
    }
    var chunks: seq<seq<Byte>> := [];
    var bodySize := 0;
    var i := 0;
    while i < |req.chunks|
      invariant i <= |req.chunks|
      invariant chunks == req.chunks[..i]
      invariant bodySize == TotalSize(chunks)
      invariant i > 0 ==> !Exceeds(cfg, bodySize)
    {
      TotalSizeAppend(chunks, req.chunks[i]);
      assert req.chunks[..i + 1] == chunks + [req.chunks[i]];
      bodySize := bodySize + |req.chunks[i]|;
      if Exceeds(cfg, bodySize) {
        TotalSizePrefix(req.chunks, i + 1);
        return Reply(413, ErrorBody("Request body too large"));
      }
      chunks := chunks + [req.chunks[i]];
      i := i + 1;
    }
    assert chunks == req.chunks;
    res := Finish(cfg, o, req.(chunks := chunks));
  }

  /** 404 exactly off the one route. */
  lemma NotFoundOffRoute(cfg: Config, o: Oracles, req: Request)
    ensures Respond(cfg, o, req).status == 404 <==> req.verb != "POST" || req.url != "/webhook"
  {
  }

  /** 413 exactly when a request on the route carries more than the limit. */
  lemma TooLargeIff(cfg: Config, o: Oracles, req: Request)
    requires req.verb == "POST" && req.url == "/webhook"
    ensures Respond(cfg, o, req).status == 413 <==> req.chunks != [] && Exceeds(cfg, TotalSize(req.chunks))
  {
  }

  /** Without a configured secret no request is refused for its signature. */
  lemma UnsignedWithoutSecret(cfg: Config, o: Oracles, req: Request)
    requires cfg.secret == ""
    ensures Respond(cfg, o, req).status != 401
  {
  }

  /** With a secret, a request on the route signed with its body's digest and carrying a handled type succeeds. */
  lemma SignedEventProcessed(cfg: Config, o: Oracles, req: Request)
    requires req.verb == "POST" && req.url == "/webhook" && (req.chunks == [] || !Exceeds(cfg, TotalSize(req.chunks)))
    requires cfg.secret != ""
    requires var raw := o.decode(Concat(req.chunks));
             o.jsonParse(raw).Some? && !IsNullish(o.jsonParse(raw).value)
             && SignatureOf(req) == HexEncode(o.hmac(cfg.secret, raw))
    ensures Respond(cfg, o, req).status == 200
  {
    AcceptsDigest(o, o.decode(Concat(req.chunks)), cfg.secret);
  }
}
