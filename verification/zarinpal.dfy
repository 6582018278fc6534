/** The Zarinpal REST v4 client (`backend/app/services/zarinpal_client.py`): it builds the
    request and verify payloads, reads the gateway's JSON replies and turns them into
    results or `ZarinpalError`s. The HTTP transport is a parameter. */
module Zarinpal {
  import opened Wrappers
  import opened Json
  import Text

  const RequestPath := "/pg/v4/payment/request.json"
  const VerifyPath := "/pg/v4/payment/verify.json"
  const StartPayPath := "/pg/StartPay/"
  const Currency := "IRT"
  /** The gateway takes rials; the store prices in tomans. */
  const RialsPerToman := 10

  const ConnectFailedPrefix := "\U{062E}\U{0637}\U{0627} \U{062F}\U{0631} \U{0627}\U{062A}\U{0635}\U{0627}\U{0644} \U{0628}\U{0647} \U{0632}\U{0631}\U{06CC}\U{0646}\U{200C}\U{067E}\U{0627}\U{0644}: "
  const NoAuthorityText := "\U{06A9}\U{062F} \U{062A}\U{0631}\U{0627}\U{06A9}\U{0646}\U{0634} (Authority) \U{0627}\U{0632} \U{0632}\U{0631}\U{06CC}\U{0646}\U{200C}\U{067E}\U{0627}\U{0644} \U{062F}\U{0631}\U{06CC}\U{0627}\U{0641}\U{062A} \U{0646}\U{0634}\U{062F}."
  const RequestCreatedText := "\U{062F}\U{0631}\U{062E}\U{0648}\U{0627}\U{0633}\U{062A} \U{067E}\U{0631}\U{062F}\U{0627}\U{062E}\U{062A} \U{0628}\U{0627} \U{0645}\U{0648}\U{0641}\U{0642}\U{06CC}\U{062A} \U{0627}\U{06CC}\U{062C}\U{0627}\U{062F} \U{0634}\U{062F}."
  const RequestFailedText := "\U{062E}\U{0637}\U{0627} \U{062F}\U{0631} \U{0627}\U{06CC}\U{062C}\U{0627}\U{062F} \U{062A}\U{0631}\U{0627}\U{06A9}\U{0646}\U{0634}"
  const VerifyFailedPrefix := "\U{062E}\U{0637}\U{0627} \U{062F}\U{0631} \U{062A}\U{0627}\U{06CC}\U{06CC}\U{062F} \U{062A}\U{0631}\U{0627}\U{06A9}\U{0646}\U{0634}: "
  const InvalidReplyText := "\U{067E}\U{0627}\U{0633}\U{062E} \U{0646}\U{0627}\U{0645}\U{0639}\U{062A}\U{0628}\U{0631} \U{0627}\U{0632} \U{0632}\U{0631}\U{06CC}\U{0646}\U{200C}\U{067E}\U{0627}\U{0644}"
  const UnreadableText := "\U{067E}\U{0627}\U{0633}\U{062E} \U{063A}\U{06CC}\U{0631}\U{0642}\U{0627}\U{0628}\U{0644}\U{200C}\U{062E}\U{0648}\U{0627}\U{0646}\U{062F}\U{0646} \U{0627}\U{0632} \U{0632}\U{0631}\U{06CC}\U{0646}\U{200C}\U{067E}\U{0627}\U{0644}"

  /** `ZarinpalClient(merchant_id, sandbox, callback_url)`. */
  datatype Client = Client(merchantId: string, sandbox: bool, callbackUrl: string)

  function BaseApiUrl(c: Client): string {
    "https://" + (if c.sandbox then "sandbox" else "api") + ".zarinpal.com"
  }

  function GatewayBaseUrl(c: Client): string {
    "https://" + (if c.sandbox then "sandbox" else "www") + ".zarinpal.com"
  }

  /** What a POST gives back: a transport failure (`httpx.RequestError`, with its text), or
      a response with its status and its body parsed as JSON (`None` when it is not JSON). */
  datatype Response = TransportError(detail: string) | Reply(status: int, body: Option<Json>)

  /** The world the client talks to: the POST of a JSON body to a base URL and path, and
      Python's `str` for values (fractional numbers, lists, dicts) outside `PyStr`'s rules. */
  datatype Env = Env(post: (string, string, Json) -> Response, repr: Json -> string)

  /** Where a `ZarinpalError` is raised. */
  datatype ErrorKind = ConnectFailed | BadHttpStatus | Unreadable | NoAuthority | Rejected

  /** A `ZarinpalError`: `str(exc)` is `message`; `code` is its `code` attribute (`JNull` for None). */
  datatype ZarinpalError = ZarinpalError(kind: ErrorKind, message: string, code: Json)

  /** How a client call ends: a result, a `ZarinpalError`, or any other exception (a reply
      that is not a JSON object, or a field pydantic cannot coerce). */
  datatype Outcome<T> = Returned(value: T) | Raised(error: ZarinpalError) | Crashed

  /** Pydantic's coercion into a `str` field: text as is, numbers and booleans as `str` writes them. */
  function PydanticStr(j: Json, repr: Json -> string): (r: Option<string>)
    ensures j.JStr? ==> r == Some(j.s)
    ensures (j.JNull? || j.JArr? || j.JObj?) ==> r.None?
  {
    if j.JStr? || j.JNum? || j.JBool? then Some(PyStr(j, repr)) else None
  }

  /** Pydantic's coercion into an `Optional[str]` field; the outer `None` is a validation error. */
  function PydanticOptStr(j: Json, repr: Json -> string): (r: Option<Option<string>>)
    ensures j.JNull? ==> r == Some(None)
    ensures j.JStr? ==> r == Some(Some(j.s))
  {
    if j.JNull? then Some(None)
    else match PydanticStr(j, repr)
      case Some(s) => Some(Some(s))
      case None => None
  }

  /** Pydantic's coercion into an `Optional[int]` field (`int(v)` on anything but None). */
  function PydanticOptInt(j: Json): (r: Option<Option<int>>)
    ensures j.JNull? ==> r == Some(None)
    ensures j.JNum? && IsWhole(j.n) ==> r == Some(Some(j.n.Floor))
  {
    if j.JNull? then Some(None)
    else match PyInt(j)
      case Some(n) => Some(Some(n))
      case None => None
  }

  /** Python truthiness of the optional `mobile` and `email` arguments. */
  function Metadata(mobile: Option<string>, email: Option<string>): (m: map<string, Json>)
    ensures m.Keys <= {"mobile", "email"}
    ensures "mobile" in m <==> Text.Given(mobile)
    ensures "email" in m <==> Text.Given(email)
    ensures "mobile" in m ==> m["mobile"] == JStr(mobile.value)
    ensures "email" in m ==> m["email"] == JStr(email.value)
  {
    var withMobile: map<string, Json> := if Text.Given(mobile) then map["mobile" := JStr(mobile.value)] else map[];
    if Text.Given(email) then withMobile["email" := JStr(email.value)] else withMobile
  }

  /** The body of `payment_request`. */
  function RequestPayload(c: Client, amountToman: int, description: string, mobile: Option<string>, email: Option<string>): (p: map<string, Json>)
    ensures p.Keys == {"merchant_id", "amount", "description", "callback_url", "currency"}
      + (if Text.Given(mobile) || Text.Given(email) then {"metadata"} else {})
    // The amount is sent in rials.
    ensures p["amount"] == JNum((RialsPerToman * amountToman) as real)
    ensures p["merchant_id"] == JStr(c.merchantId) && p["callback_url"] == JStr(c.callbackUrl)
    ensures p["currency"] == JStr(Currency) && p["description"] == JStr(description)
    // A metadata block is sent exactly when there is a mobile number or an e-mail to put in it.
    ensures "metadata" in p <==> Text.Given(mobile) || Text.Given(email)
    ensures "metadata" in p ==> p["metadata"] == JObj(Metadata(mobile, email))
  {
    var base := map[
      "merchant_id" := JStr(c.merchantId),
      "amount" := JNum((RialsPerToman * amountToman) as real),
      "description" := JStr(description),
      "callback_url" := JStr(c.callbackUrl),
      "currency" := JStr(Currency)];
    var metadata := Metadata(mobile, email);
    if metadata != map[] then base["metadata" := JObj(metadata)]
    else base
  }

  /** The body of `payment_verify`. */
  function VerifyPayload(c: Client, authority: string, amountToman: int): (p: map<string, Json>)
    ensures p.Keys == {"merchant_id", "amount", "authority"}
    ensures p["amount"] == JNum((RialsPerToman * amountToman) as real)
    ensures p["authority"] == JStr(authority) && p["merchant_id"] == JStr(c.merchantId)
  {
    map["merchant_id" := JStr(c.merchantId), "amount" := JNum((RialsPerToman * amountToman) as real),
        "authority" := JStr(authority)]
  }

  function HttpStatusText(status: int): string {
    InvalidReplyText + " (HTTP " + Text.IntToString(status) + ")"
  }

  /** `_parse_response`. */
  function ParseResponse(status: int, body: Option<Json>): (r: Outcome<Json>)
    // An HTTP error status is reported before the body is looked at.
    ensures status >= 400 <==> r.Raised? && r.error.kind == BadHttpStatus
    ensures status < 400 && body.None? <==> r.Raised? && r.error.kind == Unreadable
    ensures r.Raised? ==> r.error.code == JNull
    // Otherwise the `data` block when it is truthy, else the whole reply.
    ensures r.Returned? <==> status < 400 && body.Some? && body.value.JObj?
    ensures r.Returned? ==>
      var reply := body.value.fields;
      r.value == (if Truthy(Get(reply, "data")) then reply["data"] else body.value)
  {
    if status >= 400 then Raised(ZarinpalError(BadHttpStatus, HttpStatusText(status), JNull))
    else match body
      case None => Raised(ZarinpalError(Unreadable, UnreadableText, JNull))
      case Some(reply) =>
        if reply.JObj? then Returned(Or(Get(reply.fields, "data"), reply)) else Crashed
  }

  /** `_extract_error_message` on a reply dict; `JNull` stands for None. */
  function ExtractErrorMessage(data: map<string, Json>, repr: Json -> string): (r: Json)
    // A non-empty list of errors: its first entry alone decides; a dict gives its message,
    // else its code, and anything else its string form.
    ensures Get(data, "errors").JArr? && Get(data, "errors").elems != [] ==>
      var err := Get(data, "errors").elems[0];
      && (err.JObj? ==> r == Or(Get(err.fields, "message"), Get(err.fields, "code")))
      && (!err.JObj? ==> r == JStr(PyStr(err, repr)))
    // A dict of errors: its message, else its code.
    ensures Get(data, "errors").JObj? ==>
      r == Or(Get(Get(data, "errors").fields, "message"), Get(Get(data, "errors").fields, "code"))
    // No errors, an empty list or any other value: the reply's own message.
    ensures !Get(data, "errors").JObj? && !(Get(data, "errors").JArr? && Get(data, "errors").elems != []) ==>
      r == Get(data, "message")
  {
    match Get(data, "errors")
    case JArr(errors) =>
      if errors == [] then Get(data, "message")
      else if errors[0].JObj? then Or(Get(errors[0].fields, "message"), Get(errors[0].fields, "code"))
      else JStr(PyStr(errors[0], repr))
    case JObj(errors) => Or(Get(errors, "message"), Get(errors, "code"))
    case _ => Get(data, "message")
  }

  /** `data.get("message") or self._extract_error_message(data) or fallback`. */
  function ErrorMessage(data: map<string, Json>, repr: Json -> string, fallback: string): (m: Json)
    requires fallback != ""
    ensures Truthy(m)
  {
    Or(Or(Get(data, "message"), ExtractErrorMessage(data, repr)), JStr(fallback))
  }

  /** Where the message of a failed call comes from: the reply's own message first; then the
      first entry of a non-empty error list (a dict's message, else its code; any other entry
      in its string form) or of an error dict; and the fixed text when nothing is truthy. */
  lemma ErrorMessagePrecedence(data: map<string, Json>, repr: Json -> string, fallback: string,
                               m: string, es: seq<Json>, e: map<string, Json>)
    requires fallback != ""
    ensures m != "" && Get(data, "message") == JStr(m) ==> ErrorMessage(data, repr, fallback) == JStr(m)
    ensures !Truthy(Get(data, "message")) && Get(data, "errors") == JArr(es) && es != [] && es[0] == JObj(e) ==>
      ErrorMessage(data, repr, fallback) == Or(Or(Get(e, "message"), Get(e, "code")), JStr(fallback))
    ensures (!Truthy(Get(data, "message")) && Get(data, "errors") == JArr(es) && es != [] && !es[0].JObj?
             && PyStr(es[0], repr) != "") ==>
      ErrorMessage(data, repr, fallback) == JStr(PyStr(es[0], repr))
    ensures !Truthy(Get(data, "message")) && Get(data, "errors") == JObj(e) ==>
      ErrorMessage(data, repr, fallback) == Or(Or(Get(e, "message"), Get(e, "code")), JStr(fallback))
    ensures !Truthy(Get(data, "message")) && (Get(data, "errors") == JArr([]) || Get(data, "errors") == JNull) ==>
      ErrorMessage(data, repr, fallback) == JStr(fallback)
  {
  }

  /** Only the first entry of a non-empty error list is read: the rest never matters. */
  lemma FirstErrorOnly(data: map<string, Json>, repr: Json -> string, es: seq<Json>, fs: seq<Json>)
    requires es != [] && fs != [] && es[0] == fs[0]
    ensures ExtractErrorMessage(data["errors" := JArr(es)], repr) == ExtractErrorMessage(data["errors" := JArr(fs)], repr)
  {
    assert Get(data["errors" := JArr(es)], "errors") == JArr(es);
    assert Get(data["errors" := JArr(fs)], "errors") == JArr(fs);
  }

  /** The `data` dict a call goes on to read: only for a transport success, an HTTP status
      below 400, a JSON-object reply, and a dict where the reply's `data or reply` lands. */
  function ReplyData(resp: Response): (d: Option<map<string, Json>>)
    ensures d.Some? ==> resp.Reply? && resp.status < 400
  {
    match resp
    case TransportError(_) => None
    case Reply(status, body) =>
      match ParseResponse(status, body)
      case Returned(JObj(fields)) => Some(fields)
      case _ => None
  }

  datatype PaymentRequestResult = PaymentRequestResult(authority: string, paymentUrl: string, code: int, message: string)

  /** The gateway accepted the request: `code == 100` (a number equal to 100). */
  predicate AcceptedCode(code: Json) {
    code == JNum(100.0)
  }

  /** `payment_request`. */
  function PaymentRequest(c: Client, env: Env, amountToman: int, description: string,
                          mobile: Option<string>, email: Option<string>): (r: Outcome<PaymentRequestResult>)
    ensures var resp := env.post(BaseApiUrl(c), RequestPath, JObj(RequestPayload(c, amountToman, description, mobile, email)));
      && (resp.TransportError? ==> r == Raised(ZarinpalError(ConnectFailed, ConnectFailedPrefix + resp.detail, JNull)))
      // A result only for code 100 with an authority; its URL is the StartPay page for it.
      && (r.Returned? ==>
           && ReplyData(resp).Some? && AcceptedCode(Get(ReplyData(resp).value, "code"))
           && Truthy(Get(ReplyData(resp).value, "authority"))
           && r.value.code == 100
           && r.value.paymentUrl == GatewayBaseUrl(c) + StartPayPath + r.value.authority)
      // Code 100 without an authority raises, carrying the code.
      && (ReplyData(resp).Some? && AcceptedCode(Get(ReplyData(resp).value, "code"))
           && !Truthy(Get(ReplyData(resp).value, "authority")) ==>
           r == Raised(ZarinpalError(NoAuthority, NoAuthorityText, JNum(100.0))))
      // Code 100 with a non-empty string authority and a string or missing message is
      // accepted: the result carries that authority, its StartPay URL and the message, or
      // the fixed success text when there is none.
      && (ReplyData(resp).Some? && AcceptedCode(Get(ReplyData(resp).value, "code")) ==>
           var d := ReplyData(resp).value;
           var authority := Get(d, "authority");
           var message := Get(d, "message");
           authority.JStr? && authority.s != "" && (message.JStr? || message.JNull?) ==>
           r == Returned(PaymentRequestResult(authority.s, GatewayBaseUrl(c) + StartPayPath + authority.s, 100,
                                              if Truthy(message) then message.s else RequestCreatedText)))
      // Any other code raises with that code and the reply's error message.
      && (ReplyData(resp).Some? && !AcceptedCode(Get(ReplyData(resp).value, "code")) ==>
           r == Raised(ZarinpalError(Rejected, PyStr(ErrorMessage(ReplyData(resp).value, env.repr, RequestFailedText), env.repr),
                                     Get(ReplyData(resp).value, "code"))))
  {
    match env.post(BaseApiUrl(c), RequestPath, JObj(RequestPayload(c, amountToman, description, mobile, email)))
    case TransportError(detail) => Raised(ZarinpalError(ConnectFailed, ConnectFailedPrefix + detail, JNull))
    case Reply(status, body) =>
      match ParseResponse(status, body)
      case Raised(e) => Raised(e)
      case Crashed => Crashed
      case Returned(data) =>
        if !data.JObj? then Crashed
        else
          var code := Get(data.fields, "code");
          if AcceptedCode(code) then
            var authority := Get(data.fields, "authority");
            if !Truthy(authority) then Raised(ZarinpalError(NoAuthority, NoAuthorityText, code))
            else
              var url := GatewayBaseUrl(c) + StartPayPath + PyStr(authority, env.repr);
              var message := Or(Get(data.fields, "message"), JStr(RequestCreatedText));
              match (PydanticStr(authority, env.repr), PydanticStr(message, env.repr))
              case (Some(a), Some(m)) => Returned(PaymentRequestResult(a, url, 100, m))
              case _ => Crashed
          else
            var message := ErrorMessage(data.fields, env.repr, RequestFailedText);
            Raised(ZarinpalError(Rejected, PyStr(message, env.repr), code))
  }

  datatype PaymentVerifyResult = PaymentVerifyResult(
    success: bool, statusCode: int, message: string,
    refId: Option<int>, cardPan: Option<string>, feeType: Option<string>, fee: Option<int>)

  /** `int(data.get("code") or -1)`: a missing, null or zero code reads as -1. */
  function VerifyCode(data: map<string, Json>): Option<int> {
    PyInt(Or(Get(data, "code"), JNum(-1.0)))
  }

  predicate VerifiedCode(code: int) {
    code == 100 || code == 101
  }

  /** `payment_verify`. */
  function PaymentVerify(c: Client, env: Env, authority: string, amountToman: int): (r: Outcome<PaymentVerifyResult>)
    ensures var resp := env.post(BaseApiUrl(c), VerifyPath, JObj(VerifyPayload(c, authority, amountToman)));
      // Gateway codes never raise: only the transport, the HTTP status or an unreadable body do.
      && (r.Raised? ==> r.error.kind in {ConnectFailed, BadHttpStatus, Unreadable})
      && (resp.TransportError? ==> r == Raised(ZarinpalError(ConnectFailed, VerifyFailedPrefix + resp.detail, JNull)))
      // Success exactly for codes 100 and 101; a missing or zero code is -1, a failure.
      && (r.Returned? ==>
           && ReplyData(resp).Some?
           && Some(r.value.statusCode) == VerifyCode(ReplyData(resp).value)
           && (r.value.success <==> VerifiedCode(r.value.statusCode))
           && (!Truthy(Get(ReplyData(resp).value, "code")) ==> r.value.statusCode == -1 && !r.value.success)
           && Some(r.value.message) == PydanticStr(ErrorMessage(ReplyData(resp).value, env.repr, InvalidReplyText), env.repr)
           && Some(r.value.refId) == PydanticOptInt(Get(ReplyData(resp).value, "ref_id")))
  {
    match env.post(BaseApiUrl(c), VerifyPath, JObj(VerifyPayload(c, authority, amountToman)))
    case TransportError(detail) => Raised(ZarinpalError(ConnectFailed, VerifyFailedPrefix + detail, JNull))
    case Reply(status, body) =>
      match ParseResponse(status, body)
      case Raised(e) => Raised(e)
      case Crashed => Crashed
      case Returned(data) =>
        if !data.JObj? then Crashed
        else match VerifyCode(data.fields)
          case None => Crashed
          case Some(code) =>
            var message := ErrorMessage(data.fields, env.repr, InvalidReplyText);
            var fields := (
              PydanticStr(message, env.repr),
              PydanticOptInt(Get(data.fields, "ref_id")),
              PydanticOptStr(Get(data.fields, "card_pan"), env.repr),
              PydanticOptStr(Get(data.fields, "fee_type"), env.repr),
              PydanticOptInt(Get(data.fields, "fee")));
            if fields.0.None? || fields.1.None? || fields.2.None? || fields.3.None? || fields.4.None? then Crashed
            else Returned(PaymentVerifyResult(VerifiedCode(code), code, fields.0.value, fields.1.value,
                                              fields.2.value, fields.3.value, fields.4.value))
  }

  /** A gateway reply `{"data": {"code": 100, "authority": a, "message": m}}` with HTTP status
      200 and a non-empty authority creates the request: its StartPay URL and the message. */
  lemma RequestReadsReply(c: Client, env: Env, amountToman: int, description: string,
                          mobile: Option<string>, email: Option<string>, a: string, m: string)
    requires a != "" && m != ""
    requires env.post(BaseApiUrl(c), RequestPath, JObj(RequestPayload(c, amountToman, description, mobile, email)))
      == Reply(200, Some(JObj(map["data" := JObj(map["code" := JNum(100.0), "authority" := JStr(a), "message" := JStr(m)])])))
    ensures PaymentRequest(c, env, amountToman, description, mobile, email)
      == Returned(PaymentRequestResult(a, GatewayBaseUrl(c) + StartPayPath + a, 100, m))
  {
    var data := map["code" := JNum(100.0), "authority" := JStr(a), "message" := JStr(m)];
    assert Truthy(JObj(data)) by { assert "code" in data; }
    assert Get(data, "code") == JNum(100.0) && Get(data, "authority") == JStr(a) && Get(data, "message") == JStr(m);
  }

  /** A gateway reply `{"data": {"code": k, "message": m, "ref_id": n}}` with HTTP status 200
      verifies exactly when k is 100 or 101, and hands back the message and reference id. */
  lemma VerifyReadsReply(c: Client, env: Env, authority: string, amountToman: int, k: int, m: string, n: int)
    requires m != "" && k != 0
    requires env.post(BaseApiUrl(c), VerifyPath, JObj(VerifyPayload(c, authority, amountToman)))
      == Reply(200, Some(JObj(map["data" := JObj(map["code" := JNum(k as real), "message" := JStr(m), "ref_id" := JNum(n as real)])])))
    ensures PaymentVerify(c, env, authority, amountToman)
      == Returned(PaymentVerifyResult(k == 100 || k == 101, k, m, Some(n), None, None, None))
  {
    VerifyFieldsRead(k, m, n, env.repr);
  }

  /** The fields of a verification reply that carries a code, a message and a reference id. */
  lemma VerifyFieldsRead(k: int, m: string, n: int, repr: Json -> string)
    requires m != "" && k != 0
    ensures var data := map["code" := JNum(k as real), "message" := JStr(m), "ref_id" := JNum(n as real)];
      && Truthy(JObj(data))
      && VerifyCode(data) == Some(k)
      && PydanticStr(ErrorMessage(data, repr, InvalidReplyText), repr) == Some(m)
      && PydanticOptInt(Get(data, "ref_id")) == Some(Some(n))
      && PydanticOptStr(Get(data, "card_pan"), repr) == Some(None)
      && PydanticOptStr(Get(data, "fee_type"), repr) == Some(None)
      && PydanticOptInt(Get(data, "fee")) == Some(None)
  {
    var data := map["code" := JNum(k as real), "message" := JStr(m), "ref_id" := JNum(n as real)];
    assert Truthy(JObj(data)) by { assert "code" in data; }
    assert PyInt(JNum(k as real)) == Some(k) by { assert IsWhole(k as real); }
    assert IsWhole(n as real);
    assert Get(data, "card_pan") == JNull && Get(data, "fee_type") == JNull && Get(data, "fee") == JNull;
  }
}
