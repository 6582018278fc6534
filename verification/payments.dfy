/** The payment endpoints (`backend/app/api/v1/endpoints/payments.py`): starting a Zarinpal
    payment for an order, and the gateway's callback, which verifies the payment, records
    the outcome on the order and redirects the shopper to the frontend's result page. */
module Payments {
  import opened Wrappers
  import opened Json
  import opened Store
  import Text
  import Money
  import Seqs
  import Deps
  import Orders
  import Zarinpal

  const GatewayName := "ZARINPAL"
  const LocalFrontend := "http://localhost:3000"
  const ResultPath := "/payment/result"
  /** The `Status` the gateway sends back when the shopper completed the payment. */
  const CallbackOk := "OK"

  const OrderNotFoundText := "\U{0633}\U{0641}\U{0627}\U{0631}\U{0634} \U{06CC}\U{0627}\U{0641}\U{062A} \U{0646}\U{0634}\U{062F}"
  const CanceledByUserText := "\U{067E}\U{0631}\U{062F}\U{0627}\U{062E}\U{062A} \U{062A}\U{0648}\U{0633}\U{0637} \U{06A9}\U{0627}\U{0631}\U{0628}\U{0631} \U{0644}\U{063A}\U{0648} \U{0634}\U{062F}"

  /** The settings the endpoints read. */
  datatype PaymentSettings = PaymentSettings(
    merchantId: Option<string>, callbackUrl: Option<string>, sandbox: bool, frontendBaseUrl: Option<string>)

  predicate ConfigComplete(s: PaymentSettings) {
    Text.Given(s.merchantId) && Text.Given(s.callbackUrl)
  }

  /** `_get_client`. */
  function GetClient(s: PaymentSettings): (r: Result<Zarinpal.Client, HttpError>)
    ensures r.Success? <==> ConfigComplete(s)
    ensures r.Success? ==> (r.value.merchantId == s.merchantId.value && r.value.callbackUrl == s.callbackUrl.value
      && r.value.sandbox == s.sandbox && r.value.callbackUrl != "")
    ensures r.Failure? ==> r.error == HttpError(500, PaymentConfigIncomplete)
  {
    if !ConfigComplete(s) then Failure(HttpError(500, PaymentConfigIncomplete))
    else Success(Zarinpal.Client(s.merchantId.value, s.sandbox, s.callbackUrl.value))
  }

  /** `_frontend_base_url`. `urlparse` gives the scheme and network location of a URL, or
      `None` where parsing raises. */
  function FrontendBaseUrl(callbackUrl: string, configured: Option<string>,
                           urlparse: string -> Option<(string, string)>): (r: string)
    // A configured base wins, without its trailing slashes.
    ensures Text.Given(configured) ==>
      && |r| <= |configured.value| && r == configured.value[..|r|]
      && (forall k :: |r| <= k < |configured.value| ==> configured.value[k] == '/')
      && (r == [] || r[|r| - 1] != '/')
    // Otherwise the callback URL's origin, and the local development server when there is none.
    ensures !Text.Given(configured) ==>
      r == (match urlparse(callbackUrl)
            case Some((scheme, netloc)) => if scheme != "" && netloc != "" then scheme + "://" + netloc else LocalFrontend
            case None => LocalFrontend)
  {
    if Text.Given(configured) then Text.RStrip(configured.value, '/')
    else match urlparse(callbackUrl)
      case Some((scheme, netloc)) =>
        if scheme != "" && netloc != "" then scheme + "://" + netloc else LocalFrontend
      case None => LocalFrontend
  }

  /** `int(round(order.paymentAmount or order.totalAmount))`: the amount the server charges,
      in tomans. A missing or zero payment amount falls back to the order total. */
  function ChargedAmount(o: Order): (n: int)
    ensures var base := if o.paymentAmount.Some? && o.paymentAmount.value != 0.0 then o.paymentAmount.value else o.totalAmount;
      base - 0.5 <= n as real <= base + 0.5
  {
    Money.PyRound(if o.paymentAmount.Some? && o.paymentAmount.value != 0.0 then o.paymentAmount.value else o.totalAmount)
  }

  /** The body of `POST /payments/zarinpal/create`. */
  datatype PaymentCreateRequest = PaymentCreateRequest(
    orderId: int, amountToman: int, description: string, mobile: Option<string>, email: Option<string>)

  datatype PaymentCreateResponse = PaymentCreateResponse(authority: string, paymentUrl: string, code: int, message: string)

  const PayerRoles := [CustomerRole, AdminRole]

  /** The order once the gateway has issued an authority for it. */
  function AwaitingPayment(o: Order, amount: int, res: Zarinpal.PaymentRequestResult): Order {
    o.(authority := Some(res.authority), paymentStatus := Unpaid, status := Pending,
       paymentAmount := Some(amount as real), paymentGateway := Some(GatewayName), paymentMessage := Some(res.message))
  }

  /** The caller may pay the order: a customer or an admin, with the gateway configured,
      asking for an order that exists and is theirs (any order, for an admin). */
  predicate MayPay(db: Db, settings: PaymentSettings, user: User, req: PaymentCreateRequest) {
    && user.role in PayerRoles && ConfigComplete(settings)
    && OrderById(db, req.orderId).Some?
    && (user.role == AdminRole || OrderById(db, req.orderId).value.customerId == user.id)
  }

  /** `create_zarinpal_payment`, for a caller the bearer-token check has admitted. */
  function CreateZarinpalPayment(db: Db, settings: PaymentSettings, env: Zarinpal.Env, user: User,
                                 req: PaymentCreateRequest): (r: Result<(Db, PaymentCreateResponse), HttpError>)
    ensures user.role !in PayerRoles ==> r == Failure(HttpError(403, Forbidden))
    ensures user.role in PayerRoles && !ConfigComplete(settings) ==> r == Failure(HttpError(500, PaymentConfigIncomplete))
    ensures user.role in PayerRoles && ConfigComplete(settings) && OrderById(db, req.orderId).None?
      ==> r == Failure(HttpError(404, OrderNotFound))
    ensures user.role in PayerRoles && ConfigComplete(settings) && OrderById(db, req.orderId).Some?
      && user.role != AdminRole && OrderById(db, req.orderId).value.customerId != user.id
      ==> r == Failure(HttpError(403, NotOrderOwner))
    // A request goes out only for an order the caller may pay, that is unpaid, for a positive amount.
    ensures r.Success? ==>
      && ConfigComplete(settings) && user.role in PayerRoles
      && OrderById(db, req.orderId).Some?
      && var o := OrderById(db, req.orderId).value;
      && (user.role == AdminRole || o.customerId == user.id)
      && o.paymentStatus != Paid
      && ChargedAmount(o) > 0
      && exists res: Zarinpal.PaymentRequestResult ::
           && Zarinpal.PaymentRequest(GetClient(settings).value, env, ChargedAmount(o), req.description, req.mobile, req.email)
                == Zarinpal.Returned(res)
           && r.value == (UpdateOrder(db, AwaitingPayment(o, ChargedAmount(o), res)),
                          PaymentCreateResponse(res.authority, res.paymentUrl, res.code, res.message))
    // Past those checks: a non-positive amount is refused, and otherwise the gateway's
    // answer decides: an issued authority is stored on the order and handed back, a
    // refusal is a 502 carrying its message.
    ensures MayPay(db, settings, user, req) ==> var o := OrderById(db, req.orderId).value;
      && (o.paymentStatus == Paid ==> r == Failure(HttpError(400, AlreadyPaid)))
      && (o.paymentStatus != Paid && ChargedAmount(o) <= 0 ==> r == Failure(HttpError(400, InvalidAmount)))
      && (o.paymentStatus != Paid && ChargedAmount(o) > 0 ==>
            match Zarinpal.PaymentRequest(GetClient(settings).value, env, ChargedAmount(o), req.description, req.mobile, req.email)
            case Returned(res) =>
              r == Success((UpdateOrder(db, AwaitingPayment(o, ChargedAmount(o), res)),
                            PaymentCreateResponse(res.authority, res.paymentUrl, res.code, res.message)))
            case Raised(e) => r == Failure(HttpError(502, GatewayUnavailable(e.message)))
            case Crashed => r == Failure(HttpError(500, Unhandled)))
    ensures r.Failure? && r.error.status == 502 ==>
      && ConfigComplete(settings) && OrderById(db, req.orderId).Some?
      && exists e: Zarinpal.ZarinpalError ::
           && Zarinpal.PaymentRequest(GetClient(settings).value, env, ChargedAmount(OrderById(db, req.orderId).value),
                                      req.description, req.mobile, req.email) == Zarinpal.Raised(e)
           && r.error.reason == GatewayUnavailable(e.message)
  {
    var payer :- Deps.RequireRoles(PayerRoles, user);
    var client :- GetClient(settings);
    match OrderById(db, req.orderId)
    case None => Failure(HttpError(404, OrderNotFound))
    case Some(o) =>
      if payer.role != AdminRole && o.customerId != payer.id then Failure(HttpError(403, NotOrderOwner))
      else if o.paymentStatus == Paid then Failure(HttpError(400, AlreadyPaid))
      else
        var amount := ChargedAmount(o);
        if amount <= 0 then Failure(HttpError(400, InvalidAmount))
        else match Zarinpal.PaymentRequest(client, env, amount, req.description, req.mobile, req.email)
          case Raised(e) => Failure(HttpError(502, GatewayUnavailable(e.message)))
          case Crashed => Failure(HttpError(500, Unhandled))
          case Returned(res) =>
            Success((UpdateOrder(db, AwaitingPayment(o, amount, res)),
                     PaymentCreateResponse(res.authority, res.paymentUrl, res.code, res.message)))
  }

  /** The callback for the authority a payment request obtained finds that order (when no
      other order holds the authority) and verifies the very amount that was requested. */
  lemma CreateThenCallbackFindsOrder(db: Db, settings: PaymentSettings, env: Zarinpal.Env, user: User, req: PaymentCreateRequest)
    requires CreateZarinpalPayment(db, settings, env, user, req).Success?
    requires var authority := CreateZarinpalPayment(db, settings, env, user, req).value.1.authority;
      forall k :: 0 <= k < |db.orders| ==> db.orders[k].authority != Some(authority)
    ensures var (db2, resp) := CreateZarinpalPayment(db, settings, env, user, req).value;
      var o := OrderById(db, req.orderId).value;
      && OrderByAuthority(db2, resp.authority).Some?
      && OrderByAuthority(db2, resp.authority).value.id == req.orderId
      && OrderByAuthority(db2, resp.authority).value.paymentStatus == Unpaid
      && ChargedAmount(OrderByAuthority(db2, resp.authority).value) == ChargedAmount(o)
  {
    var (db2, resp) := CreateZarinpalPayment(db, settings, env, user, req).value;
    var o := OrderById(db, req.orderId).value;
    var amount := ChargedAmount(o);
    var res: Zarinpal.PaymentRequestResult :|
      && Zarinpal.PaymentRequest(GetClient(settings).value, env, amount, req.description, req.mobile, req.email) == Zarinpal.Returned(res)
      && (db2, resp) == (UpdateOrder(db, AwaitingPayment(o, amount, res)),
                         PaymentCreateResponse(res.authority, res.paymentUrl, res.code, res.message));
    FoundAfterCreate(db, o, res, db2, resp.authority);
  }

  /** What the lookup by authority finds once the order awaits that payment. */
  lemma FoundAfterCreate(db: Db, o: Order, res: Zarinpal.PaymentRequestResult, db2: Db, authority: string)
    requires o in db.orders && authority == res.authority && ChargedAmount(o) > 0
    requires db2 == UpdateOrder(db, AwaitingPayment(o, ChargedAmount(o), res))
    requires forall k :: 0 <= k < |db.orders| ==> db.orders[k].authority != Some(authority)
    ensures OrderByAuthority(db2, authority).Some?
    ensures OrderByAuthority(db2, authority).value.id == o.id
    ensures OrderByAuthority(db2, authority).value.paymentStatus == Unpaid
    ensures ChargedAmount(OrderByAuthority(db2, authority).value) == ChargedAmount(o)
  {
    UpdateFindsByAuthority(db, o, AwaitingPayment(o, ChargedAmount(o), res), authority);
    Money.RoundWhole(ChargedAmount(o));
  }

  /** An order given an authority nobody held is the one the lookup by that authority finds. */
  lemma UpdateFindsByAuthority(db: Db, o: Order, awaiting: Order, authority: string)
    requires o in db.orders && awaiting.id == o.id && awaiting.authority == Some(authority)
    requires forall k :: 0 <= k < |db.orders| ==> db.orders[k].authority != Some(authority)
    ensures OrderByAuthority(UpdateOrder(db, awaiting), authority) == Some(awaiting)
  {
    var db2 := UpdateOrder(db, awaiting);
    var k :| 0 <= k < |db.orders| && db.orders[k] == o;
    assert db2.orders[k] == awaiting;
    assert AuthorityIs(authority)(db2.orders[k]);
    var i := Seqs.FirstIndex(db2.orders, AuthorityIs(authority)).value;
    var before := db.orders[i];
    assert db2.orders[i] == (if OrderHasId(awaiting.id)(before) then awaiting else before);
  }

  /** The amount in the request body is only compared and logged: the charge is the server's. */
  lemma ClientAmountIgnored(db: Db, settings: PaymentSettings, env: Zarinpal.Env, user: User,
                            req: PaymentCreateRequest, claimed: int)
    ensures CreateZarinpalPayment(db, settings, env, user, req.(amountToman := claimed))
         == CreateZarinpalPayment(db, settings, env, user, req)
  {
  }

  /** An order that is already paid is never sent to the gateway again. */
  lemma PaidOrderRefused(db: Db, settings: PaymentSettings, env: Zarinpal.Env, user: User, req: PaymentCreateRequest)
    requires user.role in PayerRoles && ConfigComplete(settings)
    requires OrderById(db, req.orderId).Some? && OrderById(db, req.orderId).value.paymentStatus == Paid
    requires user.role == AdminRole || OrderById(db, req.orderId).value.customerId == user.id
    ensures CreateZarinpalPayment(db, settings, env, user, req) == Failure(HttpError(400, AlreadyPaid))
  {
  }

  /** Where the callback sends the shopper: the query of `/payment/result` on the frontend,
      one optional parameter per field. */
  datatype Target = Target(
    base: string, success: bool, orderId: Option<int>, amount: Option<int>, refId: Option<int>,
    message: Option<string>, code: Option<int>)

  function IntParam(name: string, v: Option<int>): string {
    if v.Some? then "&" + name + "=" + Text.IntToString(v.value) else ""
  }

  /** The parameters after `status`, in the order the callback writes them. */
  function MoreParams(t: Target, quotePlus: string -> string): string {
    IntParam("orderId", t.orderId) + IntParam("amount", t.amount) + IntParam("refId", t.refId)
      + (if t.message.Some? then "&message=" + quotePlus(t.message.value) else "")
      + IntParam("code", t.code)
  }

  /** The redirect URL, with `quote_plus` for the message as a parameter. */
  function Url(t: Target, quotePlus: string -> string): string {
    t.base + ResultPath + "?status=" + (if t.success then "success" else "failed") + MoreParams(t, quotePlus)
  }

  /** Every redirect lands on the result page, and it says `status=success` exactly when the
      target is a success. */
  lemma UrlStatus(t: Target, quotePlus: string -> string)
    ensures Text.StartsWith(Url(t, quotePlus), t.base + ResultPath + "?status=")
    ensures Text.StartsWith(Url(t, quotePlus), t.base + ResultPath + "?status=success") <==> t.success
  {
    Text.WordAfterHead(t.base + ResultPath + "?status=", "success", "failed", MoreParams(t, quotePlus), t.success);
  }

  /** `find_first(where={"authority": authority})`. */
  function AuthorityIs(authority: string): Order -> bool {
    (o: Order) => o.authority == Some(authority)
  }

  function OrderByAuthority(db: Db, authority: string): (r: Option<Order>)
    ensures r.Some? ==> r.value in db.orders && r.value.authority == Some(authority)
    ensures r.None? <==> forall k :: 0 <= k < |db.orders| ==> db.orders[k].authority != Some(authority)
  {
    Seqs.First(db.orders, AuthorityIs(authority))
  }

  /** The order after a cancelled or failed payment. */
  function Abandoned(o: Order, message: string): Order {
    o.(paymentStatus := Failed, status := Canceled, paymentMessage := Some(message))
  }

  function FailureTarget(base: string, orderId: int, message: string, code: Option<int>): Target {
    Target(base, false, Some(orderId), None, None, Some(message), code)
  }

  /** The `payment_update` the callback assembles from a successful verification. */
  function PaymentDetails(o: Order, authority: string, amount: int, v: Zarinpal.PaymentVerifyResult): Order {
    o.(authority := Some(authority), refId := v.refId, cardPan := v.cardPan, feeType := v.feeType, fee := v.fee,
       paymentMessage := Some(v.message), paymentGateway := Some(GatewayName), paymentAmount := Some(amount as real))
  }

  /** How far the callback gets before marking an order paid: either it is finished (the
      order is unknown, the shopper cancelled, or the gateway did not confirm), or the
      gateway has verified the payment of `order`. */
  datatype Step =
    | Done(db: Db, target: Target)
    | Verified(order: Order, amount: int, result: Zarinpal.PaymentVerifyResult, base: string)

  /** Lines 115-153 of `zarinpal_callback`: everything up to the call of `mark_order_paid`. */
  function Classify(db: Db, settings: PaymentSettings, env: Zarinpal.Env,
                    urlparse: string -> Option<(string, string)>, authority: string, status: string): (r: Result<Step, HttpError>)
    ensures !ConfigComplete(settings) <==> r == Failure(HttpError(500, PaymentConfigIncomplete))
    ensures r.Failure? ==> r.error.status == 500
    // An unknown authority changes nothing.
    ensures r.Success? && OrderByAuthority(db, authority).None? ==>
      r.value.Done? && r.value.db == db && r.value.target.orderId.None?
      && r.value.target.message == Some(OrderNotFoundText) && !r.value.target.success
    // Anything short of a verified payment cancels the order, and the redirect says why.
    ensures r.Success? && OrderByAuthority(db, authority).Some? && r.value.Done? ==>
      var o := OrderByAuthority(db, authority).value;
      && r.value.target.orderId == Some(o.id) && !r.value.target.success && r.value.target.message.Some?
      && r.value.db == UpdateOrder(db, Abandoned(o, r.value.target.message.value))
    ensures r.Success? && OrderByAuthority(db, authority).Some? && status != CallbackOk ==>
      r.value.Done? && r.value == Done(UpdateOrder(db, Abandoned(OrderByAuthority(db, authority).value, CanceledByUserText)),
                      FailureTarget(r.value.target.base, OrderByAuthority(db, authority).value.id, CanceledByUserText, None))
    // A payment counts as verified only with status OK and the gateway's confirmation of the server's amount.
    ensures r.Success? && r.value.Verified? ==>
      && status == CallbackOk
      && OrderByAuthority(db, authority) == Some(r.value.order)
      && r.value.amount == ChargedAmount(r.value.order)
      && r.value.result.success
      && Zarinpal.PaymentVerify(GetClient(settings).value, env, authority, r.value.amount) == Zarinpal.Returned(r.value.result)
  {
    var client :- GetClient(settings);
    var base := FrontendBaseUrl(client.callbackUrl, settings.frontendBaseUrl, urlparse);
    match OrderByAuthority(db, authority)
    case None => Success(Done(db, Target(base, false, None, None, None, Some(OrderNotFoundText), None)))
    case Some(o) =>
      var amount := ChargedAmount(o);
      if status != CallbackOk then
        Success(Done(UpdateOrder(db, Abandoned(o, CanceledByUserText)), FailureTarget(base, o.id, CanceledByUserText, None)))
      else match Zarinpal.PaymentVerify(client, env, authority, amount)
        case Crashed => Failure(HttpError(500, Unhandled))
        case Raised(e) => Success(Done(UpdateOrder(db, Abandoned(o, e.message)), FailureTarget(base, o.id, e.message, None)))
        case Returned(v) =>
          if v.success then Success(Verified(o, amount, v, base))
          else Success(Done(UpdateOrder(db, Abandoned(o, v.message)), FailureTarget(base, o.id, v.message, Some(v.statusCode))))
  }

  /** `zarinpal_callback` as written: it passes `payment_update=` to `mark_order_paid`,
      which has no such parameter, so the call raises `TypeError` before anything is written
      and the shopper gets a 500 instead of the result page. */
  function ZarinpalCallbackAsWritten(db: Db, settings: PaymentSettings, env: Zarinpal.Env,
                                     urlparse: string -> Option<(string, string)>, authority: string, status: string): (r: Result<(Db, Target), HttpError>)
    ensures r.Success? ==> !r.value.1.success
    ensures r.Success? <==> (Classify(db, settings, env, urlparse, authority, status).Success?
      && Classify(db, settings, env, urlparse, authority, status).value.Done?)
  {
    match Classify(db, settings, env, urlparse, authority, status)
    case Failure(e) => Failure(e)
    case Success(Done(db2, t)) => Success((db2, t))
    case Success(Verified(_, _, _, _)) => Failure(HttpError(500, Unhandled))
  }

  /** A verified payment never reaches its order under the callback as written: the order
      keeps its payment status and the shopper is not redirected. */
  lemma AsWrittenVerifiedPaymentLost(db: Db, settings: PaymentSettings, env: Zarinpal.Env,
                                     urlparse: string -> Option<(string, string)>, authority: string)
    requires ConfigComplete(settings)
    requires OrderByAuthority(db, authority).Some?
    requires var o := OrderByAuthority(db, authority).value;
      exists v: Zarinpal.PaymentVerifyResult ::
        v.success && Zarinpal.PaymentVerify(GetClient(settings).value, env, authority, ChargedAmount(o)) == Zarinpal.Returned(v)
    ensures ZarinpalCallbackAsWritten(db, settings, env, urlparse, authority, CallbackOk) == Failure(HttpError(500, Unhandled))
  {
  }

  /** A successful `mark_order_paid` leaves the order it names paid. */
  lemma MarkPaidLeavesPaid(db: Db, orderId: int, requestedBy: int, isAdmin: bool)
    requires Orders.MarkOrderPaid(db, orderId, requestedBy, isAdmin).Success?
    ensures var db2 := Orders.MarkOrderPaid(db, orderId, requestedBy, isAdmin).value.0;
      OrderById(db2, orderId).Some? && OrderById(db2, orderId).value.paymentStatus == Paid
  {
    if OrderById(db, orderId).value.paymentStatus != Paid {
      Orders.MarkPaidEffects(db, orderId, requestedBy, isAdmin);
    }
  }

  /** `mark_order_paid` with the `payment_update` the callback hands it, for an order the
      callback found: on the move to PAID the payment details are stored along with the
      status; a paid order is left alone. */
  function MarkPaidWithDetails(db: Db, o: Order, authority: string, amount: int, v: Zarinpal.PaymentVerifyResult): (r: Result<(Db, Order), HttpError>)
    requires o in db.orders
    ensures r.Success?
    ensures OrderById(r.value.0, o.id).Some? && OrderById(r.value.0, o.id).value.paymentStatus == Paid
    ensures OrderById(db, o.id) == Some(o) && o.paymentStatus == Paid ==> r.value == (db, o)
    ensures OrderById(db, o.id) == Some(o) && o.paymentStatus != Paid ==>
      && r.value.1 == PaymentDetails(o, authority, amount, v).(paymentStatus := Paid, status := Paid)
      && OrderById(r.value.0, o.id) == Some(r.value.1)
  {
    var k :| 0 <= k < |db.orders| && db.orders[k] == o;
    assert OrderById(db, o.id).Some?;
    if o.paymentStatus == Paid then
      MarkPaidLeavesPaid(db, o.id, o.customerId, true);
      Orders.MarkOrderPaid(db, o.id, o.customerId, true)
    else
      var details := PaymentDetails(o, authority, amount, v);
      UpdateThenFind(db, details);
      MarkPaidLeavesPaid(UpdateOrder(db, details), o.id, o.customerId, true);
      Orders.MarkPaidEffects(UpdateOrder(db, details), o.id, o.customerId, true);
      Orders.MarkOrderPaid(UpdateOrder(db, details), o.id, o.customerId, true)
  }

  /** The success redirect: order, amount, and the reference id when the gateway gave a non-zero one. */
  function SuccessTarget(base: string, orderId: int, amount: int, refId: Option<int>): (t: Target)
    ensures t.success && t.orderId == Some(orderId) && t.amount == Some(amount)
    ensures t.message.None? && t.code.None?
    ensures t.refId.Some? <==> refId.Some? && refId.value != 0
  {
    Target(base, true, Some(orderId), Some(amount), if refId.Some? && refId.value != 0 then refId else None, None, None)
  }

  /** `zarinpal_callback` with the payment details passed to `mark_order_paid` as the
      callback evidently intends. */
  function ZarinpalCallback(db: Db, settings: PaymentSettings, env: Zarinpal.Env,
                            urlparse: string -> Option<(string, string)>, authority: string, status: string): (r: Result<(Db, Target), HttpError>)
    // Short of a verified payment it behaves as written.
    ensures !(Classify(db, settings, env, urlparse, authority, status).Success?
              && Classify(db, settings, env, urlparse, authority, status).value.Verified?)
      ==> r == ZarinpalCallbackAsWritten(db, settings, env, urlparse, authority, status)
    // The shopper sees success exactly when the gateway verified the payment, and then the
    // order is paid.
    ensures r.Success? && r.value.1.success <==> (Classify(db, settings, env, urlparse, authority, status).Success?
      && Classify(db, settings, env, urlparse, authority, status).value.Verified?)
    ensures r.Success? && r.value.1.success ==>
      var o := OrderByAuthority(db, authority).value;
      && r.value.1 == SuccessTarget(r.value.1.base, o.id, ChargedAmount(o), Classify(db, settings, env, urlparse, authority, status).value.result.refId)
      && OrderById(r.value.0, o.id).Some? && OrderById(r.value.0, o.id).value.paymentStatus == Paid
  {
    match Classify(db, settings, env, urlparse, authority, status)
    case Failure(e) => Failure(e)
    case Success(Done(db2, t)) => Success((db2, t))
    case Success(Verified(o, amount, v, base)) =>
      var paid := MarkPaidWithDetails(db, o, authority, amount, v);
      Success((paid.value.0, SuccessTarget(base, o.id, amount, v.refId)))
  }

  /** A repeated callback for an order that is already paid writes nothing, so the payment
      details and the referral commissions are recorded once. */
  lemma RepeatedCallbackWritesNothing(db: Db, settings: PaymentSettings, env: Zarinpal.Env,
                                      urlparse: string -> Option<(string, string)>, authority: string)
    requires Classify(db, settings, env, urlparse, authority, CallbackOk).Success?
    requires Classify(db, settings, env, urlparse, authority, CallbackOk).value.Verified?
    requires var o := OrderByAuthority(db, authority).value;
      o.paymentStatus == Paid && OrderById(db, o.id) == Some(o)
    ensures ZarinpalCallback(db, settings, env, urlparse, authority, CallbackOk).Success?
    ensures ZarinpalCallback(db, settings, env, urlparse, authority, CallbackOk).value.0 == db
  {
  }
}
