/** The checkout page's pay handler (`handlePay` in `frontend/app/checkout/page.tsx`):
    a guarded sequence of a session check, an empty-cart check, order creation, payment
    session creation, and finally clearing the cart and leaving for the gateway.

    The two HTTP calls are oracles: `createOrder` answers the `POST /orders` body and
    `createPayment` the payment request, each with the response or the thrown error's
    message. The handler's observable behaviour is the trace of effects it performs. */
module Checkout {
  import opened Wrappers
  import opened Text
  import Money
  import Cart

  const AuthRedirect: string := "/auth?redirect=/checkout"
  /** "The cart is empty." */
  const CartEmptyMessage: string := "\U{0633}\U{0628}\U{062F} \U{062E}\U{0631}\U{06CC}\U{062F} \U{062E}\U{0627}\U{0644}\U{06CC} \U{0627}\U{0633}\U{062A}."
  /** "Error creating the transaction." */
  const PayFailedMessage: string := "\U{062E}\U{0637}\U{0627} \U{062F}\U{0631} \U{0627}\U{06CC}\U{062C}\U{0627}\U{062F} \U{062A}\U{0631}\U{0627}\U{06A9}\U{0646}\U{0634}"
  /** "Error connecting to the ZarinPal gateway" (`createZarinpalPayment`'s fallback). */
  const GatewayFailedMessage: string := "\U{062E}\U{0637}\U{0627} \U{062F}\U{0631} \U{0627}\U{062A}\U{0635}\U{0627}\U{0644} \U{0628}\U{0647} \U{062F}\U{0631}\U{06AF}\U{0627}\U{0647} \U{067E}\U{0631}\U{062F}\U{0627}\U{062E}\U{062A} \U{0632}\U{0631}\U{06CC}\U{0646}\U{200C}\U{067E}\U{0627}\U{0644}"
  /** "Payment for order number " */
  const DescriptionPrefix: string := "\U{067E}\U{0631}\U{062F}\U{0627}\U{062E}\U{062A} \U{0633}\U{0641}\U{0627}\U{0631}\U{0634} \U{0634}\U{0645}\U{0627}\U{0631}\U{0647} "

  datatype OrderLine = OrderLine(productId: int, quantity: int)

  /** The fields of the created order the handler reads. */
  datatype OrderResponse = OrderResponse(id: int, totalAmount: real)

  datatype PaymentRequest = PaymentRequest(
    orderId: int, amountToman: int, description: string, mobile: Option<string>, email: Option<string>)

  datatype PaymentResponse = PaymentResponse(paymentUrl: string)

  /** What the page holds when the button is pressed. A missing token is `None`;
      `mobile` and `email` are the form fields as typed. */
  datatype Form = Form(token: Option<string>, mobile: string, email: string)

  datatype Event =
    | ClearError
    | Push(path: string)
    | ShowError(message: string)
    | SetSubmitting(on: bool)
    | PostOrder(lines: seq<OrderLine>)
    | PostPayment(request: PaymentRequest)
    | ClearCart
    | Navigate(url: string)

  /** `if (!token)`: a missing or empty token is no session. */
  predicate HasToken(token: Option<string>) {
    token.Some? && token.value != ""
  }

  /** `items.map(i => ({productId: i.productId, quantity: i.quantity}))`: no prices leave the client. */
  function OrderLines(items: Cart.Cart): (r: seq<OrderLine>)
    ensures |r| == |items|
    ensures forall i :: 0 <= i < |items| ==> r[i] == OrderLine(items[i].productId, items[i].quantity)
  {
    if items == [] then [] else [OrderLine(items[0].productId, items[0].quantity)] + OrderLines(items[1..])
  }

  /** `s.trim() || undefined`. */
  function OptionalTrimmed(s: string): (r: Option<string>)
    ensures r.Some? ==> r.value != "" && IsTrimmed(r.value)
    ensures r.None? <==> IsBlank(s)
  {
    var t := Trim(s);
    TrimEmptyIff(s);
    if t == "" then None else Some(t)
  }

  /** The payment request built from the server's order. */
  function PaymentRequestFor(order: OrderResponse, form: Form): (r: PaymentRequest)
    ensures r.orderId == order.id
    ensures order.totalAmount - 0.5 < r.amountToman as real <= order.totalAmount + 0.5
    ensures r.description == DescriptionPrefix + IntToString(order.id)
  {
    PaymentRequest(order.id, Money.JsRound(order.totalAmount), DescriptionPrefix + IntToString(order.id),
                   OptionalTrimmed(form.mobile), OptionalTrimmed(form.email))
  }

  /** `e.message || fallback`. */
  function ErrorText(message: string, fallback: string): (r: string)
    ensures r != "" || fallback == ""
    ensures message != "" ==> r == message
  {
    if message != "" then message else fallback
  }

  predicate Requested(trace: seq<Event>) {
    exists i :: 0 <= i < |trace| && (trace[i].PostOrder? || trace[i].PostPayment?)
  }

  /** `handlePay()`: the effects in the order they happen. */
  function HandlePay(
    form: Form, items: Cart.Cart,
    createOrder: seq<OrderLine> -> Result<OrderResponse, string>,
    createPayment: PaymentRequest -> Result<PaymentResponse, string>): (trace: seq<Event>)
    ensures 2 <= |trace| && trace[0] == ClearError
  {
    if !HasToken(form.token) then [ClearError, Push(AuthRedirect)]
    else if items == [] then [ClearError, ShowError(CartEmptyMessage)]
    else
      var lines := OrderLines(items);
      [ClearError, SetSubmitting(true), PostOrder(lines)] + AfterOrder(form, createOrder(lines), createPayment)
  }

  /** The effects once the order request has been sent: no second order is ever posted,
      and the button is re-enabled last. */
  function AfterOrder(
    form: Form, order: Result<OrderResponse, string>,
    createPayment: PaymentRequest -> Result<PaymentResponse, string>): (tail: seq<Event>)
    ensures 2 <= |tail| && tail[|tail| - 1] == SetSubmitting(false)
    ensures forall i :: 0 <= i < |tail| ==> !tail[i].PostOrder?
  {
    match order
    case Failure(m) => OrderRefused(m)
    case Success(o) =>
      var request := PaymentRequestFor(o, form);
      PaymentStep(request, createPayment(request))
  }

  /** The order request failed: its message, then the button comes back. */
  function OrderRefused(message: string): (tail: seq<Event>)
    ensures |tail| == 2 && tail[0].ShowError? && tail[0].message != "" && tail[1] == SetSubmitting(false)
  {
    [ShowError(ErrorText(message, PayFailedMessage)), SetSubmitting(false)]
  }

  /** The payment request is posted; on success the cart is cleared right before leaving for
      the gateway, otherwise the error is shown. Either way the button comes back last. */
  function PaymentStep(request: PaymentRequest, reply: Result<PaymentResponse, string>): (tail: seq<Event>)
    ensures 3 <= |tail| && tail[0] == PostPayment(request) && tail[|tail| - 1] == SetSubmitting(false)
    ensures forall i :: 0 <= i < |tail| ==> !tail[i].PostOrder? && (i > 0 ==> !tail[i].PostPayment?)
    ensures ClearCart in tail <==> reply.Success?
    // The cart is cleared only as the second effect, directly followed by leaving for the gateway.
    ensures forall i :: 0 <= i < |tail| && tail[i] == ClearCart ==>
      i == 1 && reply.Success? && tail[2] == Navigate(reply.value.paymentUrl)
    ensures reply.Failure? ==> tail[1].ShowError? && tail[1].message != ""
  {
    match reply
    case Failure(m) =>
      // `createZarinpalPayment` rethrows with its own fallback, so the handler's never applies.
      [PostPayment(request), ShowError(ErrorText(ErrorText(m, GatewayFailedMessage), PayFailedMessage)),
       SetSubmitting(false)]
    case Success(payment) =>
      [PostPayment(request), ClearCart, Navigate(payment.paymentUrl), SetSubmitting(false)]
  }

  /** The order the handler creates, when it gets that far. */
  function OrderOf(items: Cart.Cart, createOrder: seq<OrderLine> -> Result<OrderResponse, string>): Result<OrderResponse, string> {
    createOrder(OrderLines(items))
  }

  /** Without a session the handler goes to the login page and sends nothing; this is
      decided before the cart is looked at. */
  lemma NoSessionRedirects(
    form: Form, items: Cart.Cart,
    createOrder: seq<OrderLine> -> Result<OrderResponse, string>,
    createPayment: PaymentRequest -> Result<PaymentResponse, string>)
    requires !HasToken(form.token)
    ensures var trace := HandlePay(form, items, createOrder, createPayment);
      !Requested(trace) && trace[|trace| - 1] == Push(AuthRedirect)
  {
  }

  /** With a session but an empty cart the handler shows the empty-cart message and sends nothing. */
  lemma EmptyCartStops(
    form: Form, items: Cart.Cart,
    createOrder: seq<OrderLine> -> Result<OrderResponse, string>,
    createPayment: PaymentRequest -> Result<PaymentResponse, string>)
    requires HasToken(form.token) && items == []
    ensures var trace := HandlePay(form, items, createOrder, createPayment);
      !Requested(trace) && trace[|trace| - 1] == ShowError(CartEmptyMessage)
  {
  }

  /** A request goes out exactly when there is a session and a non-empty cart. */
  lemma RequestedIff(
    form: Form, items: Cart.Cart,
    createOrder: seq<OrderLine> -> Result<OrderResponse, string>,
    createPayment: PaymentRequest -> Result<PaymentResponse, string>)
    ensures Requested(HandlePay(form, items, createOrder, createPayment)) <==> HasToken(form.token) && items != []
  {
    var trace := HandlePay(form, items, createOrder, createPayment);
    if HasToken(form.token) && items != [] {
      assert trace[2].PostOrder?;
    }
  }

  /** A handler that gets past both checks posts the order third and then carries on as
      `AfterOrder` says. */
  lemma SentTrace(
    form: Form, items: Cart.Cart,
    createOrder: seq<OrderLine> -> Result<OrderResponse, string>,
    createPayment: PaymentRequest -> Result<PaymentResponse, string>)
    requires HasToken(form.token) && items != []
    ensures HandlePay(form, items, createOrder, createPayment)
      == [ClearError, SetSubmitting(true), PostOrder(OrderLines(items))] + AfterOrder(form, createOrder(OrderLines(items)), createPayment)
  {
  }

  /** The order body is the cart's ids and quantities in cart order, and no prices. */
  lemma OrderBodyExact(
    form: Form, items: Cart.Cart,
    createOrder: seq<OrderLine> -> Result<OrderResponse, string>,
    createPayment: PaymentRequest -> Result<PaymentResponse, string>)
    ensures var trace := HandlePay(form, items, createOrder, createPayment);
      forall i :: 0 <= i < |trace| && trace[i].PostOrder? ==> i == 2 && trace[i].lines == OrderLines(items)
  {
    var trace := HandlePay(form, items, createOrder, createPayment);
    if HasToken(form.token) && items != [] {
      var tail := AfterOrder(form, createOrder(OrderLines(items)), createPayment);
      SentTrace(form, items, createOrder, createPayment);
      forall i | 0 <= i < |trace| && trace[i].PostOrder? ensures i == 2 && trace[i].lines == OrderLines(items) {
        assert i < 3 ==> trace[i] == [ClearError, SetSubmitting(true), PostOrder(OrderLines(items))][i];
      }
    }
  }

  /** A payment request is posted only after the order succeeded, and it carries the
      server's order id and the rounded server total, never the client's own total. */
  lemma PaymentAfterOrder(
    form: Form, items: Cart.Cart,
    createOrder: seq<OrderLine> -> Result<OrderResponse, string>,
    createPayment: PaymentRequest -> Result<PaymentResponse, string>)
    ensures var trace := HandlePay(form, items, createOrder, createPayment);
      forall i :: 0 <= i < |trace| && trace[i].PostPayment? ==>
        && i == 3 && trace[2].PostOrder?
        && OrderOf(items, createOrder).Success?
        && trace[i].request == PaymentRequestFor(OrderOf(items, createOrder).value, form)
  {
    var trace := HandlePay(form, items, createOrder, createPayment);
    if HasToken(form.token) && items != [] {
      SentTrace(form, items, createOrder, createPayment);
      var head := [ClearError, SetSubmitting(true), PostOrder(OrderLines(items))];
      match OrderOf(items, createOrder)
      case Failure(m) =>
        assert trace == head + OrderRefused(m);
      case Success(o) =>
        var request := PaymentRequestFor(o, form);
        var tail := PaymentStep(request, createPayment(request));
        assert trace == head + tail;
        forall i | 3 <= i < |trace| ensures trace[i] == tail[i - 3] {}
    }
  }

  /** The cart is cleared exactly when both requests succeed, after the payment response and
      immediately before leaving for the gateway's URL. */
  lemma ClearOnlyBeforeRedirect(
    form: Form, items: Cart.Cart,
    createOrder: seq<OrderLine> -> Result<OrderResponse, string>,
    createPayment: PaymentRequest -> Result<PaymentResponse, string>)
    ensures var trace := HandlePay(form, items, createOrder, createPayment);
      && (ClearCart in trace <==>
            HasToken(form.token) && items != [] && OrderOf(items, createOrder).Success?
            && createPayment(PaymentRequestFor(OrderOf(items, createOrder).value, form)).Success?)
      && (forall i :: 0 <= i < |trace| && trace[i] == ClearCart ==>
            && i + 1 < |trace|
            && trace[i + 1] == Navigate(createPayment(PaymentRequestFor(OrderOf(items, createOrder).value, form)).value.paymentUrl)
            && exists j :: 0 <= j < i && trace[j].PostPayment?)
  {
    var trace := HandlePay(form, items, createOrder, createPayment);
    if HasToken(form.token) && items != [] {
      SentTrace(form, items, createOrder, createPayment);
      match OrderOf(items, createOrder)
      case Failure(m) =>
        assert trace == [ClearError, SetSubmitting(true), PostOrder(OrderLines(items))] + OrderRefused(m);
      case Success(o) =>
        var request := PaymentRequestFor(o, form);
        ClearAfterPayment(OrderLines(items), request, createPayment(request));
    }
  }

  /** Where the cart is cleared in the trace of a handler whose order went through. */
  lemma ClearAfterPayment(lines: seq<OrderLine>, request: PaymentRequest, reply: Result<PaymentResponse, string>)
    ensures var trace := [ClearError, SetSubmitting(true), PostOrder(lines)] + PaymentStep(request, reply);
      && (ClearCart in trace <==> reply.Success?)
      && (forall i :: 0 <= i < |trace| && trace[i] == ClearCart ==>
            && i == 4 && trace[5] == Navigate(reply.value.paymentUrl) && trace[3].PostPayment?)
  {
    var tail := PaymentStep(request, reply);
    var trace := [ClearError, SetSubmitting(true), PostOrder(lines)] + tail;
    forall i | 3 <= i < |trace| ensures trace[i] == tail[i - 3] {}
  }

  /** Once a request has gone out the last effect re-enables the button, whatever happened. */
  lemma SubmittingReset(
    form: Form, items: Cart.Cart,
    createOrder: seq<OrderLine> -> Result<OrderResponse, string>,
    createPayment: PaymentRequest -> Result<PaymentResponse, string>)
    ensures var trace := HandlePay(form, items, createOrder, createPayment);
      Requested(trace) ==> trace[1] == SetSubmitting(true) && trace[|trace| - 1] == SetSubmitting(false)
  {
  }

  /** The cart the page holds after the handler: emptied only by a successful payment session. */
  function CartAfter(items: Cart.Cart, trace: seq<Event>): Cart.Cart {
    if ClearCart in trace then [] else items
  }

  /** A failure at either request shows an error and leaves the cart exactly as it was. */
  lemma FailureKeepsCart(
    form: Form, items: Cart.Cart,
    createOrder: seq<OrderLine> -> Result<OrderResponse, string>,
    createPayment: PaymentRequest -> Result<PaymentResponse, string>)
    requires HasToken(form.token) && items != []
    requires createOrder(OrderLines(items)).Failure?
      || createPayment(PaymentRequestFor(createOrder(OrderLines(items)).value, form)).Failure?
    ensures var trace := HandlePay(form, items, createOrder, createPayment);
      && CartAfter(items, trace) == items
      && exists m :: m != "" && ShowError(m) in trace
  {
    var trace := HandlePay(form, items, createOrder, createPayment);
    SentTrace(form, items, createOrder, createPayment);
    var head := [ClearError, SetSubmitting(true), PostOrder(OrderLines(items))];
    match OrderOf(items, createOrder)
    case Failure(m) =>
      assert trace == head + OrderRefused(m);
      assert trace[3].ShowError? && trace[3].message != "";
    case Success(o) =>
      var request := PaymentRequestFor(o, form);
      var tail := PaymentStep(request, createPayment(request));
      assert trace == head + tail;
      assert trace[4] == tail[1];
  }

  /** The count shown beside the order (`totalQuantity`) is the number of units the order asks for. */
  lemma {:induction false} DisplayedCountIsOrdered(items: Cart.Cart)
    ensures Cart.QuantitySum(items) == LinesQuantity(OrderLines(items))
  {
    if items != [] {
      DisplayedCountIsOrdered(items[1..]);
      assert OrderLines(items)[1..] == OrderLines(items[1..]);
    }
  }

  function LinesQuantity(lines: seq<OrderLine>): int {
    if lines == [] then 0 else lines[0].quantity + LinesQuantity(lines[1..])
  }

  /** The page-level guard (`useEffect` at load): once loading is over, a visitor without a
      user or a token is sent to the login page. */
  function LoadRedirect(loading: bool, hasUser: bool, token: Option<string>): (r: Option<string>)
    ensures r.Some? ==> r.value == AuthRedirect
    ensures r.Some? <==> !loading && (!hasUser || !HasToken(token))
  {
    if !loading && (!hasUser || !HasToken(token)) then Some(AuthRedirect) else None
  }
}
