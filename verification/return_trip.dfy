/** The payment return trip end to end: the redirect the gateway callback issues
    (`backend/app/api/v1/endpoints/payments.py`) read back by the result page
    (`frontend/app/payment/result/page.tsx`). */
module ReturnTrip {
  import opened Wrappers
  import Text
  import Payments
  import PaymentResult
  import Zarinpal
  import Store

  function IntText(v: Option<int>): (r: Option<string>)
    ensures r.Some? <==> v.Some?
    ensures r.Some? ==> Text.ParseInt(r.value) == v
  {
    if v.Some? then
      Text.IntToStringRoundTrip(v.value);
      Some(Text.IntToString(v.value))
    else None
  }

  /** The parameters the page receives for a redirect: every parameter the callback wrote,
      decoded back to its text. */
  function Received(t: Payments.Target): (q: PaymentResult.Query)
    ensures q.status == Some(if t.success then "success" else "failed")
    ensures q.message == t.message
  {
    PaymentResult.Query(
      Some(if t.success then "success" else "failed"),
      IntText(t.orderId), IntText(t.refId), IntText(t.amount), t.message, IntText(t.code))
  }

  /** What the page shows for any redirect the callback can write. */
  lemma PageReadsTarget(t: Payments.Target, other: string -> PaymentResult.JsNumber)
    ensures var v := PaymentResult.Page(Received(t), other);
      && v.success == t.success
      && (t.orderId.Some? ==> v.orderId == PaymentResult.Shown(Text.IntToString(t.orderId.value)))
      && (t.amount.Some? ==> v.amount == (if t.amount.value == 0 then PaymentResult.Dash else PaymentResult.Amount(t.amount.value as real)))
      && (t.refId.Some? ==> v.refId == PaymentResult.Shown(Text.IntToString(t.refId.value)))
      && (t.success && t.refId.None? ==> v.refId == PaymentResult.Pending)
      && (!t.success && t.code.Some? ==> v.error.value.code == Some(Text.IntToString(t.code.value)))
      && (!t.success && t.message.Some? && t.message.value != "" && '+' !in t.message.value ==>
            v.error.value.detail == PaymentResult.GivenMessage(t.message.value))
  {
    var q := Received(t);
    if t.amount.Some? {
      PaymentResult.IntegerAmountShown(q, other, t.amount.value);
    }
    if !t.success && t.message.Some? && t.message.value != "" {
      PaymentResult.MessageDecoded(q, other);
    }
  }

  /** After the callback, the result page reports success exactly when the gateway verified
      the payment; it then shows the order and the amount charged for it. */
  lemma CallbackPageAgrees(db: Store.Db, settings: Payments.PaymentSettings, env: Zarinpal.Env,
                           urlparse: string -> Option<(string, string)>, authority: string, status: string,
                           other: string -> PaymentResult.JsNumber)
    requires Payments.ZarinpalCallback(db, settings, env, urlparse, authority, status).Success?
    ensures var t := Payments.ZarinpalCallback(db, settings, env, urlparse, authority, status).value.1;
      var step := Payments.Classify(db, settings, env, urlparse, authority, status);
      var v := PaymentResult.Page(Received(t), other);
      && (v.success <==> step.Success? && step.value.Verified?)
      && (v.success ==>
            var o := Payments.OrderByAuthority(db, authority).value;
            && v.orderId == PaymentResult.Shown(Text.IntToString(o.id))
            && v.amount == (if Payments.ChargedAmount(o) == 0 then PaymentResult.Dash
                            else PaymentResult.Amount(Payments.ChargedAmount(o) as real)))
  {
    var t := Payments.ZarinpalCallback(db, settings, env, urlparse, authority, status).value.1;
    PageReadsTarget(t, other);
  }
}
