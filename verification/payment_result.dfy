/** The payment result page (`frontend/app/payment/result/page.tsx`): it reads the query
    string the backend's gateway callback redirects to and decides what to show. */
module PaymentResult {
  import opened Wrappers
  import opened Text

  /** The query parameters the page reads; an absent parameter is `None`. */
  datatype Query = Query(
    status: Option<string>, orderId: Option<string>, refId: Option<string>,
    amount: Option<string>, message: Option<string>, code: Option<string>)

  /** A JavaScript number as `Number(text)` produces it. */
  datatype JsNumber = NaN | Finite(v: real)

  /** `Number(text)`. Decimal integer text (optionally signed, possibly surrounded by white
      space) is converted exactly; every other form (fractions, exponents, hex, `Infinity`,
      blank text) is left to `other`. */
  function Number(text: string, other: string -> JsNumber): (r: JsNumber)
    ensures ParseInt(Trim(text)).Some? ==> r == Finite(ParseInt(Trim(text)).value as real)
  {
    match ParseInt(Trim(text))
    case Some(n) => Finite(n as real)
    case None => other(text)
  }

  /** JavaScript truthiness of a number. */
  predicate TruthyNumber(n: JsNumber) {
    n.Finite? && n.v != 0.0
  }

  datatype Parsed = Parsed(
    status: string, success: bool, orderId: Option<string>, refId: Option<string>,
    amount: Option<JsNumber>, message: Option<string>, code: Option<string>)

  /** The page's reading of its parameters. */
  function Parse(q: Query, other: string -> JsNumber): (r: Parsed)
    ensures r.success <==> q.status == Some("success")
    ensures !Given(q.status) ==> r.status == "failed" && !r.success
    ensures r.orderId == q.orderId && r.refId == q.refId && r.code == q.code
    ensures r.amount.None? <==> !Given(q.amount)
    ensures Given(q.amount) ==> r.amount == Some(Number(q.amount.value, other))
    ensures r.message.None? <==> !Given(q.message)
    ensures Given(q.message) ==>
      && |r.message.value| == |q.message.value|
      && forall k :: 0 <= k < |q.message.value| ==>
           r.message.value[k] == (if q.message.value[k] == '+' then ' ' else q.message.value[k])
  {
    var status := if Given(q.status) then q.status.value else "failed";
    Parsed(
      status, status == "success", q.orderId, q.refId,
      if Given(q.amount) then Some(Number(q.amount.value, other)) else None,
      if Given(q.message) then Some(ReplaceAll(q.message.value, '+', ' ')) else None,
      q.code)
  }

  /** What one cell of the summary shows. `Amount` is a number that `toLocaleString`
      formats, followed by the currency name; `Pending` is the "being received" placeholder. */
  datatype Cell = Shown(text: string) | Amount(v: real) | Dash | Pending

  /** The message line of the error block: the given text, or the stock apology. */
  datatype Detail = GivenMessage(text: string) | Apology

  datatype ErrorBlock = ErrorBlock(detail: Detail, code: Option<string>)

  datatype View = View(success: bool, orderId: Cell, amount: Cell, refId: Cell, error: Option<ErrorBlock>)

  function Render(p: Parsed): (v: View)
    ensures v.success == p.success
    // The error details appear exactly on failure.
    ensures v.error.Some? <==> !p.success
    ensures v.error.Some? ==> (v.error.value.code.Some? <==> Given(p.code))
    ensures v.orderId == (if Given(p.orderId) then Shown(p.orderId.value) else Dash)
    // A zero, non-numeric or absent amount shows a dash.
    ensures v.amount.Dash? <==> p.amount.None? || !TruthyNumber(p.amount.value)
    ensures !v.amount.Dash? ==> v.amount == Amount(p.amount.value.v) && v.amount.v != 0.0
    // A missing reference id is "pending" on success and a dash on failure.
    ensures !Given(p.refId) ==> v.refId == (if p.success then Pending else Dash)
    ensures Given(p.refId) ==> v.refId == Shown(p.refId.value)
  {
    View(
      p.success,
      if Given(p.orderId) then Shown(p.orderId.value) else Dash,
      if p.amount.Some? && TruthyNumber(p.amount.value) then Amount(p.amount.value.v) else Dash,
      if Given(p.refId) then Shown(p.refId.value) else if p.success then Pending else Dash,
      if p.success then None
      else Some(ErrorBlock(
        if p.message.Some? && p.message.value != "" then GivenMessage(p.message.value) else Apology,
        if Given(p.code) then p.code else None)))
  }

  /** The page as a whole: parse, then render. */
  function Page(q: Query, other: string -> JsNumber): View {
    Render(Parse(q, other))
  }

  /** The shown message never holds a `+`, and a message without one is shown verbatim. */
  lemma MessageDecoded(q: Query, other: string -> JsNumber)
    requires Given(q.message) && !Page(q, other).success
    ensures var d := Page(q, other).error.value.detail;
      && d.GivenMessage?
      && (forall k :: 0 <= k < |d.text| ==> d.text[k] != '+')
      && ('+' !in q.message.value ==> d.text == q.message.value)
  {
    var m := q.message.value;
    var r := ReplaceAll(m, '+', ' ');
    assert r != "" by { assert |r| == |m|; }
    if '+' !in m {
      assert forall k :: 0 <= k < |m| ==> m[k] != '+';
      assert r == m;
    }
  }

  /** An amount written as decimal integer text reaches the page as that number, so only a
      zero amount falls back to a dash. */
  lemma IntegerAmountShown(q: Query, other: string -> JsNumber, n: int)
    requires q.amount == Some(IntToString(n))
    ensures Page(q, other).amount == (if n == 0 then Dash else Amount(n as real))
  {
    NumberOfIntText(n, other);
    assert Parse(q, other).amount == Some(Finite(n as real));
  }

  /** `Number` reads back the decimal text of an integer. */
  lemma NumberOfIntText(n: int, other: string -> JsNumber)
    ensures Number(IntToString(n), other) == Finite(n as real)
  {
    IntToStringRoundTrip(n);
    IntToStringTrimmed(n);
  }
}
