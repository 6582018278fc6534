/** Exact models of the rounding operations applied to prices and amounts.
    Python's `round` rounds halves to even; JavaScript's `Math.round` rounds
    halves up; Python's `int(x)` on a float truncates toward zero. */
module Money {

  /** JavaScript `Math.round(x)`: the nearest integer, halves going up. */
  function JsRound(x: real): (r: int)
    ensures x - 0.5 < r as real <= x + 0.5
  {
    (x + 0.5).Floor
  }

  /** Python `round(x)`: the nearest integer, halves going to the even neighbour. */
  function PyRound(x: real): (r: int)
    ensures x - 0.5 <= r as real <= x + 0.5
    ensures (r as real == x - 0.5 || r as real == x + 0.5) ==> r % 2 == 0
  {
    var f := x.Floor;
    var d := x - f as real;
    if d < 0.5 then f
    else if d > 0.5 then f + 1
    else if f % 2 == 0 then f
    else f + 1
  }

  /** Python `round(x, 2)`: the nearest hundredth, ties to the even hundredth. */
  function PyRound2(x: real): (r: real)
    ensures x - 0.005 <= r <= x + 0.005
    // The result is a whole number of hundredths ...
    ensures (r * 100.0).Floor as real == r * 100.0
    // ... and of two equally near hundredths it is the even one.
    ensures (r == x - 0.005 || r == x + 0.005) ==> (r * 100.0).Floor % 2 == 0
  {
    var n := PyRound(x * 100.0);
    Hundredths(n);
    n as real / 100.0
  }

  /** `n` hundredths, scaled back up, are `n` again. */
  lemma Hundredths(n: int)
    ensures (n as real / 100.0) * 100.0 == n as real
    ensures ((n as real / 100.0) * 100.0).Floor == n
  {
  }

  /** Python `int(x)` on a float: drops the fractional part toward zero. */
  function Trunc(x: real): (r: int)
    ensures x >= 0.0 ==> 0 <= r && r as real <= x < r as real + 1.0
    ensures x < 0.0 ==> r <= 0 && r as real - 1.0 < x <= r as real
  {
    if x >= 0.0 then x.Floor else -((-x).Floor)
  }

  /** Rounding is the identity on whole amounts. */
  lemma RoundWhole(n: int)
    ensures JsRound(n as real) == n && PyRound(n as real) == n && Trunc(n as real) == n
  {
  }

  /** A whole number of toman times one tenth or one twentieth already has at most two
      decimals, so `round(·, 2)` leaves it unchanged. */
  lemma Round2OfCents(c: int)
    ensures PyRound2(c as real / 100.0) == c as real / 100.0
  {
    assert (c as real / 100.0) * 100.0 == c as real;
    RoundWhole(c);
  }
}
