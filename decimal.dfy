/** Rounding to a fixed number of decimal places, as the bot's `round` helper
    does it: scale by 10^d, apply ceiling, floor or half-up rounding, scale back.
    Quantities and prices are exact decimals (`real`). */
module Decimal {

  /** 10^d. */
  function Pow10(d: nat): (p: nat)
    ensures p >= 1
  {
    if d == 0 then 1 else 10 * Pow10(d - 1)
  }

  /** One unit in the last of d decimal places, 10^-d. */
  function Tick(d: nat): (t: real)
    ensures 0.0 < t <= 1.0
    ensures t * (Pow10(d) as real) == 1.0
  {
    1.0 / (Pow10(d) as real)
  }

  /** The `direction` argument of `round`: 'UP', 'DOWN', or anything else. */
  datatype Direction = Up | Down | Nearest

  /** Math.ceil. */
  function Ceil(y: real): (n: int)
    ensures y <= n as real < y + 1.0
  {
    -((-y).Floor)
  }

  /** Math.round: round half towards plus infinity. */
  function RoundHalfUp(y: real): (n: int)
    ensures y - 0.5 < n as real <= y + 0.5
  {
    (y + 0.5).Floor
  }

  /** Math.ceil, Math.floor or Math.round, as the direction selects. */
  function ToInteger(y: real, dir: Direction): int
  {
    match dir
    case Up => Ceil(y)
    case Down => y.Floor
    case Nearest => RoundHalfUp(y)
  }

  /** `number * dPlaces`. */
  function Scale(x: real, d: nat): real
  {
    x * Pow10(d) as real
  }

  /** The scaled integer `round` divides by 10^d. */
  function Scaled(x: real, d: nat, dir: Direction): int
  {
    ToInteger(Scale(x, d), dir)
  }

  /** round(x, d, dir). */
  function Round(x: real, d: nat, dir: Direction): real
  {
    Scaled(x, d, dir) as real / Pow10(d) as real
  }

  /** r has at most d decimal places. */
  predicate OnGrid(r: real, d: nat)
  {
    Scale(r, d).Floor as real == Scale(r, d)
  }

  /** Dividing by a positive number and multiplying back. */
  lemma DivMul(a: real, p: real)
    requires p > 0.0
    ensures (a / p) * p == a
  {
  }

  /** Division by a positive number keeps an order and a strict order. */
  lemma DivMonotone(a: real, b: real, p: real)
    requires p > 0.0
    ensures a <= b ==> a / p <= b / p
    ensures a < b ==> a / p < b / p
  {
    DivMul(a, p);
    DivMul(b, p);
  }

  /** The rounded value times 10^d is the scaled integer. */
  lemma RoundScaled(x: real, d: nat, dir: Direction)
    ensures Scale(Round(x, d, dir), d) == Scaled(x, d, dir) as real
  {
    DivMul(Scaled(x, d, dir) as real, Pow10(d) as real);
  }

  /** x/p + 1/p == (x + 1)/p. */
  lemma DivAddTick(a: real, d: nat)
    ensures a / Pow10(d) as real + Tick(d) == (a + 1.0) / Pow10(d) as real
  {
  }

  /** UP never goes below x and stays within one tick above it. */
  lemma RoundUpBounds(x: real, d: nat)
    ensures x <= Round(x, d, Up) < x + Tick(d)
  {
    var p := Pow10(d) as real;
    var n := Scaled(x, d, Up) as real;
    assert x * p <= n < x * p + 1.0;
    DivMonotone(x * p, n, p);
    DivMonotone(n, x * p + 1.0, p);
    DivMul(x, p);
    assert (x * p) / p == x;
    DivAddTick(x * p, d);
  }

  /** DOWN never goes above x and stays within one tick below it. */
  lemma RoundDownBounds(x: real, d: nat)
    ensures x - Tick(d) < Round(x, d, Down) <= x
  {
    var p := Pow10(d) as real;
    var n := Scaled(x, d, Down) as real;
    assert n <= x * p < n + 1.0;
    DivMonotone(n, x * p, p);
    DivMonotone(x * p, n + 1.0, p);
    assert (x * p) / p == x;
    DivAddTick(n, d);
  }

  /** Nearest rounding lands within half a tick of x, halves going up. */
  lemma RoundNearestBounds(x: real, d: nat)
    ensures x - Tick(d) / 2.0 < Round(x, d, Nearest) <= x + Tick(d) / 2.0
  {
    var p := Pow10(d) as real;
    var n := Scaled(x, d, Nearest) as real;
    assert x * p - 0.5 < n <= x * p + 0.5;
    DivMonotone(x * p - 0.5, n, p);
    DivMonotone(n, x * p + 0.5, p);
    assert (x * p) / p == x;
    assert (x * p - 0.5) / p == x - Tick(d) / 2.0;
    assert (x * p + 0.5) / p == x + Tick(d) / 2.0;
  }

  /** floor(y) <= round(y) <= ceil(y) on the scaled value. */
  lemma ScaledOrdered(y: real)
    ensures ToInteger(y, Down) <= ToInteger(y, Nearest) <= ToInteger(y, Up)
  {
    var lo, mid, hi := y.Floor, RoundHalfUp(y), Ceil(y);
    assert (lo as real) < (mid as real) + 1.0;
    assert (mid as real) < (hi as real) + 1.0;
  }

  /** DOWN <= nearest <= UP. */
  lemma RoundOrdered(x: real, d: nat)
    ensures Round(x, d, Down) <= Round(x, d, Nearest) <= Round(x, d, Up)
  {
    var p := Pow10(d) as real;
    ScaledOrdered(Scale(x, d));
    var lo, mid, hi := Scaled(x, d, Down), Scaled(x, d, Nearest), Scaled(x, d, Up);
    assert lo <= mid <= hi;
    DivMonotone(lo as real, mid as real, p);
    DivMonotone(mid as real, hi as real, p);
  }

  /** Every rounding result has at most d decimal places. */
  lemma RoundOnGrid(x: real, d: nat, dir: Direction)
    ensures OnGrid(Round(x, d, dir), d)
  {
    RoundScaled(x, d, dir);
  }

  /** An integral scaled value is left as it is by every direction. */
  lemma ScaledIntegral(y: real, n: int, dir: Direction)
    requires n as real == y
    ensures ToInteger(y, dir) == n
  {
    assert (-y).Floor == -n;
    assert (y + 0.5).Floor == n;
  }

  /** A value that already has at most d decimal places is left as it is. */
  lemma RoundFixesGrid(r: real, d: nat, dir: Direction)
    requires OnGrid(r, d)
    ensures Round(r, d, dir) == r
  {
    GridScaled(r, d, dir);
    var p := Pow10(d) as real;
    DivMul(r, p);
  }

  /** On the grid, the scaled integer is the scaled value itself. */
  lemma GridScaled(r: real, d: nat, dir: Direction)
    requires OnGrid(r, d)
    ensures Scaled(r, d, dir) as real == Scale(r, d)
  {
    ScaledIntegral(Scale(r, d), Scale(r, d).Floor, dir);
  }

  /** Rounding twice is rounding once. */
  lemma RoundIdempotent(x: real, d: nat, dir: Direction)
    ensures Round(Round(x, d, dir), d, dir) == Round(x, d, dir)
  {
    RoundOnGrid(x, d, dir);
    RoundFixesGrid(Round(x, d, dir), d, dir);
  }

  /** Rounding in any direction preserves order. */
  lemma RoundMonotone(x: real, y: real, d: nat, dir: Direction)
    requires x <= y
    ensures Round(x, d, dir) <= Round(y, d, dir)
  {
    ScaledIsMonotone(x, y, d, dir);
    DivMonotone(Scaled(x, d, dir) as real, Scaled(y, d, dir) as real, Pow10(d) as real);
  }

  /** Scaling by 10^d keeps an order. */
  lemma ScaleMonotone(x: real, y: real, d: nat)
    requires x <= y
    ensures Scale(x, d) <= Scale(y, d)
  {
  }

  /** The scaled integer grows with x. */
  lemma ScaledIsMonotone(x: real, y: real, d: nat, dir: Direction)
    requires x <= y
    ensures Scaled(x, d, dir) <= Scaled(y, d, dir)
  {
    ScaleMonotone(x, y, d);
    ScaledMonotone(Scale(x, d), Scale(y, d), dir);
  }

  /** Floor, ceiling and half-up rounding preserve order. */
  lemma ScaledMonotone(a: real, b: real, dir: Direction)
    requires a <= b
    ensures ToInteger(a, dir) <= ToInteger(b, dir)
  {
    assert (-b).Floor <= (-a).Floor;
    assert (a + 0.5).Floor <= (b + 0.5).Floor;
  }

  /** UP is the least d-place value that is not below x. */
  lemma RoundUpIsLeast(x: real, g: real, d: nat)
    requires OnGrid(g, d) && x <= g
    ensures Round(x, d, Up) <= g
  {
    RoundMonotone(x, g, d, Up);
    RoundFixesGrid(g, d, Up);
  }

  /** DOWN is the greatest d-place value that is not above x. */
  lemma RoundDownIsGreatest(x: real, g: real, d: nat)
    requires OnGrid(g, d) && g <= x
    ensures g <= Round(x, d, Down)
  {
    RoundMonotone(g, x, d, Down);
    RoundFixesGrid(g, d, Down);
  }
}
