/** Exact money: half-up rounding to cents and the firm's rule of rounding up to the next five dollars. */
module Money {
  import opened Basics

  /** Half away from zero at a number of places, given as a power of ten. */
  function RoundHalfUp(x: real, scale: int): real
    requires scale > 0
  {
    if x >= 0.0 then (x * (scale as real) + 0.5).Floor as real / (scale as real)
    else -((-x * (scale as real) + 0.5).Floor as real / (scale as real))
  }

  function ToCents(x: real): real {
    RoundHalfUp(x, 100)
  }

  function Ceiling(x: real): int {
    -(-x).Floor
  }

  function RoundUpToNearest5(x: real): real {
    5.0 * Ceiling(x / 5.0) as real
  }

  /** Percentage change to four places; there is none from a zero fee. */
  function PercentageChange(from: real, to: real): Option<real> {
    if from == 0.0 then None else Some(RoundHalfUp((to - from) / from * 100.0, 10000))
  }

  predicate WholeCents(x: real) {
    (x * 100.0).Floor as real == x * 100.0
  }

  predicate WholeFives(x: real) {
    (x / 5.0).Floor as real * 5.0 == x
  }

  lemma CentsAreClose(x: real)
    requires x >= 0.0
    ensures x - 0.005 < ToCents(x) <= x + 0.005
    ensures ToCents(x) >= 0.0 && WholeCents(ToCents(x))
  {
    var n := (x * 100.0 + 0.5).Floor;
    assert ToCents(x) * 100.0 == n as real;
  }

  /** Rounding goes to the nearest multiple of the last place, a half away from zero on either side. */
  lemma RoundsHalfAway(x: real, scale: int)
    requires scale > 0
    ensures RoundHalfUp(-x, scale) == -RoundHalfUp(x, scale)
    ensures x >= 0.0 ==>
              var places, exact := RoundHalfUp(x, scale) * scale as real, x * scale as real;
              places == places.Floor as real && exact - 0.5 < places <= exact + 0.5
  {
    var n := (x * scale as real + 0.5).Floor;
    if x >= 0.0 {
      assert RoundHalfUp(x, scale) * scale as real == n as real;
    }
    if x == 0.0 {
      assert (0.0 * scale as real + 0.5).Floor == 0;
    }
  }

  lemma FloorIs(t: real, n: int)
    requires n as real <= t
    ensures t.Floor >= n
  {
  }

  /** Nothing at a whole cent or above is rounded below it. */
  lemma CentsKeepFloor(x: real, f: real)
    requires 0.0 <= f <= x && WholeCents(f)
    ensures ToCents(x) >= f
  {
    var n := (f * 100.0).Floor;
    var m := (x * 100.0 + 0.5).Floor;
    FloorIs(x * 100.0 + 0.5, n);
    assert ToCents(x) == m as real / 100.0;
    assert f == n as real / 100.0;
  }

  lemma CeilingIs(t: real)
    ensures t <= Ceiling(t) as real < t + 1.0
  {
  }

  lemma FiveTimes(c: int)
    ensures WholeFives(5.0 * c as real)
  {
    var t := 5.0 * c as real;
    assert t / 5.0 == c as real;
    assert (t / 5.0).Floor == c;
  }

  lemma FifthOf(x: real, c: real)
    requires x / 5.0 <= c < x / 5.0 + 1.0
    ensures x <= 5.0 * c < x + 5.0
  {
  }

  /** The result is the least multiple of five not below the amount. */
  lemma FivesAreNext(x: real)
    ensures x <= RoundUpToNearest5(x) < x + 5.0
    ensures WholeFives(RoundUpToNearest5(x))
    ensures forall y :: WholeFives(y) && y >= x ==> y >= RoundUpToNearest5(x)
  {
    hide Ceiling, WholeFives;
    var c := Ceiling(x / 5.0);
    CeilingIs(x / 5.0);
    FifthOf(x, c as real);
    FiveTimes(c);
    forall y | WholeFives(y) && y >= x
      ensures y >= RoundUpToNearest5(x)
    {
      LeastFive(x, y, c);
    }
  }

  lemma LeastFive(x: real, y: real, c: int)
    requires WholeFives(y) && y >= x && c as real < x / 5.0 + 1.0
    ensures y >= 5.0 * c as real
  {
    var k := (y / 5.0).Floor;
    assert y == 5.0 * k as real;
    assert k as real + 1.0 > c as real;
    assert k >= c;
  }

  lemma FivesAreCents(x: real)
    requires WholeFives(x)
    ensures WholeCents(x)
  {
    var k := (x / 5.0).Floor;
    HundredFives(x, k);
    WholeIs(x * 100.0, 500 * k);
  }

  lemma HundredFives(x: real, k: int)
    requires k as real * 5.0 == x
    ensures x * 100.0 == (500 * k) as real
  {
  }

  lemma WholeIs(t: real, n: int)
    requires t == n as real
    ensures t.Floor as real == t
  {
  }

  /** Rounding leaves an amount alone exactly when it is already a multiple of five. */
  lemma FivesFixed(x: real)
    ensures RoundUpToNearest5(x) == x <==> WholeFives(x)
  {
    FivesAreNext(x);
  }
}
