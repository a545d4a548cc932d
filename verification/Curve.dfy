/**
 * The concentration curve: cumulative shares of posted-sale revenue, each rounded to four places as it
 * is computed, over values ranked from the largest.
 */
module Curve {
  import opened Records
  import opened Summaries
  import opened Texts

  /** Four decimal places: a share of one is 10000. */
  const UNIT := 10000

  datatype ConcentrationCurve = ConcentrationCurve(distinctValues: nat, rankedValues: nat, shares: seq<int>)

  function Total(values: seq<int>): int {
    if values == [] then 0 else Total(values[..|values| - 1]) + values[|values| - 1]
  }

  /** Decimal quantization: to the nearest, and to the even neighbour when halfway. */
  function RoundHalfEven(numerator: int, denominator: int): (rounded: int)
    requires denominator > 0
  {
    var q, r := numerator / denominator, numerator % denominator;
    if 2 * r < denominator || (2 * r == denominator && q % 2 == 0) then q else q + 1
  }

  /** Within half a unit of the exact quotient, and even when exactly half a unit away. */
  lemma RoundingIsNearest(numerator: int, denominator: int)
    requires denominator > 0
    ensures var x := RoundHalfEven(numerator, denominator);
            && -denominator <= 2 * (x * denominator - numerator) <= denominator
            && (2 * (x * denominator - numerator) in {-denominator, denominator} ==> x % 2 == 0)
  {
    var q, r := numerator / denominator, numerator % denominator;
    assert numerator == q * denominator + r;
    assert (q + 1) * denominator == q * denominator + denominator;
  }

  /** A larger fraction never rounds to less. */
  lemma RoundingIsMonotone(a: int, b: int, c: int, d: int)
    requires b > 0 && d > 0 && a * d <= c * b
    ensures RoundHalfEven(a, b) <= RoundHalfEven(c, d)
  {
    RoundingIsNearest(a, b);
    RoundingIsNearest(c, d);
    var x, y := RoundHalfEven(a, b), RoundHalfEven(c, d);
    if x > y {
      NearestMeet(a, b, c, d, x, y);
    }
  }

  /** Two roundings in the wrong order would both have to be exact halves, and both even. */
  lemma NearestMeet(a: int, b: int, c: int, d: int, x: int, y: int)
    requires b > 0 && d > 0 && a * d <= c * b && x > y
    requires 2 * (x * b - a) <= b && -d <= 2 * (y * d - c)
    ensures x == y + 1 && 2 * (x * b - a) == b && 2 * (y * d - c) == -d
  {
    var m := b * d;
    Scale(1, b, d);
    OverCommonDenominator(x, a, b, d);
    OverCommonDenominator(-y, -c, d, b);
    assert d * b == m && (-c) * b == -(c * b) && (-y) * m == -(y * m);
    assert (x - y) * m == x * m - y * m;
    Cancel(x - y, m, x * m, y * m);
  }

  /** Half a unit's distance, and whether it is all of it, survives scaling. */
  lemma OverCommonDenominator(x: int, a: int, b: int, d: int)
    requires b > 0 && d > 0 && 2 * (x * b - a) <= b
    ensures 2 * (x * (b * d)) - 2 * (a * d) <= b * d
    ensures 2 * (x * b - a) < b ==> 2 * (x * (b * d)) - 2 * (a * d) < b * d
  {
    var gap := 2 * (x * b - a);
    assert gap * d == 2 * (x * (b * d)) - 2 * (a * d);
    if gap < b {
      StrictScale(gap, b, d);
    }
  }

  lemma Scale(p: int, q: int, k: int)
    requires p <= q && k > 0
    ensures p * k <= q * k
  {
  }

  lemma StrictScale(p: int, q: int, k: int)
    requires p < q && k > 0
    ensures p * k < q * k
  {
  }

  lemma Cancel(n: int, k: int, x: int, y: int)
    requires n > 0 && k > 0 && n * k == x - y && x - y <= k
    ensures n == 1
  {
    if n > 1 {
      StrictScale(1, n, k);
    }
  }

  /** A whole number rounds to itself, over any denominator. */
  lemma WholeRoundsToItself(x: int, denominator: int)
    requires denominator > 0
    ensures RoundHalfEven(x * denominator, denominator) == x
  {
    RoundingIsNearest(x * denominator, denominator);
    var r := RoundHalfEven(x * denominator, denominator);
    assert r * denominator - x * denominator == (r - x) * denominator;
    if r > x {
      Scale(1, r - x, denominator);
    } else if r < x {
      Scale(1, x - r, denominator);
    }
  }

  // ----- a quotient of limited precision -------------------------------------------------------

  /** The significant digits a quotient is first rounded to, before it is quantized. */
  const PRECISION := 60

  /** The smallest number with that many digits. */
  const LEAST := Power(PRECISION - 1)

  /** The places after which a fraction of a positive share has all its significant digits. */
  function Places(a: int, b: int): (places: nat)
    requires 0 < a && 0 < b
    ensures a * Power(places) >= LEAST * b
    ensures places > 0 ==> a * Power(places - 1) < LEAST * b
    decreases LEAST * b - a
  {
    if a >= LEAST * b then 0
    else
      var more := Places(10 * a, b);
      OnePlaceOn(a, more);
      more + 1
  }

  lemma OnePlaceOn(a: int, more: nat)
    ensures a * Power(more + 1) == (10 * a) * Power(more)
    ensures more > 0 ==> a * Power(more) == (10 * a) * Power(more - 1)
  {
    assert Power(more + 1) == 10 * Power(more);
  }

  /** A share as it is published: divided to the limited precision, then quantized to four places. */
  function Published(a: int, b: int): int
    requires 0 <= a <= b && 0 < b
  {
    if a == 0 then 0
    else
      var scale := Power(Places(a, b));
      RoundHalfEven(UNIT * RoundHalfEven(a * scale, b), scale)
  }

  lemma {:induction false} PowersRise(m: nat, n: nat)
    requires m <= n
    ensures Power(m) <= Power(n) && (m < n ==> 10 * Power(m) <= Power(n))
    decreases n
  {
    if m == n {
    } else {
      PowersRise(m, n - 1);
    }
  }

  lemma RoundsInRange(scaled: int, b: int, least: nat)
    requires b > 0 && least * b <= scaled <= 10 * least * b
    ensures least <= RoundHalfEven(scaled, b) <= 10 * least
  {
    RoundingIsMonotone(least, 1, scaled, b);
    RoundingIsMonotone(scaled, b, 10 * least, 1);
    WholeRoundsToItself(least, 1);
    WholeRoundsToItself(10 * least, 1);
  }

  lemma NotTooLarge(a: int, b: int, power: int, least: int)
    requires a * power < least * b
    ensures a * (10 * power) <= 10 * least * b
  {
    assert a * (10 * power) == 10 * (a * power) && 10 * least * b == 10 * (least * b);
  }

  /** A rounded quotient has all its digits and no more. */
  lemma DigitsInRange(a: int, b: int)
    requires 0 < a <= b
    ensures LEAST <= RoundHalfEven(a * Power(Places(a, b)), b) <= 10 * LEAST
  {
    var p := Places(a, b);
    if p > 0 {
      NotTooLarge(a, b, Power(p - 1), LEAST);
    } else {
      Scale(1, 10 * LEAST, b);
    }
    RoundsInRange(a * Power(p), b, LEAST);
  }

  lemma FewerPlacesMeansMore(a: int, b: int, c: int, d: int, scale: int, least: int)
    requires b > 0 && d > 0 && scale > 0 && a * scale >= least * b && c * scale < least * d
    ensures a * d > c * b
  {
    Scale(least * b, a * scale, d);
    StrictScale(c * scale, least * d, b);
    assert (least * b) * d == (least * d) * b;
    assert (a * scale) * d == (a * d) * scale && (c * scale) * b == (c * b) * scale;
    if a * d <= c * b {
      Scale(a * d, c * b, scale);
    }
  }

  lemma PlacesFall(a: int, b: int, c: int, d: int)
    requires 0 < a <= b && 0 < c <= d && a * d <= c * b
    ensures Places(a, b) >= Places(c, d)
  {
    var p, q := Places(a, b), Places(c, d);
    if p < q {
      PowersRise(p, q - 1);
      ScaleNat(Power(p), Power(q - 1), c);
      FewerPlacesMeansMore(a, b, c, d, Power(p), LEAST);
    }
  }

  lemma QuotientsInOrder(a: int, b: int, c: int, d: int, scale: int)
    requires b > 0 && d > 0 && scale > 0 && a * d <= c * b
    ensures RoundHalfEven(a * scale, b) <= RoundHalfEven(c * scale, d)
  {
    Scale(a * d, c * b, scale);
    assert (a * scale) * d == (a * d) * scale && (c * scale) * b == (c * b) * scale;
    RoundingIsMonotone(a * scale, b, c * scale, d);
  }

  lemma DecadesInOrder(r: int, s: int, q: int, t: int, least: int)
    requires 0 <= r <= 10 * least && q >= least && 0 < t && 10 * t <= s
    ensures r * t <= q * s
  {
    Scale(r, 10 * least, t);
    ScaleInt(10 * t, s, least);
    assert (10 * least) * t == least * (10 * t);
    ScaleInt(least, q, s);
    assert least * s == s * least && q * s == s * q;
  }

  lemma ScaleInt(p: int, q: int, k: int)
    requires p <= q && k >= 0
    ensures k * p <= k * q
  {
  }

  lemma SharesInOrder(r: int, s: int, q: int, t: int)
    requires s > 0 && t > 0 && r * t <= q * s
    ensures RoundHalfEven(UNIT * r, s) <= RoundHalfEven(UNIT * q, t)
  {
    assert (UNIT * r) * t == UNIT * (r * t) && (UNIT * q) * s == UNIT * (q * s);
    RoundingIsMonotone(UNIT * r, s, UNIT * q, t);
  }

  lemma DigitsInOrder(a: int, b: int, c: int, d: int)
    requires 0 < a <= b && 0 < c <= d && a * d <= c * b
    ensures var s, t := Power(Places(a, b)), Power(Places(c, d));
            RoundHalfEven(a * s, b) * t <= RoundHalfEven(c * t, d) * s
  {
    var s, t := Power(Places(a, b)), Power(Places(c, d));
    var r, q := RoundHalfEven(a * s, b), RoundHalfEven(c * t, d);
    PlacesFall(a, b, c, d);
    if Places(a, b) == Places(c, d) {
      QuotientsInOrder(a, b, c, d, s);
      Scale(r, q, s);
    } else {
      DigitsInRange(a, b);
      DigitsInRange(c, d);
      PowersRise(Places(c, d), Places(a, b));
      DecadesInOrder(r, s, q, t, LEAST);
    }
  }

  /** A larger share is never published as less. */
  lemma PublishedIsMonotone(a: int, b: int, c: int, d: int)
    requires 0 <= a <= b && 0 < b && 0 <= c <= d && 0 < d && a * d <= c * b
    ensures 0 <= Published(a, b) <= Published(c, d)
  {
    PublishedIsNotNegative(a, b);
    PublishedIsNotNegative(c, d);
    if a > 0 {
      StrictScale(0, a, d);
      assert c != 0;
      var s, t := Power(Places(a, b)), Power(Places(c, d));
      DigitsInOrder(a, b, c, d);
      SharesInOrder(RoundHalfEven(a * s, b), s, RoundHalfEven(c * t, d), t);
    }
  }

  lemma PublishedIsNotNegative(a: int, b: int)
    requires 0 <= a <= b && 0 < b
    ensures Published(a, b) >= 0
  {
    if a > 0 {
      DigitsInRange(a, b);
      var scale := Power(Places(a, b));
      RoundingIsMonotone(0, 1, UNIT * RoundHalfEven(a * scale, b), scale);
    }
  }

  /** The whole is published as exactly one. */
  lemma WholeIsOne(b: int)
    requires b > 0
    ensures Published(b, b) == UNIT
  {
    var scale := Power(Places(b, b));
    assert b * scale == scale * b;
    WholeRoundsToItself(scale, b);
    WholeRoundsToItself(UNIT, scale);
  }

  // ----- two roundings that act as one ---------------------------------------------------------

  lemma NearestIsRounded(x: int, n: int, d: int)
    requires d > 0 && -d < 2 * (x * d - n) < d
    ensures RoundHalfEven(n, d) == x
  {
    RoundingIsNearest(n, d);
    var r := RoundHalfEven(n, d);
    assert r * d - x * d == (r - x) * d;
    if r > x {
      Scale(1, r - x, d);
    } else if r < x {
      Scale(1, x - r, d);
    }
  }

  lemma CancelAtMost(m: int, k: int, d: int)
    requires d > 0 && m * d <= k * d
    ensures m <= k
  {
    if m > k {
      StrictScale(k, m, d);
    }
  }

  lemma CancelBelow(m: int, k: int, d: int)
    requires d > 0 && m * d < k * d
    ensures m < k
  {
    if m >= k {
      Scale(k, m, d);
    }
  }

  lemma GapsCombine(x: int, a: int, b: int, r: int, scale: int)
    ensures 2 * (x * scale - UNIT * r) * b == 2 * (x * b - UNIT * a) * scale - UNIT * (2 * (r * b - a * scale))
  {
    var xs, xb, rb, at := x * scale, x * b, r * b, a * scale;
    assert xs * b == xb * scale;
    assert 2 * (xs - UNIT * r) * b == 2 * (xs * b) - 2 * UNIT * rb;
    assert 2 * (xb - UNIT * a) * scale == 2 * (xb * scale) - 2 * UNIT * at;
  }

  lemma StaysNearest(x: int, a: int, b: int, r: int, scale: int)
    requires b > 0 && scale > 0 && UNIT * b < scale
    requires -b < 2 * (x * b - UNIT * a) < b
    requires -b <= 2 * (r * b - a * scale) <= b
    ensures -scale < 2 * (x * scale - UNIT * r) < scale
  {
    var gap, far := 2 * (x * b - UNIT * a), 2 * (x * scale - UNIT * r);
    GapsCombine(x, a, b, r, scale);
    GapStaysSmall(gap, b, 2 * (r * b - a * scale), scale, far);
  }

  lemma GapStaysSmall(gap: int, b: int, slip: int, scale: int, far: int)
    requires b > 0 && scale > 0 && UNIT * b < scale && -b < gap < b && -b <= slip <= b
    requires far * b == gap * scale - UNIT * slip
    ensures -scale < far < scale
  {
    Scale(gap, b - 1, scale);
    Scale(1 - b, gap, scale);
    assert (b - 1) * scale == scale * b - scale && (1 - b) * scale == scale - scale * b;
    CancelBelow(far, scale, b);
    assert (-scale) * b == -(scale * b);
    CancelBelow(-scale, far, b);
  }

  /** Exactly halfway: the quotient is short enough to be exact, so the second rounding sees the tie. */
  lemma StaysHalfway(x: int, a: int, b: int, t: int, sign: int)
    requires b > 0 && t > 0 && sign in {-1, 1} && x % 2 == 0
    requires 2 * (x * b - UNIT * a) == sign * b
    ensures RoundHalfEven(a * (2 * UNIT * t), b) == (2 * x - sign) * t
    ensures RoundHalfEven(UNIT * ((2 * x - sign) * t), 2 * UNIT * t) == x
  {
    var h := 2 * x - sign;
    assert 2 * UNIT * a == h * b;
    assert a * (2 * UNIT * t) == (2 * UNIT * a) * t == (h * b) * t == (h * t) * b;
    WholeRoundsToItself(h * t, b);
    var n, d := UNIT * (h * t), 2 * UNIT * t;
    assert x * d == UNIT * ((2 * x) * t);
    assert (2 * x) * t - h * t == sign * t;
    assert 2 * (x * d - n) == sign * d;
    HalfwayGoesEven(x, n, d, sign == 1);
  }

  /** `m` units off a tie whose nearer even neighbour is none off, and itself even or no tie. */
  lemma NoneOff(m: int, apart: int, d: int, up: bool, even: bool)
    requires d > 0 && apart == m * d
    requires if up then -d <= apart <= 0 else 0 <= apart <= d
    requires apart == (if up then -d else d) ==> even
    requires m % 2 != 0 ==> !even
    ensures m == 0
  {
    if up {
      CancelAtMost(m, 0, d);
      CancelAtMost(-1, m, d);
    } else {
      CancelAtMost(m, 1, d);
      CancelAtMost(0, m, d);
    }
  }

  lemma NearestOfTie(x: int, r: int, xd: int, rd: int, n: int, d: int, up: bool)
    requires d > 0 && x % 2 == 0 && xd == x * d && rd == r * d
    requires 2 * (xd - n) == if up then d else -d
    requires -d <= 2 * (rd - n) <= d && (2 * (rd - n) == d || 2 * (rd - n) == -d ==> r % 2 == 0)
    ensures r == x
  {
    assert (r - x) * d == rd - xd;
    NoneOff(r - x, rd - xd, d, up, r % 2 == 0);
  }

  lemma HalfwayGoesEven(x: int, n: int, d: int, up: bool)
    requires d > 0 && x % 2 == 0 && 2 * (x * d - n) == if up then d else -d
    ensures RoundHalfEven(n, d) == x
  {
    RoundingIsNearest(n, d);
    var r := RoundHalfEven(n, d);
    NearestOfTie(x, r, x * d, r * d, n, d, up);
  }

  lemma FourMorePlaces(b: int)
    requires b < Power(55)
    ensures UNIT * b < LEAST
  {
    assert Power(59) == 10 * Power(58) && Power(58) == 10 * Power(57);
    assert Power(57) == 10 * Power(56) && Power(56) == 10 * Power(55);
  }

  /** For every total below ten to the fifty-fifth, dividing to sixty digits first changes no share. */
  lemma RoundsTwiceAsOnce(a: int, b: int)
    requires 0 <= a <= b && 0 < b < Power(55)
    ensures Published(a, b) == RoundHalfEven(10_000 * a, b)
  {
    FourMorePlaces(b);
    if a == 0 {
      WholeRoundsToItself(0, b);
    } else {
      var p := Places(a, b);
      var scale := Power(p);
      assert scale >= LEAST by {
        if scale < LEAST {
          StrictScale(scale, LEAST, b);
          Scale(a, b, scale);
        }
      }
      var x := RoundHalfEven(UNIT * a, b);
      RoundingIsNearest(UNIT * a, b);
      RoundingIsNearest(a * scale, b);
      var gap := 2 * (x * b - UNIT * a);
      if gap in {-b, b} {
        var t := ManyPlaces(p);
        StaysHalfway(x, a, b, t, if gap == b then 1 else -1);
      } else {
        StaysNearest(x, a, b, RoundHalfEven(a * scale, b), scale);
        NearestIsRounded(x, UNIT * RoundHalfEven(a * scale, b), scale);
      }
    }
  }

  lemma ManyPlaces(p: nat) returns (t: int)
    requires Power(p) >= LEAST
    ensures t > 0 && Power(p) == 2 * UNIT * t
  {
    assert p >= 5 by {
      if p < 5 {
        PowersRise(p, 5);
        PowersRise(6, PRECISION - 1);
      }
    }
    t := 5 * Power(p - 5);
    assert Power(p) == 10 * Power(p - 1) && Power(p - 1) == 10 * Power(p - 2);
    assert Power(p - 2) == 10 * Power(p - 3) && Power(p - 3) == 10 * Power(p - 4);
    assert Power(p - 4) == 10 * Power(p - 5);
  }

  // ----- the curve -----------------------------------------------------------------------------

  /** The sale totals of the values that have one, in rank order. */
  function Ranked(ordered: seq<Summary>): (ranked: seq<int>)
    ensures |ranked| <= |ordered|
    ensures forall v :: v in ranked <==> exists s :: s in ordered && s.salePresent && s.saleTotal == v
  {
    if ordered == [] then []
    else
      var last := ordered[|ordered| - 1];
      Ranked(ordered[..|ordered| - 1]) + if last.salePresent then [last.saleTotal] else []
  }

  /** Nothing ranked is negative, and something is positive. */
  predicate Shareable(ranked: seq<int>) {
    Total(ranked) > 0 && forall i :: 0 <= i < |ranked| ==> ranked[i] >= 0
  }

  lemma {:induction false} TotalsRise(values: seq<int>, i: nat, j: nat)
    requires i <= j <= |values| && forall k :: 0 <= k < |values| ==> values[k] >= 0
    ensures 0 <= Total(values[..i]) <= Total(values[..j])
    decreases j
  {
    if j == 0 {
    } else {
      assert values[..j][..j - 1] == values[..j - 1];
      if i < j {
        TotalsRise(values, i, j - 1);
      } else {
        TotalsRise(values, i - 1, j - 1);
      }
    }
  }

  lemma RunningInRange(ranked: seq<int>, k: nat)
    requires Shareable(ranked) && k <= |ranked|
    ensures 0 <= Total(ranked[..k]) <= Total(ranked)
  {
    TotalsRise(ranked, k, |ranked|);
    assert ranked[..|ranked|] == ranked;
  }

  function Share(ranked: seq<int>, k: nat): int
    requires Shareable(ranked) && k < |ranked|
  {
    RunningInRange(ranked, k + 1);
    Published(Total(ranked[..k + 1]), Total(ranked))
  }

  predicate Statable(ordered: seq<Summary>) {
    && (forall i :: 0 <= i < |ordered| ==> !ordered[i].saleAbsent)
    && Shareable(Ranked(ordered))
  }

  method Rank(ordered: seq<Summary>) returns (ranked: seq<int>, total: int)
    ensures ranked == Ranked(ordered) && total == Total(ranked)
  {
    ranked, total := [], 0;
    for i := 0 to |ordered|
      invariant ranked == Ranked(ordered[..i]) && total == Total(ranked)
    {
      assert ordered[..i + 1][..i] == ordered[..i];
      if ordered[i].salePresent {
        assert (ranked + [ordered[i].saleTotal])[..|ranked|] == ranked;
        ranked, total := ranked + [ordered[i].saleTotal], total + ordered[i].saleTotal;
      }
    }
    assert ordered[..|ordered|] == ordered;
  }

  /** The curve these values have, if they have one. */
  ghost predicate CurveFor(ordered: seq<Summary>, curve: Option<ConcentrationCurve>) {
    && (curve.Some? <==> Statable(ordered))
    && (curve.Some? ==>
          && curve.value.distinctValues == |ordered|
          && curve.value.rankedValues == |curve.value.shares| == |Ranked(ordered)|
          && forall k :: 0 <= k < |Ranked(ordered)| ==> curve.value.shares[k] == Share(Ranked(ordered), k))
  }

  lemma CurveIsUnique(ordered: seq<Summary>, a: Option<ConcentrationCurve>, b: Option<ConcentrationCurve>)
    requires CurveFor(ordered, a) && CurveFor(ordered, b)
    ensures a == b
  {
    if a.Some? {
      assert a.value.shares == b.value.shares;
    }
  }

  method CurveOf(ordered: seq<Summary>) returns (curve: Option<ConcentrationCurve>)
    ensures CurveFor(ordered, curve)
  {
    if exists i :: 0 <= i < |ordered| && ordered[i].saleAbsent {
      return None;
    }
    var ranked, total := Rank(ordered);
    if total <= 0 || exists i :: 0 <= i < |ranked| && ranked[i] < 0 {
      return None;
    }
    var running, shares := 0, [];
    for k := 0 to |ranked|
      invariant running == Total(ranked[..k]) && |shares| == k
      invariant forall i :: 0 <= i < k ==> shares[i] == Share(ranked, i)
    {
      assert ranked[..k + 1][..k] == ranked[..k];
      RunningInRange(ranked, k + 1);
      running := running + ranked[k];
      shares := shares + [Published(running, total)];
    }
    curve := Some(ConcentrationCurve(|ordered|, |ranked|, shares));
  }

  // ----- the shape of a published curve --------------------------------------------------------

  lemma ShareBetween(low: int, high: int, total: int)
    requires 0 <= low <= high <= total && total > 0
    ensures 0 <= Published(low, total) <= Published(high, total) <= UNIT
  {
    Scale(low, high, total);
    Scale(high, total, total);
    PublishedIsMonotone(low, total, high, total);
    PublishedIsMonotone(high, total, total, total);
    WholeIsOne(total);
  }

  /** Rounded shares never fall, never leave [0, 1], and end at exactly 1. */
  lemma SharesRise(ordered: seq<Summary>, i: nat, j: nat)
    requires Statable(ordered) && i <= j < |Ranked(ordered)|
    ensures 0 <= Share(Ranked(ordered), i) <= Share(Ranked(ordered), j) <= 10_000
    ensures j == |Ranked(ordered)| - 1 ==> Share(Ranked(ordered), j) == 10_000
  {
    var ranked := Ranked(ordered);
    var n := |ranked|;
    assert ranked[..n] == ranked;
    TotalsRise(ranked, i + 1, j + 1);
    TotalsRise(ranked, j + 1, n);
    ShareBetween(Total(ranked[..i + 1]), Total(ranked[..j + 1]), Total(ranked));
    WholeIsOne(Total(ranked));
  }

  predicate Falling(values: seq<int>) {
    forall i, j :: 0 <= i < j < |values| ==> values[i] >= values[j]
  }

  /** Of values in falling order, any k hold at least k times the k-th, and the rest at most their number times it. */
  lemma {:induction false} TopHoldsMore(values: seq<int>, k: nat, least: int)
    requires k <= |values| && forall i :: 0 <= i < k ==> values[i] >= least
    ensures Total(values[..k]) >= k * least
  {
    if k == 0 {
    } else {
      assert values[..k][..k - 1] == values[..k - 1];
      TopHoldsMore(values, k - 1, least);
    }
  }

  lemma {:induction false} RestHoldsLess(values: seq<int>, k: nat, n: nat, most: int)
    requires k <= n <= |values| && forall i :: k <= i < n ==> values[i] <= most
    ensures Total(values[..n]) - Total(values[..k]) <= (n - k) * most
    decreases n
  {
    if k == n {
    } else {
      assert values[..n][..n - 1] == values[..n - 1];
      RestHoldsLess(values, k, n - 1, most);
    }
  }

  lemma TopHoldsItsShare(values: seq<int>, k: nat)
    requires 0 < k <= |values| && Falling(values)
    ensures k * Total(values) <= |values| * Total(values[..k])
  {
    var n, v := |values|, values[k - 1];
    assert values[..n] == values;
    TopHoldsMore(values, k, v);
    RestHoldsLess(values, k, n, v);
    var top, rest := Total(values[..k]), Total(values) - Total(values[..k]);
    ShareArithmetic(k, n - k, top, rest, v);
  }

  lemma ShareArithmetic(k: nat, m: nat, top: int, rest: int, v: int)
    requires top >= k * v && rest <= m * v
    ensures k * (top + rest) <= (k + m) * top
  {
    assert k * rest <= k * (m * v) by { ScaleNat(rest, m * v, k); }
    assert m * (k * v) <= m * top by { ScaleNat(k * v, top, m); }
    assert k * (m * v) == m * (k * v);
  }

  lemma ScaleNat(p: int, q: int, k: nat)
    requires p <= q
    ensures k * p <= k * q
  {
  }

  lemma ShareAtLeast(k: nat, n: nat, top: int, total: int)
    requires 0 < k <= n && 0 <= top <= total && total > 0 && k * total <= n * top
    ensures Published(top, total) >= Published(k, n)
  {
    assert n * top == top * n;
    PublishedIsMonotone(k, n, top, total);
  }

  /** The first k of n ranked values hold at least k/n, rounded as a share is. */
  lemma SharesDominate(ordered: seq<Summary>, k: nat)
    requires Statable(ordered) && 0 < k <= |Ranked(ordered)| && Falling(Ranked(ordered))
    ensures Share(Ranked(ordered), k - 1) >= Published(k, |Ranked(ordered)|)
  {
    var ranked := Ranked(ordered);
    TopHoldsItsShare(ranked, k);
    RunningInRange(ranked, k);
    ShareAtLeast(k, |ranked|, Total(ranked[..k]), Total(ranked));
  }

  /** The summary of some rows, a posted sale among them, none of its posted sales without revenue. */
  ghost predicate Sold(s: Summary) {
    s.saleRow && !s.saleAbsent && exists rows :: s == Fold(rows)
  }

  /** What a published curve promises its reader. */
  ghost predicate Shaped(curve: ConcentrationCurve) {
    var n, shares := curve.distinctValues, curve.shares;
    && n > 0 && curve.rankedValues == n && |shares| == n && shares[n - 1] == UNIT
    && (forall i, j :: 0 <= i <= j < n ==> 0 <= shares[i] <= shares[j] <= UNIT)
    && (forall k :: 0 < k <= n ==> shares[k - 1] >= Published(k, n))
  }

  /** When every value is ranked, the ranked totals are just the sale totals in order. */
  lemma {:induction false} RankedIsEverything(ordered: seq<Summary>)
    requires forall i :: 0 <= i < |ordered| ==> ordered[i].salePresent
    ensures |Ranked(ordered)| == |ordered| && forall i :: 0 <= i < |ordered| ==> Ranked(ordered)[i] == ordered[i].saleTotal
  {
    if ordered == [] {
    } else {
      RankedIsEverything(ordered[..|ordered| - 1]);
    }
  }

  lemma SoldIsPresent(s: Summary)
    requires Sold(s)
    ensures s.salePresent
  {
    var rows :| s == Fold(rows);
    FoldMarks(rows);
  }

  lemma CurvesAreShaped(ordered: seq<Summary>, curve: ConcentrationCurve)
    requires Statable(ordered) && forall i :: 0 <= i < |ordered| ==> Sold(ordered[i])
    requires forall i, j :: 0 <= i < j < |ordered| ==> ordered[i].saleTotal >= ordered[j].saleTotal
    requires curve.distinctValues == |ordered| && curve.rankedValues == |curve.shares| == |Ranked(ordered)|
    requires forall k :: 0 <= k < |Ranked(ordered)| ==> curve.shares[k] == Share(Ranked(ordered), k)
    ensures Shaped(curve)
  {
    forall i | 0 <= i < |ordered| ensures ordered[i].salePresent {
      SoldIsPresent(ordered[i]);
    }
    RankedIsEverything(ordered);
    var n := |ordered|;
    forall i, j | 0 <= i <= j < n ensures 0 <= curve.shares[i] <= curve.shares[j] <= UNIT {
      SharesRise(ordered, i, j);
    }
    SharesRise(ordered, 0, n - 1);
    forall k | 0 < k <= n ensures curve.shares[k - 1] >= Published(k, n) {
      SharesDominate(ordered, k);
    }
  }
}
