/** The new difficulty after an interval (calculateNewDifficulty): the binary logarithm of wanted over actual time,
    rounded and limited to three either way, on top of the last target. The logarithm is compared through squares: it is
    at least k - 1/2 exactly if the square of the ratio is at least 2^(2k - 1). */
module TargetFormula {
  import opened Words
  import opened Protocol
  import opened SystemParameters

  // How often a square exceeds 2, 8 and 32 times another: the rounded logarithm of the roots' ratio, at most 3.
  function Halvings(large: int, small: int): (k: nat)
    ensures k <= 3
  {
    if large >= 32 * small then 3 else if large >= 8 * small then 2 else if large >= 2 * small then 1 else 0
  }

  // The change of the target for a wanted and an actual time. No actual time is an infinite ratio, and a negative ratio
  // keeps the target; where no time is wanted the ratio is a zero, of either sign.
  function TargetChange(wanted: nat, actual: int): (k: int)
    ensures -3 <= k <= 3
  {
    if actual < 0 then if wanted == 0 then -3 else 0
    else if wanted >= actual then Halvings(wanted * wanted, actual * actual)
    else 0 - Halvings(actual * actual, wanted * wanted)
  }

  // The product of the two parameters is a 64-bit word, and so is the target's sum an 8-bit one.
  function NewTarget(span: Timerange, p: Parameters, last: uint8): uint8 {
    (last + TargetChange(Wrap64(p.blockInterval * p.diffInterval), span.last - span.first)) % TWO_8
  }

  // Two to a whole power.
  function Power(e: int): (p: real)
    ensures p > 0.0
    decreases if e < 0 then 0 - e else e
  {
    if e == 0 then 1.0 else if e > 0 then 2.0 * Power(e - 1) else Power(e + 1) / 2.0
  }

  lemma Powers()
    ensures Power(1) == 2.0 && Power(3) == 8.0 && Power(5) == 32.0 && Power(7) == 128.0
    ensures Power(-1) == 0.5 && Power(-3) == 0.125 && Power(-5) == 0.03125 && Power(-7) == 0.0078125
  {
    assert Power(2) == 4.0 && Power(4) == 16.0 && Power(6) == 64.0;
    assert Power(-2) == 0.25 && Power(-4) == 0.0625 && Power(-6) == 0.015625;
  }

  // Whole number k is the nearest to the binary logarithm of the ratio, half-way cases away from 0, wherever it is not
  // cut off: 2^(2k - 1) <= ratio^2 < 2^(2k + 1) from 0 on, and the mirror image below.
  ghost predicate Nearest(k: int, wanted: nat, actual: nat)
    requires actual > 0
  {
    var ratio := wanted as real / actual as real;
    && -3 <= k <= 3
    && (0 < k ==> Power(2 * k - 1) <= ratio * ratio) && (0 <= k < 3 ==> ratio * ratio < Power(2 * k + 1))
    && (k < 0 ==> ratio * ratio <= Power(2 * k + 1)) && (-3 < k <= 0 ==> Power(2 * k - 1) < ratio * ratio)
  }

  // The target is the last one plus that number, for the time wanted for the whole interval.
  lemma NewTargetIs(span: Timerange, p: Parameters, last: uint8)
    ensures var wanted, actual := p.blockInterval * p.diffInterval, span.last - span.first;
      var target := NewTarget(span, p, last);
      && (0 < wanted < TWO_64 ==>
          && (actual < 0 ==> target == last)
          && (actual == 0 ==> target == (last + 3) % 256)
          && (actual > 0 ==> exists k :: Nearest(k, wanted, actual) && target == (last + k) % 256))
      && (wanted % TWO_64 == 0 && actual != 0 ==> target == (last - 3) % 256)
  {
    hide Nearest, TargetChange;
    var wanted, actual := p.blockInterval * p.diffInterval, span.last - span.first;
    ChangeAtNoTime(Wrap64(wanted), actual);
    if 0 < wanted < TWO_64 && actual > 0 {
      NearestLogarithm(wanted, actual);
    }
  }

  lemma ChangeAtNoTime(wanted: nat, actual: int)
    ensures wanted > 0 && actual <= 0 ==> TargetChange(wanted, actual) == if actual < 0 then 0 else 3
    ensures wanted == 0 && actual != 0 ==> TargetChange(wanted, actual) == -3
  {
    if actual > 0 { assert actual * actual > 0; }
  }

  lemma NearestLogarithm(wanted: nat, actual: nat)
    requires wanted > 0 && actual > 0
    ensures Nearest(TargetChange(wanted, actual), wanted, actual)
  {
    hide Power, TargetChange;
    var w, a, k := wanted * wanted, actual * actual, TargetChange(wanted, actual);
    var ratio := wanted as real / actual as real;
    ChangeByHalvings(wanted, actual);
    Powers();
    assert a > 0;
    RatioSquared(wanted, actual);
    Quotients(w, a, ratio * ratio);
  }

  lemma SquareOrder(x: nat, y: nat)
    ensures x >= y <==> x * x >= y * y
  {
    if x >= y {
      assert x * x - y * y == (x - y) * (x + y);
    } else {
      assert y * y - x * x == (y - x) * (y + x);
    }
  }

  lemma RatioSquared(x: nat, y: nat)
    requires y > 0
    ensures var ratio := x as real / y as real; ratio * ratio * (y * y) as real == (x * x) as real
  {
    var ratio := x as real / y as real;
    assert ratio * y as real == x as real;
    assert (y * y) as real == y as real * y as real && (x * x) as real == x as real * x as real;
    calc {
      ratio * ratio * (y * y) as real;
      (ratio * y as real) * (ratio * y as real);
      (x * x) as real;
    }
  }

  // Comparing the squares is comparing the square of the ratio.
  lemma Above(w: nat, a: nat, r: real, c: nat)
    requires a > 0 && r * a as real == w as real
    ensures w >= c * a <==> r >= c as real
  {
    assert (c * a) as real == c as real * a as real;
    Times(a as real, r, c as real);
  }

  lemma Below(w: nat, a: nat, r: real, c: nat)
    requires a > 0 && r * a as real == w as real && c > 0
    ensures a >= c * w <==> r <= 1.0 / c as real
  {
    var d := 1.0 / c as real;
    assert d * c as real == 1.0;
    assert (c * w) as real == c as real * w as real == c as real * (r * a as real);
    Times(a as real, r, d);
    Times(c as real, r * a as real, d * a as real);
    assert d * a as real * c as real == a as real;
  }

  lemma Quotients(w: nat, a: nat, r: real)
    requires a > 0 && r * a as real == w as real
    ensures w >= 2 * a <==> r >= 2.0
    ensures w >= 8 * a <==> r >= 8.0
    ensures w >= 32 * a <==> r >= 32.0
    ensures w >= a <==> r >= 1.0
    ensures a >= 2 * w <==> r <= 0.5
    ensures a >= 8 * w <==> r <= 0.125
    ensures a >= 32 * w <==> r <= 0.03125
  {
    Above(w, a, r, 1);
    Above(w, a, r, 2);
    Above(w, a, r, 8);
    Above(w, a, r, 32);
    Below(w, a, r, 2);
    Below(w, a, r, 8);
    Below(w, a, r, 32);
  }

  lemma Times(a: real, r: real, c: real)
    requires a > 0.0
    ensures r >= c <==> r * a >= c * a
    ensures r <= c <==> r * a <= c * a
  {
    assert (r - c) * a == r * a - c * a;
    if r > c {
      assert (r - c) * a > 0.0;
    } else if r < c {
      assert (c - r) * a > 0.0;
      assert (c - r) * a == c * a - r * a;
    }
  }

  // On time, the target stays; the faster the blocks, the higher the target, and the other way around.
  lemma FasterIsHarder(wanted: nat, actual: nat, slower: nat)
    requires actual <= slower && wanted > 0
    ensures TargetChange(wanted, wanted) == 0
    ensures TargetChange(wanted, actual) >= TargetChange(wanted, slower)
    ensures TargetChange(wanted, actual) > 0 ==> actual < wanted
    ensures TargetChange(wanted, slower) < 0 ==> wanted < slower
  {
    var w := wanted * wanted;
    assert w > 0;
    SquareOrder(slower, actual);
    SquareOrder(wanted, actual);
    SquareOrder(wanted, slower);
    ChangeByHalvings(wanted, actual);
    ChangeByHalvings(wanted, slower);
  }

  lemma ChangeByHalvings(wanted: nat, actual: nat)
    ensures var w, a := wanted * wanted, actual * actual;
      TargetChange(wanted, actual) == if w >= a then Halvings(w, a) else 0 - Halvings(a, w)
  {
    SquareOrder(wanted, actual);
  }

  // Twice as fast adds 1 to the target, half as fast takes 1 off it.
  lemma OneBit(time: nat)
    requires time > 0
    ensures TargetChange(2 * time, time) == 1 && TargetChange(time, 2 * time) == -1
  {
    assert (2 * time) * (2 * time) == 4 * (time * time) && time * time > 0;
  }

  // One interval moves the target by at most three, around the word.
  lemma StepsAreSmall(span: Timerange, p: Parameters, last: uint8)
    ensures var step := (NewTarget(span, p, last) - last) % TWO_8; step <= 3 || step >= TWO_8 - 3
    ensures span.last < span.first && Wrap64(p.blockInterval * p.diffInterval) > 0 ==> NewTarget(span, p, last) == last
  {
    var k := TargetChange(Wrap64(p.blockInterval * p.diffInterval), span.last - span.first);
    hide TargetChange;
    StepWraps(last, k);
  }

  lemma StepWraps(last: uint8, k: int)
    requires -3 <= k <= 3
    ensures var step := ((last + k) % TWO_8 - last) % TWO_8; step <= 3 || step >= TWO_8 - 3
    ensures k == 0 ==> (last + k) % TWO_8 == last
  {
    var sum := last + k;
    assert sum % TWO_8 == if sum < 0 then sum + TWO_8 else if sum < TWO_8 then sum else sum - TWO_8;
  }
}
