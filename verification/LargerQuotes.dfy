/** When a larger trade is quoted less than a smaller one: the fee grows with the size of a
    trade, and a step of the fee may cost more than the trade gained. */
module LargerQuotes {
  import opened Outcomes
  import opened Rounding
  import opened OraclePool

  /** Both amounts are quoted, and the second one less. */
  predicate QuotedLess(side: Side, small: int, large: int, price: nat, reserves: Reserves, curve: Curve) {
    var q, r := OracleQuote(side, small, price, reserves, curve), OracleQuote(side, large, price, reserves, curve);
    q.Ok? && r.Ok? && r.value.net < q.value.net
  }

  /** On no pool, at no price and on neither side is a larger amount quoted less. */
  ghost predicate NeverFalls(curve: Curve) {
    forall side: Side, small: int, large: int, price: nat, reserves: Reserves ::
      small <= large ==> !QuotedLess(side, small, large, price, reserves, curve)
  }

  /** The curves that never quote less for more are exactly the flat ones, and those that
      leave at most one part in `WAD` of any trade. */
  lemma NeverFallsExactly(curve: Curve)
    ensures NeverFalls(curve) <==> curve.coefficient == 0 || curve.base + curve.coefficient >= WAD - 1
  {
    if curve.coefficient == 0 || curve.base + curve.coefficient >= WAD - 1 {
      forall side: Side, small: int, large: int, price: nat, reserves: Reserves | small <= large
        ensures !QuotedLess(side, small, large, price, reserves, curve)
      {
        OneFee(side, small, large, price, reserves, curve);
        OnlyTheFeeLowersAQuote(side, small, large, price, reserves, curve);
      }
    } else {
      var small, large := FallingQuote(curve);
      assert QuotedLess(Buy, small, large, WAD, DEEP, curve);
    }
  }

  // ---------------------------------------------------------------- curves that never fall

  /** A larger amount is quoted less only if its fee is higher. */
  lemma OnlyTheFeeLowersAQuote(side: Side, small: int, large: int, price: nat, reserves: Reserves, curve: Curve)
    requires small <= large
    ensures
      var q, r := OracleQuote(side, small, price, reserves, curve), OracleQuote(side, large, price, reserves, curve);
      QuotedLess(side, small, large, price, reserves, curve) ==> q.value.fee < r.value.fee
  {
    var q, r := OracleQuote(side, small, price, reserves, curve), OracleQuote(side, large, price, reserves, curve);
    if q.Ok? && r.Ok? && r.value.fee <= q.value.fee {
      var f, g := q.value.fee, r.value.fee;
      var x, y := GrossOut(side, small, price), GrossOut(side, large, price);
      GrossGrows(side, small, large, price);
      NetGrows(x, y, f);
      NetAntitone(y, g, f);
      FloorMonotone(Net(x, Some(f)), Net(y, Some(g)), DUSD_SCALE);
    }
  }

  lemma GrossGrows(side: Side, small: nat, large: nat, price: nat)
    requires small <= large && price > 0
    ensures GrossOut(side, small, price) <= GrossOut(side, large, price)
  {
    if side == Buy {
      FloorMonotone(small * DUSD_SCALE * WAD, large * DUSD_SCALE * WAD, price);
    } else {
      MulLe(small, large, price);
      FloorMonotone(small * price, large * price, WAD);
    }
  }

  lemma NetGrows(small: nat, large: nat, fee: nat)
    requires small <= large
    ensures Net(small, Some(fee)) <= Net(large, Some(fee))
  {
    if fee < WAD {
      MulLe(small, large, WAD - fee);
      FloorMonotone(small * (WAD - fee), large * (WAD - fee), WAD);
    }
  }

  /** On such a curve all quoted trades pay one fee. */
  lemma OneFee(side: Side, small: int, large: int, price: nat, reserves: Reserves, curve: Curve)
    requires small <= large && (curve.coefficient == 0 || curve.base + curve.coefficient >= WAD - 1)
    ensures
      var q, r := OracleQuote(side, small, price, reserves, curve), OracleQuote(side, large, price, reserves, curve);
      q.Ok? && r.Ok? ==> r.value.fee == q.value.fee
  {
    if OracleQuote(side, small, price, reserves, curve).Ok? && OracleQuote(side, large, price, reserves, curve).Ok? {
      FeeOfSuchACurve(side, StockSide(side, small, price), price, reserves, curve);
      FeeOfSuchACurve(side, StockSide(side, large, price), price, reserves, curve);
    }
  }

  lemma FeeOfSuchACurve(side: Side, stock: nat, price: nat, reserves: Reserves, curve: Curve)
    requires curve.coefficient == 0 || curve.base + curve.coefficient >= WAD - 1
    ensures
      var fee := FeeRate(side, stock, price, reserves, curve);
      fee.Some? && fee.value < WAD ==> fee.value == if curve.coefficient == 0 then curve.base else WAD - 1
  {
    FeeGrowsWithSize(side, stock, stock, price, reserves, curve);
  }

  // ---------------------------------------------------------------- curves that fall

  /** With `left` of the ratio left the fee is one above the least, and with one more it is
      the least. */
  predicate Step(left: nat, curve: Curve) {
    && 0 < left < WAD
    && CurveRate(WAD, left + 1, curve) == curve.base + curve.coefficient
    && CurveRate(WAD, left, curve) == curve.base + curve.coefficient + 1
  }

  /** Where that step is: the ratio product whose inverse first reaches `reach`. */
  lemma StepOfFee(curve: Curve) returns (left: nat)
    requires 0 < curve.coefficient && curve.base + curve.coefficient < WAD - 1
    ensures Step(left, curve)
  {
    var c := curve.coefficient;
    var t := CeilDiv(WAD, c);
    CeilIsLeast(WAD, c, t);
    var reach := WAD + t;
    left := WAD * WAD / reach;
    TooFewSteps(c, t);
    StepIsInside(reach);
    BeforeTheStep(c, t, left);
    AfterTheStep(c, t, left);
    RateFrom(left, c, curve);
    RateFrom(left + 1, c, curve);
  }

  lemma TooFewSteps(c: nat, t: nat)
    requires 0 < c < WAD - 1 && WAD <= t * c < WAD + c
    ensures 1 < t <= WAD
  {
    if t > WAD {
      MulLe(WAD + 1, t, c);
    }
  }

  lemma StepIsInside(reach: nat)
    requires WAD < reach <= 2 * WAD
    ensures 0 < WAD * WAD / reach < WAD
  {
    FloorIsLargest(WAD * WAD, reach, 1);
    FloorIsLargest(WAD * WAD, reach, WAD);
  }

  lemma RateFrom(after: nat, c: nat, curve: Curve)
    requires 0 < after <= WAD && c == curve.coefficient
    ensures WAD * WAD / after >= 0
    ensures CurveRate(WAD, after, curve) == Min(curve.base + c * (WAD * WAD / after) / WAD, WAD)
  {
    assert WAD * after / WAD == after;
    RateIsNatural(WAD, after, curve);
  }

  lemma BeforeTheStep(c: nat, t: nat, left: nat)
    requires 0 < c && WAD <= t * c < WAD + c && left == WAD * WAD / (WAD + t) && left < WAD
    ensures c * (WAD * WAD / (left + 1)) / WAD == c
  {
    var q := WAD * WAD / (left + 1);
    FloorIsLargest(WAD * WAD, left + 1, WAD);
    FloorIsLargest(WAD * WAD, WAD + t, left + 1);
    FloorIsLargest(WAD * WAD, left + 1, WAD + t);
    MulLe(WAD, q, c);
    MulLe(q, WAD + t - 1, c);
    assert (WAD + t - 1) * c == WAD * c + t * c - c;
    FloorBetween(c * q, WAD, c, c);
  }

  lemma AfterTheStep(c: nat, t: nat, left: nat)
    requires 0 < c < WAD - 1 && WAD <= t * c < WAD + c && left == WAD * WAD / (WAD + t) && 0 < left
    ensures c * (WAD * WAD / left) / WAD == c + 1
  {
    var q := WAD * WAD / left;
    FloorIsLargest(WAD * WAD, WAD + t, left);
    FloorIsLargest(WAD * WAD, left, WAD + t);
    MulLe(WAD + t, q, c);
    assert (WAD + t) * c == WAD * c + t * c;
    StepIsOne(c, t, left);
    FloorBetween(c * q, WAD, c + 1, c + 1);
  }

  /** The fee does not skip a value at that step. */
  lemma StepIsOne(c: nat, t: nat, left: nat)
    requires 0 < c < WAD - 1 && WAD <= t * c < WAD + c && left == WAD * WAD / (WAD + t) && 0 < left
    ensures c * (WAD * WAD / left) < (c + 2) * WAD
  {
    if 2 * c >= WAD {
      ManyTimes(c, t);
      assert left == WAD - 2;
    } else if c <= 3 {
      FewTimes(c, t, left);
    } else {
      MulLe(4, c, t);
      InverseIsNear(t, left);
      MulLe(WAD * WAD / left, WAD + t + 1, c);
      assert (WAD + t + 1) * c == WAD * c + t * c + c;
    }
  }

  lemma ManyTimes(c: nat, t: nat)
    requires c < WAD <= t * c < WAD + c && 2 * c >= WAD
    ensures t == 2
  {
    if t >= 3 {
      MulLe(3, t, c);
    } else if t <= 1 {
      MulLe(t, 1, c);
    }
  }

  lemma FewTimes(c: nat, t: nat, left: nat)
    requires 0 < c <= 3 && WAD <= t * c < WAD + c && left == WAD * WAD / (WAD + t) && 0 < left
    ensures c * (WAD * WAD / left) < (c + 2) * WAD
  {
    if c == 1 {
      assert t == WAD;
    } else if c == 2 {
      assert t == WAD / 2;
    } else {
      assert t == (WAD + 2) / 3;
    }
  }

  lemma InverseIsNear(t: nat, left: nat)
    requires 4 * t < WAD + 4 && left == WAD * WAD / (WAD + t) && 0 < left
    ensures WAD * WAD / left <= WAD + t + 1
  {
    assert (WAD - t) * (WAD + t) == WAD * WAD - t * t;
    assert t * t >= 0;
    FloorIsLargest(WAD * WAD, WAD + t, WAD - t);
    FloorIsLargest(WAD * WAD, WAD + t, left + 1);
    FloorIsLargest(WAD * WAD, left, WAD + t + 2);
    assert (left + 1) * (WAD + t) == left * (WAD + t) + (WAD + t);
    assert (WAD + t + 2) * left == left * (WAD + t) + 2 * left;
  }

  const PARTS: nat := 4 * WAD

  /** A pool of stock alone, so large that the step lies between two neighbouring amounts. */
  const DEEP := Reserves(WAD * (PARTS * DUSD_SCALE), 0)

  /** The amounts on both sides of the step. */
  lemma FallingQuote(curve: Curve) returns (small: nat, large: nat)
    requires curve.coefficient > 0 && curve.base + curve.coefficient < WAD - 1
    ensures small <= large && QuotedLess(Buy, small, large, WAD, DEEP, curve)
  {
    var left := StepOfFee(curve);
    var d := WAD - left;
    small, large := PARTS * d - 1, PARTS * d;
    var fee := curve.base + curve.coefficient;
    NetFalls(large * DUSD_SCALE, fee);
    DeepQuote(large, d, fee + 1, curve);
    DeepQuote(small, d - 1, fee, curve);
  }

  lemma DeepQuote(amount: nat, delta: nat, fee: nat, curve: Curve)
    requires delta < WAD && PARTS * delta <= amount < PARTS * (delta + 1)
    requires fee == CurveRate(WAD, WAD - delta, curve) && Net(amount * DUSD_SCALE, Some(fee)) > 0
    ensures OracleQuote(Buy, amount, WAD, DEEP, curve) == Ok(Quote(fee, Net(amount * DUSD_SCALE, Some(fee))))
  {
    DeepFee(amount, delta, curve);
  }

  lemma DeepFee(amount: nat, delta: nat, curve: Curve)
    requires delta < WAD && PARTS * delta <= amount < PARTS * (delta + 1)
    ensures GrossOut(Buy, amount, WAD) == amount * DUSD_SCALE
    ensures FeeRate(Buy, amount * DUSD_SCALE, WAD, DEEP, curve) == Some(CurveRate(WAD, WAD - delta, curve))
  {
    assert StocksRatio(WAD, DEEP) == Some((WAD, DEEP.stock));
    FloorBetween(amount * DUSD_SCALE * WAD, DEEP.stock, delta, delta);
    SellFeeMirrorsBuyFee(Buy, amount * DUSD_SCALE, WAD, DEEP, curve);
  }

  lemma NetFalls(gross: nat, fee: nat)
    requires gross >= PARTS * DUSD_SCALE && fee + 1 < WAD
    ensures 0 < Net(gross, Some(fee + 1)) < Net(gross - DUSD_SCALE, Some(fee))
  {
    var w := WAD - fee;
    assert (gross - DUSD_SCALE) * w == gross * (w - 1) + gross - DUSD_SCALE * w;
    FloorMonotone(gross * (w - 1) + WAD, (gross - DUSD_SCALE) * w, WAD);
    MulLe(1, w - 1, gross);
    FloorMonotone(gross, gross * (w - 1), WAD);
  }
}
