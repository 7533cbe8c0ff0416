/** Quotes of an oracle-priced pool: the dynamic fee and the exact-input quote, in whole
    units (18 decimals for stock and for the pool's dUSD, 6 for dUSD in and out). */
module OraclePool {
  import opened Outcomes
  import opened Rounding

  const WAD: nat := 1_000_000_000_000_000_000
  const DUSD_SCALE: nat := 1_000_000_000_000

  datatype Reserves = Reserves(stock: nat, dusd: nat)
  datatype Curve = Curve(coefficient: nat, base: nat)
  datatype Side = Buy | Sell

  /** The share of the pool's value held in stock, and that value. */
  function StocksRatio(price: nat, reserves: Reserves): (r: Option<(nat, nat)>)
    ensures r.Some? ==> r.value.1 > 0 && r.value.0 <= WAD
  {
    var total := reserves.stock * price / WAD + reserves.dusd;
    if total == 0 then None
    else
      RatioWithinWad(reserves.stock * price / WAD, total);
      Some((WAD * (reserves.stock * price / WAD) / total, total))
  }

  lemma RatioWithinWad(part: nat, total: nat)
    requires part <= total && total > 0
    ensures 0 <= WAD * part / total <= WAD
  {
    FloorIsLargest(WAD * part, total, WAD + 1);
    FloorIsLargest(WAD * part, total, 0);
    MulLe(part, total, WAD);
  }

  /** Python's `x or 1`. */
  function OrOne(x: nat): nat {
    if x == 0 then 1 else x
  }

  function Min(a: nat, b: nat): nat {
    if a <= b then a else b
  }

  lemma RateIsNatural(before: nat, after: nat, curve: Curve)
    ensures before * after / WAD >= 0
    ensures curve.coefficient * (WAD * WAD / OrOne(before * after / WAD)) / WAD >= 0
  {
    MulLe(0, before, after);
    var p := OrOne(before * after / WAD);
    FloorIsLargest(WAD * WAD, p, 0);
    MulLe(0, WAD * WAD / p, curve.coefficient);
  }

  /** How far a trade moves the ratio of a pool worth `total`. */
  function Moved(stock: nat, price: nat, total: nat): (moved: nat)
    requires total > 0
  {
    MulLe(0, stock, price);
    stock * price / total
  }

  lemma MovedGrows(small: nat, large: nat, price: nat, total: nat)
    requires small <= large && total > 0
    ensures Moved(small, price, total) <= Moved(large, price, total)
  {
    MulLe(small, large, price);
    FloorMonotone(small * price, large * price, total);
  }

  function BuyFeeRate(stockOut: nat, price: nat, reserves: Reserves, curve: Curve): (fee: Option<nat>) {
    match StocksRatio(price, reserves)
    case None => None
    case Some((before, total)) =>
      var delta := Moved(stockOut, price, total);
      if delta >= before then None
      else
        RateIsNatural(before, before - delta, curve);
        var product := OrOne(before * (before - delta) / WAD);
        Some(Min(curve.base + curve.coefficient * (WAD * WAD / product) / WAD, WAD))
  }

  function SellFeeRate(stockIn: nat, price: nat, reserves: Reserves, curve: Curve): (fee: Option<nat>) {
    match StocksRatio(price, reserves)
    case None => None
    case Some((before, total)) =>
      var after := before + Moved(stockIn, price, total);
      if after >= WAD then None
      else
        SellDenominatorMirrors(before, after);
        RateIsNatural(WAD - before, WAD - after, curve);
        var denominator := OrOne(WAD + before * after / WAD - before - after);
        Some(Min(curve.base + curve.coefficient * (WAD * WAD / denominator) / WAD, WAD))
  }

  /** The fee formula on two ratios, for either side. */
  function CurveRate(before: nat, after: nat, curve: Curve): (rate: nat) {
    RateIsNatural(before, after, curve);
    Min(curve.base + curve.coefficient * (WAD * WAD / OrOne(before * after / WAD)) / WAD, WAD)
  }

  /** The sell denominator is the floored product of the mirrored ratios. */
  lemma SellDenominatorMirrors(before: nat, after: nat)
    requires before <= WAD && after <= WAD
    ensures WAD + before * after / WAD - before - after == (WAD - before) * (WAD - after) / WAD
    ensures (WAD - before) * (WAD - after) >= 0
  {
    var k: int := WAD - before - after;
    assert (WAD - before) * (WAD - after) == before * after + k * WAD by {
      assert (WAD - before) * (WAD - after) == WAD * (WAD - after) - before * (WAD - after);
      assert before * (WAD - after) == before * WAD - before * after;
    }
    AddWholes(before * after, k);
    MulLe(0, WAD - before, WAD - after);
  }

  lemma AddWholes(x: int, k: int)
    ensures (x + k * WAD) / WAD == x / WAD + k
  {
  }

  /** The fee of a trade that moves the ratio by `delta` of its `room`. */
  function RateAt(room: nat, delta: nat, curve: Curve): (rate: Option<nat>) {
    if delta < room then Some(CurveRate(room, room - delta, curve)) else None
  }

  /** How far a trade may move the ratio: down to nothing, or up to the whole. */
  function Room(side: Side, before: nat): (room: nat)
    requires before <= WAD
  {
    if side == Buy then before else WAD - before
  }

  function FeeRate(side: Side, stock: nat, price: nat, reserves: Reserves, curve: Curve): (fee: Option<nat>) {
    if side == Buy then BuyFeeRate(stock, price, reserves, curve) else SellFeeRate(stock, price, reserves, curve)
  }

  /** The sell fee is the buy fee formula on the mirrored ratios. */
  lemma SellFeeMirrorsBuyFee(side: Side, stock: nat, price: nat, reserves: Reserves, curve: Curve)
    requires StocksRatio(price, reserves).Some?
    ensures
      var (before, total) := StocksRatio(price, reserves).value;
      FeeRate(side, stock, price, reserves, curve) == RateAt(Room(side, before), Moved(stock, price, total), curve)
  {
    var (before, total) := StocksRatio(price, reserves).value;
    var after := before + Moved(stock, price, total);
    if after < WAD {
      SellDenominatorMirrors(before, after);
    }
  }

  /** A larger trade leaves a smaller ratio, and the fee never falls. */
  lemma CurveRateAntitone(before: nat, after: nat, lower: nat, curve: Curve)
    requires lower <= after
    ensures CurveRate(before, after, curve) <= CurveRate(before, lower, curve)
  {
    MulLe(lower, after, before);
    FloorMonotone(before * lower, before * after, WAD);
    var p, q := OrOne(before * after / WAD), OrOne(before * lower / WAD);
    DivideByMore(WAD * WAD, q, p);
    MulLe(WAD * WAD / p, WAD * WAD / q, curve.coefficient);
    FloorMonotone(curve.coefficient * (WAD * WAD / p), curve.coefficient * (WAD * WAD / q), WAD);
  }

  lemma DivideByMore(n: nat, d: nat, more: nat)
    requires 0 < d <= more
    ensures n / more <= n / d
  {
    FloorBounds(n, more);
    MulLe(d, more, n / more);
    FloorIsLargest(n, d, n / more);
  }

  /** Between the flat fee plus the coefficient and the whole amount. */
  lemma CurveRateBounds(before: nat, after: nat, curve: Curve)
    requires before <= WAD && after <= WAD
    ensures Min(WAD, curve.base + curve.coefficient) <= CurveRate(before, after, curve) <= WAD
  {
    var p := OrOne(before * after / WAD);
    MulLe(before, WAD, after);
    FloorMonotone(before * after, WAD * WAD, WAD);
    DivideByMore(WAD * WAD, p, WAD);
    MulLe(WAD, WAD * WAD / p, curve.coefficient);
    FloorMonotone(WAD * curve.coefficient, curve.coefficient * (WAD * WAD / p), WAD);
  }

  /** The fee `g` of a larger trade against the fee `f` of a smaller one. */
  ghost predicate Grows(f: Option<nat>, g: Option<nat>, curve: Curve) {
    && (f.None? ==> g.None?)
    && (g.Some? ==> Min(WAD, curve.base + curve.coefficient) <= f.value <= g.value <= WAD)
  }

  lemma RateGrows(room: nat, small: nat, large: nat, curve: Curve)
    requires small <= large && room <= WAD
    ensures Grows(RateAt(room, small, curve), RateAt(room, large, curve), curve)
  {
    if large < room {
      CurveRateAntitone(room, room - small, room - large, curve);
      CurveRateBounds(room, room - small, curve);
      CurveRateBounds(room, room - large, curve);
    }
  }

  /** Both fees lie in their bounds and never fall with the size of the trade, and once a
      size is refused every larger one is. */
  lemma FeeGrowsWithSize(side: Side, small: nat, large: nat, price: nat, reserves: Reserves, curve: Curve)
    requires small <= large
    ensures Grows(FeeRate(side, small, price, reserves, curve), FeeRate(side, large, price, reserves, curve), curve)
  {
    if StocksRatio(price, reserves).Some? {
      var (before, total) := StocksRatio(price, reserves).value;
      SellFeeMirrorsBuyFee(side, small, price, reserves, curve);
      SellFeeMirrorsBuyFee(side, large, price, reserves, curve);
      MovedGrows(small, large, price, total);
      RateGrows(Room(side, before), Moved(small, price, total), Moved(large, price, total), curve);
    }
  }

  // ---------------------------------------------------------------- quotes

  datatype QuoteError = NoUsablePrice | BadAmount | NotEnoughLiquidity
  datatype Quote = Quote(fee: nat, net: nat)

  function GrossOut(side: Side, amount: nat, price: nat): (gross: nat)
    requires price > 0
  {
    if side == Buy then amount * DUSD_SCALE * WAD / price else amount * price / WAD
  }

  /** The stock side of a trade, which sizes the fee. */
  function StockSide(side: Side, amount: nat, price: nat): (stock: nat)
    requires price > 0
  {
    if side == Buy then GrossOut(side, amount, price) else amount
  }

  function Net(gross: nat, fee: Option<nat>): (net: nat) {
    if fee.None? || fee.value >= WAD then 0 else gross * (WAD - fee.value) / WAD
  }

  /** `oracle_quote` in units: dUSD in for a buy, stock in for a sell. */
  function OracleQuote(side: Side, amount: int, price: nat, reserves: Reserves, curve: Curve):
    (quote: Result<Quote, QuoteError>)
  {
    if price == 0 then Err(NoUsablePrice)
    else if amount <= 0 then Err(BadAmount)
    else
      var fee := FeeRate(side, StockSide(side, amount, price), price, reserves, curve);
      var raw := Net(GrossOut(side, amount, price), fee);
      var net := if side == Sell then raw / DUSD_SCALE else raw;
      if fee.None? || net == 0 then Err(NotEnoughLiquidity) else Ok(Quote(fee.value, net))
  }

  lemma NetAntitone(gross: nat, fee: nat, more: nat)
    requires fee <= more
    ensures Net(gross, Some(more)) <= Net(gross, Some(fee)) <= gross
  {
    if more < WAD {
      MulLe(WAD - more, WAD - fee, gross);
      FloorMonotone(gross * (WAD - more), gross * (WAD - fee), WAD);
    }
    if fee < WAD {
      MulLe(WAD - fee, WAD, gross);
      FloorMonotone(gross * (WAD - fee), gross * WAD, WAD);
    }
  }

  /** A quote takes the fee at the trade's full size, so it is a floor of the same gross
      with the fee taken at any smaller size, and a smaller size is never refused. */
  lemma QuoteIsAFloor(side: Side, amount: int, price: nat, reserves: Reserves, curve: Curve, size: nat)
    ensures
      var quote := OracleQuote(side, amount, price, reserves, curve);
      quote.Ok? && size <= StockSide(side, amount, price) ==>
        var fee := FeeRate(side, size, price, reserves, curve);
        var paid := Net(GrossOut(side, amount, price), fee);
        && fee.Some?
        && quote.value.net <= (if side == Sell then paid / DUSD_SCALE else paid)
  {
    if OracleQuote(side, amount, price, reserves, curve).Ok? && size <= StockSide(side, amount, price) {
      var full := StockSide(side, amount, price);
      FeeGrowsWithSize(side, size, full, price, reserves, curve);
      var f, g := FeeRate(side, size, price, reserves, curve), FeeRate(side, full, price, reserves, curve);
      NetAntitone(GrossOut(side, amount, price), f.value, g.value);
      FloorMonotone(Net(GrossOut(side, amount, price), g), Net(GrossOut(side, amount, price), f), DUSD_SCALE);
    }
  }

  /** A buy that gets a quote asks for strictly less gross stock than the pool holds. */
  lemma QuotedBuyFitsTheReserve(amount: int, price: nat, reserves: Reserves, curve: Curve)
    ensures OracleQuote(Buy, amount, price, reserves, curve).Ok? ==> GrossOut(Buy, amount, price) < reserves.stock
  {
    if OracleQuote(Buy, amount, price, reserves, curve).Ok? && reserves.stock <= GrossOut(Buy, amount, price) {
      var out := GrossOut(Buy, amount, price);
      var (before, total) := StocksRatio(price, reserves).value;
      var held := reserves.stock * price / WAD;
      FloorBounds(reserves.stock * price, WAD);
      MulLe(reserves.stock, out, price);
      FloorMonotone(WAD * held, out * price, total);
    }
  }

  /** A sell that gets a quote exceeds the dUSD reserve by rounding at most: its gross
      dUSD is above the reserve by less than the pool's total value over WAD. */
  lemma QuotedSellFitsTheReserve(amount: int, price: nat, reserves: Reserves, curve: Curve)
    ensures OracleQuote(Sell, amount, price, reserves, curve).Ok? ==>
              (GrossOut(Sell, amount, price) - reserves.dusd) * WAD < reserves.stock * price / WAD + reserves.dusd
  {
    if OracleQuote(Sell, amount, price, reserves, curve).Ok? {
      var (before, total) := StocksRatio(price, reserves).value;
      var held := reserves.stock * price / WAD;
      var x := amount * price;
      FloorBounds(x, total);
      FloorBounds(WAD * held, total);
      MulLe(x / total + 1, WAD - before, total);
      assert (x / total + 1) * total == (x / total) * total + total;
      assert (WAD - before) * total == WAD * total - before * total;
      assert WAD * total == WAD * held + WAD * reserves.dusd;
      FloorBounds(x, WAD);
    }
  }

  /** Buying and selling back what was quoted, at one token price, never gains: whatever
      the reserves and the fee curve of either leg. */
  lemma RoundTripNeverGains(dusd: int, price: nat, reserves: Reserves, curve: Curve, reserves': Reserves, curve': Curve)
    ensures
      var bought := OracleQuote(Buy, dusd, price, reserves, curve);
      bought.Ok? ==>
        var back := OracleQuote(Sell, bought.value.net, price, reserves', curve');
        back.Ok? ==> back.value.net <= dusd
  {
    if OracleQuote(Buy, dusd, price, reserves, curve).Ok? {
      var bought := OracleQuote(Buy, dusd, price, reserves, curve).value.net;
      var gross := GrossOut(Buy, dusd, price);
      var fee := FeeRate(Buy, gross, price, reserves, curve);
      NetAntitone(gross, fee.value, fee.value);
      FloorBounds(dusd * DUSD_SCALE * WAD, price);
      MulLe(bought, gross, price);
      FloorMonotone(bought * price, dusd * DUSD_SCALE * WAD, WAD);
      assert GrossOut(Sell, bought, price) <= dusd * DUSD_SCALE;
      var back := OracleQuote(Sell, bought, price, reserves', curve');
      if back.Ok? {
        var fee' := FeeRate(Sell, bought, price, reserves', curve');
        NetAntitone(GrossOut(Sell, bought, price), fee'.value, fee'.value);
        FloorMonotone(Net(GrossOut(Sell, bought, price), fee'), dusd * DUSD_SCALE, DUSD_SCALE);
      }
    }
  }

  /** The curve where its divisions are exact. */
  lemma RateOfExactParts(before: nat, after: nat, product: nat, factor: nat, curve: Curve)
    requires before * after == product * WAD && factor * product == WAD
    requires curve == Curve(WAD / 100, 0) && factor <= 100
    ensures CurveRate(before, after, curve) == factor * (WAD / 100)
  {
    ExactQuotient(before * after, WAD, product);
    Associate(WAD, factor, product);
    ExactQuotient(WAD * WAD, product, WAD * factor);
    ExactQuotient((WAD / 100) * (WAD * factor), WAD, factor * (WAD / 100));
  }

  const NARROW := Reserves(100 * WAD, 100 * WAD)
  const STEEP := Curve(WAD / 100, 0)

  lemma NarrowRatio()
    ensures StocksRatio(WAD, NARROW) == Some((500_000_000_000_000_000, 200 * WAD))
  {
    assert NARROW.stock * WAD / WAD == 100 * WAD;
  }

  lemma EightyBuySixtyFour()
    ensures OracleQuote(Buy, 80_000_000, WAD, NARROW, STEEP) == Ok(Quote(WAD / 5, 64 * WAD))
  {
    NarrowRatio();
    assert GrossOut(Buy, 80_000_000, WAD) == 80 * WAD;
    assert Moved(80 * WAD, WAD, 200 * WAD) == 400_000_000_000_000_000;
    SellFeeMirrorsBuyFee(Buy, 80 * WAD, WAD, NARROW, STEEP);
    RateOfExactParts(500_000_000_000_000_000, 100_000_000_000_000_000, 50_000_000_000_000_000, 20, STEEP);
    assert Net(80 * WAD, Some(WAD / 5)) == 64 * WAD;
  }

  lemma NinetyBuyFiftyFour()
    ensures OracleQuote(Buy, 90_000_000, WAD, NARROW, STEEP) == Ok(Quote(2 * WAD / 5, 54 * WAD))
  {
    NarrowRatio();
    assert GrossOut(Buy, 90_000_000, WAD) == 90 * WAD;
    assert Moved(90 * WAD, WAD, 200 * WAD) == 450_000_000_000_000_000;
    SellFeeMirrorsBuyFee(Buy, 90 * WAD, WAD, NARROW, STEEP);
    RateOfExactParts(500_000_000_000_000_000, 50_000_000_000_000_000, 25_000_000_000_000_000, 40, STEEP);
    assert Net(90 * WAD, Some(2 * WAD / 5)) == 54 * WAD;
  }

  /** The amount quoted is not monotone in the amount paid: near the end of the stock the
      fee grows faster than the trade. Here 90 dUSD buy less than 80. */
  lemma QuoteIsNotMonotone()
    ensures OracleQuote(Buy, 80_000_000, WAD, NARROW, STEEP) == Ok(Quote(WAD / 5, 64 * WAD))
    ensures OracleQuote(Buy, 90_000_000, WAD, NARROW, STEEP) == Ok(Quote(2 * WAD / 5, 54 * WAD))
  {
    EightyBuySixtyFour();
    NinetyBuyFiftyFour();
  }

  lemma Associate(a: int, b: int, c: int)
    ensures a * (b * c) == (a * b) * c
  {
  }

  lemma ExactQuotient(n: int, d: int, q: int)
    requires d > 0 && n == q * d
    ensures n / d == q
  {
    FloorIsLargest(n, d, q);
    FloorIsLargest(n, d, q + 1);
  }
}
