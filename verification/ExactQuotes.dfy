/** What the oracle-priced pool charges and pays, without any of the code's own quotients:
    every intermediate amount is fixed from both sides, for buys and sells alike. */
module ExactQuotes {
  import opened Outcomes
  import opened Rounding
  import opened OraclePool

  const ONE: nat := 1_000_000_000_000_000_000
  const MILLIONTH: nat := 1_000_000_000_000

  /** `q` is `n / d` rounded down. */
  predicate RoundsDown(q: int, n: int, d: int) {
    d > 0 && q * d <= n < q * d + d
  }

  lemma RoundsDownIsFloor(q: int, n: int, d: int)
    requires d > 0
    ensures RoundsDown(q, n, d) <==> q == n / d
  {
    FloorBounds(n, d);
    if RoundsDown(q, n, d) {
      FloorBetween(n, d, q, q);
    }
  }

  // ---------------------------------------------------------------- the fee

  /** The pool's value in stock and in all, the share held in stock, how far the trade moves
      it, the product of the shares before and after, its inverse, and the dynamic part. */
  datatype Workings = Workings(
    held: nat,
    total: nat,
    share: nat,
    moved: nat,
    product: nat,
    inverse: nat,
    extra: nat)

  /** The shares on the side that the trade uses up: stock for a buy, the rest for a sell. */
  predicate PoolIs(price: nat, reserves: Reserves, w: Workings) {
    && RoundsDown(w.held, reserves.stock * price, ONE) && w.total == w.held + reserves.dusd
    && RoundsDown(w.share, ONE * w.held, w.total)
  }

  function Left(side: Side, w: Workings): (left: int) {
    if side == Buy then w.share else ONE - w.share
  }

  /** The fee of this size, as the workings give it. */
  predicate Charges(side: Side, stock: nat, price: nat, reserves: Reserves, curve: Curve, w: Workings, fee: nat) {
    && PoolIs(price, reserves, w) && RoundsDown(w.moved, stock * price, w.total) && w.moved < Left(side, w)
    && CurveGives(Left(side, w), Left(side, w) - w.moved, curve, w, fee)
  }

  /** Base and dynamic part, at most the whole; a product of zero counts as one. */
  predicate CurveGives(before: int, after: int, curve: Curve, w: Workings, fee: nat) {
    && w.product > 0
    && (RoundsDown(w.product, before * after, ONE) || (w.product == 1 && RoundsDown(0, before * after, ONE)))
    && RoundsDown(w.inverse, ONE * ONE, w.product)
    && RoundsDown(w.extra, curve.coefficient * w.inverse, ONE)
    && fee == if curve.base + w.extra <= ONE then curve.base + w.extra else ONE
  }

  lemma CurveHasWorkings(before: nat, after: nat, curve: Curve, pool: Workings) returns (w: Workings)
    ensures w == pool.(product := w.product, inverse := w.inverse, extra := w.extra)
    ensures CurveGives(before, after, curve, w, CurveRate(before, after, curve))
  {
    RateIsNatural(before, after, curve);
    var product := OrOne(before * after / WAD);
    var inverse := WAD * WAD / product;
    w := pool.(product := product, inverse := inverse, extra := curve.coefficient * inverse / WAD);
    RoundsDownIsFloor(before * after / WAD, before * after, ONE);
    RoundsDownIsFloor(inverse, ONE * ONE, product);
    RoundsDownIsFloor(w.extra, curve.coefficient * inverse, ONE);
  }

  lemma CurveGivesThis(before: nat, after: nat, curve: Curve, w: Workings, fee: nat)
    requires CurveGives(before, after, curve, w, fee)
    ensures fee == CurveRate(before, after, curve)
  {
    RoundsDownIsFloor(w.product, before * after, ONE);
    RoundsDownIsFloor(0, before * after, ONE);
    RoundsDownIsFloor(w.inverse, ONE * ONE, w.product);
    RoundsDownIsFloor(w.extra, curve.coefficient * w.inverse, ONE);
  }

  /** Every fee comes from such workings. */
  lemma FeeHasWorkings(side: Side, stock: nat, price: nat, reserves: Reserves, curve: Curve) returns (w: Workings)
    requires FeeRate(side, stock, price, reserves, curve).Some?
    ensures Charges(side, stock, price, reserves, curve, w, FeeRate(side, stock, price, reserves, curve).value)
  {
    SellFeeMirrorsBuyFee(side, stock, price, reserves, curve);
    var (share, total) := StocksRatio(price, reserves).value;
    var held, moved := reserves.stock * price / WAD, Moved(stock, price, total);
    RoundsDownIsFloor(held, reserves.stock * price, ONE);
    RoundsDownIsFloor(share, ONE * held, total);
    RoundsDownIsFloor(moved, stock * price, total);
    var room := Room(side, share);
    w := CurveHasWorkings(room, room - moved, curve, Workings(held, total, share, moved, 0, 0, 0));
  }

  lemma PoolIsThis(price: nat, reserves: Reserves, w: Workings)
    requires PoolIs(price, reserves, w)
    ensures StocksRatio(price, reserves) == Some((w.share, w.total)) && w.total > 0 && w.share <= ONE
  {
    RoundsDownIsFloor(w.held, reserves.stock * price, ONE);
    RoundsDownIsFloor(w.share, ONE * w.held, w.total);
  }

  /** The fee is what any such workings give: each rounding leaves only one value. */
  lemma FeeIsExact(side: Side, stock: nat, price: nat, reserves: Reserves, curve: Curve, w: Workings, fee: nat)
    requires Charges(side, stock, price, reserves, curve, w, fee)
    ensures FeeRate(side, stock, price, reserves, curve) == Some(fee)
  {
    PoolIsThis(price, reserves, w);
    SellFeeMirrorsBuyFee(side, stock, price, reserves, curve);
    RoundsDownIsFloor(w.moved, stock * price, w.total);
    CurveGivesThis(Left(side, w), Left(side, w) - w.moved, curve, w, fee);
  }

  /** A size has no fee exactly when the pool is worth nothing, or the trade would use up the
      whole share on its side. */
  lemma NoFeeExactly(side: Side, stock: nat, price: nat, reserves: Reserves, curve: Curve)
    ensures reserves.stock * price < ONE && reserves.dusd == 0 ==> FeeRate(side, stock, price, reserves, curve).None?
    ensures reserves.stock * price >= ONE || reserves.dusd > 0 ==>
              exists w :: PoolIs(price, reserves, w) && RoundsDown(w.moved, stock * price, w.total)
    ensures forall w :: PoolIs(price, reserves, w) && RoundsDown(w.moved, stock * price, w.total) ==>
              (FeeRate(side, stock, price, reserves, curve).None? <==> Left(side, w) <= w.moved)
  {
    var held := reserves.stock * price / WAD;
    RoundsDownIsFloor(held, reserves.stock * price, ONE);
    FloorIsLargest(reserves.stock * price, WAD, 1);
    if StocksRatio(price, reserves).Some? {
      var (share, total) := StocksRatio(price, reserves).value;
      RoundsDownIsFloor(share, WAD * held, total);
      RoundsDownIsFloor(Moved(stock, price, total), stock * price, total);
      var w := Workings(held, total, share, Moved(stock, price, total), 0, 0, 0);
      assert PoolIs(price, reserves, w);
    }
    forall w | PoolIs(price, reserves, w) && RoundsDown(w.moved, stock * price, w.total)
      ensures FeeRate(side, stock, price, reserves, curve).None? <==> Left(side, w) <= w.moved
    {
      PoolIsThis(price, reserves, w);
      SellFeeMirrorsBuyFee(side, stock, price, reserves, curve);
      RoundsDownIsFloor(w.moved, stock * price, w.total);
    }
  }

  // ---------------------------------------------------------------- the quote

  /** The amount before the fee: 18 decimals on both sides, for dUSD of 6 decimals in. */
  predicate IsGross(side: Side, amount: nat, price: nat, gross: nat) {
    match side
    case Buy => RoundsDown(gross, amount * MILLIONTH * ONE, price)
    case Sell => RoundsDown(gross, amount * price, ONE)
  }

  /** What one unit of the answer is worth: dUSD out has 6 decimals, stock 18. */
  function Unit(side: Side): (unit: nat) {
    if side == Buy then 1 else MILLIONTH
  }

  lemma NestedFloor(n: nat, a: nat, b: nat)
    requires a > 0 && b > 0
    ensures b * a > 0 && n / a / b == n / (b * a)
  {
    var q := n / a / b;
    MulLe(1, a, b);
    FloorIsLargest(n / a, b, q);
    FloorIsLargest(n / a, b, q + 1);
    FloorIsLargest(n, a, q * b);
    FloorIsLargest(n, a, (q + 1) * b);
    Associate(q, b, a);
    Associate(q + 1, b, a);
    FloorIsLargest(n, b * a, q);
    FloorIsLargest(n, b * a, q + 1);
  }

  lemma GrossIsThis(side: Side, amount: nat, price: nat, gross: nat)
    requires price > 0 && IsGross(side, amount, price, gross)
    ensures GrossOut(side, amount, price) == gross
  {
    if side == Buy {
      RoundsDownIsFloor(gross, amount * MILLIONTH * ONE, price);
    } else {
      RoundsDownIsFloor(gross, amount * price, ONE);
    }
  }

  /** What is left of a gross amount after a fee, in whole units. */
  predicate Pays(side: Side, gross: nat, fee: nat, net: nat) {
    fee <= ONE && RoundsDown(net, gross * (ONE - fee), Unit(side) * ONE)
  }

  lemma NetIsThis(side: Side, gross: nat, fee: nat, net: nat)
    requires fee <= ONE
    ensures Pays(side, gross, fee, net) <==>
              net == if side == Sell then Net(gross, Some(fee)) / DUSD_SCALE else Net(gross, Some(fee))
  {
    MulLe(0, ONE - fee, gross);
    NestedFloor(gross * (ONE - fee), WAD, DUSD_SCALE);
    RoundsDownIsFloor(net, gross * (ONE - fee), Unit(side) * ONE);
  }

  /** The quote on both sides: the fee of the trade's size, taken once off the gross amount
      and rounded down to whole units of what is paid out. There is no quote exactly when
      there is no fee, or when not one whole unit is left. */
  lemma QuoteIsExact(side: Side, amount: nat, price: nat, reserves: Reserves, curve: Curve, gross: nat)
    requires price > 0 && amount > 0 && IsGross(side, amount, price, gross)
    ensures
      var quote := OracleQuote(side, amount, price, reserves, curve);
      var fee := FeeRate(side, if side == Buy then gross else amount, price, reserves, curve);
      && (forall net: nat :: quote.Ok? && quote.value.net == net <==>
            fee.Some? && net > 0 && Pays(side, gross, fee.value, net))
      && (quote.Ok? ==> Some(quote.value.fee) == fee)
      && (quote == Err(NotEnoughLiquidity) <==>
            fee.None? || gross * (ONE - fee.value) < Unit(side) * ONE)
      && (quote.Err? ==> quote == Err(NotEnoughLiquidity))
  {
    GrossIsThis(side, amount, price, gross);
    var fee := FeeRate(side, if side == Buy then gross else amount, price, reserves, curve);
    if fee.Some? {
      FeeGrowsWithSize(side, StockSide(side, amount, price), StockSide(side, amount, price), price, reserves, curve);
      forall net: nat
        ensures Pays(side, gross, fee.value, net) <==>
          net == if side == Sell then Net(gross, fee) / DUSD_SCALE else Net(gross, fee)
      {
        NetIsThis(side, gross, fee.value, net);
      }
      NothingLeft(side, gross, fee.value);
    }
  }

  lemma NothingLeft(side: Side, gross: nat, fee: nat)
    requires fee <= ONE
    ensures gross * (ONE - fee) < Unit(side) * ONE <==> Pays(side, gross, fee, 0)
  {
    MulLe(0, ONE - fee, gross);
  }

  /** No other amount or price is quoted. */
  lemma RefusedBeforeTheFee(side: Side, amount: int, price: nat, reserves: Reserves, curve: Curve)
    ensures OracleQuote(side, amount, price, reserves, curve) == Err(NoUsablePrice) <==> price == 0
    ensures OracleQuote(side, amount, price, reserves, curve) == Err(BadAmount) <==> price > 0 && amount <= 0
  {
  }
}
