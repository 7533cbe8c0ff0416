/** Adding liquidity to an oracle-priced pool, and what LP tokens redeem. */
module LiquidityQuote {
  import opened Outcomes
  import opened Rounding
  import opened OraclePool

  /** An add is sized by raw LP units or by dUSD in 6-decimal units. */
  datatype Sizing = ByLp(lp: int) | ByDusd(units: int)
  datatype AddError = NoLiquidity | EmptyReserve | BadSize | TooSmall
  datatype Add = Add(liquidity: nat, stock: nat, dusd: nat)

  function StockFor(lp: nat, total: nat, pool: Reserves): (stock: nat)
    requires total > 0
  {
    CeilDiv(lp * pool.stock, total)
  }

  function DusdFor(lp: nat, total: nat, pool: Reserves): (dusd: nat)
    requires total > 0
  {
    CeilDiv(CeilDiv(lp * pool.dusd, total), DUSD_SCALE)
  }

  /** `add_quote`, once supply and reserves are read. */
  function AddQuote(size: Sizing, total: nat, pool: Reserves): (quote: Result<Add, AddError>) {
    if total == 0 then Err(NoLiquidity)
    else if pool.stock == 0 || pool.dusd == 0 then Err(EmptyReserve)
    else match size
      case ByLp(lp) =>
        if lp <= 0 then Err(BadSize) else Ok(Add(lp, StockFor(lp, total, pool), DusdFor(lp, total, pool)))
      case ByDusd(units) =>
        if units <= 0 then Err(BadSize)
        else
          var lp := units * DUSD_SCALE * total / pool.dusd;
          if lp == 0 then Err(TooSmall) else Ok(Add(lp, StockFor(lp, total, pool), DusdFor(lp, total, pool)))
  }

  /** An amount of LP is within a dUSD budget exactly when it is at most the floor. */
  lemma WithinBudget(lp: nat, units: nat, total: nat, pool: Reserves)
    requires total > 0 && pool.dusd > 0
    ensures DusdFor(lp, total, pool) <= units <==> lp <= units * DUSD_SCALE * total / pool.dusd
  {
    CeilIsLeast(CeilDiv(lp * pool.dusd, total), DUSD_SCALE, units);
    CeilIsLeast(lp * pool.dusd, total, units * DUSD_SCALE);
    FloorIsLargest(units * DUSD_SCALE * total, pool.dusd, lp);
  }

  /** Sizing by dUSD gives the largest affordable mint: it fits the budget and one raw LP
      unit more does not; it is refused as too small exactly when not even one unit fits. */
  lemma DusdSizingIsLargest(units: int, total: nat, pool: Reserves)
    requires units > 0 && total > 0 && pool.stock > 0 && pool.dusd > 0
    ensures
      var quote := AddQuote(ByDusd(units), total, pool);
      && (quote.Ok? ==>
            && quote == AddQuote(ByLp(quote.value.liquidity), total, pool)
            && quote.value.dusd <= units
            && forall lp: nat :: lp > quote.value.liquidity ==> AddQuote(ByLp(lp), total, pool).value.dusd > units)
      && (quote == Err(TooSmall) <==> DusdFor(1, total, pool) > units)
      && (quote.Err? ==> quote == Err(TooSmall))
  {
    var lp := units * DUSD_SCALE * total / pool.dusd;
    FloorIsLargest(units * DUSD_SCALE * total, pool.dusd, 0);
    MulLe(0, units * DUSD_SCALE, total);
    WithinBudget(1, units, total, pool);
    WithinBudget(lp, units, total, pool);
    forall more: nat | more > lp ensures DusdFor(more, total, pool) > units {
      WithinBudget(more, units, total, pool);
    }
  }

  /** An add is refused exactly for want of a supply, of a reserve on either side, of a
      positive size, or, sized by dUSD, when one raw LP unit is worth more than the budget. */
  lemma RefusedExactly(size: Sizing, total: nat, pool: Reserves)
    ensures
      var quote := AddQuote(size, total, pool);
      var positive := match size case ByLp(lp) => lp > 0 case ByDusd(units) => units > 0;
      && (quote == Err(NoLiquidity) <==> total == 0)
      && (quote == Err(EmptyReserve) <==> total > 0 && (pool.stock == 0 || pool.dusd == 0))
      && (quote == Err(BadSize) <==> total > 0 && pool.stock > 0 && pool.dusd > 0 && !positive)
      && (quote == Err(TooSmall) <==>
            && total > 0 && pool.stock > 0 && pool.dusd > 0 && positive
            && size.ByDusd? && size.units * 1_000_000_000_000 * total < pool.dusd)
  {
    if size.ByDusd? && size.units > 0 && pool.dusd > 0 {
      MulLe(0, size.units * DUSD_SCALE, total);
      FloorIsLargest(size.units * DUSD_SCALE * total, pool.dusd, 1);
      FloorIsLargest(size.units * DUSD_SCALE * total, pool.dusd, 0);
    }
  }

  /** The quoted amounts are the least whole ones that are worth the share of the LP: of
      either reserve, with 18 decimals of stock and 6 of dUSD. */
  lemma QuotedAmountsAreLeast(size: Sizing, total: nat, pool: Reserves, stock: nat, units: nat)
    requires AddQuote(size, total, pool).Ok?
    ensures
      var add := AddQuote(size, total, pool).value;
      && (size.ByLp? ==> add.liquidity == size.lp)
      && (add.stock <= stock <==> add.liquidity * pool.stock <= stock * total)
      && (add.dusd <= units <==> add.liquidity * pool.dusd <= units * 1_000_000_000_000 * total)
  {
    var lp := AddQuote(size, total, pool).value.liquidity;
    CeilIsLeast(lp * pool.stock, total, stock);
    CeilIsLeast(CeilDiv(lp * pool.dusd, total), DUSD_SCALE, units);
    CeilIsLeast(lp * pool.dusd, total, units * DUSD_SCALE);
  }

  /** What `lp` units redeem: `_lp_position`. */
  datatype Payout = Payout(stock: nat, dusd: nat)

  function Position(lp: nat, total: nat, pool: Reserves): (payout: Payout) {
    if total == 0 then Payout(0, 0)
    else
      SharesAreNatural(lp, total, pool);
      Payout(lp * pool.stock / total, lp * pool.dusd / total / DUSD_SCALE)
  }

  lemma SharesAreNatural(lp: nat, total: nat, pool: Reserves)
    requires total > 0
    ensures lp * pool.stock / total >= 0 && lp * pool.dusd / total >= 0
  {
    MulLe(0, lp, pool.stock);
    MulLe(0, lp, pool.dusd);
    FloorIsLargest(lp * pool.stock, total, 0);
    FloorIsLargest(lp * pool.dusd, total, 0);
  }

  /** What is paid out is the largest whole amount within the share, on either side. */
  lemma PayoutIsLargest(lp: nat, total: nat, pool: Reserves, stock: nat, units: nat)
    requires total > 0
    ensures stock <= Position(lp, total, pool).stock <==> stock * total <= lp * pool.stock
    ensures units <= Position(lp, total, pool).dusd <==> units * 1_000_000_000_000 * total <= lp * pool.dusd
  {
    SharesAreNatural(lp, total, pool);
    FloorIsLargest(lp * pool.stock, total, stock);
    FloorIsLargest(lp * pool.dusd / total, DUSD_SCALE, units);
    FloorIsLargest(lp * pool.dusd, total, units * DUSD_SCALE);
  }

  function Sum(xs: seq<nat>): (total: nat) {
    if xs == [] then 0 else xs[0] + Sum(xs[1..])
  }

  function TotalPayout(holders: seq<nat>, total: nat, pool: Reserves): (payout: Payout) {
    if holders == [] then Payout(0, 0)
    else
      var first, rest := Position(holders[0], total, pool), TotalPayout(holders[1..], total, pool);
      Payout(first.stock + rest.stock, first.dusd + rest.dusd)
  }

  /** Payouts conserve the pool: holders who own at most the supply never get more than
      either reserve, however many they are. */
  lemma PayoutsConserve(holders: seq<nat>, total: nat, pool: Reserves)
    requires Sum(holders) <= total
    ensures TotalPayout(holders, total, pool).stock <= pool.stock
    ensures TotalPayout(holders, total, pool).dusd * DUSD_SCALE <= pool.dusd
  {
    ShareOfPayouts(holders, total, pool);
    MulLe(Sum(holders), total, pool.stock);
    MulLe(Sum(holders), total, pool.dusd);
    if total > 0 {
      CancelTotal(TotalPayout(holders, total, pool).stock, pool.stock, total);
      CancelTotal(TotalPayout(holders, total, pool).dusd * DUSD_SCALE, pool.dusd, total);
    } else {
      NothingWithoutSupply(holders, pool);
    }
  }

  lemma CancelTotal(a: int, b: int, total: nat)
    requires total > 0 && a * total <= b * total
    ensures a <= b
  {
    assert (b + 1) * total == b * total + total;
    if b + 1 <= a {
      MulLe(b + 1, a, total);
    }
  }

  lemma {:induction false} NothingWithoutSupply(holders: seq<nat>, pool: Reserves)
    ensures TotalPayout(holders, 0, pool) == Payout(0, 0)
  {
    if holders == [] {
    } else {
      NothingWithoutSupply(holders[1..], pool);
    }
  }

  lemma {:induction false} ShareOfPayouts(holders: seq<nat>, total: nat, pool: Reserves)
    ensures TotalPayout(holders, total, pool).stock * total <= Sum(holders) * pool.stock
    ensures TotalPayout(holders, total, pool).dusd * DUSD_SCALE * total <= Sum(holders) * pool.dusd
  {
    if holders == [] {
    } else {
      var h, rest := holders[0], TotalPayout(holders[1..], total, pool);
      var first := Position(h, total, pool);
      ShareOfPayouts(holders[1..], total, pool);
      ShareOfPosition(h, total, pool);
      AddShares(first.stock, h, rest.stock, Sum(holders[1..]), total, pool.stock);
      AddShares(first.dusd * DUSD_SCALE, h, rest.dusd * DUSD_SCALE, Sum(holders[1..]), total, pool.dusd);
    }
  }

  lemma AddShares(a: int, x: int, b: int, y: int, total: int, reserve: int)
    requires a * total <= x * reserve && b * total <= y * reserve
    ensures (a + b) * total <= (x + y) * reserve
  {
    assert (a + b) * total == a * total + b * total;
    assert (x + y) * reserve == x * reserve + y * reserve;
  }

  lemma ShareOfPosition(lp: nat, total: nat, pool: Reserves)
    ensures Position(lp, total, pool).stock * total <= lp * pool.stock
    ensures Position(lp, total, pool).dusd * DUSD_SCALE * total <= lp * pool.dusd
  {
    if total > 0 {
      FloorBounds(lp * pool.stock, total);
      FloorBounds(lp * pool.dusd, total);
      FloorBounds(lp * pool.dusd / total, DUSD_SCALE);
      MulLe(Position(lp, total, pool).dusd * DUSD_SCALE, lp * pool.dusd / total, total);
    }
  }

  /** Adding and redeeming: after the quoted stock and dUSD went in and the LP was minted,
      the LP redeems the quoted amounts or one unit less of each, never more. The stock
      comes back whole exactly when the quote did not round up. */
  lemma AddThenRedeem(size: Sizing, total: nat, pool: Reserves)
    ensures AddQuote(size, total, pool).Ok? ==> ComesBack(AddQuote(size, total, pool).value, total, pool)
  {
    if AddQuote(size, total, pool).Ok? {
      var quote := AddQuote(size, total, pool).value;
      StockComesBack(quote.liquidity, quote.stock, total, pool.stock);
      DusdComesBack(quote.liquidity, quote.dusd, total, pool.dusd);
    }
  }

  predicate ComesBack(add: Add, total: nat, pool: Reserves) {
    var grown := Reserves(pool.stock + add.stock, pool.dusd + add.dusd * DUSD_SCALE);
    var back := Position(add.liquidity, total + add.liquidity, grown);
    && add.stock - 1 <= back.stock <= add.stock
    && add.dusd - 1 <= back.dusd <= add.dusd
    && (back.stock == add.stock <==> add.stock * total == add.liquidity * pool.stock)
  }

  lemma Distribute(x: int, a: int, b: int)
    ensures x * (a + b) == x * a + x * b && (a + b) * x == x * a + x * b
  {
  }

  lemma StockComesBack(lp: nat, q: nat, total: nat, reserve: nat)
    requires total > 0 && q == CeilDiv(lp * reserve, total)
    ensures q - 1 <= lp * (reserve + q) / (total + lp) <= q
    ensures lp * (reserve + q) / (total + lp) == q <==> q * total == lp * reserve
  {
    CeilIsLeast(lp * reserve, total, q);
    Distribute(lp, reserve, q);
    Distribute(q, total, lp);
    Distribute(total + lp, q, -1);
    var n, d := lp * (reserve + q), total + lp;
    assert n == q * d + lp * reserve - q * total;
    if lp * reserve == q * total {
      FloorBetween(n, d, q, q);
    } else {
      FloorBetween(n, d, q - 1, q - 1);
    }
  }

  lemma DusdComesBack(lp: nat, units: nat, total: nat, reserve: nat)
    requires total > 0 && units == CeilDiv(CeilDiv(lp * reserve, total), DUSD_SCALE)
    ensures units - 1 <= lp * (reserve + units * DUSD_SCALE) / (total + lp) / DUSD_SCALE <= units
  {
    var wad, paidIn := CeilDiv(lp * reserve, total), units * DUSD_SCALE;
    CeilIsLeast(lp * reserve, total, wad);
    CeilIsLeast(wad, DUSD_SCALE, units);
    WithinOneUnit(lp * reserve, total, wad, paidIn);
    WadComesBack(lp, paidIn, total, reserve);
    FloorBetween(lp * (reserve + paidIn) / (total + lp), DUSD_SCALE, units - 1, units);
  }

  lemma WadComesBack(lp: nat, paidIn: nat, total: nat, reserve: nat)
    requires total > 0 && lp * reserve <= paidIn * total < lp * reserve + DUSD_SCALE * total
    ensures paidIn - DUSD_SCALE <= lp * (reserve + paidIn) / (total + lp) <= paidIn
  {
    Distribute(lp, reserve, paidIn);
    Distribute(paidIn, total, lp);
    Distribute(total + lp, paidIn, -(DUSD_SCALE as int));
    var n, d := lp * (reserve + paidIn), total + lp;
    assert n == paidIn * d + lp * reserve - paidIn * total;
    FloorBetween(n, d, paidIn - DUSD_SCALE, paidIn);
  }

  /** The rounded-up dUSD is worth less than one unit more than the share it buys. */
  lemma WithinOneUnit(share: int, total: nat, wad: nat, paidIn: nat)
    requires share <= wad * total < share + total
    requires wad <= paidIn < wad + DUSD_SCALE
    ensures share <= paidIn * total < share + DUSD_SCALE * total
  {
    MulLe(wad, paidIn, total);
    MulLe(paidIn, wad + (DUSD_SCALE - 1), total);
    Distribute(total, wad, DUSD_SCALE - 1);
  }
}
