/** What sends and clearings mean for the caller, in the chain's own answers: which attempts
    are repeated and from which nonce, what is remembered, and how each result arises. */
module SendResults {
  import opened Outcomes
  import opened FreshReads
  import opened Rounding
  import opened ChainAnswers
  import opened SendJournal
  import opened Clearing
  import opened Sends

  // ---------------------------------------------------------------- sends

  /** The attempt failed in its simulation or in its receipt, saying "nonce too low". */
  predicate SaidTooLow(a: Attempt) {
    && a.result.Err? && a.result.error.TransactionFailed? && a.result.error.hint.TooLow?
    && (a.entries != [] ==>
          |a.entries| == 2 && a.entries[1].Waited? && a.entries[1].outcome.Mined? && !a.entries[1].outcome.succeeded)
  }

  /** Every attempt that failed with "nonce too low" is followed by another, up to five in
      all, and no other attempt is. */
  lemma RepeatedExactly(chain: Chain, value: nat, attempts: seq<Attempt>, i: nat)
    requires SendFits(chain, value, attempts) && i < |attempts|
    ensures i + 1 < |attempts| <==> SaidTooLow(attempts[i]) && i < 4
    ensures attempts[i].result.Err? && attempts[i].result.error.TransactionFailed? ==>
              SaidTooLow(attempts[i]) || !attempts[i].result.error.hint.TooLow?
  {
    assert attempts[i] in attempts;
    if i + 1 < |attempts| {
      AttemptAt(chain, attempts, i);
    }
    RetryCause(chain, value, attempts[i]);
  }

  /** A retry goes on from the account nonce that the failure named: it never uses a lower
      one, and uses a higher one only if the chain's pending nonce is higher. */
  lemma RetryGoesOnFromTheNamedNonce(chain: Chain, value: nat, attempts: seq<Attempt>, i: nat)
    requires SendFits(chain, value, attempts) && i + 1 < |attempts|
    requires attempts[i + 1].filling.filled.Ok?
    ensures SaidTooLow(attempts[i]) && attempts[i + 1].filling.looks != []
    ensures
      var looks := attempts[i + 1].filling.looks;
      var pending := looks[|looks| - 1].pending;
      attempts[i + 1].filling.filled.value.nonce ==
        match attempts[i].result.error.hint.account
        case Some(named) => Max(pending, named)
        case None => pending
  {
    RepeatedExactly(chain, value, attempts, i);
    AttemptAt(chain, attempts, i);
    assert attempts[i + 1] in attempts;
  }

  /** The latest nonce of a look comes from a block that holds the client's last write, or it
      was read at "latest" after three reads at such a block had failed. */
  lemma LooksReadOwnWrites(chain: Chain, lastWrite: nat, l: Look) returns (t: nat, n: nat)
    requires LookSound(chain, lastWrite, l) && lastWrite > 0
    ensures l.at < t && t + 2 == l.until && n >= lastWrite
    ensures forall newest: nat :: chain.newestBlock(l.at) == Some(newest) ==> n >= newest
    ensures || chain.nonceAt(t, Number(n)) == Some(l.latest)
            || (&& t == l.at + 4 && chain.nonceAt(t, Latest) == Some(l.latest)
                && forall k: nat :: l.at < k < t ==> chain.nonceAt(k, Number(n)) == None)
  {
    FreshBlockCovers(lastWrite, chain.newestBlock(l.at));
    t, n := l.until - 2, l.block.number;
    if t == l.at + 4 {
      forall k: nat | l.at < k < t ensures chain.nonceAt(k, Number(n)) == None {
        assert NonceAnswer(chain, l.at + 1, k, l.block).None?;
      }
    }
  }

  /** A send is refused as stuck exactly after five looks, each at question `at` of its own,
      that show a nonce from the latest up to the pending one which is not among those kept,
      and exactly the nonces from the latest on are kept. */
  lemma StuckExactly(chain: Chain, value: nat, f: Filling)
    requires FilledFits(chain, value, f)
    ensures f.filled == Err(Stuck) <==>
              |f.looks| == 5 && forall l :: l in f.looks ==> exists n: nat :: l.latest <= n < l.pending && n !in l.known
    ensures f.filled.Ok? ==>
              && f.looks != []
              && var l := f.looks[|f.looks| - 1];
                 forall n: nat :: l.latest <= n < l.pending ==> n in l.known
    ensures forall l, n: nat :: l in f.looks ==> (n in l.known <==> n in l.before && l.latest <= n)
  {
    forall l | l in f.looks
      ensures f.filled == Err(Stuck) ==> exists n: nat :: l.latest <= n < l.pending && n !in l.known
    {
      var i :| 0 <= i < |f.looks| && f.looks[i] == l;
      if f.filled == Err(Stuck) {
        if i + 1 < |f.looks| {
          LookAt(f.since, f.before.known, f.looks, i);
        }
        assert !Explained(l);
      }
    }
    if f.looks != [] {
      assert f.looks[|f.looks| - 1] in f.looks;
    }
  }

  /** What an attempt leaves behind: a nonce that may be on the chain stays accounted for and
      counts as used, one whose wait timed out counts as stuck, and one that the node refused
      is as before. */
  lemma AttemptLeaves(chain: Chain, value: nat, a: Attempt)
    requires FilledFits(chain, value, a.filling) && ResultFits(chain, a) && a.filling.filled.Ok?
    ensures
      var n, known, m := a.filling.filled.value.nonce, a.filling.Known(), MemoryAfter(chain, a);
      var reply := chain.broadcast(a.filling.until, n);
      match reply
      case Refused(_) => m.used == None && m.known == known
      case Lost(_) => m.used == None && m.known == known + {n}
      case Accepted(hash) =>
        match chain.wait(a.filling.until + 1, hash)
        case Mined(true, _) => m.used == Some(n) && m.known == known + {n}
        case Mined(false, _) => n in m.known && m.known == known + {n} && (!SaidTooLow(a) ==> m.used == Some(n))
        case TimedOut => m.used == None && n !in m.known && m.known == known - {n}
        case WaitFailed => m.used == Some(n) && m.known == known + {n}
  {
  }

  /** The gas limit is the exact estimate of a plain transfer, and otherwise the least whole
      amount at least a quarter above the estimate; the balance read with it pays for it. */
  lemma GasIsPaidFor(chain: Chain, value: nat, a: Attempt) returns (t: nat, price: nat, estimate: nat, balance: nat)
    requires FilledFits(chain, value, a.filling) && a.filling.filled.Ok?
    ensures chain.gasPrice(LooksUntil(a.filling.since, a.filling.looks)) == Some(price)
    ensures a.filling.filled.value.gasPrice == price
    ensures t < a.filling.until && a.filling.looks != []
    ensures
      var block := a.filling.looks[|a.filling.looks| - 1].block;
      || chain.simulate(t, block) == Simulation(Some(balance), Gas(estimate))
      || chain.simulate(t, Latest) == Simulation(Some(balance), Gas(estimate))
    ensures
      var gas := a.filling.filled.value.gas;
      && (if estimate <= 21000 then gas == estimate else 5 * estimate <= 4 * gas < 5 * estimate + 4)
      && gas * price + value <= balance
  {
    var f := a.filling;
    t, price := f.until - 1, f.filled.value.gasPrice;
    var now := LooksUntil(f.since, f.looks) + 1;
    var s := SimulationAnswer(chain, now, t, f.looks[|f.looks| - 1].block);
    estimate, balance := s.estimate.amount, s.balance.value;
    GasLimitCovers(estimate, estimate);
  }

  /** Nothing is signed for want of gas exactly if the balance read with the last estimate
      does not pay for it, or nothing could be estimated and the last balance read is below
      the value; in both cases a read shows the shortfall. */
  lemma PoorExactly(chain: Chain, value: nat, f: Filling) returns (now: nat, t: nat, price: nat, block: Block)
    requires FilledFits(chain, value, f) && f.filled.Err?
    requires f.filled.error.NotEnoughGas? || f.filled.error.TransactionFailed?
    ensures now < t < f.until && chain.gasPrice(now) == Some(price)
    ensures
      var last := SimulationAnswer(chain, now + 1, t, block);
      var seen := LastBalance(chain, now + 1, t + 1, block);
      f.filled.error.NotEnoughGas? <==>
        if last.balance.Some? && !last.estimate.NoEstimate? then last.estimate.Gas?
        else seen.Some? && seen.value < value
    ensures f.filled.error.NotEnoughGas? ==> Short(chain, now + 1, t + 1, block, price, value)
  {
    now, block := LooksUntil(f.since, f.looks), f.looks[|f.looks| - 1].block;
    price := chain.gasPrice(now).value;
    if TooPoor(chain, now + 1, f.until, block, price, value) && f.filled.error.NotEnoughGas? {
      t := f.until - 1;
    } else {
      t := f.until - 2;
      if f.filled.error.NotEnoughGas? {
        LowBalanceMisses(chain, now + 1, t + 1, block, price, value);
      }
    }
  }

  predicate Inconclusive(s: Simulation) {
    s.balance.None? || s.estimate.NoEstimate?
  }

  /** A failed attempt drops the counter exactly when the last simulation reverted; until
      then no simulation had reverted or given an estimate. */
  lemma RevertDropsTheCounter(chain: Chain, value: nat, f: Filling) returns (first: nat, last: nat, block: Block)
    requires FilledFits(chain, value, f) && f.filled.Err? && f.filled.error.TransactionFailed?
    ensures f.looks != [] && block == f.looks[|f.looks| - 1].block
    ensures first == LooksUntil(f.since, f.looks) + 1 && first <= last && last + 2 == f.until
    ensures
      var s := SimulationAnswer(chain, first, last, block);
      f.Counter(chain) == if s.balance.Some? && s.estimate.Reverts? then None else f.before.used
    ensures forall k: nat :: first <= k < last ==> Inconclusive(SimulationAnswer(chain, first, k, block))
  {
    first, last, block := LooksUntil(f.since, f.looks) + 1, f.until - 2, f.looks[|f.looks| - 1].block;
    forall k: nat | first <= k < last ensures Inconclusive(SimulationAnswer(chain, first, k, block)) {
      assert Simulated(SimulationAnswer(chain, first, k, block)) == Failed(false);
    }
  }

  // ---------------------------------------------------------------- clearings

  /** Every replacement is a plain transfer at the least whole price at least a quarter above
      the network's. */
  lemma ReplacementsOutbid(chain: Chain, c: Clearance, e: Entry) returns (price: nat)
    requires ClearanceFits(chain, c) && e in c.subs
    ensures chain.gasPrice(c.survey.seen + 1) == Some(price)
    ensures e.Submitted? && e.gas == 21000 && 5 * price <= 4 * e.gasPrice < 5 * price + 4
  {
    price := c.survey.stuck.price;
    var i :| 0 <= i < |c.subs| && c.subs[i] == e;
    PlusAQuarterIsLeast(price, c.survey.stuck.GasPrice());
    PlusAQuarterIsLeast(price, c.survey.stuck.GasPrice() - 1);
  }

  /** Stuck nonces are not replaced for lack of balance exactly when the balance is below
      21000 gas for each of them at that price. */
  lemma CannotPayExactly(chain: Chain, c: Clearance, price: nat, bid: nat)
    requires ClearanceFits(chain, c) && c.survey.stuck.latest < c.survey.stuck.pending
    requires c.survey.early.None? || c.survey.early == Some(CannotPay)
    requires chain.gasPrice(c.survey.seen + 1) == Some(price) && 5 * price <= 4 * bid < 5 * price + 4
    ensures c.result == CannotPay <==>
              c.survey.stuck.balance < 21000 * (c.survey.stuck.pending - c.survey.stuck.latest) * bid
  {
    PlusAQuarterIsLeast(price, bid);
    PlusAQuarterIsLeast(price, bid - 1);
    assert c.survey.stuck.GasPrice() == bid;
  }

  /** The transaction was seen to mine, at once or by its receipt after a time-out. */
  predicate SeenMined(s: Settlement) {
    || s.outcome.Mined?
    || (s.outcome.TimedOut? && s.latest.Some? && s.nonce < s.latest.value && s.found.Some? && s.found.value.Found?)
  }

  /** Another transaction took the nonce: it has passed and there is no receipt. */
  predicate SeenOvertaken(s: Settlement) {
    s.outcome.TimedOut? && s.latest.Some? && s.nonce < s.latest.value && s.found == Some(NotFound)
  }

  /** The time-out left the transaction unmined. */
  predicate SeenPending(s: Settlement) {
    s.outcome.TimedOut? && s.latest.Some? && s.latest.value <= s.nonce
  }

  lemma FatesAreThese(s: Settlement)
    ensures FateOf(s) == Replaced <==> SeenMined(s)
    ensures FateOf(s) == Overtaken <==> SeenOvertaken(s)
    ensures FateOf(s) == Unmined <==> SeenPending(s)
  {
  }

  /** How a clearing ends once it has submitted anything: refused exactly when the last
      broadcast was neither accepted nor too low, still pending or in error exactly when its
      last wait shows that, and otherwise every replacement was mined or overtaken. */
  lemma ClearingEndsExactly(chain: Chain, c: Clearance)
    requires ClearanceFits(chain, c) && c.subs != []
    ensures
      var last := c.subs[|c.subs| - 1];
      var refused := last.Submitted? && !last.reply.Accepted? && !last.reply.tooLow;
      && (c.result.ReplacementRefused? <==> refused)
      && (c.result.StillPending? <==> !refused && c.waits != [] && SeenPending(c.waits[|c.waits| - 1]))
      && (c.result.ClearRpcError? <==>
            && !refused && c.waits != []
            && var s := c.waits[|c.waits| - 1];
               !SeenMined(s) && !SeenOvertaken(s) && !SeenPending(s))
      && (c.result.AllCleared? || c.result.SomeMined? <==>
            !refused && forall s :: s in c.waits ==> SeenMined(s) || SeenOvertaken(s))
  {
    forall s | s in c.waits ensures Settled(s) <==> SeenMined(s) || SeenOvertaken(s) {
      FatesAreThese(s);
    }
    if c.waits != [] {
      var last := c.waits[|c.waits| - 1];
      FatesAreThese(last);
      assert last in c.waits;
    }
  }

  /** A completed clearing replaced every stuck nonce exactly when every broadcast was
      accepted and every replacement was seen to mine. */
  lemma ClearedExactly(chain: Chain, c: Clearance)
    requires ClearanceFits(chain, c) && c.subs != []
    requires c.result.AllCleared? || c.result.SomeMined?
    ensures c.result.AllCleared? <==>
              && (forall e :: e in c.subs ==> e.Submitted? && e.reply.Accepted?)
              && (forall s :: s in c.waits ==> SeenMined(s))
  {
    NoneTooLow(c.subs);
    NoneOvertaken(c.waits);
  }

  lemma {:induction false} NoneTooLow(subs: seq<Entry>)
    requires AllAnswered(subs)
    ensures TooLowIn(subs) == [] <==> forall e :: e in subs ==> e.Submitted? && e.reply.Accepted?
  {
    if subs == [] {
    } else {
      var before, last := subs[..|subs| - 1], subs[|subs| - 1];
      NoneTooLow(before);
      assert subs == before + [last];
    }
  }

  lemma {:induction false} NoneOvertaken(waits: seq<Settlement>)
    requires EverySettled(waits)
    ensures OvertakenIn(waits) == [] <==> forall s :: s in waits ==> SeenMined(s)
  {
    if waits == [] {
    } else {
      var before, last := waits[..|waits| - 1], waits[|waits| - 1];
      NoneOvertaken(before);
      FatesAreThese(last);
      assert waits == before + [last];
    }
  }

  /** What a clearing leaves behind: a nonce is accounted for if it was, or a replacement for it
      went out that was not refused, and no wait for it timed out; the counter is dropped by
      a completed clearing, a broadcast that was not accepted and a time-out, and by nothing
      else. */
  lemma ClearingLeaves(chain: Chain, c: Clearance, n: nat)
    requires ClearanceFits(chain, c)
    ensures
      var m := MemoryCleared(c);
      && (n in m.known <==>
            && (n in c.before.known || exists e :: e in c.subs && e.Submitted? && e.nonce == n && !e.reply.Refused?)
            && !exists s :: s in c.waits && s.nonce == n && s.outcome.TimedOut?)
      && m.used ==
           if c.result.AllCleared? || c.result.SomeMined?
              || (exists e :: e in c.subs && e.Submitted? && !e.reply.Accepted?)
              || (exists s :: s in c.waits && s.outcome.TimedOut?)
           then None else c.before.used
  {
    assert c.survey.early.None? ==> forall e :: e in c.subs ==> e.Submitted?;
    forall s | s in c.waits && s.outcome.TimedOut? ensures s.nonce in Dropped(c.waits) {
    }
  }

  /** Whatever receipt a clearing saw, its block is noted. */
  lemma {:induction false} ClearingNotes(lastWrite: nat, waits: seq<Settlement>, i: nat, block: nat)
    requires WaitsInTurn(waits) && i < |waits|
    requires || (waits[i].outcome.Mined? && waits[i].outcome.block == Some(block))
             || (waits[i].outcome.TimedOut? && waits[i].found == Some(Found(Some(block))))
    ensures WriteAfter(lastWrite, waits) >= block
  {
    var n := |waits| - 1;
    if i < n {
      ClearingNotes(lastWrite, waits[..n], i, block);
    }
  }
}
