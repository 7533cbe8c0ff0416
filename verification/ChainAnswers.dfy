/** The chain as seen by one client: any function from the moment of a question to an
    answer, so every lag, refusal and loss is covered. */
module ChainAnswers {
  import opened Outcomes
  import opened FreshReads
  import opened Rounding

  type Hash = nat

  /** What an error text says about nonces: nothing, or "nonce too low", with the account
      nonce it names if it names one. */
  datatype NonceHint = NoHint | TooLow(account: Option<nat>)

  /** A broadcast: accepted, refused by the node, or lost on the way back. */
  datatype Broadcast = Accepted(hash: Hash) | Refused(tooLow: bool) | Lost(tooLow: bool)

  datatype Wait = Mined(succeeded: bool, block: Option<nat>) | TimedOut | WaitFailed

  datatype Lookup = Found(block: Option<nat>) | NotFound | LookupFailed

  /** One attempt to read the balance and simulate the call. */
  datatype Estimate = Gas(amount: nat) | Reverts | NoEstimate
  datatype Simulation = Simulation(balance: Option<nat>, estimate: Estimate)

  /** Every answer of the chain, by the number of questions asked before. */
  datatype Chain = Chain(
    newestBlock: nat -> Option<nat>,
    nonceAt: (nat, Block) -> Option<nat>,
    pendingNonce: nat -> Option<nat>,
    gasPrice: nat -> Option<nat>,
    chainId: nat -> Option<nat>,
    balanceAt: (nat, Block) -> Option<nat>,
    simulate: (nat, Block) -> Simulation,
    broadcast: (nat, nat) -> Broadcast,
    wait: (nat, Hash) -> Wait,
    receipt: (nat, Hash) -> Lookup,
    hint: nat -> NonceHint)

  /** `_served` turns an unanswered read into an error that is not final. */
  function Served(answer: Option<nat>): Reading<nat> {
    if answer.Some? then Got(answer.value) else Failed(false)
  }

  // ---------------------------------------------------------------- what the answers say

  // Questions are numbered. A call asks those from `since` or `now` up to, not including,
  // `until`.

  /** What a question asks for, when it gets no answer and its error is passed on. */
  datatype Question = OfNonce | OfPending | OfPrice | OfBalance | OfChainId | OfBroadcast | OfReceipt

  /** Question `t` asked for this and got no answer; a read for a block ends at "latest". */
  predicate Silent(chain: Chain, q: Question, t: int) {
    t >= 0 &&
    match q
    case OfNonce => chain.nonceAt(t, Latest).None?
    case OfPending => chain.pendingNonce(t).None?
    case OfPrice => chain.gasPrice(t).None?
    case OfBalance => chain.balanceAt(t, Latest).None?
    case OfChainId => chain.chainId(t).None?
    case _ => false
  }

  /** Where the `k`-th read for a block asks: there three times, then at "latest". */
  function AskedAt(block: Block, k: int): (at: Block) {
    if k < READ_RETRIES then block else Latest
  }

  /** How many questions a read for a block may take. */
  predicate Asked(block: Block, now: nat, until: nat) {
    now < until <= now + if block == Latest then 1 else READ_RETRIES + 1
  }

  /** The blocks that one read asked at are those. */
  predicate Shape(block: Block, asked: seq<Block>) {
    && 0 < |asked| <= (if block == Latest then 1 else READ_RETRIES + 1)
    && forall k :: 0 <= k < |asked| ==> asked[k] == AskedAt(block, k)
  }

  function NonceAnswer(chain: Chain, now: nat, t: nat, block: Block): (answer: Option<nat>) {
    chain.nonceAt(t, AskedAt(block, t - now))
  }

  /** The last of these questions was answered with this nonce, after the others were not. */
  ghost predicate NonceRead(chain: Chain, now: nat, until: nat, block: Block, nonce: nat) {
    && Asked(block, now, until) && NonceAnswer(chain, now, until - 1, block) == Some(nonce)
    && forall t: nat :: now <= t < until - 1 ==> NonceAnswer(chain, now, t, block).None?
  }

  /** No read of the nonce for this block was answered, not even the one at "latest". */
  ghost predicate NonceUnread(chain: Chain, now: nat, until: nat, block: Block) {
    && until == now + (if block == Latest then 1 else READ_RETRIES + 1)
    && forall t: nat :: now <= t < until ==> NonceAnswer(chain, now, t, block).None?
  }

  function BalanceAnswer(chain: Chain, now: nat, t: nat, block: Block): (answer: Option<nat>) {
    chain.balanceAt(t, AskedAt(block, t - now))
  }

  ghost predicate BalanceRead(chain: Chain, now: nat, until: nat, block: Block, balance: nat) {
    && Asked(block, now, until) && BalanceAnswer(chain, now, until - 1, block) == Some(balance)
    && forall t: nat :: now <= t < until - 1 ==> BalanceAnswer(chain, now, t, block).None?
  }

  ghost predicate BalanceUnread(chain: Chain, now: nat, until: nat, block: Block) {
    && until == now + (if block == Latest then 1 else READ_RETRIES + 1)
    && forall t: nat :: now <= t < until ==> BalanceAnswer(chain, now, t, block).None?
  }

  function Simulated(s: Simulation): (reading: Reading<(nat, nat)>) {
    if s.balance.None? then Failed(false)
    else match s.estimate
      case Gas(amount) => Got((s.balance.value, amount))
      case Reverts => Failed(true)
      case NoEstimate => Failed(false)
  }

  function SimulationAnswer(chain: Chain, now: nat, t: nat, block: Block): (s: Simulation) {
    chain.simulate(t, AskedAt(block, t - now))
  }

  /** These questions simulate the call; all but the last failed without reverting. */
  ghost predicate Simulating(chain: Chain, now: nat, until: nat, block: Block) {
    && Asked(block, now, until)
    && forall t: nat :: now <= t < until - 1 ==> Simulated(SimulationAnswer(chain, now, t, block)) == Failed(false)
  }

  /** The balance pays for the gas limit taken from the estimate read with it. */
  predicate Pays(s: Simulation, gas: nat, gasPrice: nat, value: nat) {
    && s.balance.Some? && s.estimate.Gas?
    && gas == GasLimitFromEstimate(s.estimate.amount)
    && s.balance.value >= gas * gasPrice + value
  }

  ghost predicate Funded(chain: Chain, now: nat, until: nat, block: Block, gas: nat, gasPrice: nat, value: nat) {
    && Simulating(chain, now, until, block)
    && Pays(SimulationAnswer(chain, now, until - 1, block), gas, gasPrice, value)
  }

  /** The balance misses the value and the gas, or the value alone if nothing was estimated. */
  predicate Misses(s: Simulation, gasPrice: nat, value: nat) {
    && s.balance.Some?
    && s.balance.value < value + if s.estimate.Gas? then GasLimitFromEstimate(s.estimate.amount) * gasPrice else 0
  }

  ghost predicate Short(chain: Chain, now: nat, until: nat, block: Block, gasPrice: nat, value: nat) {
    exists t: nat :: now <= t < until && Misses(SimulationAnswer(chain, now, t, block), gasPrice, value)
  }

  /** The last simulation reverted, or it got no answer at "latest" after all others. */
  ghost predicate SimulationFailed(chain: Chain, now: nat, until: nat, block: Block) {
    && Simulating(chain, now, until, block) && Simulated(SimulationAnswer(chain, now, until - 1, block)).Failed?
    && (Reverted(chain, now, until, block) || AskedAt(block, until - 1 - now) == Latest)
  }

  /** The balance read with the estimate does not pay for it. */
  ghost predicate TooPoor(chain: Chain, now: nat, until: nat, block: Block, gasPrice: nat, value: nat) {
    && Simulating(chain, now, until, block)
    && SimulationAnswer(chain, now, until - 1, block).estimate.Gas?
    && Misses(SimulationAnswer(chain, now, until - 1, block), gasPrice, value)
  }

  /** Nothing was estimated, and the last balance read is below the value alone. */
  ghost predicate Unsized(chain: Chain, now: nat, until: nat, block: Block, value: nat) {
    && SimulationFailed(chain, now, until, block) && !Reverted(chain, now, until, block)
    && LastBalance(chain, now, until, block).Some? && LastBalance(chain, now, until, block).value < value
  }

  /** The last simulation reverted. */
  predicate Reverted(chain: Chain, now: nat, until: nat, block: Block) {
    until > now && Simulated(SimulationAnswer(chain, now, until - 1, block)) == Failed(true)
  }

  /** The last balance these simulations returned. */
  function LastBalance(chain: Chain, now: nat, until: nat, block: Block): (balance: Option<nat>)
    decreases until
  {
    if until <= now then None
    else
      var last := SimulationAnswer(chain, now, until - 1, block).balance;
      if last.Some? then last else LastBalance(chain, now, until - 1, block)
  }

  lemma {:induction false} LastBalanceWasRead(chain: Chain, now: nat, until: nat, block: Block) returns (t: nat)
    requires LastBalance(chain, now, until, block).Some?
    ensures now <= t < until
    ensures SimulationAnswer(chain, now, t, block).balance == LastBalance(chain, now, until, block)
    ensures forall k: nat :: t < k < until ==> SimulationAnswer(chain, now, k, block).balance.None?
    decreases until
  {
    t := until - 1;
    if SimulationAnswer(chain, now, t, block).balance.None? {
      t := LastBalanceWasRead(chain, now, t, block);
    }
  }

  /** Without an estimate, a balance below the value alone misses it. */
  lemma LowBalanceMisses(chain: Chain, now: nat, until: nat, block: Block, gasPrice: nat, value: nat)
    requires Unsized(chain, now, until, block, value)
    ensures Short(chain, now, until, block, gasPrice, value)
  {
    var t := LastBalanceWasRead(chain, now, until, block);
    assert Simulated(SimulationAnswer(chain, now, t, block)) == Failed(false);
    assert Misses(SimulationAnswer(chain, now, t, block), gasPrice, value);
  }

  // ---------------------------------------------------------------- reported nonces

  /** Where an account nonce was reported: by a read of the latest nonce, or in the text of
      a "nonce too low" failure. */
  datatype Report = NoReport | Told(at: nat, block: Block, nonce: nat) | Named(at: nat, nonce: nat)

  function NonceOf(r: Report): (nonce: nat) {
    if r.NoReport? then 0 else r.nonce
  }

  predicate ReportTrue(chain: Chain, r: Report) {
    match r
    case NoReport => true
    case Told(at, block, nonce) => chain.nonceAt(at, block) == Some(nonce)
    case Named(at, nonce) => chain.hint(at) == TooLow(Some(nonce))
  }

  /** The report that counts, of two: the one of the higher nonce. */
  function Higher(r: Report, s: Report): (higher: Report)
    ensures NonceOf(higher) == Max(NonceOf(r), NonceOf(s))
  {
    if NonceOf(s) > NonceOf(r) then s else r
  }
}
