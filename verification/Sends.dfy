/** Key-signed sends: the local nonce counter, the nonces this client accounts for, and
    the replacement of stuck transactions. */
module Sends {
  import opened Outcomes
  import opened FreshReads
  import opened Rounding
  import opened ChainAnswers
  import opened SendJournal
  import opened Clearing

  /** The first check and the four re-checks. */
  const STUCK_CHECKS: nat := 5
  const SEND_ATTEMPTS: nat := 5

  /** Errors of the send path. All but `RpcError` are a `TransactionFailed`. */
  datatype SendError =
    | Stuck
    | NotEnoughGas
    | TransactionFailed(hint: NonceHint)
    | Pending
    | RpcError(question: Question)

  predicate Retried(e: SendError) {
    e.TransactionFailed? && e.hint.TooLow?
  }

  /** The gas limit, gas price and nonce that complete a transaction. */
  datatype Filled = Filled(nonce: nat, gas: nat, gasPrice: nat)

  // ---------------------------------------------------------------- what one attempt did

  /** One look: the fresh block (question `at`), the latest nonce there and the pending nonce
      (the last question before `until`), with the nonces accounted for before and after. */
  datatype Look = Look(
    at: nat,
    until: nat,
    block: Block,
    latest: nat,
    pending: nat,
    before: set<nat>,
    known: set<nat>)

  predicate Explained(l: Look) {
    Accounted(l.latest, l.pending, l.known)
  }

  /** A look forgets the nonces that have mined, and only those. */
  function Kept(known: set<nat>, latest: nat): (kept: set<nat>) {
    set n | n in known && n >= latest
  }

  ghost predicate LookSound(chain: Chain, lastWrite: nat, l: Look) {
    && l.at + 2 < l.until && l.block == FreshBlock(lastWrite, chain.newestBlock(l.at))
    && NonceRead(chain, l.at + 1, l.until - 1, l.block, l.latest)
    && chain.pendingNonce(l.until - 1) == Some(l.pending)
    && l.known == Kept(l.before, l.latest)
  }

  /** The accounted nonces after these looks. */
  function KnownAfter(known: set<nat>, looks: seq<Look>): (after: set<nat>) {
    if looks == [] then known else looks[|looks| - 1].known
  }

  function LooksUntil(since: nat, looks: seq<Look>): (until: nat) {
    if looks == [] then since else looks[|looks| - 1].until
  }

  /** These looks show what the chain answered. */
  ghost predicate Looked(chain: Chain, since: nat, lastWrite: nat, known: set<nat>, looks: seq<Look>) {
    (forall l :: l in looks ==> LookSound(chain, lastWrite, l)) && LooksInTurn(since, known, looks)
  }

  /** They were made one right after the other, from question `since` on and these accounted
      nonces; each but the last left some nonce below the pending one unaccounted for. */
  predicate LooksInTurn(since: nat, known: set<nat>, looks: seq<Look>) {
    looks != [] ==>
      var before, last := looks[..|looks| - 1], looks[|looks| - 1];
      && last.at == LooksUntil(since, before) && last.before == KnownAfter(known, before)
      && (before != [] ==> !Explained(before[|before| - 1]))
      && LooksInTurn(since, known, before)
  }

  lemma LookedMore(chain: Chain, since: nat, lastWrite: nat, known: set<nat>, looks: seq<Look>, l: Look)
    requires Looked(chain, since, lastWrite, known, looks) && LookSound(chain, lastWrite, l)
    requires l.at == LooksUntil(since, looks) && l.before == KnownAfter(known, looks)
    requires looks != [] ==> !Explained(looks[|looks| - 1])
    ensures Looked(chain, since, lastWrite, known, looks + [l])
  {
    LooksMore(since, known, looks, l);
  }

  lemma LooksMore(since: nat, known: set<nat>, looks: seq<Look>, l: Look)
    requires LooksInTurn(since, known, looks)
    requires l.at == LooksUntil(since, looks) && l.before == KnownAfter(known, looks)
    requires looks != [] ==> !Explained(looks[|looks| - 1])
    ensures LooksInTurn(since, known, looks + [l])
  {
    assert (looks + [l])[..|looks|] == looks;
  }

  /** Every look but the last left something unaccounted for, and the next one went on from
      it. */
  lemma {:induction false} LookAt(since: nat, known: set<nat>, looks: seq<Look>, i: nat)
    requires LooksInTurn(since, known, looks) && i + 1 < |looks|
    ensures !Explained(looks[i])
    ensures looks[i + 1].at == looks[i].until && looks[i + 1].before == looks[i].known
  {
    if i + 2 < |looks| {
      LookAt(since, known, looks[..|looks| - 1], i);
    }
  }

  /** The looks end without a nonce: five left something unaccounted for, or a read of the
      latest or the pending nonce got no answer. */
  predicate LooksFail(chain: Chain, since: nat, until: nat, looks: seq<Look>, e: SendError) {
    if e == Stuck then |looks| == STUCK_CHECKS && until == LooksUntil(since, looks)
    else
      && |looks| < STUCK_CHECKS && LooksUntil(since, looks) + 1 < until
      && (e == RpcError(OfNonce) || e == RpcError(OfPending)) && Silent(chain, e.question, until - 1)
  }

  /** The price (question `now`) and the gas limit of one transaction. */
  ghost predicate PricedFits(chain: Chain, now: nat, until: nat, block: Block, value: nat,
                             r: Result<(nat, nat), SendError>)
  {
    now < until &&
    match r
    case Ok((gasPrice, gas)) =>
      chain.gasPrice(now) == Some(gasPrice) && Funded(chain, now + 1, until, block, gas, gasPrice, value)
    case Err(NotEnoughGas) =>
      && chain.gasPrice(now).Some?
      && (TooPoor(chain, now + 1, until, block, chain.gasPrice(now).value, value)
          || Unsized(chain, now + 1, until - 1, block, value))
    case Err(TransactionFailed(hint)) =>
      && chain.gasPrice(now).Some? && SimulationFailed(chain, now + 1, until - 1, block)
      && !Unsized(chain, now + 1, until - 1, block, value) && hint == chain.hint(until - 1)
    case Err(RpcError(question)) => question == OfPrice && until == now + 1 && chain.gasPrice(now).None?
    case Err(_) => false
  }

  /** A simulated revert drops the local counter; nothing else that is asked does. */
  function CounterAfter(chain: Chain, now: nat, until: nat, block: Block, used: Option<int>,
                        r: Result<(nat, nat), SendError>): (counter: Option<int>)
  {
    if r.Err? && r.error.TransactionFailed? && until > 0 && Reverted(chain, now + 1, until - 1, block) then None
    else used
  }

  /** What an attempt asks before it signs: the looks at the nonces (from question `since`),
      then the price and gas, and what they filled in. */
  datatype Filling = Filling(
    since: nat,
    until: nat,
    before: Memory,
    looks: seq<Look>,
    filled: Result<Filled, SendError>)
  {
    /** The nonces still accounted for after the looks. */
    function Known(): (known: set<nat>) {
      KnownAfter(before.known, looks)
    }

    /** The counter afterwards. */
    function Counter(chain: Chain): (counter: Option<int>) {
      match filled
      case Ok(f) => Some(f.nonce)
      case Err(e) =>
        if looks == [] then before.used
        else CounterAfter(chain, LooksUntil(since, looks), until, looks[|looks| - 1].block, before.used, Err(e))
    }
  }

  /** The nonce to use: the pending one, or one past the last used if that is further on. */
  function Reserved(used: Option<int>, pending: nat): (nonce: nat)
    ensures nonce >= pending && (used.Some? ==> nonce > used.value)
    ensures nonce > pending ==> used == Some(nonce - 1)
  {
    if used.Some? && pending <= used.value then used.value + 1 else pending
  }

  /** Before anything is signed, every outcome has its cause in the chain's answers. */
  ghost predicate FilledFits(chain: Chain, value: nat, f: Filling) {
    var now := LooksUntil(f.since, f.looks);
    && Looked(chain, f.since, f.before.lastWrite, f.before.known, f.looks)
    && if f.looks == [] || !Explained(f.looks[|f.looks| - 1]) then
         f.filled.Err? && LooksFail(chain, f.since, f.until, f.looks, f.filled.error)
       else
         var last := f.looks[|f.looks| - 1];
         match f.filled
         case Err(e) => PricedFits(chain, now, f.until, last.block, value, Err(e))
         case Ok(filled) =>
           && filled.nonce == Reserved(f.before.used, last.pending)
           && PricedFits(chain, now, f.until, last.block, value, Ok((filled.gasPrice, filled.gas)))
  }

  /** One attempt of a send, with the entries it left in the journal. */
  datatype Attempt = Attempt(filling: Filling, entries: seq<Entry>, result: Result<Hash, SendError>, until: nat)

  /** A submission and its wait, if it came to that: the wait timed out. */
  predicate GaveUp(entries: seq<Entry>) {
    |entries| > 1 && entries[1].Waited? && entries[1].outcome.TimedOut?
  }

  /** A nonce joins those accounted for unless its broadcast was refused, and leaves again
      when its wait times out. */
  function KnownWith(known: set<nat>, entries: seq<Entry>): (after: set<nat>) {
    if entries == [] || !entries[0].Submitted? then known
    else (known + Out(entries[0])) - if GaveUp(entries) then {entries[0].nonce} else {}
  }

  function CounterWith(used: Option<int>, entries: seq<Entry>): (after: Option<int>) {
    if entries != [] && entries[0].Submitted? && (!entries[0].reply.Accepted? || GaveUp(entries)) then None else used
  }

  function WriteWith(lastWrite: nat, entries: seq<Entry>): (after: nat) {
    if |entries| > 1 then Max(lastWrite, BlockSeen(entries[1])) else lastWrite
  }

  /** What is submitted (as question `at`) and waited for decides the result: a broadcast
      that was not accepted ends in its own error, whatever its text. */
  predicate EntriesFit(chain: Chain, at: nat, until: nat, f: Filled, known: set<nat>, entries: seq<Entry>,
                       result: Result<Hash, SendError>)
  {
    && entries != [] && entries[0].Submitted? && !entries[0].clearing && entries[0].known == known
    && entries[0].at == at && entries[0].nonce == f.nonce
    && entries[0].gas == f.gas && entries[0].gasPrice == f.gasPrice
    && entries[0].reply == chain.broadcast(at, f.nonce)
    && match entries[0].reply
       case Accepted(hash) =>
         && |entries| == 2 && entries[1] == Waited(at + 1, hash, false, chain.wait(at + 1, hash))
         && (match entries[1].outcome
             case Mined(true, _) => until == at + 2 && result == Ok(hash)
             case Mined(false, _) => until == at + 3 && result == Err(TransactionFailed(chain.hint(at + 2)))
             case TimedOut => until == at + 2 && result == Err(Pending)
             case WaitFailed => until == at + 2 && result == Err(RpcError(OfReceipt)))
       case _ => |entries| == 1 && until == at + 1 && result == Err(RpcError(OfBroadcast))
  }

  predicate ResultFits(chain: Chain, a: Attempt) {
    match a.filling.filled
    case Err(e) => a.entries == [] && a.result == Err(e) && a.until == a.filling.until
    case Ok(f) => EntriesFit(chain, a.filling.until, a.until, f, a.filling.Known(), a.entries, a.result)
  }

  /** The simulation failed before anything was signed, or the transaction mined and
      failed; nothing else is tried again, and these only when they say "nonce too low". */
  predicate TriedAgain(a: Attempt) {
    && (|| a.entries == []
        || (|a.entries| == 2 && a.entries[1].Waited? && a.entries[1].outcome.Mined? && !a.entries[1].outcome.succeeded))
    && a.result.Err? && a.result.error.TransactionFailed? && a.result.error.hint.TooLow?
  }

  /** An attempt is tried again exactly when its simulation or its receipt failed with those
      words, which are then the last thing asked for. */
  lemma RetryCause(chain: Chain, value: nat, a: Attempt)
    requires FilledFits(chain, value, a.filling) && ResultFits(chain, a)
    ensures a.result.Err? && Retried(a.result.error) <==> TriedAgain(a)
    ensures a.entries != [] && !a.entries[0].reply.Accepted? ==> !TriedAgain(a)
    ensures TriedAgain(a) ==> a.until > 0 && a.result.error.hint == chain.hint(a.until - 1)
  {
  }

  ghost function Trail(attempts: seq<Attempt>): (entries: seq<Entry>) {
    if attempts == [] then [] else Trail(attempts[..|attempts| - 1]) + attempts[|attempts| - 1].entries
  }

  /** The last nonce used, as a retry after this attempt remembers it: one below the account
      nonce that the error named, so that the retry never uses a lower one. */
  function UsedAfter(a: Attempt): (used: Option<int>)
    requires TriedAgain(a)
  {
    if a.result.error.hint.account.Some? then Some((a.result.error.hint.account.value as int) - 1) else None
  }

  /** What the client remembers after an attempt. */
  function MemoryAfter(chain: Chain, a: Attempt): (memory: Memory) {
    Memory(
      if TriedAgain(a) then UsedAfter(a) else CounterWith(a.filling.Counter(chain), a.entries),
      KnownWith(a.filling.Known(), a.entries),
      WriteWith(a.filling.before.lastWrite, a.entries))
  }

  /** A successful attempt saw its receipt and noted the receipt's block. */
  lemma SuccessIsNoted(chain: Chain, a: Attempt)
    requires ResultFits(chain, a) && a.result.Ok?
    ensures |a.entries| == 2 && a.entries[1].Waited? && a.entries[1].hash == a.result.value
    ensures a.entries[1].outcome.Mined? && a.entries[1].outcome.succeeded
    ensures a.entries[1].outcome.block.Some? ==>
              MemoryAfter(chain, a).lastWrite == Max(a.filling.before.lastWrite, a.entries[1].outcome.block.value)
  {
  }

  /** The attempts of one send so far: each is what the chain made of it, and each but the
      last was tried again, right after it and from the nonce its error named. */
  ghost predicate Attempted(chain: Chain, value: nat, attempts: seq<Attempt>) {
    && (forall a :: a in attempts ==> FilledFits(chain, value, a.filling) && ResultFits(chain, a))
    && InTurn(chain, attempts)
  }

  predicate InTurn(chain: Chain, attempts: seq<Attempt>) {
    |attempts| > 1 ==>
      && GoesOn(chain, attempts[|attempts| - 2], attempts[|attempts| - 1])
      && InTurn(chain, attempts[..|attempts| - 1])
  }

  predicate GoesOn(chain: Chain, a: Attempt, next: Attempt) {
    TriedAgain(a) && next.filling.since == a.until && next.filling.before == MemoryAfter(chain, a)
  }

  lemma AttemptedMore(chain: Chain, value: nat, attempts: seq<Attempt>, a: Attempt)
    requires Attempted(chain, value, attempts) && FilledFits(chain, value, a.filling) && ResultFits(chain, a)
    requires attempts != [] ==> GoesOn(chain, attempts[|attempts| - 1], a)
    ensures Attempted(chain, value, attempts + [a])
  {
    InTurnMore(chain, attempts, a);
  }

  lemma InTurnMore(chain: Chain, attempts: seq<Attempt>, a: Attempt)
    requires InTurn(chain, attempts)
    requires attempts != [] ==> GoesOn(chain, attempts[|attempts| - 1], a)
    ensures InTurn(chain, attempts + [a])
    ensures Trail(attempts + [a]) == Trail(attempts) + a.entries
  {
    assert (attempts + [a])[..|attempts|] == attempts;
  }

  lemma LastIsNoted(chain: Chain, value: nat, attempts: seq<Attempt>)
    requires Attempted(chain, value, attempts) && attempts != []
    ensures
      var a := attempts[|attempts| - 1];
      a.result.Ok? ==>
        && |a.entries| == 2 && a.entries[1].Waited?
        && a.entries[1].outcome.Mined? && a.entries[1].outcome.succeeded
        && (a.entries[1].outcome.block.Some? ==>
              MemoryAfter(chain, a).lastWrite >= a.entries[1].outcome.block.value)
  {
    var a := attempts[|attempts| - 1];
    if a.result.Ok? {
      SuccessIsNoted(chain, a);
    }
  }

  /** Every attempt but the last was tried again, and the next one went on from it. */
  lemma {:induction false} AttemptAt(chain: Chain, attempts: seq<Attempt>, i: nat)
    requires InTurn(chain, attempts) && i + 1 < |attempts|
    ensures GoesOn(chain, attempts[i], attempts[i + 1])
  {
    if i + 2 < |attempts| {
      AttemptAt(chain, attempts[..|attempts| - 1], i);
    }
  }

  /** A whole send: it stops at the first attempt that is not tried again, or the fifth. */
  ghost predicate SendFits(chain: Chain, value: nat, attempts: seq<Attempt>) {
    && 0 < |attempts| <= SEND_ATTEMPTS && Attempted(chain, value, attempts)
    && (TriedAgain(attempts[|attempts| - 1]) ==> |attempts| == SEND_ATTEMPTS)
  }

  class Sender {
    const chain: Chain
    /** How many questions the chain has answered. */
    var clock: nat
    var nextNonce: Option<int>
    var sentNonces: set<nat>
    var lastWriteBlock: nat
    /** The highest account nonce the chain has reported, and by what. */
    ghost var report: Report
    ghost var journal: seq<Entry>

    ghost function Watermark(): (nonce: nat)
      reads `report
    {
      NonceOf(report)
    }

    ghost function Remembered(): (memory: Memory)
      reads `nextNonce, `sentNonces, `lastWriteBlock
    {
      Memory(nextNonce, sentNonces, lastWriteBlock)
    }

    /** Every nonce up to the last one used is accounted for. */
    ghost predicate NoncesSound()
      reads `nextNonce, `report, `sentNonces
    {
      nextNonce.Some? ==> Accounted(Watermark(), nextNonce.value + 1, sentNonces)
    }

    /** The records are the chain's answers, and the last write block is what they show. */
    ghost predicate RecordsSound()
      reads `report, `journal, `lastWriteBlock
    {
      ReportTrue(chain, report) && JournalSound(chain, journal) && IsHighest(journal, lastWriteBlock)
    }

    /** The nonce was reported in answer to an earlier question. */
    ghost predicate Past()
      reads `report, `clock
    {
      report.NoReport? || report.at < clock
    }

    /** The nonces accounted for are this client's own. */
    ghost predicate Ours()
      reads `sentNonces, `journal
    {
      sentNonces <= OutBy(journal)
    }

    /** The invariant between calls. */
    ghost predicate Valid()
      reads this
    {
      NoncesSound() && RecordsSound() && Past() && Ours()
    }

    constructor (chain: Chain)
      ensures Valid() && journal == [] && this.chain == chain
      ensures clock == 0 && nextNonce == None && sentNonces == {} && lastWriteBlock == 0
    {
      this.chain := chain;
      clock, nextNonce, sentNonces, lastWriteBlock := 0, None, {}, 0;
      report, journal := NoReport, [];
    }

    /** `_note_write`, with the receipt's block. */
    method NoteWrite(block: Option<nat>)
      modifies `lastWriteBlock
      ensures lastWriteBlock == Max(old(lastWriteBlock), if block.Some? then block.value else 0)
    {
      if block.Some? {
        lastWriteBlock := Max(lastWriteBlock, block.value);
      }
    }

    method AskFreshBlock() returns (block: Block)
      modifies `clock
      ensures clock == old(clock) + 1
      ensures block == FreshBlock(lastWriteBlock, chain.newestBlock(old(clock))) && Covers(block, lastWriteBlock)
    {
      FreshBlockCovers(lastWriteBlock, chain.newestBlock(clock));
      block := FreshBlock(lastWriteBlock, chain.newestBlock(clock));
      clock := clock + 1;
    }

    /** `_read_at_fresh_block`: a value that does not come from a block holding this
        client's last write was read after three reads at such a block failed. */
    method ReadAtFreshBlock<T>(read: (nat, Block) -> Reading<T>) returns (r: Reading<T>, asked: seq<Block>)
      modifies `clock
      ensures 0 < |asked| <= READ_RETRIES + 1 && r == read(|asked| - 1, asked[|asked| - 1])
      ensures forall k :: 0 <= k < |asked| - 1 ==> read(k, asked[k]) == Failed(false)
      ensures !Covers(asked[|asked| - 1], lastWriteBlock) ==>
        && |asked| == READ_RETRIES + 1
        && forall k :: 0 <= k < READ_RETRIES ==> Covers(asked[k], lastWriteBlock) && read(k, asked[k]) == Failed(false)
    {
      var newest := chain.newestBlock(clock);
      var block := AskFreshBlock();
      r, asked := ReadAtBlock(block, read);
      clock := clock + |asked|;
      StaleOnlyAfterThreeFailures(lastWriteBlock, newest, read, asked);
    }

    /** `_latest_nonce`: a nonce read this way raises the watermark. */
    method LatestNonce(block: Block) returns (nonce: Option<nat>)
      requires ReportTrue(chain, report)
      modifies `clock, `report
      ensures clock > old(clock)
      ensures nonce.Some? ==> NonceRead(chain, old(clock), clock, block, nonce.value)
      ensures nonce.None? ==> NonceUnread(chain, old(clock), clock, block) && Silent(chain, OfNonce, clock - 1)
      ensures ReportTrue(chain, report) && (report == old(report) || (!report.NoReport? && report.at < clock))
      ensures Watermark() == if nonce.Some? then Max(old(Watermark()), nonce.value) else old(Watermark())
    {
      var now: nat := clock;
      var r, asked := ReadAtBlock<nat>(block, (k, at) => Served(chain.nonceAt(now + k, at)));
      clock := clock + |asked|;
      ghost var at := asked[|asked| - 1];
      assert r == Served(chain.nonceAt(clock - 1, at));
      nonce := if r.Got? then Some(r.value) else None;
      ReadsNonce(now, block, asked, nonce);
      if r.Got? {
        report := Higher(report, Told(clock - 1, at, r.value));
      }
    }

    /** The questions of a read of the latest nonce, in the terms of the chain. */
    lemma ReadsNonce(now: nat, block: Block, asked: seq<Block>, answer: Option<nat>)
      requires Shape(block, asked)
      requires chain.nonceAt(now + |asked| - 1, asked[|asked| - 1]) == answer
      requires forall k: nat :: k < |asked| - 1 ==> Served(chain.nonceAt(now + k, asked[k])) == Failed(false)
      requires answer.None? ==> asked[|asked| - 1] == Latest
      ensures answer.Some? ==> NonceRead(chain, now, now + |asked|, block, answer.value)
      ensures answer.None? ==> NonceUnread(chain, now, now + |asked|, block)
    {
      assert NonceAnswer(chain, now, now + |asked| - 1, block) == answer;
      forall t: nat | now <= t < now + |asked| - 1 ensures NonceAnswer(chain, now, t, block).None? {
        assert Served(chain.nonceAt(now + (t - now), asked[t - now])) == Failed(false);
      }
    }

    method PendingNonce() returns (nonce: Option<nat>)
      modifies `clock
      ensures clock == old(clock) + 1
      ensures nonce == chain.pendingNonce(old(clock))
    {
      nonce := chain.pendingNonce(clock);
      clock := clock + 1;
    }

    method GasPrice() returns (price: Option<nat>)
      modifies `clock
      ensures clock == old(clock) + 1
      ensures price == chain.gasPrice(old(clock))
    {
      price := chain.gasPrice(clock);
      clock := clock + 1;
    }

    method ChainId() returns (id: Option<nat>)
      modifies `clock
      ensures clock == old(clock) + 1
      ensures id == chain.chainId(old(clock))
    {
      id := chain.chainId(clock);
      clock := clock + 1;
    }

    method Balance(block: Block) returns (balance: Option<nat>)
      modifies `clock
      ensures clock > old(clock)
      ensures balance.Some? ==> BalanceRead(chain, old(clock), clock, block, balance.value)
      ensures balance.None? ==> BalanceUnread(chain, old(clock), clock, block) && Silent(chain, OfBalance, clock - 1)
    {
      var now: nat := clock;
      var r, asked := ReadAtBlock<nat>(block, (k, at) => Served(chain.balanceAt(now + k, at)));
      clock := clock + |asked|;
      assert r == Served(chain.balanceAt(clock - 1, asked[|asked| - 1]));
      balance := if r.Got? then Some(r.value) else None;
      ReadsBalance(now, block, asked, balance);
    }

    lemma ReadsBalance(now: nat, block: Block, asked: seq<Block>, answer: Option<nat>)
      requires Shape(block, asked)
      requires chain.balanceAt(now + |asked| - 1, asked[|asked| - 1]) == answer
      requires forall k: nat :: k < |asked| - 1 ==> Served(chain.balanceAt(now + k, asked[k])) == Failed(false)
      requires answer.None? ==> asked[|asked| - 1] == Latest
      ensures answer.Some? ==> BalanceRead(chain, now, now + |asked|, block, answer.value)
      ensures answer.None? ==> BalanceUnread(chain, now, now + |asked|, block)
    {
      assert BalanceAnswer(chain, now, now + |asked| - 1, block) == answer;
      forall t: nat | now <= t < now + |asked| - 1 ensures BalanceAnswer(chain, now, t, block).None? {
        assert Served(chain.balanceAt(now + (t - now), asked[t - now])) == Failed(false);
      }
    }

    /** One look, from a fresh block on, at the latest and pending nonces: mined nonces are
        forgotten. Without a look, `failed` is the read that got no answer. */
    method LookAtNonces() returns (block: Block, nonces: Option<(nat, nat)>, failed: Question, ghost look: Look)
      requires NoncesSound() && ReportTrue(chain, report) && Past()
      modifies `clock, `report, `sentNonces
      ensures NoncesSound() && ReportTrue(chain, report) && Past() && sentNonces <= old(sentNonces)
      ensures Watermark() >= old(Watermark()) && clock > old(clock) + 1
      ensures nonces.None? ==>
        sentNonces == old(sentNonces) && (failed == OfNonce || failed == OfPending) && Silent(chain, failed, clock - 1)
      ensures nonces.Some? ==>
        && look == Look(old(clock), clock, block, nonces.value.0, nonces.value.1, old(sentNonces), sentNonces)
        && LookSound(chain, lastWriteBlock, look) && look.latest <= Watermark()
    {
      nonces, failed := None, OfNonce;
      look := Look(0, 0, Latest, 0, 0, {}, {});
      block := AskFreshBlock();
      var latest := LatestNonce(block);
      if latest.Some? {
        failed := OfPending;
        var pending := PendingNonce();
        if pending.Some? {
          sentNonces := Kept(sentNonces, latest.value);
          nonces := Some((latest.value, pending.value));
          look := Look(old(clock), clock, block, latest.value, pending.value, old(sentNonces), sentNonces);
        }
      }
    }

    /** `_pending_nonce_unless_stuck`: the pending nonce and the block it was confirmed at,
        once a look leaves no nonce below it unaccounted for; refused after five that do. */
    method PendingNonceUnlessStuck() returns (r: Result<(nat, Block), SendError>, ghost looks: seq<Look>)
      requires NoncesSound() && ReportTrue(chain, report) && Past()
      modifies `clock, `report, `sentNonces
      ensures NoncesSound() && ReportTrue(chain, report) && Past() && sentNonces <= old(sentNonces)
      ensures Watermark() >= old(Watermark()) && clock > old(clock)
      ensures Looked(chain, old(clock), lastWriteBlock, old(sentNonces), looks)
      ensures sentNonces == KnownAfter(old(sentNonces), looks)
      ensures r.Ok? ==>
        && looks != [] && Explained(looks[|looks| - 1]) && clock == looks[|looks| - 1].until
        && r.value == (looks[|looks| - 1].pending, looks[|looks| - 1].block)
        && looks[|looks| - 1].latest <= Watermark()
      ensures r.Err? ==>
        LooksFail(chain, old(clock), clock, looks, r.error) && (looks != [] ==> !Explained(looks[|looks| - 1]))
    {
      looks := [];
      var attempt := 0;
      r := Err(Stuck);
      while attempt < STUCK_CHECKS && r == Err(Stuck)
        invariant NoncesSound() && ReportTrue(chain, report) && Past() && sentNonces <= old(sentNonces)
        invariant Watermark() >= old(Watermark()) && attempt <= STUCK_CHECKS
        invariant if attempt == 0 then r == Err(Stuck) else clock > old(clock)
        invariant Looked(chain, old(clock), lastWriteBlock, old(sentNonces), looks)
        invariant sentNonces == KnownAfter(old(sentNonces), looks)
        invariant r == Err(Stuck) ==>
          && |looks| == attempt && clock == LooksUntil(old(clock), looks)
          && (looks != [] ==> !Explained(looks[|looks| - 1]))
        invariant r.Ok? ==>
          && looks != [] && Explained(looks[|looks| - 1]) && clock == looks[|looks| - 1].until
          && r.value == (looks[|looks| - 1].pending, looks[|looks| - 1].block)
          && looks[|looks| - 1].latest <= Watermark()
        invariant r.Err? && r.error != Stuck ==>
            LooksFail(chain, old(clock), clock, looks, r.error) && (looks != [] ==> !Explained(looks[|looks| - 1]))
      {
        r, looks := LookOnce(old(clock), old(sentNonces), looks);
        attempt := attempt + 1;
      }
    }

    /** One more look, and what it decides: `Stuck` if it leaves a nonce unaccounted for. */
    method LookOnce(ghost since: nat, ghost known: set<nat>, ghost looks: seq<Look>)
      returns (r: Result<(nat, Block), SendError>, ghost more: seq<Look>)
      requires NoncesSound() && ReportTrue(chain, report) && Past()
      requires Looked(chain, since, lastWriteBlock, known, looks) && |looks| < STUCK_CHECKS
      requires clock == LooksUntil(since, looks) && sentNonces == KnownAfter(known, looks)
      requires looks != [] ==> !Explained(looks[|looks| - 1])
      modifies `clock, `report, `sentNonces
      ensures NoncesSound() && ReportTrue(chain, report) && Past() && sentNonces <= old(sentNonces)
      ensures Watermark() >= old(Watermark()) && clock > old(clock)
      ensures Looked(chain, since, lastWriteBlock, known, more) && sentNonces == KnownAfter(known, more)
      ensures r == Err(Stuck) || r.Ok? ==> |more| == |looks| + 1 && clock == more[|looks|].until
      ensures r == Err(Stuck) ==> !Explained(more[|looks|])
      ensures r.Ok? ==>
        && Explained(more[|looks|]) && r.value == (more[|looks|].pending, more[|looks|].block)
        && more[|looks|].latest <= Watermark()
      ensures r.Err? && r.error != Stuck ==> LooksFail(chain, since, clock, looks, r.error) && more == looks
    {
      more := looks;
      var block, nonces, failed;
      ghost var look;
      block, nonces, failed, look := LookAtNonces();
      if nonces.None? {
        r := Err(RpcError(failed));
      } else {
        var latest, pending := nonces.value.0, nonces.value.1;
        r := if Accounted(latest, pending, sentNonces) then Ok((pending, block)) else Err(Stuck);
        assert r.Ok? <==> Explained(look);
        LookedMore(chain, since, lastWriteBlock, known, looks, look);
        more := looks + [look];
      }
    }

    /** `_reserve_nonce`: the pending nonce, or one past the last one used. */
    method ReserveNonce(pending: nat) returns (nonce: nat)
      requires NoncesSound() && Accounted(Watermark(), pending, sentNonces)
      modifies `nextNonce
      ensures nonce == Reserved(old(nextNonce), pending) && nextNonce == Some(nonce)
      ensures Accounted(Watermark(), nonce, sentNonces)
    {
      nonce := pending;
      if nextNonce.Some? && nonce <= nextNonce.value {
        nonce := nextNonce.value + 1;
      }
      nextNonce := Some(nonce);
    }

    /** `_gas_limit`: the estimate comes with a balance, read together at the block where
        the nonce was confirmed, that pays for it. A simulated revert drops the counter. */
    method GasLimit(block: Block, gasPrice: nat, value: nat) returns (r: Result<nat, SendError>)
      modifies `clock, `nextNonce
      ensures clock > old(clock)
      ensures match r
        case Ok(gas) => Funded(chain, old(clock), clock, block, gas, gasPrice, value)
        case Err(NotEnoughGas) =>
          || TooPoor(chain, old(clock), clock, block, gasPrice, value)
          || Unsized(chain, old(clock), clock - 1, block, value)
        case Err(TransactionFailed(hint)) =>
          && SimulationFailed(chain, old(clock), clock - 1, block)
          && !Unsized(chain, old(clock), clock - 1, block, value) && hint == chain.hint(clock - 1)
        case Err(_) => false
      ensures nextNonce ==
        if r.Err? && r.error.TransactionFailed? && Reverted(chain, old(clock), clock - 1, block) then None
        else old(nextNonce)
    {
      var now: nat := clock;
      var reading, asked := ReadAtBlock(block, (k, at) => Simulated(chain.simulate(now + k, at)));
      clock := clock + |asked|;
      assert Simulating(chain, now, clock, block)
          && Simulated(SimulationAnswer(chain, now, clock - 1, block)) == reading by {
        forall k: nat | k < |asked| - 1 ensures Simulated(chain.simulate(now + k, asked[k])) == Failed(false) {
        }
        Simulates(now, block, asked, reading);
      }
      if reading.Got? {
        var (balance, estimate) := reading.value;
        var gas := GasLimitFromEstimate(estimate);
        r := if balance < gas * gasPrice + value then Err(NotEnoughGas) else Ok(gas);
      } else {
        var seen := LastBalance(chain, now, clock, block);
        var hint := chain.hint(clock);
        clock := clock + 1;
        r := Err(TransactionFailed(hint));
        if reading.final {
          nextNonce := None;
        } else if seen.Some? && seen.value < value {
          // The balance misses the value alone, so it misses it with a transfer's gas.
          r := Err(NotEnoughGas);
        }
      }
    }

    lemma Simulates(now: nat, block: Block, asked: seq<Block>, reading: Reading<(nat, nat)>)
      requires Shape(block, asked)
      requires Simulated(chain.simulate(now + |asked| - 1, asked[|asked| - 1])) == reading
      requires forall k: nat :: k < |asked| - 1 ==> Simulated(chain.simulate(now + k, asked[k])) == Failed(false)
      ensures Simulating(chain, now, now + |asked|, block)
      ensures Simulated(SimulationAnswer(chain, now, now + |asked| - 1, block)) == reading
    {
      forall t: nat | now <= t < now + |asked| - 1
        ensures Simulated(SimulationAnswer(chain, now, t, block)) == Failed(false)
      {
        assert Simulated(chain.simulate(now + (t - now), asked[t - now])) == Failed(false);
      }
    }

    /** The gas price, and a gas limit that the balance pays for at that price. */
    method PriceAndLimit(block: Block, value: nat) returns (r: Result<(nat, nat), SendError>)
      modifies `clock, `nextNonce
      ensures clock > old(clock)
      ensures PricedFits(chain, old(clock), clock, block, value, r)
      ensures nextNonce == CounterAfter(chain, old(clock), clock, block, old(nextNonce), r)
    {
      var price := GasPrice();
      if price.None? {
        r := Err(RpcError(OfPrice));
      } else {
        var gas := GasLimit(block, price.value, value);
        r := if gas.Ok? then Ok((price.value, gas.value)) else Err(gas.error);
      }
    }

    /** `_fill_gas_and_nonce`. */
    method FillGasAndNonce(value: nat) returns (r: Result<Filled, SendError>, ghost f: Filling)
      requires NoncesSound() && ReportTrue(chain, report) && Past()
      modifies `clock, `report, `sentNonces, `nextNonce
      ensures ReportTrue(chain, report) && Past() && sentNonces <= old(sentNonces)
      ensures Watermark() >= old(Watermark())
      ensures FilledFits(chain, value, f) && f.filled == r
      ensures f.since == old(clock) && f.until == clock && f.before == old(Remembered())
      ensures sentNonces == f.Known()
      ensures r.Err? ==> NoncesSound()
      ensures r.Ok? ==> Accounted(Watermark(), r.value.nonce, sentNonces) && nextNonce == Some(r.value.nonce)
      ensures nextNonce == f.Counter(chain)
    {
      var found, looks := PendingNonceUnlessStuck();
      if found.Err? {
        r := Err(found.error);
      } else {
        var priced := PriceAndLimit(found.value.1, value);
        if priced.Err? {
          r := Err(priced.error);
        } else {
          var nonce := ReserveNonce(found.value.0);
          r := Ok(Filled(nonce, priced.value.1, priced.value.0));
        }
      }
      f := Filling(old(clock), clock, old(Remembered()), looks, r);
    }

    /** `_submit`. The nonce is recorded before the broadcast, and forgotten only when the
        node refused it and no earlier transaction of ours can hold it. */
    method Submit(nonce: nat, ghost gas: nat, ghost gasPrice: nat, ghost clearing: bool) returns (reply: Broadcast)
      requires nextNonce.Some? ==> Accounted(Watermark(), nextNonce.value + 1, sentNonces + {nonce})
      requires RecordsSound() && Past() && Ours()
      requires !clearing ==> Accounted(Watermark(), nonce, sentNonces)
      modifies `clock, `nextNonce, `sentNonces, `journal
      ensures Valid() && clock == old(clock) + 1
      ensures reply == chain.broadcast(old(clock), nonce)
      ensures journal == old(journal)
        + [Submitted(old(clock), nonce, report, old(sentNonces), clearing, gas, gasPrice, reply)]
      ensures nextNonce == if reply.Accepted? then old(nextNonce) else None
      ensures sentNonces == old(sentNonces) + if reply.Refused? then {} else {nonce}
    {
      var alreadyOurs := nonce in sentNonces;
      ghost var known := sentNonces;
      sentNonces := sentNonces + {nonce};
      reply := chain.broadcast(clock, nonce);
      Record(Submitted(clock, nonce, report, known, clearing, gas, gasPrice, reply));
      clock := clock + 1;
      if !reply.Accepted? {
        nextNonce := None;
        if !alreadyOurs && reply.Refused? {
          sentNonces := sentNonces - {nonce};
          assert sentNonces == known;
        }
      }
    }

    /** The answer to the question that is being asked joins the journal. */
    ghost method Record(e: Entry)
      requires RecordsSound() && EntryTrue(chain, e) && NothingUnknownBelow(e)
      requires e.Submitted? ==> e.known <= OutBy(journal)
      modifies `journal
      ensures journal == old(journal) + [e] && OutBy(journal) == OutBy(old(journal)) + Out(e)
      ensures JournalSound(chain, journal) && IsHighest(journal, Max(lastWriteBlock, BlockSeen(e)))
    {
      JournalAppend(chain, journal, lastWriteBlock, e);
      journal := journal + [e];
    }

    /** `_wait_for_receipt`: after a time-out the nonce is no longer accounted for. The
        receipt's block is not noted yet. */
    method WaitForReceipt(hash: Hash, nonce: nat, ghost clearing: bool) returns (w: Wait)
      requires Valid()
      modifies `clock, `nextNonce, `sentNonces, `journal
      ensures clock == old(clock) + 1
      ensures NoncesSound() && JournalSound(chain, journal) && Past() && Ours()
      ensures IsHighest(journal, Max(lastWriteBlock, BlockSeen(Waited(old(clock), hash, clearing, w))))
      ensures w == chain.wait(old(clock), hash)
      ensures journal == old(journal) + [Waited(old(clock), hash, clearing, w)]
      ensures w.TimedOut? ==> nextNonce == None && sentNonces == old(sentNonces) - {nonce}
      ensures !w.TimedOut? ==> nextNonce == old(nextNonce) && sentNonces == old(sentNonces)
    {
      w := chain.wait(clock, hash);
      Record(Waited(clock, hash, clearing, w));
      clock := clock + 1;
      if w.TimedOut? {
        sentNonces := sentNonces - {nonce};
        nextNonce := None;
      }
    }

    /** The receipt of a replacement, asked for once more; its block is not noted yet. */
    method LookUp(hash: Hash) returns (found: Lookup)
      requires Valid()
      modifies `clock, `journal
      ensures clock == old(clock) + 1
      ensures NoncesSound() && JournalSound(chain, journal) && Past() && Ours()
      ensures IsHighest(journal, Max(lastWriteBlock, BlockSeen(LookedUp(old(clock), hash, found))))
      ensures found == chain.receipt(old(clock), hash)
      ensures journal == old(journal) + [LookedUp(old(clock), hash, found)]
    {
      found := chain.receipt(clock, hash);
      Record(LookedUp(clock, hash, found));
      clock := clock + 1;
    }

    /** The wait of a send that was accepted, and what its receipt says. */
    method Await(hash: Hash, nonce: nat) returns (r: Result<Hash, SendError>, ghost w: Wait)
      requires Valid()
      modifies `clock, `nextNonce, `sentNonces, `journal, `lastWriteBlock
      ensures Valid() && lastWriteBlock >= old(lastWriteBlock)
      ensures w == chain.wait(old(clock), hash)
      ensures clock == old(clock) + if w.Mined? && !w.succeeded then 2 else 1
      ensures journal == old(journal) + [Waited(old(clock), hash, false, w)]
      ensures match w
        case Mined(true, _) => r == Ok(hash)
        case Mined(false, _) => r == Err(TransactionFailed(chain.hint(old(clock) + 1)))
        case TimedOut => r == Err(Pending)
        case WaitFailed => r == Err(RpcError(OfReceipt))
      ensures nextNonce == if w.TimedOut? then None else old(nextNonce)
      ensures sentNonces == old(sentNonces) - if w.TimedOut? then {nonce} else {}
      ensures lastWriteBlock == Max(old(lastWriteBlock), BlockSeen(Waited(old(clock), hash, false, w)))
    {
      var outcome := WaitForReceipt(hash, nonce, false);
      w := outcome;
      match outcome
      case TimedOut => return Err(Pending), w;
      case WaitFailed => return Err(RpcError(OfReceipt)), w;
      case Mined(succeeded, block) =>
        if !succeeded {
          var hint := chain.hint(clock);
          clock := clock + 1;
          return Err(TransactionFailed(hint)), w;
        }
        NoteWrite(block);
        return Ok(hash), w;
    }

    /** The broadcast of a filled transaction, and its wait. */
    method SubmitAndAwait(f: Filled) returns (r: Result<Hash, SendError>, ghost entries: seq<Entry>)
      requires RecordsSound() && Past() && Ours()
      requires Accounted(Watermark(), f.nonce, sentNonces) && nextNonce == Some(f.nonce)
      modifies `clock, `nextNonce, `sentNonces, `journal, `lastWriteBlock
      ensures Valid() && lastWriteBlock >= old(lastWriteBlock)
      ensures EntriesFit(chain, old(clock), clock, f, old(sentNonces), entries, r)
      ensures journal == old(journal) + entries
      ensures nextNonce == CounterWith(old(nextNonce), entries) && sentNonces == KnownWith(old(sentNonces), entries)
      ensures lastWriteBlock == WriteWith(old(lastWriteBlock), entries)
    {
      var reply := Submit(f.nonce, f.gas, f.gasPrice, false);
      ghost var entry := Submitted(old(clock), f.nonce, report, old(sentNonces), false, f.gas, f.gasPrice, reply);
      entries := [entry];
      if !reply.Accepted? {
        return Err(RpcError(OfBroadcast)), entries;
      }
      ghost var at, w := clock, TimedOut;
      r, w := Await(reply.hash, f.nonce);
      ghost var wait := Waited(at, reply.hash, false, w);
      entries := [entry, wait];
      Rejoin(old(journal), [entry], [wait]);
      assert entries == [entry] + [wait];
    }

    /** One attempt of a send: fill, submit, wait, note the block. */
    method SendOnce(value: nat) returns (r: Result<Hash, SendError>, ghost a: Attempt)
      requires Valid()
      modifies this
      ensures Valid()
      ensures Watermark() >= old(Watermark()) && lastWriteBlock >= old(lastWriteBlock)
      ensures FilledFits(chain, value, a.filling) && ResultFits(chain, a) && a.result == r && a.until == clock
      ensures a.filling.since == old(clock) && a.filling.before == old(Remembered())
      ensures journal == old(journal) + a.entries
      ensures nextNonce == CounterWith(a.filling.Counter(chain), a.entries)
      ensures sentNonces == KnownWith(a.filling.Known(), a.entries)
      ensures lastWriteBlock == WriteWith(a.filling.before.lastWrite, a.entries)
    {
      var filled;
      ghost var filling, entries := Filling(0, 0, Memory(None, {}, 0), [], Err(Stuck)), [];
      filled, filling := FillGasAndNonce(value);
      if filled.Err? {
        r := Err(filled.error);
      } else {
        r, entries := SubmitAndAwait(filled.value);
      }
      a := Attempt(filling, entries, r, clock);
    }

    /** The counter a retry goes on from: `ReserveNonce` adds the one back to the account
        nonce that the error, the last thing asked for, named. */
    method ResumeFrom(account: Option<nat>)
      requires RecordsSound() && Past() && Ours() && clock > 0 && chain.hint(clock - 1) == TooLow(account)
      modifies `report, `nextNonce
      ensures Valid()
      ensures Watermark() == if account.Some? then Max(old(Watermark()), account.value) else old(Watermark())
      ensures nextNonce == if account.Some? then Some((account.value as int) - 1) else None
    {
      if account.Some? {
        report := Higher(report, Named(clock - 1, account.value));
        nextNonce := Some((account.value as int) - 1);
      } else {
        nextNonce := None;
      }
    }

    /** One attempt and, if it is to be tried again, what the retry goes on from. */
    method AttemptOnce(value: nat) returns (r: Result<Hash, SendError>, again: bool, ghost a: Attempt)
      requires Valid()
      modifies this
      ensures Valid()
      ensures Watermark() >= old(Watermark()) && lastWriteBlock >= old(lastWriteBlock)
      ensures FilledFits(chain, value, a.filling) && ResultFits(chain, a) && a.result == r && a.until == clock
      ensures a.filling.since == old(clock) && a.filling.before == old(Remembered())
      ensures journal == old(journal) + a.entries
      ensures (again <==> TriedAgain(a)) && Remembered() == MemoryAfter(chain, a)
    {
      r, a := SendOnce(value);
      RetryCause(chain, value, a);
      again := r.Err? && Retried(r.error);
      if again {
        ResumeFrom(r.error.hint.account);
      }
    }

    /** Where the next attempt goes on after these, if there are any. */
    ghost predicate Ready(attempts: seq<Attempt>)
      reads `nextNonce, `sentNonces, `lastWriteBlock, `clock
    {
      attempts != [] ==>
        var last := attempts[|attempts| - 1];
        TriedAgain(last) && Remembered() == MemoryAfter(chain, last) && clock == last.until
    }

    /** One more attempt; `start` is the journal before the first. */
    method SendNext(value: nat, ghost start: seq<Entry>, ghost attempts: seq<Attempt>)
      returns (r: Result<Hash, SendError>, again: bool, ghost more: seq<Attempt>)
      requires Valid() && Attempted(chain, value, attempts) && Ready(attempts)
      requires journal == start + Trail(attempts)
      modifies this
      ensures Valid()
      ensures Watermark() >= old(Watermark()) && lastWriteBlock >= old(lastWriteBlock)
      ensures Attempted(chain, value, more)
      ensures |more| == |attempts| + 1 && more[|attempts|].result == r && more[|attempts|].until == clock
      ensures more[|attempts|].filling.before == old(Remembered()) && more[|attempts|].filling.since == old(clock)
      ensures again <==> TriedAgain(more[|attempts|])
      ensures Remembered() == MemoryAfter(chain, more[|attempts|])
      ensures attempts != [] ==> more[0] == attempts[0]
      ensures journal == start + Trail(more)
    {
      ghost var a;
      r, again, a := AttemptOnce(value);
      AttemptedMore(chain, value, attempts, a);
      InTurnMore(chain, attempts, a);
      Rejoin(start, Trail(attempts), a.entries);
      more := attempts + [a];
    }

    /** `_send_with_nonce_retry`: an attempt is followed by another one exactly when it
        failed in simulation or in its receipt, saying "nonce too low", and is not the
        fifth. The retry goes on from the account nonce the error names. */
    method Send(value: nat) returns (r: Result<Hash, SendError>, ghost attempts: seq<Attempt>)
      requires Valid()
      modifies this
      ensures Valid()
      ensures Watermark() >= old(Watermark()) && lastWriteBlock >= old(lastWriteBlock)
      ensures SendFits(chain, value, attempts) && attempts[|attempts| - 1].result == r
      ensures attempts[0].filling.since == old(clock) && attempts[|attempts| - 1].until == clock
      ensures attempts[0].filling.before == old(Remembered())
      ensures Remembered() == MemoryAfter(chain, attempts[|attempts| - 1])
      ensures r.Ok? ==>
        var wait := attempts[|attempts| - 1].entries;
        && |wait| == 2 && wait[1].Waited? && wait[1].outcome.Mined? && wait[1].outcome.succeeded
        && (wait[1].outcome.block.Some? ==> lastWriteBlock >= wait[1].outcome.block.value)
      ensures journal == old(journal) + Trail(attempts)
    {
      r, attempts := Err(Stuck), [];
      for attempt := 0 to SEND_ATTEMPTS
        invariant Valid()
        invariant Watermark() >= old(Watermark()) && lastWriteBlock >= old(lastWriteBlock)
        invariant |attempts| == attempt && Attempted(chain, value, attempts) && Ready(attempts)
        invariant if attempt == 0 then Remembered() == old(Remembered()) && clock == old(clock)
                  else
                    && attempts[attempt - 1].result == r
                    && attempts[0].filling.before == old(Remembered()) && attempts[0].filling.since == old(clock)
        invariant journal == old(journal) + Trail(attempts)
      {
        var again;
        r, again, attempts := SendNext(value, old(journal), attempts);
        if !again {
          LastIsNoted(chain, value, attempts);
          return;
        }
      }
    }

    /** One more replacement, and what it adds to those before, submitted from question
        `first` and nonce `latest` on; `start` is the journal before them. */
    method SubmitNext(nonce: nat, gasPrice: nat, ghost start: seq<Entry>, ghost first: nat, ghost latest: nat,
                      ghost memory: Memory, ghost subs: seq<Entry>)
      returns (reply: Broadcast, ghost more: seq<Entry>)
      requires Valid() && journal == start + subs
      requires SentBy(chain, first, subs) && clock == first + |subs|
      requires nonce == latest + |subs| && Replacements(subs, latest, gasPrice) && AllAnswered(subs)
      requires Remembered() == MemorySent(memory, subs)
      modifies `clock, `nextNonce, `sentNonces, `journal
      ensures Valid() && journal == start + more
      ensures SentBy(chain, first, more) && clock == first + |more|
      ensures |more| == |subs| + 1 && Replacements(more, latest, gasPrice)
      ensures Answered(more[|subs|]) <==> reply.Accepted? || reply.tooLow
      ensures Answered(more[|subs|]) ==> AllAnswered(more)
      ensures Sent(more) == if reply.Accepted? then Sent(subs) + [Pair(nonce, reply.hash)] else Sent(subs)
      ensures TooLowIn(more) == if !reply.Accepted? && reply.tooLow then TooLowIn(subs) + [nonce] else TooLowIn(subs)
      ensures Remembered() == MemorySent(memory, more)
    {
      reply := Submit(nonce, TRANSFER_GAS, gasPrice, true);
      ghost var entry :=
        Submitted(old(clock), nonce, report, old(sentNonces), true, TRANSFER_GAS, gasPrice, reply);
      assert Replacements([entry], latest + |subs|, gasPrice);
      OneMoreSent(chain, first, subs, entry);
      OneMoreSubmission(subs, latest, gasPrice, entry);
      OneMoreRemembered(memory, subs, entry);
      Rejoin(start, subs, [entry]);
      more := subs + [entry];
    }

    /** The first loop of `clear_stuck_transactions`: one replacement per stuck nonce,
        all submitted before any is waited for. `taken` are the nonces too low by then. */
    method SubmitReplacements(latest: nat, pending: nat, gasPrice: nat)
      returns (sent: seq<Pair>, taken: seq<nat>, refused: Option<nat>, ghost subs: seq<Entry>)
      requires Valid() && latest <= pending
      modifies `clock, `nextNonce, `sentNonces, `journal
      ensures Valid() && journal == old(journal) + subs
      ensures SentBy(chain, old(clock), subs) && clock == old(clock) + |subs|
      ensures |subs| <= pending - latest && Replacements(subs, latest, gasPrice)
      ensures sent == Sent(subs) && taken == TooLowIn(subs)
      ensures refused.Some? ==> subs != [] && refused.value == subs[|subs| - 1].nonce && !Answered(subs[|subs| - 1])
      ensures refused.None? ==> |subs| == pending - latest && AllAnswered(subs)
      ensures Remembered() == MemorySent(old(Remembered()), subs)
    {
      sent, taken, refused, subs := [], [], None, [];
      for nonce := latest to pending
        invariant Valid() && journal == old(journal) + subs
        invariant SentBy(chain, old(clock), subs) && clock == old(clock) + |subs|
        invariant |subs| == nonce - latest && Replacements(subs, latest, gasPrice)
        invariant sent == Sent(subs) && taken == TooLowIn(subs)
        invariant refused.None? && AllAnswered(subs)
        invariant Remembered() == MemorySent(old(Remembered()), subs)
      {
        var reply;
        reply, subs := SubmitNext(nonce, gasPrice, old(journal), old(clock), latest, old(Remembered()), subs);
        if reply.Accepted? {
          sent := sent + [Pair(nonce, reply.hash)];
        } else if reply.tooLow {
          taken := taken + [nonce];
        } else {
          refused := Some(nonce);
          return;
        }
      }
    }

    /** The wait for one replacement, and after a time-out the reads that decide its fate. */
    method AwaitOne(nonce: nat, hash: Hash) returns (fate: Fate, ghost s: Settlement)
      requires Valid()
      modifies this
      ensures Valid() && journal == old(journal) + EntriesOf(s)
      ensures Watermark() >= old(Watermark()) && lastWriteBlock == Max(old(lastWriteBlock), BlockOf(s))
      ensures s.nonce == nonce && s.hash == hash && fate == FateOf(s)
      ensures SettledBy(chain, s)
      ensures s.at == old(clock) && s.until == clock && s.lastWrite == old(lastWriteBlock)
      ensures nextNonce == if s.outcome.TimedOut? then None else old(nextNonce)
      ensures sentNonces == old(sentNonces) - if s.outcome.TimedOut? then {nonce} else {}
    {
      var w := WaitForReceipt(hash, nonce, true);
      s := Settlement(old(clock), nonce, hash, w, lastWriteBlock, Latest, None, None, clock);
      if w.Mined? {
        NoteWrite(w.block);
        fate := Replaced;
      } else if w.WaitFailed? {
        fate := Unknown(OfReceipt);
      } else {
        fate, s := ReadAfterTimeOut(s, nonce, hash);
        Rejoin(old(journal), [Waited(old(clock), hash, true, w)], LookupOf(s));
      }
    }

    /** The reads after a time-out. */
    method ReadAfterTimeOut(ghost waited: Settlement, nonce: nat, hash: Hash) returns (fate: Fate, ghost s: Settlement)
      requires Valid() && waited.until == clock == waited.at + 1 && waited.lastWrite == lastWriteBlock
      requires waited.nonce == nonce && waited.hash == hash && waited.latest == None && waited.found == None
      requires waited.outcome == TimedOut == chain.wait(waited.at, hash)
      modifies `clock, `report, `journal, `lastWriteBlock
      ensures Valid() && journal == old(journal) + LookupOf(s)
      ensures Watermark() >= old(Watermark()) && lastWriteBlock == Max(old(lastWriteBlock), BlockOf(s))
      ensures s == waited.(block := s.block, latest := s.latest, found := s.found, until := clock)
      ensures fate == FateOf(s) && SettledBy(chain, s)
    {
      fate := Unknown(OfNonce);
      var block := AskFreshBlock();
      var latest := LatestNonce(block);
      ghost var found := None;
      if latest.Some? {
        if latest.value <= nonce {
          fate := Unmined;
        } else {
          ghost var receipt;
          fate, receipt := LookOnceMore(hash);
          found := Some(receipt);
        }
      }
      s := waited.(block := block, latest := latest, found := found, until := clock);
    }

    /** What the receipt says once the nonce is gone. */
    method LookOnceMore(hash: Hash) returns (fate: Fate, ghost found: Lookup)
      requires Valid()
      modifies `clock, `journal, `lastWriteBlock
      ensures Valid() && clock == old(clock) + 1
      ensures found == chain.receipt(old(clock), hash)
      ensures journal == old(journal) + [LookedUp(old(clock), hash, found)]
      ensures lastWriteBlock == Max(old(lastWriteBlock), BlockSeen(LookedUp(old(clock), hash, found)))
      ensures fate == match found
        case Found(_) => Replaced
        case NotFound => Overtaken
        case LookupFailed => Unknown(OfReceipt)
    {
      var receipt := LookUp(hash);
      found := receipt;
      if receipt.Found? {
        NoteWrite(receipt.block);
        fate := Replaced;
      } else {
        fate := if receipt.NotFound? then Overtaken else Unknown(OfReceipt);
      }
    }

    /** One more wait, and what it adds to those before, made from question `first` and this
        memory on; `start` is the journal before them. */
    method AwaitNext(pair: Pair, ghost start: seq<Entry>, ghost first: nat, ghost memory: Memory,
                     ghost waits: seq<Settlement>)
      returns (fate: Fate, ghost more: seq<Settlement>)
      requires Valid() && journal == start + AllEntries(waits)
      requires WaitsFit(chain, first, memory.lastWrite, waits)
      requires clock == UntilOf(first, waits) && Remembered() == MemoryWaited(memory, waits)
      modifies this
      ensures Valid() && journal == start + AllEntries(more)
      ensures Watermark() >= old(Watermark()) && lastWriteBlock >= old(lastWriteBlock)
      ensures WaitsFit(chain, first, memory.lastWrite, more)
      ensures clock == UntilOf(first, more) && Remembered() == MemoryWaited(memory, more)
      ensures |more| == |waits| + 1 && fate == FateOf(more[|waits|])
      ensures more == waits + [more[|waits|]] && more[|waits|].nonce == pair.nonce && more[|waits|].hash == pair.hash
      ensures ClearedIn(more) == if fate == Replaced then ClearedIn(waits) + [pair] else ClearedIn(waits)
      ensures OvertakenIn(more) == if fate == Overtaken then OvertakenIn(waits) + [pair.nonce] else OvertakenIn(waits)
      ensures EverySettled(waits) ==> AllButLastSettled(more)
      ensures EverySettled(waits) && (fate == Replaced || fate == Overtaken) ==> EverySettled(more)
      ensures FailureOf(more) ==
        if fate == Unmined then Some(StillPending(pair.nonce))
        else if fate.Unknown? then Some(ClearRpcError(fate.question))
        else None
    {
      ghost var s;
      fate, s := AwaitOne(pair.nonce, pair.hash);
      OneMoreWait(waits, s);
      OneMoreDropped(waits, s);
      OneMoreFits(chain, first, memory.lastWrite, waits, s);
      Rejoin(start, AllEntries(waits), EntriesOf(s));
      more := waits + [s];
    }

    /** The second loop of `clear_stuck_transactions`: wait for each replacement in turn.
        `overtaken` are the nonces it adds to those taken already. */
    method AwaitReplacements(sent: seq<Pair>)
      returns (cleared: seq<Pair>, overtaken: seq<nat>, failure: Option<Cleared>, ghost waits: seq<Settlement>)
      requires Valid()
      modifies this
      ensures Valid() && journal == old(journal) + AllEntries(waits)
      ensures Watermark() >= old(Watermark()) && lastWriteBlock >= old(lastWriteBlock)
      ensures WaitsFit(chain, old(clock), old(lastWriteBlock), waits) && clock == UntilOf(old(clock), waits)
      ensures Follows(waits, sent)
      ensures cleared == ClearedIn(waits) && overtaken == OvertakenIn(waits)
      ensures failure == FailureOf(waits)
      ensures failure.None? ==> |waits| == |sent| && EverySettled(waits)
      ensures AllButLastSettled(waits)
      ensures Remembered() == MemoryWaited(old(Remembered()), waits)
    {
      cleared, overtaken, failure, waits := [], [], None, [];
      var i := 0;
      while i < |sent| && failure.None?
        invariant Valid() && journal == old(journal) + AllEntries(waits)
        invariant Watermark() >= old(Watermark()) && lastWriteBlock >= old(lastWriteBlock)
        invariant WaitsFit(chain, old(clock), old(lastWriteBlock), waits)
        invariant clock == UntilOf(old(clock), waits) && Remembered() == MemoryWaited(old(Remembered()), waits)
        invariant |waits| == i <= |sent| && Follows(waits, sent)
        invariant cleared == ClearedIn(waits) && overtaken == OvertakenIn(waits)
        invariant failure == FailureOf(waits)
        invariant failure.None? ==> EverySettled(waits)
        invariant AllButLastSettled(waits)
      {
        var fate;
        ghost var before := waits;
        fate, waits := AwaitNext(sent[i], old(journal), old(clock), old(Remembered()), waits);
        FollowsMore(before, waits[i], sent);
        if fate == Replaced {
          cleared := cleared + [sent[i]];
        } else if fate == Overtaken {
          overtaken := overtaken + [sent[i].nonce];
        } else {
          failure := Some(if fate == Unmined then StillPending(sent[i].nonce) else ClearRpcError(fate.question));
        }
        i := i + 1;
      }
    }

    /** What `clear_stuck_transactions` reads before it sends anything: the stuck nonces,
        the network's gas price, a balance that pays for all replacements, the chain id. */
    method ReadStuckNonces() returns (early: Option<Cleared>, stuck: Stuckness, ghost v: Survey)
      requires Valid()
      modifies `clock, `report
      ensures Valid() && Watermark() >= old(Watermark())
      ensures SurveyFits(chain, lastWriteBlock, v) && v.early == early && v.stuck == stuck
      ensures v.since == old(clock) && v.until == clock
    {
      early, stuck := Some(ClearRpcError(OfNonce)), Stuckness(0, 0, 0, 0);
      var block := AskFreshBlock();
      var latest := LatestNonce(block);
      ghost var seen := clock;
      if latest.Some? {
        early := Some(ClearRpcError(OfPending));
        var pending := PendingNonce();
        if pending.Some? {
          stuck := Stuckness(latest.value, pending.value, 0, 0);
          if pending.value <= latest.value {
            early := Some(NothingStuck);
          } else {
            early, stuck := ReadPriceAndBalance(block, stuck);
          }
        }
      }
      v := Survey(old(clock), block, seen, clock, stuck, early);
    }

    method ReadPriceAndBalance(block: Block, nonces: Stuckness) returns (early: Option<Cleared>, stuck: Stuckness)
      requires nonces.latest < nonces.pending
      modifies `clock
      ensures clock > old(clock)
      ensures stuck.latest == nonces.latest && stuck.pending == nonces.pending
      ensures BalanceDecides(chain, old(clock), clock, block, stuck, early)
    {
      early, stuck := Some(ClearRpcError(OfPrice)), nonces;
      var price := GasPrice();
      if price.Some? {
        early := Some(ClearRpcError(OfBalance));
        var balance := Balance(block);
        if balance.Some? {
          stuck := nonces.(price := price.value, balance := balance.value);
          if stuck.balance < stuck.TotalCost() {
            early := Some(CannotPay);
          } else {
            var id := ChainId();
            early := if id.Some? then None else Some(ClearRpcError(OfChainId));
          }
        }
      }
    }

    /** The second loop of `clear_stuck_transactions`, after all of these were submitted, and
        the result. */
    method AwaitAll(stuck: Stuckness, sent: seq<Pair>, tooLow: seq<nat>, ghost subs: seq<Entry>)
      returns (r: Cleared, ghost waits: seq<Settlement>)
      requires Valid() && stuck.latest < stuck.pending
      requires |subs| == stuck.pending - stuck.latest && AllAnswered(subs)
      requires Replacements(subs, stuck.latest, stuck.GasPrice())
      requires sent == Sent(subs) && tooLow == TooLowIn(subs)
      modifies this
      ensures Valid() && journal == old(journal) + AllEntries(waits)
      ensures Watermark() >= old(Watermark()) && lastWriteBlock >= old(lastWriteBlock)
      ensures WaitsFit(chain, old(clock), old(lastWriteBlock), waits) && clock == UntilOf(old(clock), waits)
      ensures ClearingFits(r, stuck, subs, waits)
      ensures lastWriteBlock == WriteAfter(old(lastWriteBlock), waits)
      ensures sentNonces == old(sentNonces) - Dropped(waits)
      ensures nextNonce == if FailureOf(waits).Some? && Dropped(waits) == {} then old(nextNonce) else None
    {
      var cleared, overtaken, failure;
      cleared, overtaken, failure, waits := AwaitReplacements(sent);
      if failure.Some? {
        r := failure.value;
      } else {
        nextNonce := None;
        var taken := tooLow + overtaken;
        r := if taken != [] then SomeMined(Sorted(taken), cleared) else AllCleared(Hashes(cleared));
      }
    }

    /** Both loops of `clear_stuck_transactions`, and the result they give, once the reads, `v`,
        end nothing early. */
    method ReplaceStuck(stuck: Stuckness, ghost v: Survey) returns (r: Cleared, ghost c: Clearance)
      requires Valid() && stuck.latest < stuck.pending
      requires v.stuck == stuck && v.until == clock
      modifies this
      ensures Valid()
      ensures Watermark() >= old(Watermark()) && lastWriteBlock >= old(lastWriteBlock)
      ensures LoopsFit(chain, c)
      ensures c.survey == v && c.result == r && c.before == old(Remembered())
      ensures clock == UntilOf(v.until + |c.subs|, c.waits)
      ensures journal == old(journal) + c.subs + AllEntries(c.waits)
      ensures v.early.None? ==> Remembered() == MemoryCleared(c)
    {
      var sent, tooLow, refused;
      ghost var subs, waits := [], [];
      sent, tooLow, refused, subs := SubmitReplacements(stuck.latest, stuck.pending, stuck.GasPrice());
      if refused.Some? {
        r := ReplacementRefused(refused.value);
      } else {
        assert lastWriteBlock == old(lastWriteBlock) && clock == v.until + |subs|;
        r, waits := AwaitAll(stuck, sent, tooLow, subs);
      }
      c := Clearance(old(Remembered()), v, subs, waits, r);
    }

    /** `clear_stuck_transactions`: it ends early exactly when the reads say so, and then it
        sends nothing. */
    method ClearStuckTransactions() returns (r: Cleared, ghost c: Clearance)
      requires Valid()
      modifies this
      ensures Valid()
      ensures Watermark() >= old(Watermark()) && lastWriteBlock >= old(lastWriteBlock)
      ensures ClearanceFits(chain, c) && c.result == r
      ensures c.before == old(Remembered()) && Remembered() == MemoryCleared(c)
      ensures c.survey.since == old(clock) && clock == UntilOf(c.survey.until + |c.subs|, c.waits)
      ensures journal == old(journal) + c.subs + AllEntries(c.waits)
      ensures r.AllCleared? || r.SomeMined? ==> Exact(r, c.survey.stuck, c.subs)
    {
      ghost var survey;
      var early, stuck;
      early, stuck, survey := ReadStuckNonces();
      if early.Some? {
        r := early.value;
        c := Clearance(Remembered(), survey, [], [], r);
      } else {
        r, c := ReplaceStuck(stuck, survey);
        ClearingIsExact(r, stuck, c.subs, c.waits);
      }
    }
  }

  // ---------------------------------------------------------------- runs

  datatype Request = SendCall(value: nat) | ClearCall

  /** What a call did, and what it gave back. */
  datatype Outcome = SendDone(attempts: seq<Attempt>) | ClearDone(clearance: Clearance)
  datatype Return = SendReturned(sent: Result<Hash, SendError>) | ClearReturned(cleared: Cleared)

  ghost predicate CallFits(chain: Chain, call: Request, o: Outcome) {
    match call
    case SendCall(value) => o.SendDone? && SendFits(chain, value, o.attempts)
    case ClearCall => o.ClearDone? && ClearanceFits(chain, o.clearance)
  }

  predicate Returns(o: Outcome, r: Return) {
    match o
    case SendDone(attempts) => attempts != [] && r == SendReturned(attempts[|attempts| - 1].result)
    case ClearDone(c) => r == ClearReturned(c.result)
  }

  /** The questions of a call: its first, and the one after its last. */
  function SinceOf(o: Outcome): (since: nat) {
    match o
    case SendDone(attempts) => if attempts == [] then 0 else attempts[0].filling.since
    case ClearDone(c) => c.survey.since
  }

  function DoneAt(o: Outcome): (until: nat) {
    match o
    case SendDone(attempts) => if attempts == [] then 0 else attempts[|attempts| - 1].until
    case ClearDone(c) => UntilOf(c.survey.until + |c.subs|, c.waits)
  }

  /** What the client remembers before and after a call. */
  function BeforeOf(o: Outcome): (memory: Memory) {
    match o
    case SendDone(attempts) => if attempts == [] then NEW else attempts[0].filling.before
    case ClearDone(c) => c.before
  }

  function AfterOf(chain: Chain, o: Outcome): (memory: Memory) {
    match o
    case SendDone(attempts) => if attempts == [] then NEW else MemoryAfter(chain, attempts[|attempts| - 1])
    case ClearDone(c) => MemoryCleared(c)
  }

  const NEW := Memory(None, {}, 0)

  function RunMemory(chain: Chain, outcomes: seq<Outcome>): (memory: Memory) {
    if outcomes == [] then NEW else AfterOf(chain, outcomes[|outcomes| - 1])
  }

  ghost function EntriesBy(o: Outcome): (entries: seq<Entry>) {
    match o
    case SendDone(attempts) => Trail(attempts)
    case ClearDone(c) => c.subs + AllEntries(c.waits)
  }

  function RunUntil(outcomes: seq<Outcome>): (until: nat) {
    if outcomes == [] then 0 else DoneAt(outcomes[|outcomes| - 1])
  }

  ghost function RunEntries(outcomes: seq<Outcome>): (entries: seq<Entry>) {
    if outcomes == [] then [] else RunEntries(outcomes[..|outcomes| - 1]) + EntriesBy(outcomes[|outcomes| - 1])
  }

  /** These calls had these outcomes, one right after the other, from the first question. */
  ghost predicate RunFits(chain: Chain, calls: seq<Request>, outcomes: seq<Outcome>, returned: seq<Return>) {
    && |outcomes| == |calls| == |returned| && OneByOne(chain, outcomes)
    && forall i :: 0 <= i < |calls| ==> CallFits(chain, calls[i], outcomes[i]) && Returns(outcomes[i], returned[i])
  }

  /** Each call goes on where the one before it stopped asking, with what that one left. */
  predicate OneByOne(chain: Chain, outcomes: seq<Outcome>) {
    outcomes != [] ==>
      var before, last := outcomes[..|outcomes| - 1], outcomes[|outcomes| - 1];
      && SinceOf(last) == RunUntil(before) && BeforeOf(last) == RunMemory(chain, before)
      && OneByOne(chain, before)
  }

  lemma RunMore(chain: Chain, calls: seq<Request>, outcomes: seq<Outcome>, returned: seq<Return>,
                call: Request, o: Outcome, r: Return)
    requires RunFits(chain, calls, outcomes, returned)
    requires CallFits(chain, call, o) && Returns(o, r)
    requires SinceOf(o) == RunUntil(outcomes) && BeforeOf(o) == RunMemory(chain, outcomes)
    ensures RunFits(chain, calls + [call], outcomes + [o], returned + [r])
    ensures RunUntil(outcomes + [o]) == DoneAt(o) && RunMemory(chain, outcomes + [o]) == AfterOf(chain, o)
    ensures RunEntries(outcomes + [o]) == RunEntries(outcomes) + EntriesBy(o)
  {
    assert (outcomes + [o])[..|outcomes|] == outcomes;
  }

  /** One call, of either kind. */
  method OneCall(sender: Sender, call: Request) returns (r: Return, ghost o: Outcome)
    requires sender.Valid()
    modifies sender
    ensures sender.Valid()
    ensures CallFits(sender.chain, call, o) && Returns(o, r)
    ensures SinceOf(o) == old(sender.clock) && DoneAt(o) == sender.clock
    ensures BeforeOf(o) == old(sender.Remembered()) && AfterOf(sender.chain, o) == sender.Remembered()
    ensures sender.journal == old(sender.journal) + EntriesBy(o)
  {
    match call
    case SendCall(value) =>
      var sent;
      ghost var attempts;
      sent, attempts := sender.Send(value);
      r, o := SendReturned(sent), SendDone(attempts);
    case ClearCall =>
      var cleared;
      ghost var c;
      cleared, c := sender.ClearStuckTransactions();
      r, o := ClearReturned(cleared), ClearDone(c);
      Rejoin(old(sender.journal), c.subs, AllEntries(c.waits));
  }

  /** Any calls in any order, on any chain, from a fresh client. The journal is what those
      calls did, in order, and every entry is the chain's answer. Every nonce a send submits
      has all nonces from the highest one reported by then up to it accounted for, and the
      last write block is the highest block of any receipt of this client's writes. */
  method RunAnyCalls(chain: Chain, calls: seq<Request>)
    returns (sender: Sender, results: seq<Return>, ghost outcomes: seq<Outcome>)
    ensures fresh(sender) && sender.Valid() && sender.chain == chain
    ensures RunFits(chain, calls, outcomes, results)
    ensures sender.journal == RunEntries(outcomes) && sender.Remembered() == RunMemory(chain, outcomes)
    ensures JournalSound(chain, sender.journal)
    ensures NotedExactly(sender.journal, sender.lastWriteBlock)
  {
    sender := new Sender(chain);
    results, outcomes := [], [];
    for i := 0 to |calls|
      invariant fresh(sender) && sender.Valid() && sender.chain == chain
      invariant RunFits(chain, calls[..i], outcomes, results)
      invariant sender.journal == RunEntries(outcomes) && sender.clock == RunUntil(outcomes)
      invariant sender.Remembered() == RunMemory(chain, outcomes)
    {
      ghost var o;
      var r;
      r, o := OneCall(sender, calls[i]);
      RunMore(chain, calls[..i], outcomes, results, calls[i], o, r);
      TakeOneMore(calls, i);
      outcomes, results := outcomes + [o], results + [r];
    }
    assert calls[..|calls|] == calls;
    HighestIsNoted(sender.journal, sender.lastWriteBlock);
  }

  /** A chain that answers every read, pays for everything, refuses every broadcast as
      "nonce too low", and would name account nonce 5 if asked. */
  const REFUSING := Chain(
    t => None,
    (t, at) => Some(0),
    t => Some(0),
    t => Some(1),
    t => Some(1),
    (t, at) => Some(1_000_000),
    (t, at) => Simulation(Some(1_000_000), Gas(21_000)),
    (t, nonce) => Refused(true),
    (t, hash) => TimedOut,
    (t, hash) => NotFound,
    t => TooLow(Some(5)))

  /** On that chain the reads never fail and no nonce is unaccounted for, so an attempt
      always submits. */
  lemma RefusingFills(f: Filling)
    requires FilledFits(REFUSING, 0, f)
    ensures f.filled.Ok? && f.looks[|f.looks| - 1].pending == 0
  {
    if f.looks != [] {
      assert f.looks[|f.looks| - 1] in f.looks;
    }
  }

  /** A "nonce too low" that the broadcast itself raises is not tried again: the first
      attempt submits nonce 0, is refused with those words, and is the last. */
  method BroadcastTooLowIsNotRetried() returns (r: Result<Hash, SendError>, sender: Sender)
    ensures r == Err(RpcError(OfBroadcast))
    ensures |sender.journal| == 1 && sender.journal[0].Submitted?
    ensures sender.journal[0].nonce == 0 && sender.journal[0].reply == Refused(true)
  {
    sender := new Sender(REFUSING);
    ghost var attempts;
    r, attempts := sender.Send(0);
    ghost var a := attempts[0];
    assert a in attempts;
    RefusingFills(a.filling);
    RetryCause(REFUSING, 0, a);
  }
}
