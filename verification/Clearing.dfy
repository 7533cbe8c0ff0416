/** The result of clearing stuck transactions, as a function of what was submitted and of
    what each wait showed, and why it accounts for every stuck nonce exactly once. */
module Clearing {
  import opened Outcomes
  import opened FreshReads
  import opened Rounding
  import opened ChainAnswers
  import opened SendJournal

  /** A nonce and the hash of its replacement. */
  datatype Pair = Pair(nonce: nat, hash: Hash)

  datatype Cleared =
    | NothingStuck
    | AllCleared(hashes: seq<Hash>)
    | SomeMined(taken: seq<nat>, cleared: seq<Pair>)
    | CannotPay
    | ReplacementRefused(nonce: nat)
    | StillPending(nonce: nat)
    | ClearRpcError(question: Question)

  // ---------------------------------------------------------------- what is read first

  /** The nonces from `latest` to `pending` are stuck. */
  datatype Stuckness = Stuckness(latest: nat, pending: nat, price: nat, balance: nat) {
    /** What a replacement pays per gas: a node asks for more than the stuck one does. */
    function GasPrice(): nat {
      PlusAQuarter(price)
    }

    function TotalCost(): (cost: int) {
      TRANSFER_GAS * (pending - latest) * GasPrice()
    }
  }

  /** What is read first, by the questions from `since` on: the latest nonce for `block`,
      until `seen`, the pending nonce, the price, the balance and the chain id. `early` is
      the result if nothing is replaced. */
  datatype Survey = Survey(since: nat, block: Block, seen: nat, until: nat, stuck: Stuckness, early: Option<Cleared>)

  ghost predicate SurveyFits(chain: Chain, lastWrite: nat, v: Survey) {
    && v.block == FreshBlock(lastWrite, chain.newestBlock(v.since)) && v.since < v.until
    && if v.early == Some(ClearRpcError(OfNonce)) || v.early == Some(ClearRpcError(OfPending)) then
         Silent(chain, v.early.value.question, v.until - 1)
       else
         && NonceRead(chain, v.since + 1, v.seen, v.block, v.stuck.latest)
         && chain.pendingNonce(v.seen) == Some(v.stuck.pending)
         && if v.stuck.pending <= v.stuck.latest then v.until == v.seen + 1 && v.early == Some(NothingStuck)
            else BalanceDecides(chain, v.seen + 1, v.until, v.block, v.stuck, v.early)
  }

  /** The price, as question `now`, then the balance and the chain id: the replacements go
      out exactly if all are answered and the balance pays. */
  ghost predicate BalanceDecides(chain: Chain, now: nat, until: nat, block: Block, stuck: Stuckness,
                                 early: Option<Cleared>)
  {
    now < until &&
    match early
    case Some(ClearRpcError(question)) =>
      (question == OfPrice || question == OfBalance || question == OfChainId) && Silent(chain, question, until - 1)
    case Some(CannotPay) =>
      && chain.gasPrice(now) == Some(stuck.price) && BalanceRead(chain, now + 1, until, block, stuck.balance)
      && stuck.balance < stuck.TotalCost()
    case None =>
      && chain.gasPrice(now) == Some(stuck.price) && BalanceRead(chain, now + 1, until - 1, block, stuck.balance)
      && stuck.balance >= stuck.TotalCost() && chain.chainId(until - 1).Some?
    case _ => false
  }

  // ---------------------------------------------------------------- what is submitted

  /** One replacement per nonce from `latest` on, each a plain transfer at this price. */
  ghost predicate Replacements(subs: seq<Entry>, latest: nat, gasPrice: nat) {
    forall i :: 0 <= i < |subs| ==>
      && subs[i].Submitted? && subs[i].clearing && subs[i].nonce == latest + i
      && subs[i].gas == TRANSFER_GAS && subs[i].gasPrice == gasPrice
  }

  /** They were broadcast one after the other, as the questions from `start` on. */
  ghost predicate SentBy(chain: Chain, start: nat, subs: seq<Entry>) {
    forall i :: 0 <= i < |subs| ==>
      subs[i].Submitted? && subs[i].at == start + i && subs[i].reply == chain.broadcast(start + i, subs[i].nonce)
  }

  /** A replacement that is out, or whose nonce was gone already. */
  predicate Answered(e: Entry) {
    e.Submitted? && (e.reply.Accepted? || e.reply.tooLow)
  }

  predicate AllAnswered(subs: seq<Entry>) {
    forall i :: 0 <= i < |subs| ==> Answered(subs[i])
  }

  predicate AllAccepted(subs: seq<Entry>) {
    forall e :: e in subs ==> e.Submitted? && e.reply.Accepted?
  }

  lemma OneMoreAccepted(subs: seq<Entry>, e: Entry)
    ensures AllAccepted(subs + [e]) <==> AllAccepted(subs) && e.Submitted? && e.reply.Accepted?
    ensures OutBy(subs + [e]) == OutBy(subs) + Out(e)
  {
    var more := subs + [e];
    assert more[|subs|] == e;
    if AllAccepted(more) {
      forall d | d in subs ensures d.Submitted? && d.reply.Accepted? {
        assert d in more;
      }
    }
    OutByMore(subs, e);
  }

  /** What the client remembers after these submissions: the nonces that went out, and the
      counter while all were accepted. */
  function MemorySent(m: Memory, subs: seq<Entry>): (memory: Memory) {
    Memory(if AllAccepted(subs) then m.used else None, m.known + OutBy(subs), m.lastWrite)
  }

  lemma OneMoreRemembered(m: Memory, subs: seq<Entry>, e: Entry)
    requires e.Submitted?
    ensures
      var before := MemorySent(m, subs);
      MemorySent(m, subs + [e]) ==
        Memory(
          if e.reply.Accepted? then before.used else None,
          before.known + if e.reply.Refused? then {} else {e.nonce},
          before.lastWrite)
  {
    OneMoreAccepted(subs, e);
    assert m.known + (OutBy(subs) + Out(e)) == (m.known + OutBy(subs)) + Out(e);
  }

  function Sent(subs: seq<Entry>): (sent: seq<Pair>) {
    if subs == [] then []
    else
      var last := subs[|subs| - 1];
      Sent(subs[..|subs| - 1])
      + if last.Submitted? && last.reply.Accepted? then [Pair(last.nonce, last.reply.hash)] else []
  }

  function TooLowIn(subs: seq<Entry>): (nonces: seq<nat>) {
    if subs == [] then []
    else
      var last := subs[|subs| - 1];
      TooLowIn(subs[..|subs| - 1])
      + if last.Submitted? && !last.reply.Accepted? && last.reply.tooLow then [last.nonce] else []
  }

  lemma OneMoreSent(chain: Chain, start: nat, subs: seq<Entry>, e: Entry)
    requires SentBy(chain, start, subs) && e.Submitted? && e.at == start + |subs|
    requires e.reply == chain.broadcast(start + |subs|, e.nonce)
    ensures SentBy(chain, start, subs + [e])
  {
  }

  lemma OneMoreSubmission(subs: seq<Entry>, latest: nat, gasPrice: nat, e: Entry)
    requires Replacements(subs, latest, gasPrice) && AllAnswered(subs)
    requires Replacements([e], latest + |subs|, gasPrice)
    ensures e.Submitted? && Replacements(subs + [e], latest, gasPrice)
    ensures Answered(e) ==> AllAnswered(subs + [e])
    ensures e.reply.Accepted? ==>
              Sent(subs + [e]) == Sent(subs) + [Pair(e.nonce, e.reply.hash)] && TooLowIn(subs + [e]) == TooLowIn(subs)
    ensures !e.reply.Accepted? && e.reply.tooLow ==>
              Sent(subs + [e]) == Sent(subs) && TooLowIn(subs + [e]) == TooLowIn(subs) + [e.nonce]
    ensures !Answered(e) ==> Sent(subs + [e]) == Sent(subs) && TooLowIn(subs + [e]) == TooLowIn(subs)
  {
    assert (subs + [e])[..|subs|] == subs;
    assert [e][0] == e;
  }

  // ---------------------------------------------------------------- what is waited for

  /** What waiting for one replacement shows. */
  datatype Fate = Replaced | Overtaken | Unmined | Unknown(question: Question)

  /** One wait, as question `at`, and after a time-out the latest nonce, for `block`, and the
      receipt, as far as read; `lastWrite` is the last write block of that moment. */
  datatype Settlement = Settlement(
    at: nat,
    nonce: nat,
    hash: Hash,
    outcome: Wait,
    lastWrite: nat,
    block: Block,
    latest: Option<nat>,
    found: Option<Lookup>,
    until: nat)

  /** Every part of a settlement is an answer of the chain. */
  ghost predicate SettledBy(chain: Chain, s: Settlement) {
    && s.outcome == chain.wait(s.at, s.hash)
    && if !s.outcome.TimedOut? then s.until == s.at + 1 && s.latest.None? && s.found.None?
       else AfterTimeOut(chain, s)
  }

  ghost predicate AfterTimeOut(chain: Chain, s: Settlement) {
    && s.at + 2 < s.until && s.block == FreshBlock(s.lastWrite, chain.newestBlock(s.at + 1))
    && match s.latest
       case None => s.found.None? && Silent(chain, OfNonce, s.until - 1)
       case Some(latest) =>
         if latest <= s.nonce then s.found.None? && NonceRead(chain, s.at + 2, s.until, s.block, latest)
         else
           && s.found == Some(chain.receipt(s.until - 1, s.hash))
           && NonceRead(chain, s.at + 2, s.until - 1, s.block, latest)
  }

  /** The block of the receipt a settlement saw. */
  function BlockOf(s: Settlement): (block: nat) {
    match s.outcome
    case Mined(_, Some(block)) => block
    case TimedOut => (match s.found case Some(Found(Some(block))) => block case _ => 0)
    case _ => 0
  }

  function UntilOf(start: nat, waits: seq<Settlement>): (until: nat) {
    if waits == [] then start else waits[|waits| - 1].until
  }

  function WriteAfter(lastWrite: nat, waits: seq<Settlement>): (block: nat) {
    if waits == [] then lastWrite else Max(waits[|waits| - 1].lastWrite, BlockOf(waits[|waits| - 1]))
  }

  /** The nonces whose waits timed out. */
  function Dropped(waits: seq<Settlement>): (nonces: set<nat>) {
    set s | s in waits && s.outcome.TimedOut? :: s.nonce
  }

  /** What the client remembers after these waits: the block of the last receipt, without
      the nonces whose waits timed out, and without the counter if there are any. */
  function MemoryWaited(m: Memory, waits: seq<Settlement>): (memory: Memory) {
    Memory(
      if Dropped(waits) == {} then m.used else None, m.known - Dropped(waits), WriteAfter(m.lastWrite, waits))
  }

  lemma OneMoreDropped(waits: seq<Settlement>, s: Settlement)
    ensures Dropped(waits + [s]) == Dropped(waits) + if s.outcome.TimedOut? then {s.nonce} else {}
  {
    var more := waits + [s];
    assert more[|waits|] == s;
    forall n | n in Dropped(waits) ensures n in Dropped(more) {
      var w :| w in waits && w.outcome.TimedOut? && w.nonce == n;
      assert w in more;
    }
  }

  /** The waits show what the chain answered, from question `start` on. */
  ghost predicate WaitsFit(chain: Chain, start: nat, lastWrite: nat, waits: seq<Settlement>) {
    && (forall s :: s in waits ==> SettledBy(chain, s))
    && (waits != [] ==> waits[0].at == start && waits[0].lastWrite == lastWrite)
    && WaitsInTurn(waits)
  }

  /** They were made one after the other. */
  predicate WaitsInTurn(waits: seq<Settlement>) {
    |waits| > 1 ==>
      var s, next := waits[|waits| - 2], waits[|waits| - 1];
      && next.at == s.until && next.lastWrite == Max(s.lastWrite, BlockOf(s))
      && WaitsInTurn(waits[..|waits| - 1])
  }

  lemma {:induction false} WaitAt(waits: seq<Settlement>, i: nat)
    requires WaitsInTurn(waits) && i + 1 < |waits|
    ensures waits[i + 1].at == waits[i].until
    ensures waits[i + 1].lastWrite == Max(waits[i].lastWrite, BlockOf(waits[i]))
  {
    if i + 2 < |waits| {
      WaitAt(waits[..|waits| - 1], i);
    }
  }

  function FateOf(s: Settlement): (fate: Fate) {
    match s.outcome
    case Mined(_, _) => Replaced
    case WaitFailed => Unknown(OfReceipt)
    case TimedOut =>
      if s.latest.None? then Unknown(OfNonce)
      else if s.latest.value <= s.nonce then Unmined
      else match s.found
        case Some(Found(_)) => Replaced
        case Some(NotFound) => Overtaken
        case _ => Unknown(OfReceipt)
  }

  function LookupOf(s: Settlement): (entries: seq<Entry>) {
    if s.found.Some? && s.until > 0 then [LookedUp(s.until - 1, s.hash, s.found.value)] else []
  }

  function EntriesOf(s: Settlement): (entries: seq<Entry>) {
    [Waited(s.at, s.hash, true, s.outcome)] + LookupOf(s)
  }

  function AllEntries(waits: seq<Settlement>): (entries: seq<Entry>) {
    if waits == [] then [] else AllEntries(waits[..|waits| - 1]) + EntriesOf(waits[|waits| - 1])
  }

  function PairsOf(waits: seq<Settlement>): (r: seq<Pair>)
    ensures |r| == |waits| && forall i :: 0 <= i < |r| ==> r[i] == Pair(waits[i].nonce, waits[i].hash)
  {
    seq(|waits|, i requires 0 <= i < |waits| => Pair(waits[i].nonce, waits[i].hash))
  }

  /** These waits were for the first of these replacements, in order. */
  predicate Follows(waits: seq<Settlement>, sent: seq<Pair>) {
    && |waits| <= |sent|
    && forall i :: 0 <= i < |waits| ==> waits[i].nonce == sent[i].nonce && waits[i].hash == sent[i].hash
  }

  lemma OneMoreFits(chain: Chain, start: nat, lastWrite: nat, waits: seq<Settlement>, s: Settlement)
    requires WaitsFit(chain, start, lastWrite, waits) && SettledBy(chain, s)
    requires s.at == UntilOf(start, waits) && s.lastWrite == WriteAfter(lastWrite, waits)
    ensures WaitsFit(chain, start, lastWrite, waits + [s])
    ensures WriteAfter(lastWrite, waits + [s]) == Max(WriteAfter(lastWrite, waits), BlockOf(s))
  {
    assert (waits + [s])[..|waits|] == waits;
  }

  lemma FollowsMore(waits: seq<Settlement>, s: Settlement, sent: seq<Pair>)
    requires Follows(waits, sent) && |waits| < |sent|
    requires s.nonce == sent[|waits|].nonce && s.hash == sent[|waits|].hash
    ensures Follows(waits + [s], sent)
  {
  }

  predicate Settled(s: Settlement) {
    FateOf(s) == Replaced || FateOf(s) == Overtaken
  }

  predicate EverySettled(waits: seq<Settlement>) {
    forall i :: 0 <= i < |waits| ==> Settled(waits[i])
  }

  predicate AllButLastSettled(waits: seq<Settlement>) {
    forall i :: 0 <= i < |waits| - 1 ==> Settled(waits[i])
  }

  function ClearedIn(waits: seq<Settlement>): (cleared: seq<Pair>) {
    if waits == [] then []
    else
      var last := waits[|waits| - 1];
      ClearedIn(waits[..|waits| - 1]) + if FateOf(last) == Replaced then [Pair(last.nonce, last.hash)] else []
  }

  function OvertakenIn(waits: seq<Settlement>): (nonces: seq<nat>) {
    if waits == [] then []
    else
      var last := waits[|waits| - 1];
      OvertakenIn(waits[..|waits| - 1]) + if FateOf(last) == Overtaken then [last.nonce] else []
  }

  lemma OneMoreWait(waits: seq<Settlement>, s: Settlement)
    ensures AllEntries(waits + [s]) == AllEntries(waits) + EntriesOf(s)
    ensures ClearedIn(waits + [s]) == ClearedIn(waits) + if FateOf(s) == Replaced then [Pair(s.nonce, s.hash)] else []
    ensures EverySettled(waits) && Settled(s) ==> EverySettled(waits + [s])
    ensures OvertakenIn(waits + [s]) == OvertakenIn(waits) + if FateOf(s) == Overtaken then [s.nonce] else []
  {
    assert (waits + [s])[..|waits|] == waits;
  }

  /** The wait that did not settle its replacement ends the clearing. */
  function FailureOf(waits: seq<Settlement>): (failure: Option<Cleared>) {
    if waits == [] then None
    else
      var last := waits[|waits| - 1];
      match FateOf(last)
      case Unmined => Some(StillPending(last.nonce))
      case Unknown(question) => Some(ClearRpcError(question))
      case _ => None
  }

  /** The result once every replacement is settled. */
  function ResultOf(subs: seq<Entry>, waits: seq<Settlement>): (r: Cleared) {
    var taken := TooLowIn(subs) + OvertakenIn(waits);
    if taken != [] then SomeMined(Sorted(taken), ClearedIn(waits)) else AllCleared(Hashes(ClearedIn(waits)))
  }

  /** The two loops and the result they give: a refused submission is the last, before any
      wait; otherwise all are submitted, and the first wait that settles nothing ends it. */
  ghost predicate ClearingFits(r: Cleared, stuck: Stuckness, subs: seq<Entry>, waits: seq<Settlement>) {
    && |subs| <= stuck.pending - stuck.latest
    && Replacements(subs, stuck.latest, stuck.GasPrice())
    && if subs != [] && !Answered(subs[|subs| - 1]) then
         waits == [] && r == ReplacementRefused(subs[|subs| - 1].nonce)
       else
         && |subs| == stuck.pending - stuck.latest && AllAnswered(subs) && Follows(waits, Sent(subs))
         && AllButLastSettled(waits)
         && if FailureOf(waits).Some? then r == FailureOf(waits).value
            else |waits| == |Sent(subs)| && EverySettled(waits) && r == ResultOf(subs, waits)
  }

  /** One call of `clear_stuck_transactions`, from its first question to its result. */
  datatype Clearance = Clearance(
    before: Memory,
    survey: Survey,
    subs: seq<Entry>,
    waits: seq<Settlement>,
    result: Cleared)

  /** What is read first decides whether anything is replaced. */
  ghost predicate ClearanceFits(chain: Chain, c: Clearance) {
    && SurveyFits(chain, c.before.lastWrite, c.survey)
    && if c.survey.early.Some? then c.result == c.survey.early.value && c.subs == [] && c.waits == []
       else LoopsFit(chain, c)
  }

  /** The broadcasts and the waits, each the chain's answer, decide the result; every
      submission comes before every wait. */
  ghost predicate LoopsFit(chain: Chain, c: Clearance) {
    && SentBy(chain, c.survey.until, c.subs)
    && WaitsFit(chain, c.survey.until + |c.subs|, c.before.lastWrite, c.waits)
    && ClearingFits(c.result, c.survey.stuck, c.subs, c.waits)
  }

  /** What the client remembers after a clearing: a nonce joins unless its broadcast was
      refused, and leaves when its wait times out. The counter stays only if the clearing
      ends on a read or a wait that fails, with every replacement so far accepted. */
  function MemoryCleared(c: Clearance): (memory: Memory) {
    if c.survey.early.Some? then c.before
    else
      MemoryWaited(
        Memory(
          if AllAccepted(c.subs) && FailureOf(c.waits).Some? then c.before.used else None,
          c.before.known + OutBy(c.subs),
          c.before.lastWrite),
        c.waits)
  }

  /** A normal return gives one accepted hash per stuck nonce, in nonce order; otherwise
      each stuck nonce is exactly one of taken and cleared, both in strictly rising order. */
  ghost predicate Exact(r: Cleared, stuck: Stuckness, subs: seq<Entry>) {
    stuck.latest < stuck.pending &&
    match r
    case AllCleared(hashes) =>
      && |hashes| == |subs| == stuck.pending - stuck.latest
      && forall i :: 0 <= i < |subs| ==> AcceptedIn(subs, stuck.latest, Pair(stuck.latest + i, hashes[i]))
    case SomeMined(taken, cleared) =>
      && taken != [] && Ascending(taken) && AscendingPairs(cleared)
      && (forall n: nat :: n in taken || NonceIn(cleared, n) <==> stuck.latest <= n < stuck.pending)
      && (forall n: nat :: !(n in taken && NonceIn(cleared, n)))
      && forall c :: c in cleared ==> AcceptedIn(subs, stuck.latest, c)
    case _ => false
  }

  ghost predicate AcceptedIn(subs: seq<Entry>, latest: nat, pair: Pair) {
    && latest <= pair.nonce < latest + |subs|
    && subs[pair.nonce - latest].Submitted? && subs[pair.nonce - latest].reply == Accepted(pair.hash)
  }

  // ---------------------------------------------------------------- the theorem

  /** The results account for every stuck nonce exactly once. */
  lemma ClearingIsExact(r: Cleared, stuck: Stuckness, subs: seq<Entry>, waits: seq<Settlement>)
    requires stuck.latest < stuck.pending && ClearingFits(r, stuck, subs, waits)
    ensures r.AllCleared? || r.SomeMined? ==> Exact(r, stuck, subs)
  {
    if r.AllCleared? || r.SomeMined? {
      SubsSplit(subs, stuck.latest, stuck.GasPrice());
      assert PairsOf(waits) == Sent(subs);
      WaitsSplit(waits);
      ExactFromSplits(stuck, subs, Sent(subs), TooLowIn(subs), ClearedIn(waits), OvertakenIn(waits));
    }
  }

  lemma ExactFromSplits(stuck: Stuckness, subs: seq<Entry>, sent: seq<Pair>, early: seq<nat>,
                        cleared: seq<Pair>, late: seq<nat>)
    requires stuck.latest < stuck.pending && |subs| == stuck.pending - stuck.latest
    requires SplitBy(subs, stuck.latest, sent, early) && Partitioned(sent, cleared, late)
    ensures early + late == [] ==> Exact(AllCleared(Hashes(cleared)), stuck, subs)
    ensures early + late != [] ==> Exact(SomeMined(Sorted(early + late), cleared), stuck, subs)
  {
    if early + late == [] {
      assert early == [] && late == [];
    } else {
      JoinSplits(subs, stuck.latest, sent, early, cleared, late);
      SortedSorts(early + late);
    }
  }

  /** What was too low at once and what was overtaken later are different nonces, and with
      what was cleared they are all. */
  lemma JoinSplits(subs: seq<Entry>, latest: nat, sent: seq<Pair>, early: seq<nat>, cleared: seq<Pair>, late: seq<nat>)
    requires SplitBy(subs, latest, sent, early) && Partitioned(sent, cleared, late)
    ensures Distinct(early + late)
    ensures forall n: nat :: n in early + late || NonceIn(cleared, n) <==> latest <= n < latest + |subs|
    ensures forall n: nat :: !(n in early + late && NonceIn(cleared, n))
  {
    var all := early + late;
    forall n: nat ensures n in all <==> n in early || n in late {
    }
    forall i, j | 0 <= i < j < |all| ensures all[i] != all[j] {
      if i < |early| <= j {
        assert all[i] in early && all[j] in late && NonceIn(sent, all[j]);
      }
    }
  }

  /** A cleared replacement is one whose receipt was seen. */
  lemma {:induction false} ClearedWasSeen(waits: seq<Settlement>, pair: Pair) returns (i: nat)
    requires pair in ClearedIn(waits)
    ensures i < |waits| && pair == Pair(waits[i].nonce, waits[i].hash)
    ensures waits[i].outcome.Mined? || (waits[i].found.Some? && waits[i].found.value.Found?)
  {
    i := |waits| - 1;
    if pair in ClearedIn(waits[..i]) {
      i := ClearedWasSeen(waits[..i], pair);
    }
  }

  /** A taken nonce was answered as too low, or the chain's nonce had passed it and the
      replacement, never seen to mine, had no receipt. */
  lemma {:induction false} TakenWasPassed(subs: seq<Entry>, waits: seq<Settlement>, nonce: nat)
    returns (early: bool, i: nat)
    requires nonce in TooLowIn(subs) + OvertakenIn(waits)
    ensures early ==>
              && i < |subs| && subs[i].Submitted? && subs[i].nonce == nonce
              && !subs[i].reply.Accepted? && subs[i].reply.tooLow
    ensures !early ==>
              && i < |waits| && waits[i].nonce == nonce && waits[i].outcome == TimedOut
              && waits[i].latest.Some? && waits[i].latest.value > nonce && waits[i].found == Some(NotFound)
    decreases |subs| + |waits|
  {
    if nonce in TooLowIn(subs) {
      early, i := true, |subs| - 1;
      if nonce in TooLowIn(subs[..i]) {
        var e, j := TakenWasPassed(subs[..i], [], nonce);
        i := j;
      }
    } else {
      early, i := false, |waits| - 1;
      if nonce in OvertakenIn(waits[..i]) {
        var e, j := TakenWasPassed([], waits[..i], nonce);
        i := j;
      }
    }
  }

  /** The accepted and the too low submissions, each in rising order, split the nonces
      from `latest` on. */
  ghost predicate SplitBy(subs: seq<Entry>, latest: nat, sent: seq<Pair>, tooLow: seq<nat>) {
    && AscendingPairs(sent) && Ascending(tooLow)
    && (forall c :: c in sent ==> AcceptedIn(subs, latest, c))
    && (forall n: nat :: n in tooLow || NonceIn(sent, n) <==> latest <= n < latest + |subs|)
    && (forall n: nat :: !(n in tooLow && NonceIn(sent, n)))
    && (tooLow == [] ==> |sent| == |subs| && forall i :: 0 <= i < |sent| ==> sent[i].nonce == latest + i)
  }

  lemma {:induction false} SubsSplit(subs: seq<Entry>, latest: nat, gasPrice: nat)
    requires Replacements(subs, latest, gasPrice) && AllAnswered(subs)
    ensures SplitBy(subs, latest, Sent(subs), TooLowIn(subs))
  {
    if subs == [] {
    } else {
      var before, last := subs[..|subs| - 1], subs[|subs| - 1];
      SubsSplit(before, latest, gasPrice);
      assert subs == before + [last];
      SplitNext(before, latest, Sent(before), TooLowIn(before), last);
    }
  }

  lemma SplitNext(subs: seq<Entry>, latest: nat, sent: seq<Pair>, tooLow: seq<nat>, next: Entry)
    requires SplitBy(subs, latest, sent, tooLow) && Answered(next) && next.nonce == latest + |subs|
    ensures next.reply.Accepted? ==>
              SplitBy(subs + [next], latest, sent + [Pair(next.nonce, next.reply.hash)], tooLow + [])
    ensures !next.reply.Accepted? ==> SplitBy(subs + [next], latest, sent + [], tooLow + [next.nonce])
  {
    if next.reply.Accepted? {
      AppendPair(sent, Pair(next.nonce, next.reply.hash));
      assert tooLow + [] == tooLow;
    } else {
      AppendNonce(tooLow, next.nonce);
      assert sent + [] == sent;
    }
    forall c | c in sent ensures AcceptedIn(subs + [next], latest, c) {
      assert AcceptedIn(subs, latest, c);
    }
  }

  lemma AppendPair(s: seq<Pair>, last: Pair)
    requires AscendingPairs(s) && forall c :: c in s ==> c.nonce < last.nonce
    ensures AscendingPairs(s + [last])
    ensures forall n: nat :: NonceIn(s + [last], n) <==> NonceIn(s, n) || n == last.nonce
  {
    forall n: nat ensures NonceIn(s + [last], n) <==> NonceIn(s, n) || n == last.nonce {
      if NonceIn(s, n) {
        var i :| 0 <= i < |s| && s[i].nonce == n;
        assert (s + [last])[i].nonce == n;
      }
      assert (s + [last])[|s|].nonce == last.nonce;
    }
  }

  lemma AppendNonce(s: seq<nat>, last: nat)
    requires Ascending(s) && forall n :: n in s ==> n < last
    ensures Ascending(s + [last])
    ensures forall n: nat :: n in s + [last] <==> n in s || n == last
  {
    var r := s + [last];
    forall i, j | 0 <= i < j < |r| ensures r[i] < r[j] {
      assert r[i] == s[i] && r[i] in s;
    }
  }

  /** The cleared and the overtaken replacements split those waited for. */
  ghost predicate Partitioned(pairs: seq<Pair>, cleared: seq<Pair>, overtaken: seq<nat>) {
    && AscendingPairs(cleared) && Ascending(overtaken)
    && (forall c :: c in cleared ==> c in pairs)
    && (forall n: nat :: n in overtaken || NonceIn(cleared, n) <==> NonceIn(pairs, n))
    && (forall n: nat :: !(n in overtaken && NonceIn(cleared, n)))
    && (overtaken == [] ==> cleared == pairs)
  }

  lemma {:induction false} WaitsSplit(waits: seq<Settlement>)
    requires AscendingPairs(PairsOf(waits)) && EverySettled(waits)
    ensures Partitioned(PairsOf(waits), ClearedIn(waits), OvertakenIn(waits))
  {
    if waits == [] {
    } else {
      var n := |waits| - 1;
      var before, last := waits[..n], waits[n];
      assert PairsOf(waits) == PairsOf(before) + [Pair(last.nonce, last.hash)];
      WaitsSplit(before);
      PartitionNext(PairsOf(before), ClearedIn(before), OvertakenIn(before), Pair(last.nonce, last.hash));
    }
  }

  lemma PartitionNext(pairs: seq<Pair>, cleared: seq<Pair>, overtaken: seq<nat>, next: Pair)
    requires Partitioned(pairs, cleared, overtaken) && AscendingPairs(pairs + [next])
    ensures Partitioned(pairs + [next], cleared + [next], overtaken + [])
    ensures Partitioned(pairs + [next], cleared + [], overtaken + [next.nonce])
  {
    forall c | c in pairs ensures c.nonce < next.nonce {
      var i :| 0 <= i < |pairs| && pairs[i] == c;
      assert (pairs + [next])[i].nonce < (pairs + [next])[|pairs|].nonce;
    }
    forall n | n in overtaken ensures n < next.nonce {
      assert NonceIn(pairs, n);
    }
    assert forall i :: 0 <= i < |pairs| ==> (pairs + [next])[i] == pairs[i];
    AppendPair(pairs, next);
    AppendPair(cleared, next);
    AppendNonce(overtaken, next.nonce);
    assert cleared + [] == cleared && overtaken + [] == overtaken;
  }

  /** The submissions cost 21000 gas each. */
  lemma {:induction false} ReplacementsCost(subs: seq<Entry>, latest: nat, gasPrice: nat)
    requires Replacements(subs, latest, gasPrice)
    ensures Cost(subs) == |subs| * (TRANSFER_GAS * gasPrice)
  {
    if subs == [] {
    } else {
      ReplacementsCost(subs[..|subs| - 1], latest, gasPrice);
      assert |subs| * (TRANSFER_GAS * gasPrice) == (|subs| - 1) * (TRANSFER_GAS * gasPrice) + TRANSFER_GAS * gasPrice;
    }
  }

  /** The balance read before anything is submitted pays for all that is. */
  lemma BalancePays(chain: Chain, c: Clearance)
    requires ClearanceFits(chain, c)
    ensures c.subs != [] ==> Cost(c.subs) <= c.survey.stuck.balance
  {
    if c.survey.early.None? {
      PaysForAll(c.survey.stuck, c.subs);
    }
  }

  lemma PaysForAll(stuck: Stuckness, subs: seq<Entry>)
    requires |subs| <= stuck.pending - stuck.latest && Replacements(subs, stuck.latest, stuck.GasPrice())
    ensures Cost(subs) <= stuck.TotalCost()
  {
    var all, each := stuck.pending - stuck.latest, TRANSFER_GAS * stuck.GasPrice();
    ReplacementsCost(subs, stuck.latest, stuck.GasPrice());
    MulLe(|subs|, all, each);
    assert all * each == TRANSFER_GAS * all * stuck.GasPrice();
  }

  // ---------------------------------------------------------------- lists of nonces

  predicate Ascending(s: seq<nat>) {
    forall i, j :: 0 <= i < j < |s| ==> s[i] < s[j]
  }

  predicate AscendingPairs(s: seq<Pair>) {
    forall i, j :: 0 <= i < j < |s| ==> s[i].nonce < s[j].nonce
  }

  predicate NonceIn(s: seq<Pair>, n: nat) {
    exists i :: 0 <= i < |s| && s[i].nonce == n
  }

  predicate Distinct(s: seq<nat>) {
    forall i, j :: 0 <= i < j < |s| ==> s[i] != s[j]
  }

  function Hashes(pairs: seq<Pair>): (r: seq<Hash>)
    ensures |r| == |pairs| && forall i :: 0 <= i < |r| ==> r[i] == pairs[i].hash
  {
    seq(|pairs|, i requires 0 <= i < |pairs| => pairs[i].hash)
  }

  /** `sorted`. */
  function Sorted(s: seq<nat>): (r: seq<nat>) {
    if s == [] then [] else Insert(Sorted(s[1..]), s[0])
  }

  function Insert(s: seq<nat>, n: nat): (r: seq<nat>) {
    if s == [] then [n]
    else if n <= s[0] then [n] + s
    else [s[0]] + Insert(s[1..], n)
  }

  lemma ConsKeepsOrder(head: nat, tail: seq<nat>)
    requires Ascending(tail) && forall x :: x in tail ==> head < x
    ensures Ascending([head] + tail)
  {
    var r := [head] + tail;
    forall i, j | 0 <= i < j < |r| ensures r[i] < r[j] {
      assert r[j] == tail[j - 1] && tail[j - 1] in tail && (i > 0 ==> r[i] == tail[i - 1]);
    }
  }

  lemma {:induction false} InsertSorts(s: seq<nat>, n: nat)
    requires Ascending(s) && n !in s
    ensures Ascending(Insert(s, n))
    ensures forall x :: x in Insert(s, n) <==> x in s || x == n
  {
    if s == [] {
    } else {
      var head, tail := s[0], s[1..];
      assert s == [head] + tail;
      assert forall x :: x in tail ==> head < x;
      if n <= head {
        ConsKeepsOrder(n, s);
      } else {
        InsertSorts(tail, n);
        ConsKeepsOrder(head, Insert(tail, n));
      }
    }
  }

  /** Sorting distinct numbers puts the same ones in strictly rising order. */
  lemma {:induction false} SortedSorts(s: seq<nat>)
    requires Distinct(s)
    ensures Ascending(Sorted(s)) && |Sorted(s)| == |s|
    ensures forall x :: x in Sorted(s) <==> x in s
  {
    if s == [] {
    } else {
      var head, tail := s[0], s[1..];
      assert head !in tail && s == [head] + tail;
      SortedSorts(tail);
      InsertSorts(Sorted(tail), head);
      InsertGrows(Sorted(tail), head);
    }
  }

  lemma {:induction false} InsertGrows(s: seq<nat>, n: nat)
    ensures |Insert(s, n)| == |s| + 1
  {
    if s == [] {
    } else {
      InsertGrows(s[1..], n);
    }
  }
}
