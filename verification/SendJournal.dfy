/** The journal of one client: every submission, wait and receipt lookup, in order. */
module SendJournal {
  import opened Outcomes
  import opened FreshReads
  import opened ChainAnswers

  /** Each entry is the question `at`, with its answer. A submission is recorded with its
      moment: `report` is the highest account nonce the chain had reported, and `known` the
      nonces this client accounted for. `clearing` tells the replacements of
      `clear_stuck_transactions` from sends. */
  datatype Entry =
    | Submitted(at: nat, nonce: nat, report: Report, known: set<nat>, clearing: bool,
                gas: nat, gasPrice: nat, reply: Broadcast)
    | Waited(at: nat, hash: Hash, clearing: bool, outcome: Wait)
    | LookedUp(at: nat, hash: Hash, found: Lookup)

  /** What a client goes on with: the last nonce used, as far as remembered, the nonces it
      accounts for, and the block of its last write. */
  datatype Memory = Memory(used: Option<int>, known: set<nat>, lastWrite: nat)

  /** The answer is the chain's, and so is the report, from an earlier question. */
  predicate EntryTrue(chain: Chain, e: Entry) {
    match e
    case Submitted(at, nonce, report, _, _, _, _, reply) =>
      && reply == chain.broadcast(at, nonce)
      && ReportTrue(chain, report) && (report.NoReport? || report.at < at)
    case Waited(at, hash, _, outcome) => outcome == chain.wait(at, hash)
    case LookedUp(at, hash, found) => found == chain.receipt(at, hash)
  }

  /** Every nonce from `low` up to but not including `high` is in `known`. */
  predicate Accounted(low: nat, high: int, known: set<nat>) {
    forall n :: low <= n < high ==> n in known
  }

  /** A send never queues behind a transaction the client cannot account for. */
  predicate NothingUnknownBelow(e: Entry) {
    e.Submitted? && !e.clearing ==> Accounted(NonceOf(e.report), e.nonce, e.known)
  }

  /** The block of a receipt that shows a write of this client: a send that succeeded, or
      a replacement, which writes even when it fails. */
  function BlockSeen(e: Entry): (block: nat) {
    match e
    case Waited(_, _, clearing, Mined(succeeded, Some(block))) => if clearing || succeeded then block else 0
    case LookedUp(_, _, Found(Some(block))) => block
    case _ => 0
  }

  /** A receipt in this block was seen: of a send that succeeded, of a replacement that mined
      at all, or of a replacement looked up after its wait. */
  predicate ShowsWrite(e: Entry, block: nat) {
    || (e.Waited? && e.outcome.Mined? && e.outcome.block == Some(block) && (e.outcome.succeeded || e.clearing))
    || (e.LookedUp? && e.found == Found(Some(block)))
  }

  lemma BlockSeenIsShown(e: Entry)
    ensures forall block: nat :: ShowsWrite(e, block) ==> BlockSeen(e) == block
    ensures BlockSeen(e) > 0 ==> ShowsWrite(e, BlockSeen(e))
  {
  }

  /** This block is the highest that any entry shows a write in, or 0. */
  ghost predicate NotedExactly(journal: seq<Entry>, block: nat) {
    && (forall e, b: nat :: e in journal && ShowsWrite(e, b) ==> b <= block)
    && (block == 0 || exists e :: e in journal && ShowsWrite(e, block))
  }

  lemma HighestIsNoted(journal: seq<Entry>, block: nat)
    requires IsHighest(journal, block)
    ensures NotedExactly(journal, block)
  {
    forall e, b: nat | e in journal && ShowsWrite(e, b) ensures b <= block {
      BlockSeenIsShown(e);
    }
    if block > 0 {
      var e :| e in journal && BlockSeen(e) == block;
      BlockSeenIsShown(e);
    }
  }

  /** The highest block of any receipt in the journal, or 0. */
  ghost predicate IsHighest(journal: seq<Entry>, block: nat) {
    && (forall e :: e in journal ==> BlockSeen(e) <= block)
    && (block == 0 || exists e :: e in journal && BlockSeen(e) == block)
  }

  /** The nonce of a broadcast that was not refused, so that the chain may hold it. */
  function Out(e: Entry): (nonces: set<nat>) {
    if e.Submitted? && !e.reply.Refused? then {e.nonce} else {}
  }

  function OutBy(journal: seq<Entry>): (nonces: set<nat>) {
    set e | e in journal && e.Submitted? && !e.reply.Refused? :: e.nonce
  }

  /** A nonce was accounted for only once a broadcast of this client had gone out with it. */
  predicate KnownWereOut(journal: seq<Entry>) {
    journal != [] ==>
      var before, last := journal[..|journal| - 1], journal[|journal| - 1];
      (last.Submitted? ==> last.known <= OutBy(before)) && KnownWereOut(before)
  }

  /** Every entry is an answer of the chain, no send went out with an unknown nonce below
      it, and known ones are this client's own. */
  ghost predicate JournalSound(chain: Chain, journal: seq<Entry>) {
    && (forall e :: e in journal ==> EntryTrue(chain, e) && NothingUnknownBelow(e))
    && KnownWereOut(journal)
  }

  lemma JournalAppend(chain: Chain, journal: seq<Entry>, block: nat, e: Entry)
    requires JournalSound(chain, journal) && EntryTrue(chain, e) && NothingUnknownBelow(e)
    requires e.Submitted? ==> e.known <= OutBy(journal)
    requires IsHighest(journal, block)
    ensures JournalSound(chain, journal + [e])
    ensures OutBy(journal + [e]) == OutBy(journal) + Out(e)
    ensures IsHighest(journal + [e], Max(block, BlockSeen(e)))
  {
    var more := journal + [e];
    assert more[|journal|] == e && more[..|journal|] == journal;
    OutByMore(journal, e);
    if block > 0 && BlockSeen(e) < block {
      var d :| d in journal && BlockSeen(d) == block;
      assert d in more;
    }
  }

  lemma {:induction false} KnownAt(journal: seq<Entry>, k: nat)
    requires KnownWereOut(journal) && k < |journal| && journal[k].Submitted?
    ensures journal[k].known <= OutBy(journal[..k])
  {
    var n := |journal| - 1;
    if k < n {
      KnownAt(journal[..n], k);
      assert journal[..n][..k] == journal[..k];
    }
  }

  /** Whatever nonce lies between the one the chain had reported and the one a send used went
      out before, in a broadcast of this client that was not refused. */
  lemma BelowIsOurs(chain: Chain, journal: seq<Entry>, k: nat, n: nat) returns (i: nat)
    requires JournalSound(chain, journal)
    requires k < |journal| && journal[k].Submitted? && !journal[k].clearing
    requires NonceOf(journal[k].report) <= n < journal[k].nonce
    ensures i < k && journal[i].Submitted? && journal[i].nonce == n && !journal[i].reply.Refused?
  {
    assert NothingUnknownBelow(journal[k]);
    KnownAt(journal, k);
    assert n in OutBy(journal[..k]);
    var d :| d in journal[..k] && d.Submitted? && !d.reply.Refused? && d.nonce == n;
    i :| 0 <= i < k && journal[i] == d;
  }

  lemma OutByMore(journal: seq<Entry>, e: Entry)
    ensures OutBy(journal + [e]) == OutBy(journal) + Out(e)
  {
    var more := journal + [e];
    assert more[|journal|] == e;
    forall n | n in OutBy(journal) ensures n in OutBy(more) {
      var d :| d in journal && d.Submitted? && !d.reply.Refused? && d.nonce == n;
      assert d in more;
    }
  }

  lemma Rejoin<T>(a: seq<T>, b: seq<T>, c: seq<T>)
    ensures (a + b) + c == a + (b + c)
  {
  }

  lemma TakeOneMore<T>(s: seq<T>, i: nat)
    requires i < |s|
    ensures s[..i + 1] == s[..i] + [s[i]]
  {
  }

  /** The gas that these submissions may cost. */
  ghost function Cost(entries: seq<Entry>): (cost: nat) {
    if entries == [] then 0
    else Cost(entries[..|entries| - 1]) + (match entries[|entries| - 1]
      case Submitted(_, _, _, _, _, gas, gasPrice, _) => gas * gasPrice
      case _ => 0)
  }
}
