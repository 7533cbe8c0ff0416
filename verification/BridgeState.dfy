/** The loopback wallet bridge as a value: what its lock protects, and what each
    `with self._cond` block does to it. */
module BridgeState {
  import opened Outcomes

  /** The random state string that names one request. */
  type Token = nat
  /** A cancel event; the same event may be shared by several requests. */
  type Signal = nat

  /** A JSON object posted by the page. An absent or falsy "error" is the empty string. */
  datatype Payload = Payload(error: string, value: Option<string>)

  /** The job dictionary of one request. */
  datatype Record = Record(
    cancel: Option<Signal>,
    dispatched: bool,
    closed: bool,
    done: bool,
    result: Option<Payload>)

  /** `records` also keeps the dictionaries that only a request still points to. */
  datatype Core = Core(
    records: map<Token, Record>,
    jobs: set<Token>,
    late: set<Token>,
    queue: seq<Token>,
    serving: bool,
    closed: bool)

  const EMPTY := Core(map[], {}, {}, [], false, false)

  ghost predicate NoDuplicates(q: seq<Token>) {
    forall i, j :: 0 <= i < j < |q| ==> q[i] != q[j]
  }

  /** `list.remove`, for a list that may not hold the token. */
  function RemoveFirst(q: seq<Token>, t: Token): (rest: seq<Token>) {
    if q == [] then []
    else if q[0] == t then q[1..]
    else [q[0]] + RemoveFirst(q[1..], t)
  }

  lemma ConsKeepsDistinct(t: Token, q: seq<Token>)
    requires NoDuplicates(q) && t !in q
    ensures NoDuplicates([t] + q)
  {
    var r := [t] + q;
    forall i, j | 0 <= i < j < |r| ensures r[i] != r[j] {
      assert r[j] == q[j - 1];
    }
  }

  /** A single removal leaves nothing behind in a queue without duplicates. */
  lemma {:induction false} RemoveFirstLeavesNoCopy(q: seq<Token>, t: Token)
    requires NoDuplicates(q)
    ensures NoDuplicates(RemoveFirst(q, t))
    ensures forall u :: u in RemoveFirst(q, t) <==> u in q && u != t
  {
    if q == [] {
    } else {
      var head, tail := q[0], q[1..];
      assert head !in tail;
      RemoveFirstLeavesNoCopy(tail, t);
      assert q == [head] + tail;
      if head != t {
        ConsKeepsDistinct(head, RemoveFirst(tail, t));
      }
    }
  }

  /** The entries a poll skips: their cancel signal is set. */
  predicate Cancelled(c: Core, t: Token, signals: set<Signal>) {
    t in c.records && c.records[t].cancel.Some? && c.records[t].cancel.value in signals
  }

  /** Starting the server; `binds` says whether a server can be bound, if none runs yet. */
  function Started(c: Core, binds: bool): (next: Core) {
    if c.closed || !binds then c else c.(serving := true)
  }

  function Registered(c: Core, t: Token, cancel: Option<Signal>): (next: Core) {
    c.(records := c.records[t := Record(cancel, false, false, false, None)],
       jobs := c.jobs + {t},
       queue := c.queue + [t])
  }

  function Withdrawn(c: Core, t: Token): (next: Core)
    requires t in c.records
  {
    var r := c.records[t];
    c.(jobs := c.jobs - {t},
       queue := RemoveFirst(c.queue, t),
       late := if r.dispatched && !r.done then c.late + {t} else c.late)
  }

  /** A poll that drops `k` cancelled entries and then stops without a job. */
  function Skipped(c: Core, k: nat): (next: Core)
    requires k <= |c.queue|
  {
    c.(queue := c.queue[k..])
  }

  /** A poll that drops `k` cancelled entries and takes the next one. */
  function Taken(c: Core, k: nat): (next: Core)
    requires k < |c.queue| && c.queue[k] in c.records
  {
    var t := c.queue[k];
    c.(queue := c.queue[k + 1..], records := c.records[t := c.records[t].(dispatched := true)])
  }

  function Requeued(c: Core, t: Token): (next: Core)
    requires t in c.jobs ==> t in c.records
  {
    if t !in c.jobs then c
    else c.(records := c.records[t := c.records[t].(dispatched := false)], queue := [t] + c.queue)
  }

  /** Whether an answer posted for `t` reaches its request. */
  predicate Accepts(c: Core, t: Token) {
    t in c.jobs && t in c.records && c.records[t].dispatched && !c.records[t].done
  }

  function Resolved(c: Core, t: Token, p: Payload): (next: Core) {
    if Accepts(c, t) then c.(records := c.records[t := c.records[t].(result := Some(p), done := true)])
    else c
  }

  function LateTaken(c: Core, t: Token): (next: Core) {
    c.(late := c.late - {t})
  }

  function ClosedRecord(r: Record): Record {
    if r.done then r else r.(closed := true, done := true)
  }

  /** What `close` does to the jobs `which`, and leaves alone in the others. */
  function ClosedSome(records: map<Token, Record>, which: set<Token>): (closed: map<Token, Record>) {
    map t | t in records :: if t in which then ClosedRecord(records[t]) else records[t]
  }

  function Closed(c: Core): (next: Core) {
    Core(ClosedSome(c.records, c.jobs), c.jobs, {}, [], false, true)
  }

  /** How a request ends. `mayComplete` says whether the message warns that the wallet
      may still complete the request; the other wording is "nothing was sent". */
  datatype Ending =
    | SignerClosed(mayComplete: bool)
    | NoAnswer
    | CallCancelled
    | NoTab
    | WalletError(message: string)
    | Value(value: Option<string>)
    | OpenerError

  predicate SaysNothingSent(e: Ending) {
    e == SignerClosed(false) || e == CallCancelled || e == NoTab
  }

  predicate SaysMayComplete(e: Ending) {
    e == SignerClosed(true) || e == NoAnswer
  }

  /** What `request` makes of a result; no result reads as an empty object. */
  function AnswerEnding(result: Option<Payload>): (ending: Ending) {
    var p := if result.Some? then result.value else Payload("", None);
    if p.error != "" then WalletError(p.error) else Value(p.value)
  }

  /** The ending an atomic reading of the whole record would give. */
  function EndingOf(r: Record, finished: bool, cancelSet: bool): Ending {
    if r.closed then SignerClosed(r.dispatched)
    else if !finished then
      if r.dispatched then NoAnswer else if cancelSet then CallCancelled else NoTab
    else AnswerEnding(r.result)
  }

  /** What a caller may conclude from an ending. Without an answer, the message says
      whether a page had the job; a value or a wallet error is the recorded answer's. */
  predicate Truthful(e: Ending, r: Record, finished: bool, cancelSet: bool) {
    && (SaysNothingSent(e) <==> (r.closed || !finished) && !r.dispatched)
    && (SaysMayComplete(e) <==> (r.closed || !finished) && r.dispatched)
    && (e.SignerClosed? <==> r.closed)
    && (e.CallCancelled? ==> cancelSet) && (e.NoTab? ==> !cancelSet)
    && (e.WalletError? ==> r.result.Some? && r.result.value.error == e.message != "")
    && (e.Value? ==> if r.result.Some? then r.result.value == Payload("", e.value) else e.value == None)
    && !e.OpenerError?
  }

  /** Those conclusions leave exactly one ending, and it is the one an atomic reading of
      the record would give. */
  lemma TruthfulIsEnding(e: Ending, r: Record, finished: bool, cancelSet: bool)
    ensures Truthful(e, r, finished, cancelSet) <==> e == EndingOf(r, finished, cancelSet)
  {
  }
}
