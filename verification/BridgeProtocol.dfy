/** Every interleaving of callers, page polls, posted answers, cancellations and close.

    One event is one `with self._cond` block, or one unlocked read, of one thread.
    Time-outs, polls, replies and posts happen at any moment, and a post may name any
    token, delivered or not. */
module BridgeProtocol {
  import opened Outcomes
  import opened BridgeState

  /** A page-poll handler thread. */
  type Handler = nat

  /** Why `_wait` gave control back. */
  datatype Exit = TimedOut | SawDone | SawCancel | OpenerRaised

  /** Where the thread of one request stands. The reads after `Left` take no lock. */
  datatype Phase =
    | Waiting
    | Leaving(why: Exit)
    | Left(why: Exit, finished: bool)
    | SawClosed(why: Exit)
    | ReadOpen(why: Exit, finished: bool)
    | ReadUnsent(why: Exit)
    | Ended(why: Exit, ending: Ending)

  /** An accepted answer; `late` tells `_take_late` from `_resolve`. */
  datatype Answer = Answer(token: Token, payload: Payload, late: bool)

  /** `holds` are the handlers that took a job and have not finished their reply;
      `delivered` are the jobs a page received. */
  datatype System = System(
    core: Core,
    phase: map<Token, Phase>,
    holds: map<Handler, Token>,
    delivered: set<Token>,
    answers: seq<Answer>,
    signals: set<Signal>)

  datatype Event =
    | Start(binds: bool)
    | Register(token: Token, cancel: Option<Signal>)
    | WaitEnds(token: Token, why: Exit)
    | Withdraw(token: Token)
    | ReadClosed(token: Token)
    | ReadSent(token: Token)
    | ReadRest(token: Token)
    | ReadCancel(token: Token)
    | Poll(handler: Handler, skipped: nat, take: bool)
    | Delivered(handler: Handler)
    | ReplyFailed(handler: Handler)
    | PostLate(token: Token, payload: Payload)
    | PostResolve(token: Token, payload: Payload)
    | SetSignal(signal: Signal)
    | CloseBridge

  const INITIAL := System(EMPTY, map[], map[], {}, [], {})

  predicate At(s: System, t: Token) {
    t in s.phase && t in s.core.records
  }

  predicate SkipsOnlyCancelled(s: System, k: nat) {
    k <= |s.core.queue| && forall i :: 0 <= i < k ==> Cancelled(s.core, s.core.queue[i], s.signals)
  }

  predicate Enabled(s: System, e: Event) {
    match e
    case Start(_) => true
    case Register(t, _) => t !in s.core.records
    case WaitEnds(t, why) =>
      && At(s, t) && s.phase[t] == Waiting
      && (why == SawDone ==> s.core.records[t].done)
      && (why == SawCancel ==> Cancelled(s.core, t, s.signals) && !s.core.records[t].dispatched)
    case Withdraw(t) => At(s, t) && s.phase[t].Leaving?
    case ReadClosed(t) => At(s, t) && s.phase[t].Left?
    case ReadSent(t) => At(s, t) && s.phase[t].SawClosed?
    case ReadRest(t) => At(s, t) && s.phase[t].ReadOpen?
    case ReadCancel(t) => At(s, t) && s.phase[t].ReadUnsent?
    case Poll(h, k, take) =>
      && h !in s.holds
      && SkipsOnlyCancelled(s, k)
      && (k > 0 || take ==> s.core.serving)
      && (take ==> k < |s.core.queue| && s.core.queue[k] in s.core.jobs
                   && s.core.queue[k] in s.core.records
                   && !Cancelled(s.core, s.core.queue[k], s.signals))
    case Delivered(h) => h in s.holds
    case ReplyFailed(h) => h in s.holds && (s.holds[h] in s.core.jobs ==> s.holds[h] in s.core.records)
    case PostLate(_, _) => true
    case PostResolve(_, _) => true
    case SetSignal(_) => true
    case CloseBridge => true
  }

  function Without(m: map<Handler, Token>, h: Handler): (rest: map<Handler, Token>) {
    map x | x in m && x != h :: m[x]
  }

  function Next(s: System, e: Event): (next: System)
    requires Enabled(s, e)
  {
    var c := s.core;
    match e
    case Start(binds) => s.(core := Started(c, binds))
    case Register(t, cancel) => s.(core := Registered(c, t, cancel), phase := s.phase[t := Waiting])
    case WaitEnds(t, why) => s.(phase := s.phase[t := Leaving(why)])
    case Withdraw(t) =>
      var why := s.phase[t].why;
      var left := if why == OpenerRaised then Ended(why, OpenerError) else Left(why, c.records[t].done);
      s.(core := Withdrawn(c, t), phase := s.phase[t := left])
    case ReadClosed(t) =>
      var Left(why, finished) := s.phase[t];
      s.(phase := s.phase[t := if c.records[t].closed then SawClosed(why) else ReadOpen(why, finished)])
    case ReadSent(t) =>
      var why := s.phase[t].why;
      s.(phase := s.phase[t := Ended(why, SignerClosed(c.records[t].dispatched))])
    case ReadRest(t) =>
      var ReadOpen(why, finished) := s.phase[t];
      s.(phase := s.phase[t := if finished then Ended(why, AnswerEnding(c.records[t].result))
                               else if c.records[t].dispatched then Ended(why, NoAnswer)
                               else ReadUnsent(why)])
    case ReadCancel(t) =>
      var why := s.phase[t].why;
      s.(phase := s.phase[t := Ended(why, if Cancelled(c, t, s.signals) then CallCancelled else NoTab)])
    case Poll(h, k, take) =>
      if take then s.(core := Taken(c, k), holds := s.holds[h := c.queue[k]])
      else s.(core := Skipped(c, k))
    case Delivered(h) => s.(holds := Without(s.holds, h), delivered := s.delivered + {s.holds[h]})
    case ReplyFailed(h) => s.(core := Requeued(c, s.holds[h]), holds := Without(s.holds, h))
    case PostLate(t, p) =>
      s.(core := LateTaken(c, t),
         answers := if t in c.late then s.answers + [Answer(t, p, true)] else s.answers)
    case PostResolve(t, p) =>
      s.(core := Resolved(c, t, p),
         answers := if Accepts(c, t) then s.answers + [Answer(t, p, false)] else s.answers)
    case SetSignal(g) => s.(signals := s.signals + {g})
    case CloseBridge => s.(core := Closed(c))
  }

  /** A run: `states[0]` is the fresh bridge and every event leads to the next state. */
  ghost predicate Run(states: seq<System>, events: seq<Event>) {
    && |states| == |events| + 1
    && states[0] == INITIAL
    && forall i :: 0 <= i < |events| ==> Enabled(states[i], events[i]) && states[i + 1] == Next(states[i], events[i])
  }

  // ---------------------------------------------------------------- the invariant

  /** The accepted answers that named one token. */
  function AnswersTo(log: seq<Answer>, t: Token): (answers: seq<Answer>) {
    if log == [] then []
    else
      var last := log[|log| - 1];
      AnswersTo(log[..|log| - 1], t) + if last.token == t then [last] else []
  }

  ghost predicate Held(s: System, t: Token) {
    exists h :: h in s.holds && s.holds[h] == t
  }

  /** All that the system says about one token. */
  datatype Spot = Spot(
    token: Token,
    record: Record,
    phase: Phase,
    open: bool,
    late: bool,
    queued: bool,
    held: bool,
    sent: bool,
    answers: seq<Answer>,
    cancelled: bool,
    closing: bool)

  ghost function SpotOf(s: System, t: Token): (spot: Spot)
    requires At(s, t)
  {
    Spot(t, s.core.records[t], s.phase[t], t in s.core.jobs, t in s.core.late, t in s.core.queue,
         Held(s, t), t in s.delivered, AnswersTo(s.answers, t), Cancelled(s.core, t, s.signals), s.core.closed)
  }

  /** What the unlocked reads have seen so far is what the record says now. */
  predicate PhaseFits(p: Phase, r: Record) {
    match p
    case Waiting => true
    case Leaving(_) => true
    case Left(why, finished) => finished == r.done && why != OpenerRaised
    case SawClosed(why) => r.closed && why != OpenerRaised
    case ReadOpen(why, finished) => finished == r.done && !r.closed && why != OpenerRaised
    case ReadUnsent(why) => !r.done && !r.closed && !r.dispatched && why != OpenerRaised
    case Ended(why, ending) =>
      if why == OpenerRaised then ending == OpenerError
      else ending == EndingOf(r, r.done, false) || ending == EndingOf(r, r.done, true)
  }

  /** The accepted answers: none yet, the record's own result, or one posted too late. */
  predicate AnswersFit(p: Spot) {
    match p.record.result
    case Some(payload) => p.answers == [Answer(p.token, payload, false)]
    case None =>
      || p.answers == []
      || (|p.answers| == 1 && p.answers[0].late && !p.open && !p.late && p.record.dispatched && !p.record.done)
  }

  predicate SpotSound(p: Spot) {
    var r := p.record;
    // A finished job is exactly one of closed and answered.
    && (r.done <==> r.closed || r.result.Some?) && !(r.closed && r.result.Some?)
    // The request is registered until its thread has run the `finally` block.
    && (p.open <==> p.phase.Waiting? || p.phase.Leaving?)
    && PhaseFits(p.phase, r)
    // A queued job is registered and no page has it.
    && (p.queued ==> p.open && !r.dispatched)
    // A job that a handler holds or a page received is marked dispatched.
    && (p.held ==> r.dispatched && !p.sent)
    && (p.sent ==> r.dispatched)
    // A job that is marked dispatched while its request waits is with a handler or a page.
    && (p.open && r.dispatched ==> p.held || p.sent)
    // Until close, a job is late exactly when it was sent, never finished and never answered.
    && (p.late ==> !p.open && r.dispatched && !r.done)
    && (!p.open && r.dispatched && !r.done && p.answers == [] && !p.closing ==> p.late)
    && (r.closed ==> p.closing)
    && AnswersFit(p)
    // After close nothing is late and an open job was never sent, unless it finished.
    && (p.closing ==> !p.late && (p.open ==> r.done || !r.dispatched))
    // A registered job that nothing sent and nothing finished is queued or cancelled.
    && (p.open && !r.dispatched && !r.done ==> p.queued || p.cancelled)
    // A request whose wait saw its cancel signal while unsent stays unsent.
    && (!p.phase.Waiting? && p.phase.why == SawCancel ==>
          p.cancelled && !r.dispatched && (p.phase.Ended? ==> p.phase.ending != NoTab))
  }

  /** Every token in any list has a record. */
  ghost predicate Known(s: System) {
    && s.phase.Keys == s.core.records.Keys
    && s.core.jobs <= s.core.records.Keys
    && s.core.late <= s.core.records.Keys
    && (forall t :: t in s.core.queue ==> t in s.core.records)
    && (forall h :: h in s.holds ==> s.holds[h] in s.core.records)
    && s.delivered <= s.core.records.Keys
    && (forall i :: 0 <= i < |s.answers| ==> s.answers[i].token in s.core.records)
  }

  /** No token is queued twice, no two handlers hold one job, a closed bridge serves nobody. */
  ghost predicate Unique(s: System) {
    && NoDuplicates(s.core.queue)
    && (forall h, g :: h in s.holds && g in s.holds && s.holds[h] == s.holds[g] ==> h == g)
    && (s.core.closed ==> !s.core.serving)
  }

  ghost predicate Inv(s: System) {
    && Known(s) && Unique(s)
    && forall t :: t in s.core.records ==> SpotSound(SpotOf(s, t))
  }

  /** What no later step takes back. A record is frozen once it has left `_jobs`. */
  predicate SpotGrows(p: Spot, q: Spot) {
    && (!p.open ==> !q.open && q.record == p.record)
    && q.record.cancel == p.record.cancel
    && (p.phase.Ended? ==> q.phase == p.phase)
    && (p.sent ==> q.sent)
    && (p.cancelled ==> q.cancelled)
    && (p.record.done ==> q.record.done)
    && (p.closing ==> q.closing && (!p.record.dispatched ==> !q.record.dispatched))
    && p.answers <= q.answers
  }

  lemma {:induction false} NoAnswersTo(log: seq<Answer>, t: Token)
    requires forall i :: 0 <= i < |log| ==> log[i].token != t
    ensures AnswersTo(log, t) == []
  {
    if log == [] {
    } else {
      NoAnswersTo(log[..|log| - 1], t);
    }
  }

  lemma AnswersAppend(log: seq<Answer>, a: Answer, t: Token)
    ensures AnswersTo(log + [a], t) == if a.token == t then AnswersTo(log, t) + [a] else AnswersTo(log, t)
  {
    assert (log + [a])[..|log|] == log;
  }

  lemma StepKeepsInv(s: System, e: Event)
    requires Inv(s) && Enabled(s, e)
    ensures Inv(Next(s, e))
  {
    StepKeepsKnown(s, e);
    StepKeepsUnique(s, e);
    forall t | t in Next(s, e).core.records {
      StepKeepsSpot(s, e, t);
    }
  }

  lemma StepKeepsKnown(s: System, e: Event)
    requires Known(s) && Unique(s) && Enabled(s, e)
    ensures Known(Next(s, e))
  {
    if e.Withdraw? {
      RemoveFirstLeavesNoCopy(s.core.queue, e.token);
    }
  }

  lemma StepKeepsUnique(s: System, e: Event)
    requires Inv(s) && Enabled(s, e)
    ensures Unique(Next(s, e))
  {
    match e
    case Withdraw(t) => RemoveFirstLeavesNoCopy(s.core.queue, t);
    case Poll(h, k, take) =>
      if take {
        QueuedIsUnheld(s, s.core.queue[k]);
      }
      PollKeepsUnique(s, h, k, take);
    case ReplyFailed(h) =>
      HolderIsUnqueued(s, h);
      RequeueKeepsUnique(s, h);
    case _ =>
  }

  lemma RequeueKeepsUnique(s: System, h: Handler)
    requires Unique(s) && Enabled(s, ReplyFailed(h)) && s.holds[h] !in s.core.queue
    ensures Unique(Next(s, ReplyFailed(h)))
  {
    ConsKeepsDistinct(s.holds[h], s.core.queue);
  }

  lemma PollKeepsUnique(s: System, h: Handler, k: nat, take: bool)
    requires Unique(s) && Enabled(s, Poll(h, k, take))
    requires take ==> !Held(s, s.core.queue[k])
    ensures Unique(Next(s, Poll(h, k, take)))
  {
    DropKeepsMembers(s.core.queue, k);
    if take {
      DropKeepsMembers(s.core.queue, k + 1);
    }
  }

  lemma HolderIsUnqueued(s: System, h: Handler)
    requires Inv(s) && h in s.holds
    ensures s.holds[h] !in s.core.queue
  {
    assert Held(s, s.holds[h]);
    assert SpotSound(SpotOf(s, s.holds[h]));
  }

  lemma QueuedIsUnheld(s: System, t: Token)
    requires Inv(s) && t in s.core.queue
    ensures !Held(s, t)
    ensures t in s.core.jobs && !s.core.records[t].dispatched
  {
    assert SpotSound(SpotOf(s, t));
  }

  lemma DropKeepsMembers(q: seq<Token>, k: nat)
    requires NoDuplicates(q) && k <= |q|
    ensures NoDuplicates(q[k..])
    ensures forall u :: u in q[k..] <==> u in q && u !in q[..k]
  {
    assert q == q[..k] + q[k..];
  }

  // ---------------------------------------------------------------- one token's view

  /** What one event does to what the system says about one token. */
  datatype Move =
    | Still
    | Signalled
    | EndWait(why: Exit)
    | Leave
    | SeeClosed
    | SeeSent
    | SeeRest
    | SeeCancel
    | Skip
    | Take
    | Deliver
    | FailReply
    | AnswerLate(payload: Payload)
    | AnswerNow(payload: Payload)
    | Shut

  predicate Allowed(p: Spot, m: Move) {
    match m
    case EndWait(why) =>
      && p.phase == Waiting
      && (why == SawDone ==> p.record.done)
      && (why == SawCancel ==> p.cancelled && !p.record.dispatched)
    case Leave => p.phase.Leaving?
    case SeeClosed => p.phase.Left?
    case SeeSent => p.phase.SawClosed?
    case SeeRest => p.phase.ReadOpen?
    case SeeCancel => p.phase.ReadUnsent?
    case Skip => p.cancelled
    case Take => p.queued && !p.cancelled && !p.closing
    case Deliver => p.held
    case FailReply => p.held
    case _ => true
  }

  function Moved(p: Spot, m: Move): (moved: Spot)
    requires Allowed(p, m)
  {
    var r := p.record;
    match m
    case Still => p
    case Signalled => p.(cancelled := true)
    case EndWait(why) => p.(phase := Leaving(why))
    case Leave =>
      var why := p.phase.why;
      p.(phase := if why == OpenerRaised then Ended(why, OpenerError) else Left(why, r.done),
         open := false, queued := false, late := p.late || (r.dispatched && !r.done))
    case SeeClosed =>
      p.(phase := if r.closed then SawClosed(p.phase.why) else ReadOpen(p.phase.why, p.phase.finished))
    case SeeSent => p.(phase := Ended(p.phase.why, SignerClosed(r.dispatched)))
    case SeeRest =>
      p.(phase := if p.phase.finished then Ended(p.phase.why, AnswerEnding(r.result))
                  else if r.dispatched then Ended(p.phase.why, NoAnswer)
                  else ReadUnsent(p.phase.why))
    case SeeCancel => p.(phase := Ended(p.phase.why, if p.cancelled then CallCancelled else NoTab))
    case Skip => p.(queued := false)
    case Take => p.(queued := false, held := true, record := r.(dispatched := true))
    case Deliver => p.(held := false, sent := true)
    case FailReply =>
      if p.open then p.(held := false, queued := true, record := r.(dispatched := false))
      else p.(held := false)
    case AnswerLate(payload) =>
      if p.late then p.(late := false, answers := p.answers + [Answer(p.token, payload, true)]) else p
    case AnswerNow(payload) =>
      if p.open && r.dispatched && !r.done
      then p.(record := r.(result := Some(payload), done := true),
              answers := p.answers + [Answer(p.token, payload, false)])
      else p
    case Shut =>
      p.(closing := true, late := false, queued := false, record := if p.open then ClosedRecord(r) else r)
  }

  /** The heart of the protocol: every move of one token keeps its view sound, and takes
      nothing back. */
  lemma MoveKeepsSpot(p: Spot, m: Move)
    requires SpotSound(p) && Allowed(p, m)
    ensures SpotSound(Moved(p, m)) && SpotGrows(p, Moved(p, m))
  {
    if m.EndWait? || m.Leave? || m.SeeClosed? || m.SeeSent? || m.SeeRest? || m.SeeCancel? {
      ThreadMoveKeepsSpot(p, m);
    } else if m.Skip? || m.Take? || m.Deliver? || m.FailReply? {
      PageMoveKeepsSpot(p, m);
    } else {
      RecordMoveKeepsSpot(p, m);
    }
  }

  /** The moves of the waiting thread. */
  lemma ThreadMoveKeepsSpot(p: Spot, m: Move)
    requires SpotSound(p) && Allowed(p, m)
    requires m.EndWait? || m.Leave? || m.SeeClosed? || m.SeeSent? || m.SeeRest? || m.SeeCancel?
    ensures SpotSound(Moved(p, m)) && SpotGrows(p, Moved(p, m))
  {
    assert Moved(p, m).record == p.record;
  }

  /** The moves of a page that takes jobs. */
  lemma PageMoveKeepsSpot(p: Spot, m: Move)
    requires SpotSound(p) && Allowed(p, m)
    requires m.Skip? || m.Take? || m.Deliver? || m.FailReply?
    ensures SpotSound(Moved(p, m)) && SpotGrows(p, Moved(p, m))
  {
  }

  /** The moves that answer, cancel or close. */
  lemma RecordMoveKeepsSpot(p: Spot, m: Move)
    requires SpotSound(p) && Allowed(p, m)
    requires m.Still? || m.Signalled? || m.AnswerLate? || m.AnswerNow? || m.Shut?
    ensures SpotSound(Moved(p, m)) && SpotGrows(p, Moved(p, m))
  {
  }

  /** Which move of `u` an event is. */
  ghost function MoveOf(s: System, e: Event, u: Token): (move: Move)
    requires Enabled(s, e)
  {
    match e
    case Start(_) => Still
    case Register(_, _) => Still
    case WaitEnds(t, why) => if t == u then EndWait(why) else Still
    case Withdraw(t) => if t == u then Leave else Still
    case ReadClosed(t) => if t == u then SeeClosed else Still
    case ReadSent(t) => if t == u then SeeSent else Still
    case ReadRest(t) => if t == u then SeeRest else Still
    case ReadCancel(t) => if t == u then SeeCancel else Still
    case Poll(_, k, take) =>
      if u in s.core.queue[..k] then Skip
      else if take && u == s.core.queue[k] then Take
      else Still
    case Delivered(h) => if s.holds[h] == u then Deliver else Still
    case ReplyFailed(h) => if s.holds[h] == u then FailReply else Still
    case PostLate(t, payload) => if t == u then AnswerLate(payload) else Still
    case PostResolve(t, payload) => if t == u then AnswerNow(payload) else Still
    case SetSignal(g) =>
      if u in s.core.records && s.core.records[u].cancel == Some(g) then Signalled else Still
    case CloseBridge => Shut
  }

  /** The system's step is that move of the token's view. */
  ghost predicate Follows(s: System, e: Event, u: Token)
    requires Enabled(s, e) && At(s, u)
  {
    && At(Next(s, e), u)
    && Allowed(SpotOf(s, u), MoveOf(s, e, u))
    && SpotOf(Next(s, e), u) == Moved(SpotOf(s, u), MoveOf(s, e, u))
  }

  lemma StepFollows(s: System, e: Event, u: Token)
    requires Unique(s) && Enabled(s, e) && At(s, u)
    ensures Follows(s, e, u)
  {
    match e
    case Withdraw(t) => WithdrawFollows(s, t, u);
    case Poll(h, k, take) => if take { TakeFollows(s, h, k, u); } else { SkipFollows(s, h, k, u); }
    case Delivered(h) => DeliveredFollows(s, h, u);
    case ReplyFailed(h) => ReplyFailedFollows(s, h, u);
    case PostLate(t, payload) => PostLateFollows(s, t, payload, u);
    case PostResolve(t, payload) => PostResolveFollows(s, t, payload, u);
    case CloseBridge => CloseFollows(s, u);
    case Register(t, cancel) => RegisterFollows(s, t, cancel, u);
    case SetSignal(g) => SetSignalFollows(s, g, u);
    case Start(_) =>
    case WaitEnds(t, why) => WaitEndsFollows(s, t, why, u);
    case ReadClosed(t) => ReadClosedFollows(s, t, u);
    case ReadSent(t) => ReadSentFollows(s, t, u);
    case ReadRest(t) => ReadRestFollows(s, t, u);
    case ReadCancel(t) => ReadCancelFollows(s, t, u);
  }

  /** A step that only moves the phase of one thread. */
  lemma PhaseStep(s: System, t: Token, phase: Phase, u: Token)
    requires At(s, t) && At(s, u)
    ensures
      var s' := s.(phase := s.phase[t := phase]);
      At(s', u) && SpotOf(s', u) == if u == t then SpotOf(s, u).(phase := phase) else SpotOf(s, u)
  {
    assert Held(s.(phase := s.phase[t := phase]), u) <==> Held(s, u);
  }

  lemma WaitEndsFollows(s: System, t: Token, why: Exit, u: Token)
    requires Enabled(s, WaitEnds(t, why)) && At(s, u)
    ensures Follows(s, WaitEnds(t, why), u)
  {
    PhaseStep(s, t, Next(s, WaitEnds(t, why)).phase[t], u);
  }

  lemma ReadClosedFollows(s: System, t: Token, u: Token)
    requires Enabled(s, ReadClosed(t)) && At(s, u)
    ensures Follows(s, ReadClosed(t), u)
  {
    PhaseStep(s, t, Next(s, ReadClosed(t)).phase[t], u);
  }

  lemma ReadSentFollows(s: System, t: Token, u: Token)
    requires Enabled(s, ReadSent(t)) && At(s, u)
    ensures Follows(s, ReadSent(t), u)
  {
    PhaseStep(s, t, Next(s, ReadSent(t)).phase[t], u);
  }

  lemma ReadRestFollows(s: System, t: Token, u: Token)
    requires Enabled(s, ReadRest(t)) && At(s, u)
    ensures Follows(s, ReadRest(t), u)
  {
    PhaseStep(s, t, Next(s, ReadRest(t)).phase[t], u);
  }

  lemma ReadCancelFollows(s: System, t: Token, u: Token)
    requires Enabled(s, ReadCancel(t)) && At(s, u)
    ensures Follows(s, ReadCancel(t), u)
  {
    PhaseStep(s, t, Next(s, ReadCancel(t)).phase[t], u);
  }

  lemma RegisterFollows(s: System, t: Token, cancel: Option<Signal>, u: Token)
    requires Enabled(s, Register(t, cancel)) && At(s, u)
    ensures Follows(s, Register(t, cancel), u)
  {
    assert Held(Next(s, Register(t, cancel)), u) <==> Held(s, u);
  }

  lemma SetSignalFollows(s: System, g: Signal, u: Token)
    requires Enabled(s, SetSignal(g)) && At(s, u)
    ensures Follows(s, SetSignal(g), u)
  {
    assert Held(Next(s, SetSignal(g)), u) <==> Held(s, u);
  }

  lemma WithdrawFollows(s: System, t: Token, u: Token)
    requires Unique(s) && Enabled(s, Withdraw(t)) && At(s, u)
    ensures Follows(s, Withdraw(t), u)
  {
    RemoveFirstLeavesNoCopy(s.core.queue, t);
  }

  lemma SkipFollows(s: System, h: Handler, k: nat, u: Token)
    requires Unique(s) && Enabled(s, Poll(h, k, false)) && At(s, u)
    ensures Follows(s, Poll(h, k, false), u)
  {
    DropKeepsMembers(s.core.queue, k);
  }

  lemma TakeFollows(s: System, h: Handler, k: nat, u: Token)
    requires Unique(s) && Enabled(s, Poll(h, k, true)) && At(s, u)
    ensures Follows(s, Poll(h, k, true), u)
  {
    DropKeepsMembers(s.core.queue, k + 1);
    assert s.core.queue[..k + 1] == s.core.queue[..k] + [s.core.queue[k]];
    HeldAfterTake(s, Next(s, Poll(h, k, true)), h, s.core.queue[k], u);
  }

  lemma HeldAfterTake(s: System, s': System, h: Handler, t: Token, u: Token)
    requires h !in s.holds && s'.holds == s.holds[h := t]
    ensures Held(s', u) <==> Held(s, u) || u == t
  {
    assert s'.holds[h] == t;
    if Held(s, u) {
      var g :| g in s.holds && s.holds[g] == u;
      assert s'.holds[g] == u;
    }
  }

  lemma HeldAfterReply(s: System, s': System, h: Handler, u: Token)
    requires forall h, g :: h in s.holds && g in s.holds && s.holds[h] == s.holds[g] ==> h == g
    requires h in s.holds && s'.holds == Without(s.holds, h)
    ensures Held(s', u) <==> Held(s, u) && u != s.holds[h]
  {
    if Held(s, u) && u != s.holds[h] {
      var g :| g in s.holds && s.holds[g] == u;
      assert g in s'.holds && s'.holds[g] == u;
    }
  }

  lemma DeliveredFollows(s: System, h: Handler, u: Token)
    requires Unique(s) && Enabled(s, Delivered(h)) && At(s, u)
    ensures Follows(s, Delivered(h), u)
  {
    assert Held(s, s.holds[h]);
    HeldAfterReply(s, Next(s, Delivered(h)), h, u);
  }

  lemma ReplyFailedFollows(s: System, h: Handler, u: Token)
    requires Unique(s) && Enabled(s, ReplyFailed(h)) && At(s, u)
    ensures Follows(s, ReplyFailed(h), u)
  {
    assert Held(s, s.holds[h]);
    HeldAfterReply(s, Next(s, ReplyFailed(h)), h, u);
  }

  lemma PostLateFollows(s: System, t: Token, payload: Payload, u: Token)
    requires Enabled(s, PostLate(t, payload)) && At(s, u)
    ensures Follows(s, PostLate(t, payload), u)
  {
    var s' := Next(s, PostLate(t, payload));
    AnswersAppend(s.answers, Answer(t, payload, true), u);
    assert Held(s', u) <==> Held(s, u);
    assert AnswersTo(s'.answers, u) == Moved(SpotOf(s, u), MoveOf(s, PostLate(t, payload), u)).answers;
  }

  lemma PostResolveFollows(s: System, t: Token, payload: Payload, u: Token)
    requires Enabled(s, PostResolve(t, payload)) && At(s, u)
    ensures Follows(s, PostResolve(t, payload), u)
  {
    if Accepts(s.core, t) {
      AcceptedFollows(s, t, payload, u);
    } else {
      assert Next(s, PostResolve(t, payload)) == s;
    }
  }

  lemma AcceptedFollows(s: System, t: Token, payload: Payload, u: Token)
    requires At(s, u) && Accepts(s.core, t)
    ensures Follows(s, PostResolve(t, payload), u)
  {
    var s' := Next(s, PostResolve(t, payload));
    AnswersAppend(s.answers, Answer(t, payload, false), u);
    assert Held(s', u) <==> Held(s, u);
    assert u != t ==> s'.core.records[u] == s.core.records[u];
  }

  lemma CloseFollows(s: System, u: Token)
    requires Enabled(s, CloseBridge) && At(s, u)
    ensures Follows(s, CloseBridge, u)
  {
  }

  lemma StepKeepsSpot(s: System, e: Event, u: Token)
    requires Inv(s) && Enabled(s, e) && At(Next(s, e), u)
    ensures SpotSound(SpotOf(Next(s, e), u))
    ensures At(s, u) ==> SpotGrows(SpotOf(s, u), SpotOf(Next(s, e), u))
  {
    if At(s, u) {
      StepFollows(s, e, u);
      MoveKeepsSpot(SpotOf(s, u), MoveOf(s, e, u));
    } else {
      NewSpotIsSound(s, e, u);
    }
  }

  lemma NewSpotIsSound(s: System, e: Event, u: Token)
    requires Known(s) && Enabled(s, e) && At(Next(s, e), u) && !At(s, u)
    ensures e.Register? && e.token == u
    ensures SpotSound(SpotOf(Next(s, e), u))
  {
    NoAnswersTo(s.answers, u);
  }

  // ---------------------------------------------------------------- what runs keep

  lemma {:induction false} RunKeepsInv(states: seq<System>, events: seq<Event>, i: nat)
    requires Run(states, events) && i < |states|
    ensures Inv(states[i])
  {
    if i == 0 {
    } else {
      RunKeepsInv(states, events, i - 1);
      StepKeepsInv(states[i - 1], events[i - 1]);
    }
  }

  lemma RecordsStay(s: System, e: Event)
    requires Enabled(s, e) && s.phase.Keys == s.core.records.Keys
    ensures s.core.records.Keys <= Next(s, e).core.records.Keys
    ensures Next(s, e).phase.Keys == Next(s, e).core.records.Keys
  {
  }

  lemma {:induction false} RunGrowsSpot(states: seq<System>, events: seq<Event>, i: nat, j: nat, t: Token)
    requires Run(states, events) && i <= j < |states| && At(states[i], t)
    ensures At(states[j], t)
    ensures SpotGrows(SpotOf(states[i], t), SpotOf(states[j], t))
  {
    if i == j {
    } else {
      RunGrowsSpot(states, events, i, j - 1, t);
      RunKeepsInv(states, events, j - 1);
      RecordsStay(states[j - 1], events[j - 1]);
      StepKeepsSpot(states[j - 1], events[j - 1], t);
    }
  }

  /** The ending of a request, once its thread has read everything. */
  predicate EndsWith(s: System, t: Token, ending: Ending) {
    At(s, t) && s.phase[t].Ended? && s.phase[t].ending == ending
  }

  /** Two looks at one token in one run: both are sound and one has grown from the other. */
  lemma SpotPair(states: seq<System>, events: seq<Event>, i: nat, j: nat, t: Token)
    requires Run(states, events) && i < |states| && j < |states| && At(states[i], t)
    ensures SpotSound(SpotOf(states[i], t))
    ensures !At(states[j], t) ==> t !in states[j].delivered && AnswersTo(states[j].answers, t) == []
    ensures At(states[j], t) ==>
              var p, q := SpotOf(states[i], t), SpotOf(states[j], t);
              SpotSound(q) && (SpotGrows(p, q) || SpotGrows(q, p))
  {
    RunKeepsInv(states, events, i);
    RunKeepsInv(states, events, j);
    if !At(states[j], t) {
      NoAnswersTo(states[j].answers, t);
    } else if i <= j {
      RunGrowsSpot(states, events, i, j, t);
    } else {
      RunGrowsSpot(states, events, j, i, t);
    }
  }

  /** "Nothing was sent to the wallet" is true: no page received the job before the
      request ended, and none ever does. */
  lemma NothingSentIsTrue(states: seq<System>, events: seq<Event>, i: nat, j: nat, t: Token, ending: Ending)
    requires Run(states, events) && i < |states| && j < |states|
    requires EndsWith(states[i], t, ending) && SaysNothingSent(ending)
    ensures t !in states[j].delivered
  {
    SpotPair(states, events, i, j, t);
  }

  /** The payload `_resolve` accepted for a token. */
  function ResolvedBy(s: System, t: Token): (payload: Option<Payload>) {
    var log := AnswersTo(s.answers, t);
    if log != [] && !log[0].late then Some(log[0].payload) else None
  }

  /** A job that reached a page, even after its request gave up, is never reported as
      unsent: the request ended with its answer or with "may still complete". */
  lemma DeliveredIsNeverDenied(states: seq<System>, events: seq<Event>, i: nat, j: nat, t: Token, ending: Ending)
    requires Run(states, events) && i < |states| && j < |states|
    requires EndsWith(states[i], t, ending) && ending != OpenerError
    requires t in states[j].delivered
    ensures match ResolvedBy(states[i], t)
            case Some(p) => ending == AnswerEnding(Some(p))
            case None => SaysMayComplete(ending)
  {
    SpotPair(states, events, i, j, t);
  }

  /** No job accepts two answers over its whole life, whatever became of its request. */
  lemma AtMostOneAnswer(states: seq<System>, events: seq<Event>, i: nat, t: Token)
    requires Run(states, events) && i < |states|
    ensures |AnswersTo(states[i].answers, t)| <= 1
  {
    RunKeepsInv(states, events, i);
    if At(states[i], t) {
      assert SpotSound(SpotOf(states[i], t));
    } else {
      NoAnswersTo(states[i].answers, t);
    }
  }

  /** An answer `_resolve` accepted is exactly what its own request gives back; a late one
      belongs to a request that timed out; a request gives back nothing else. */
  lemma AnswerReachesItsRequest(states: seq<System>, events: seq<Event>, i: nat, j: nat, t: Token, ending: Ending)
    requires Run(states, events) && i < |states| && j < |states|
    requires EndsWith(states[i], t, ending) && ending != OpenerError
    ensures ResolvedBy(states[j], t).Some? ==> ending == AnswerEnding(ResolvedBy(states[j], t))
    ensures AnswersTo(states[j].answers, t) != [] && ResolvedBy(states[j], t).None? ==> ending == NoAnswer
    ensures ending.Value? || ending.WalletError? ==> ResolvedBy(states[i], t).Some?
  {
    SpotPair(states, events, i, j, t);
  }

  /** A finished job is exactly one of closed and answered, and its result is the answer
      `_resolve` accepted, if any. */
  lemma FinishedOneWay(states: seq<System>, events: seq<Event>, i: nat, t: Token)
    requires Run(states, events) && i < |states| && At(states[i], t)
    ensures
      var r := states[i].core.records[t];
      && (r.done <==> r.closed || r.result.Some?) && !(r.closed && r.result.Some?)
      && r.result == ResolvedBy(states[i], t)
  {
    SpotPair(states, events, i, i, t);
  }

  lemma TakenIsFree(s: System, h: Handler, k: nat)
    requires Inv(s) && Enabled(s, Poll(h, k, true))
    ensures
      var t := s.core.queue[k];
      && t in s.core.jobs && !s.core.records[t].dispatched
      && !Held(s, t) && t !in s.delivered
      && !Cancelled(s.core, t, s.signals) && !s.core.closed
  {
    QueuedIsUnheld(s, s.core.queue[k]);
    assert SpotSound(SpotOf(s, s.core.queue[k]));
  }

  /** A job goes to a page only while it is registered, unsent, uncancelled and the
      bridge is open, and no other handler holds it. */
  lemma DispatchIsAllowed(states: seq<System>, events: seq<Event>, i: nat, m: nat)
    requires Run(states, events) && m <= i < |events|
    requires events[i].Poll? && events[i].take
    ensures
      var s := states[i];
      var t := s.core.queue[events[i].skipped];
      && t in s.core.jobs && !s.core.records[t].dispatched
      && !Held(s, t) && t !in s.delivered
      && !Cancelled(s.core, t, s.signals)
      && events[m] != CloseBridge
  {
    RunKeepsInv(states, events, i);
    TakenIsFree(states[i], events[i].handler, events[i].skipped);
    if m < i {
      OpenMeansNotClosed(states, events, m, i);
    }
  }

  lemma OpenMeansNotClosed(states: seq<System>, events: seq<Event>, m: nat, i: nat)
    requires Run(states, events) && m < i < |states| && !states[i].core.closed
    ensures events[m] != CloseBridge
  {
    if events[m] == CloseBridge {
      StaysClosed(states, events, m + 1, i);
    }
  }

  lemma {:induction false} StaysClosed(states: seq<System>, events: seq<Event>, i: nat, j: nat)
    requires Run(states, events) && i <= j < |states| && states[i].core.closed
    ensures states[j].core.closed
  {
    if i == j {
    } else {
      StaysClosed(states, events, i, j - 1);
    }
  }

  /** A page receives a job at most once, whatever replies fail and are queued again. */
  lemma DeliveredAtMostOnce(states: seq<System>, events: seq<Event>, i: nat, j: nat)
    requires Run(states, events) && i < j < |events|
    requires events[i].Delivered? && events[j].Delivered?
    ensures states[i].holds[events[i].handler] != states[j].holds[events[j].handler]
  {
    var t := states[j].holds[events[j].handler];
    RunKeepsInv(states, events, i + 1);
    RunKeepsInv(states, events, j);
    assert Held(states[j], t) && SpotSound(SpotOf(states[j], t));
    if t == states[i].holds[events[i].handler] {
      RunGrowsSpot(states, events, i + 1, j, t);
    }
  }

  /** `close` finishes every registered job, and nothing is served or late ever after. */
  lemma CloseFinishesEverything(states: seq<System>, events: seq<Event>, i: nat, j: nat, t: Token)
    requires Run(states, events) && i < |events| && i < j < |states|
    requires events[i] == CloseBridge
    ensures !states[j].core.serving && t !in states[j].core.late
    ensures t in states[i].core.jobs ==> t in states[j].core.records && states[j].core.records[t].done
    ensures t !in states[i].core.records ==> t !in states[j].delivered
  {
    RunKeepsInv(states, events, i);
    RunKeepsInv(states, events, j);
    StaysClosed(states, events, i + 1, j);
    if t in states[i].core.jobs {
      RunKeepsInv(states, events, i + 1);
      RunGrowsSpot(states, events, i + 1, j, t);
    } else if t !in states[i].core.records {
      LateComersAreNeverSent(states, events, i + 1, j, t);
    }
    if t in states[j].core.records {
      assert SpotSound(SpotOf(states[j], t));
    }
  }

  lemma {:induction false} LateComersAreNeverSent(states: seq<System>, events: seq<Event>, i: nat, j: nat, t: Token)
    requires Run(states, events) && i <= j < |states|
    requires states[i].core.closed && t !in states[i].core.records
    ensures UnsentAt(states[j], t)
  {
    if i == j {
    } else {
      LateComersAreNeverSent(states, events, i, j - 1, t);
      StaysClosed(states, events, i, j - 1);
      RunKeepsInv(states, events, j - 1);
      UnsentStaysUnsent(states[j - 1], events[j - 1], t);
    }
  }

  predicate UnsentAt(s: System, t: Token) {
    t in s.core.records ==> !s.core.records[t].dispatched
  }

  lemma UnsentStaysUnsent(s: System, e: Event, t: Token)
    requires Inv(s) && Enabled(s, e) && s.core.closed && UnsentAt(s, t)
    ensures UnsentAt(Next(s, e), t)
  {
    if At(s, t) {
      RecordsStay(s, e);
      StepKeepsSpot(s, e, t);
    } else {
      NewRecordIsUnsent(s, e, t);
    }
  }

  lemma NewRecordIsUnsent(s: System, e: Event, t: Token)
    requires Enabled(s, e) && t !in s.core.records
    ensures UnsentAt(Next(s, e), t)
  {
  }

  /** A request whose wait saw its cancel signal while unsent ends unsent, and never
      claims to have timed out or to be possibly under way. */
  lemma CancelledWaitSaysNothingSent(states: seq<System>, events: seq<Event>, i: nat, j: nat, t: Token, ending: Ending)
    requires Run(states, events) && i < |states| && j < |states|
    requires EndsWith(states[i], t, ending) && states[i].phase[t].why == SawCancel
    ensures ending == CallCancelled || ending == SignerClosed(false) || ending.Value? || ending.WalletError?
    ensures t !in states[j].delivered
  {
    SpotPair(states, events, i, j, t);
  }

  /** No registered job is lost: until something sends or finishes it, it is queued or
      its cancel signal is set. The lookup of a queued token in `_jobs` never fails. */
  lemma UnsentJobIsQueued(states: seq<System>, events: seq<Event>, i: nat, t: Token)
    requires Run(states, events) && i < |states|
    ensures NoDuplicates(states[i].core.queue)
    ensures t in states[i].core.queue ==> t in states[i].core.jobs
    ensures t in states[i].core.jobs ==> t in states[i].core.records
    ensures t in states[i].core.jobs && !states[i].core.records[t].dispatched && !states[i].core.records[t].done ==>
              t in states[i].core.queue || Cancelled(states[i].core, t, states[i].signals)
  {
    RunKeepsInv(states, events, i);
    if t in states[i].core.records {
      assert SpotSound(SpotOf(states[i], t));
    }
  }
}
