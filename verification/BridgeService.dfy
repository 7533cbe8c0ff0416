/** What the loopback bridge does for its callers, over any run: which answers count, which
    jobs are put back, in which order jobs go out, and what a cancel event stops. */
module BridgeService {
  import opened Outcomes
  import opened BridgeState
  import opened BridgeProtocol

  // ---------------------------------------------------------------- answers

  /** Until `close`, a job is late exactly when it left the table sent and unfinished and no
      answer to it has counted yet. */
  lemma LateExactly(states: seq<System>, events: seq<Event>, i: nat, t: Token)
    requires Run(states, events) && i < |states| && At(states[i], t) && !states[i].core.closed
    ensures
      var s := states[i];
      t in s.core.late <==>
        && t !in s.core.jobs && s.core.records[t].dispatched && !s.core.records[t].done
        && AnswersTo(s.answers, t) == []
  {
    SpotPair(states, events, i, i, t);
  }

  /** The wallet's answer to a job that was sent and given up is not lost: until `close` the
      first one counts, and no other does. */
  lemma LateAnswerCounts(states: seq<System>, events: seq<Event>, i: nat, t: Token, payload: Payload)
    requires Run(states, events) && i < |events| && events[i] == PostLate(t, payload)
    requires At(states[i], t) && !states[i].core.closed
    ensures
      var s, s' := states[i], states[i + 1];
      AnswersTo(s'.answers, t) ==
        if t !in s.core.jobs && s.core.records[t].dispatched && !s.core.records[t].done && AnswersTo(s.answers, t) == []
        then [Answer(t, payload, true)]
        else AnswersTo(s.answers, t)
  {
    LateExactly(states, events, i, t);
    AnswersAppend(states[i].answers, Answer(t, payload, true), t);
  }

  /** An answer posted while the request waits counts exactly if its job is unfinished and a
      page has it or is being given it; it is then the result of the request. */
  lemma WaitedAnswerCounts(states: seq<System>, events: seq<Event>, i: nat, t: Token, payload: Payload)
    requires Run(states, events) && i < |events| && events[i] == PostResolve(t, payload)
    requires At(states[i], t)
    ensures
      var s, s' := states[i], states[i + 1];
      if t in s.core.jobs && !s.core.records[t].done && (Held(s, t) || t in s.delivered)
      then
        && AnswersTo(s'.answers, t) == AnswersTo(s.answers, t) + [Answer(t, payload, false)]
        && At(s', t) && s'.core.records[t] == s.core.records[t].(result := Some(payload), done := true)
      else s' == s
  {
    if t in states[i].core.jobs {
      MarkedMeansTaken(states, events, i, t);
    }
    AnswersAppend(states[i].answers, Answer(t, payload, false), t);
  }

  predicate PostsTo(e: Event, t: Token) {
    (e.PostLate? || e.PostResolve?) && e.token == t
  }

  lemma StepWithoutPost(s: System, e: Event, t: Token)
    requires Enabled(s, e) && !PostsTo(e, t)
    ensures AnswersTo(Next(s, e).answers, t) == AnswersTo(s.answers, t)
  {
    if e.PostLate? {
      AnswersAppend(s.answers, Answer(e.token, e.payload, true), t);
    } else if e.PostResolve? {
      AnswersAppend(s.answers, Answer(e.token, e.payload, false), t);
    }
  }

  lemma {:induction false} NoPostNoAnswer(states: seq<System>, events: seq<Event>, i: nat, j: nat, t: Token)
    requires Run(states, events) && i <= j < |states|
    requires forall k :: i <= k < j ==> !PostsTo(events[k], t)
    ensures AnswersTo(states[j].answers, t) == AnswersTo(states[i].answers, t)
  {
    if i == j {
    } else {
      NoPostNoAnswer(states, events, i, j - 1, t);
      StepWithoutPost(states[j - 1], events[j - 1], t);
    }
  }

  /** A delivered job that has no answer yet, on a bridge that is not closed. */
  ghost predicate Unanswered(s: System, t: Token) {
    && At(s, t) && SpotSound(SpotOf(s, t))
    && t in s.delivered && AnswersTo(s.answers, t) == [] && !s.core.closed
  }

  lemma LateTry(s: System, t: Token, payload: Payload)
    requires Unanswered(s, t)
    ensures AnswersTo(Next(s, PostLate(t, payload)).answers, t) ==
              if t in s.core.jobs then [] else [Answer(t, payload, true)]
  {
    AnswersAppend(s.answers, Answer(t, payload, true), t);
  }

  lemma WaitingTry(s: System, t: Token, payload: Payload)
    requires Unanswered(s, t)
    ensures AnswersTo(Next(s, PostResolve(t, payload)).answers, t) ==
              if t in s.core.jobs then [Answer(t, payload, false)] else []
  {
    AnswersAppend(s.answers, Answer(t, payload, false), t);
  }

  /** A page posts an answer by trying the late jobs and then the waiting ones. The first
      answer to a delivered job is refused exactly when its request gave up between the two
      tries. */
  lemma AnswerIsLostExactly(states: seq<System>, events: seq<Event>, i: nat, j: nat, t: Token, payload: Payload)
    requires Run(states, events) && i < j < |events|
    requires events[i] == PostLate(t, payload) && events[j] == PostResolve(t, payload)
    requires forall k :: i < k < j ==> !PostsTo(events[k], t)
    requires t in states[i].delivered && AnswersTo(states[i].answers, t) == [] && !states[j].core.closed
    ensures AnswersTo(states[j + 1].answers, t) == [] <==>
              t in states[i].core.jobs && t !in states[j].core.jobs
  {
    BothUnansweredAt(states, events, i, j, t);
    LateTry(states[i], t, payload);
    NoPostNoAnswer(states, events, i + 1, j, t);
    if t in states[i].core.jobs {
      WaitingTry(states[j], t, payload);
    } else {
      RunGrowsSpot(states, events, j, j + 1, t);
    }
  }

  lemma BothUnansweredAt(states: seq<System>, events: seq<Event>, i: nat, j: nat, t: Token)
    requires Run(states, events) && i <= j < |states|
    requires t in states[i].delivered && AnswersTo(states[i].answers, t) == [] && !states[j].core.closed
    ensures Unanswered(states[i], t)
    ensures AnswersTo(states[j].answers, t) == [] ==> Unanswered(states[j], t)
    ensures At(states[j], t)
  {
    RunKeepsInv(states, events, i);
    SpotPair(states, events, i, j, t);
    RunGrowsSpot(states, events, i, j, t);
    if states[i].core.closed {
      StaysClosed(states, events, i, j);
    }
  }

  // ---------------------------------------------------------------- failed replies

  /** A job whose reply failed is put back, first in the queue and unsent, exactly while its
      request waits; a job given up before that stays as it was. */
  lemma FailedReplyPutsBack(states: seq<System>, events: seq<Event>, i: nat)
    requires Run(states, events) && i < |events| && events[i].ReplyFailed?
    ensures
      var s, s' := states[i], states[i + 1];
      var t := s.holds[events[i].handler];
      && At(s, t) && At(s', t) && !Held(s', t) && t !in s'.delivered
      && (t in s.core.jobs ==> s'.core.queue == [t] + s.core.queue && !s'.core.records[t].dispatched)
      && (t !in s.core.jobs ==> s'.core.queue == s.core.queue && s'.core.records[t] == s.core.records[t])
  {
    var t := states[i].holds[events[i].handler];
    RunKeepsInv(states, events, i);
    assert Held(states[i], t) && SpotSound(SpotOf(states[i], t));
    ReplyFailedFollows(states[i], events[i].handler, t);
  }

  /** A waiting job is marked dispatched only while a handler holds it or a page has it. */
  lemma MarkedMeansTaken(states: seq<System>, events: seq<Event>, i: nat, t: Token)
    requires Run(states, events) && i < |states| && t in states[i].core.jobs
    ensures At(states[i], t)
    ensures states[i].core.records[t].dispatched <==> Held(states[i], t) || t in states[i].delivered
  {
    RunKeepsInv(states, events, i);
    assert SpotSound(SpotOf(states[i], t));
  }

  // ---------------------------------------------------------------- order

  /** `u` is queued somewhere behind `t`. */
  ghost predicate Behind(q: seq<Token>, t: Token, u: Token) {
    exists a, b :: 0 <= a < b < |q| && q[a] == t && q[b] == u
  }

  lemma {:induction false} RemoveFirstKeepsOrder(q: seq<Token>, x: Token, a: nat, b: nat) returns (c: nat, d: nat)
    requires a < b < |RemoveFirst(q, x)|
    ensures c < d < |q| && q[c] == RemoveFirst(q, x)[a] && q[d] == RemoveFirst(q, x)[b]
  {
    if q[0] == x {
      c, d := a + 1, b + 1;
    } else if a == 0 {
      d := StaysSomewhere(q[1..], x, b - 1);
      c, d := 0, d + 1;
    } else {
      c, d := RemoveFirstKeepsOrder(q[1..], x, a - 1, b - 1);
      c, d := c + 1, d + 1;
    }
  }

  lemma {:induction false} StaysSomewhere(q: seq<Token>, x: Token, b: nat) returns (d: nat)
    requires b < |RemoveFirst(q, x)|
    ensures d < |q| && q[d] == RemoveFirst(q, x)[b]
  {
    if q[0] == x {
      d := b + 1;
    } else if b == 0 {
      d := 0;
    } else {
      d := StaysSomewhere(q[1..], x, b - 1);
      d := d + 1;
    }
  }

  lemma WithdrawKeepsOrder(q: seq<Token>, x: Token, t: Token, u: Token)
    requires Behind(RemoveFirst(q, x), t, u)
    ensures Behind(q, t, u)
  {
    var rest := RemoveFirst(q, x);
    var a, b :| 0 <= a < b < |rest| && rest[a] == t && rest[b] == u;
    var c, d := RemoveFirstKeepsOrder(q, x, a, b);
  }

  lemma DropKeepsOrder(q: seq<Token>, k: nat, t: Token, u: Token)
    requires k <= |q| && Behind(q[k..], t, u)
    ensures Behind(q, t, u)
  {
    var a, b :| 0 <= a < b < |q[k..]| && q[k..][a] == t && q[k..][b] == u;
    assert q[a + k] == t && q[b + k] == u;
  }

  lemma AppendKeepsOrder(q: seq<Token>, x: Token, t: Token, u: Token)
    requires Behind(q + [x], t, u) && u != x
    ensures Behind(q, t, u)
  {
    var a, b :| 0 <= a < b < |q + [x]| && (q + [x])[a] == t && (q + [x])[b] == u;
    assert q[a] == t && q[b] == u;
  }

  lemma FrontKeepsOrder(q: seq<Token>, x: Token, t: Token, u: Token)
    requires Behind([x] + q, t, u) && t != x
    ensures Behind(q, t, u)
  {
    var a, b :| 0 <= a < b < |[x] + q| && ([x] + q)[a] == t && ([x] + q)[b] == u;
    assert q[a - 1] == t && q[b - 1] == u;
  }

  /** A failed reply puts this job back to the front. */
  predicate PutsBack(s: System, e: Event, t: Token)
    requires Enabled(s, e)
  {
    e.ReplyFailed? && s.holds[e.handler] == t
  }

  lemma StepKeepsOrder(s: System, e: Event, t: Token, u: Token)
    requires Enabled(s, e) && Behind(Next(s, e).core.queue, t, u)
    requires u in s.core.records && !PutsBack(s, e, t)
    ensures Behind(s.core.queue, t, u)
  {
    var q := s.core.queue;
    match e
    case Register(x, _) => AppendKeepsOrder(q, x, t, u);
    case Withdraw(x) => WithdrawKeepsOrder(q, x, t, u);
    case Poll(_, k, take) => DropKeepsOrder(q, if take then k + 1 else k, t, u);
    case ReplyFailed(h) =>
      if s.holds[h] in s.core.jobs {
        FrontKeepsOrder(q, s.holds[h], t, u);
      }
    case _ =>
  }

  lemma NewestIsLast(s: System, t: Token, cancel: Option<Signal>, u: Token)
    requires Known(s) && Enabled(s, Register(t, cancel)) && u in s.core.records
    ensures !Behind(Next(s, Register(t, cancel)).core.queue, t, u)
  {
    var q := s.core.queue;
    if Behind(q + [t], t, u) {
      AppendKeepsOrder(q, t, t, u);
    }
  }

  lemma StaysAhead(s: System, e: Event, t: Token, u: Token)
    requires Enabled(s, e) && u in s.core.records && !PutsBack(s, e, t)
    requires !Behind(s.core.queue, t, u)
    ensures !Behind(Next(s, e).core.queue, t, u)
  {
    if Behind(Next(s, e).core.queue, t, u) {
      StepKeepsOrder(s, e, t, u);
    }
  }

  lemma {:induction false} NeverBehind(states: seq<System>, events: seq<Event>, m: nat, i: nat, t: Token, u: Token)
    requires Run(states, events) && m < i < |states| && events[m].Register? && events[m].token == t
    requires u in states[m].core.records
    requires forall k :: m < k < i ==> !PutsBack(states[k], events[k], t)
    ensures u in states[i].core.records && !Behind(states[i].core.queue, t, u)
  {
    RunKeepsInv(states, events, i - 1);
    RecordsStay(states[i - 1], events[i - 1]);
    if m == i - 1 {
      NewestIsLast(states[m], t, events[m].cancel, u);
    } else {
      NeverBehind(states, events, m, i - 1, t, u);
      StaysAhead(states[i - 1], events[i - 1], t, u);
    }
  }

  lemma TakenInTurn(q: seq<Token>, n: nat, u: Token)
    requires NoDuplicates(q) && n < |q| && u != q[n] && !Behind(q, q[n], u)
    ensures u !in q[n + 1..] && (u in q ==> u in q[..n])
  {
    assert forall c :: n < c < |q| ==> q[c] != u;
    assert q == q[..n] + [q[n]] + q[n + 1..];
  }

  lemma PollServes(s: System, h: Handler, k: nat, u: Token)
    requires Unique(s) && Enabled(s, Poll(h, k, true))
    requires u != s.core.queue[k] && !Behind(s.core.queue, s.core.queue[k], u)
    ensures u !in Next(s, Poll(h, k, true)).core.queue
    ensures u in s.core.queue ==> Cancelled(s.core, u, s.signals)
  {
    TakenInTurn(s.core.queue, k, u);
  }

  /** First come, first served: when a job is taken that was not put back since it was
      registered, every job that was queued before it has left the queue, or is dropped by
      this very poll because its cancel event is set. */
  lemma FirstComeFirstServed(states: seq<System>, events: seq<Event>, m: nat, i: nat, u: Token)
    requires Run(states, events) && m < i < |events|
    requires events[m].Register? && u in states[m].core.queue
    requires events[i].Poll? && events[i].take
    requires states[i].core.queue[events[i].skipped] == events[m].token
    requires forall k :: m < k < i ==> !PutsBack(states[k], events[k], events[m].token)
    ensures u !in states[i + 1].core.queue
    ensures u in states[i].core.queue ==> Cancelled(states[i].core, u, states[i].signals)
  {
    RunKeepsInv(states, events, m);
    RunKeepsInv(states, events, i);
    NeverBehind(states, events, m, i, events[m].token, u);
    PollServes(states[i], events[i].handler, events[i].skipped, u);
  }

  // ---------------------------------------------------------------- cancellation

  lemma {:induction false} SignalsStay(states: seq<System>, events: seq<Event>, i: nat, j: nat)
    requires Run(states, events) && i <= j < |states|
    ensures states[i].signals <= states[j].signals
  {
    if i == j {
    } else {
      SignalsStay(states, events, i, j - 1);
    }
  }

  /** Once the cancel event that a request was made with is set, its job never goes out
      any more. */
  lemma CancelledIsNeverTaken(states: seq<System>, events: seq<Event>, m: nat, c: nat, i: nat, signal: Signal)
    requires Run(states, events) && m < i && c < i < |events|
    requires events[m].Register? && events[m].cancel == Some(signal) && events[c] == SetSignal(signal)
    requires events[i].Poll? && events[i].take
    ensures states[i].core.queue[events[i].skipped] != events[m].token
  {
    var t := events[m].token;
    RunKeepsInv(states, events, m);
    assert At(states[m + 1], t) && states[m + 1].core.records[t].cancel == Some(signal);
    RunGrowsSpot(states, events, m + 1, i, t);
    SignalsStay(states, events, c + 1, i);
  }
}
