/** What the re-login protocol does for a call: why it is sent again, and when a login is
    started for it, over any run of any number of threads. */
module ReloginCalls {
  import opened Outcomes
  import opened Relogin

  // ---------------------------------------------------------------- the counter

  /** A call never saw a later counter than the one now, and has been overtaken by a login
      once it is about to be sent again. */
  predicate Overtaken(attempts: nat, k: Stack) {
    && (forall n :: 0 <= n < |k| && k[n].Call? ==> k[n].at.seen <= attempts)
    && (forall n :: 0 <= n < |k| && k[n].Call? && k[n].at.Unlocked? ==> k[n].at.seen < attempts)
    && (k != [] && k[0].Call? && k[0].at.Relogging? && !(|k| > 1 && k[1].Login? && k[1].stage == Entered) ==>
          k[0].at.seen < attempts)
  }

  lemma OvertakenStays(attempts: nat, more: nat, k: Stack)
    requires Overtaken(attempts, k) && attempts <= more
    ensures Overtaken(more, k)
  {
  }

  /** Only the outermost call starts a re-login. */
  lemma ReloggingIsOutermost(t: ThreadId, k: Stack)
    requires Shape(t, k) && AtCall(k) && !Top(k).at.Begun? && !Top(k).at.Answered?
    ensures |k| == 1
  {
  }

  lemma StepKeepsOvertaken(s: System, e: Event, u: ThreadId)
    requires Inv(s) && Enabled(s, e) && Overtaken(s.attempts, StackOf(s, u))
    ensures Overtaken(Next(s, e).attempts, StackOf(Next(s, e), u))
  {
    OvertakenStays(s.attempts, Next(s, e).attempts, StackOf(s, u));
    if u == e.t {
      assert ThreadSound(s, u);
      OwnStepKeepsOvertaken(s, e);
    }
  }

  lemma OwnStepKeepsOvertaken(s: System, e: Event)
    requires Shape(e.t, StackOf(s, e.t)) && Enabled(s, e) && Overtaken(s.attempts, StackOf(s, e.t))
    ensures Overtaken(Next(s, e).attempts, StackOf(Next(s, e), e.t))
  {
    var k := StackOf(s, e.t);
    if e.Compare? || e.Release? || e.Resend? || e.Acquire? {
      ReloggingIsOutermost(e.t, k);
    }
  }

  lemma {:induction false} RunKeepsOvertaken(states: seq<System>, events: seq<Event>, i: nat, t: ThreadId)
    requires Run(states, events) && i < |states|
    ensures Overtaken(states[i].attempts, StackOf(states[i], t))
  {
    if i == 0 {
    } else {
      RunKeepsOvertaken(states, events, i - 1, t);
      RunKeepsInv(states, events, i - 1);
      StepKeepsOvertaken(states[i - 1], events[i - 1], t);
    }
  }

  lemma {:induction false} CountedBetween(states: seq<System>, events: seq<Event>, b: nat, i: nat) returns (c: nat)
    requires Run(states, events) && b <= i < |states| && states[b].attempts < states[i].attempts
    ensures b <= c < i && events[c].Count?
  {
    c := i - 1;
    if !events[c].Count? {
      assert states[c].attempts == states[i].attempts;
      c := CountedBetween(states, events, b, c);
    }
  }

  // ---------------------------------------------------------------- one call

  function DepthOf(s: System, t: ThreadId): (depth: nat) {
    |StackOf(s, t)|
  }

  /** The call at height `n` of the stack of `t` began as event `b`, was sent as event `m`,
      and has not returned by state `i`. */
  ghost predicate Story(states: seq<System>, events: seq<Event>, i: nat, t: ThreadId, n: nat, b: nat, m: nat)
    requires |states| == |events| + 1 && i < |states|
  {
    && n < DepthOf(states[i], t) && StackOf(states[i], t)[n].Call?
    && b < i && events[b] == BeginCall(t) && DepthOf(states[b], t) == n
    && (forall k :: b < k <= i ==> DepthOf(states[k], t) > n)
    && var at := StackOf(states[i], t)[n].at;
       && at.seen == states[b].attempts
       && (!at.Begun? ==>
             && b < m < i && DepthOf(states[m], t) == n + 1
             && events[m] == Send(t, if at.Answered? then at.unauthorized else true))
  }

  /** A call frame that this step neither pushed nor changed. */
  predicate Untouched(s: System, e: Event, t: ThreadId, n: nat)
    requires Enabled(s, e)
  {
    && n < DepthOf(s, t) && n < DepthOf(Next(s, e), t)
    && StackOf(Next(s, e), t)[n] == StackOf(s, t)[n]
  }

  /** A step changes only the top of its thread's stack. */
  lemma OnlyTheTopChanges(s: System, e: Event, t: ThreadId, n: nat)
    requires Enabled(s, e) && n < DepthOf(Next(s, e), t) && !Untouched(s, e, t, n)
    requires StackOf(Next(s, e), t)[n].Call?
    ensures e.t == t
    ensures if e.BeginCall? then n == DepthOf(s, t) else n == DepthOf(s, t) - 1
  {
  }

  lemma StoryStays(states: seq<System>, events: seq<Event>, i: nat, t: ThreadId, n: nat, b: nat, m: nat)
    requires |states| == |events| + 1 && i < |events| && Story(states, events, i, t, n, b, m)
    requires n < DepthOf(states[i + 1], t) && StackOf(states[i + 1], t)[n] == StackOf(states[i], t)[n]
    ensures Story(states, events, i + 1, t, n, b, m)
  {
  }

  /** A call moves from one position to the next, by sending or by what its response was. */
  predicate MovesOn(at: Position, e: Event, t: ThreadId, next: Position) {
    && next.seen == at.seen && !next.Begun? && (e.Send? <==> next.Answered?)
    && if next.Answered? then e == Send(t, next.unauthorized) else !at.Begun? && (at.Answered? ==> at.unauthorized)
  }

  lemma StoryMovesOn(states: seq<System>, events: seq<Event>, i: nat, t: ThreadId, n: nat, b: nat, m: nat)
    requires |states| == |events| + 1 && i < |events| && Story(states, events, i, t, n, b, m)
    requires DepthOf(states[i], t) == n + 1 <= DepthOf(states[i + 1], t) && StackOf(states[i + 1], t)[n].Call?
    requires MovesOn(StackOf(states[i], t)[n].at, events[i], t, StackOf(states[i + 1], t)[n].at)
    ensures Story(states, events, i + 1, t, n, b, if events[i].Send? then i else m)
  {
  }

  lemma StepMovesOn(s: System, e: Event, t: ThreadId, n: nat)
    requires Enabled(s, e) && n < DepthOf(Next(s, e), t) && StackOf(Next(s, e), t)[n].Call?
    requires !Untouched(s, e, t, n) && !e.BeginCall?
    ensures e.t == t && n + 1 == DepthOf(s, t) && AtCall(StackOf(s, t))
    ensures MovesOn(StackOf(s, t)[n].at, e, t, StackOf(Next(s, e), t)[n].at)
  {
    OnlyTheTopChanges(s, e, t, n);
  }

  /** Every call on a stack has its story. */
  lemma {:induction false} StoryOf(states: seq<System>, events: seq<Event>, i: nat, t: ThreadId, n: nat)
    returns (b: nat, m: nat)
    requires Run(states, events) && i < |states|
    requires n < DepthOf(states[i], t) && StackOf(states[i], t)[n].Call?
    ensures Story(states, events, i, t, n, b, m)
  {
    var j: nat := i - 1;
    if Untouched(states[j], events[j], t, n) {
      b, m := StoryOf(states, events, j, t, n);
      StoryStays(states, events, j, t, n, b, m);
    } else if events[j].BeginCall? {
      OnlyTheTopChanges(states[j], events[j], t, n);
      b, m := j, j;
    } else {
      StepMovesOn(states[j], events[j], t, n);
      b, m := StoryOf(states, events, j, t, n);
      StoryMovesOn(states, events, j, t, n, b, m);
      m := if events[j].Send? then j else m;
    }
  }

  /** A call is sent again only after its first response was a 401, and after some login,
      its own or another thread's, counted since it began. It is an outermost call, no
      re-login of its own failed, and it then returns. */
  lemma ResendFollowsALogin(states: seq<System>, events: seq<Event>, i: nat, t: ThreadId)
    returns (b: nat, m: nat, c: nat)
    requires Run(states, events) && i < |events| && events[i] == Resend(t)
    ensures b < m < i && b <= c < i
    ensures events[b] == BeginCall(t) && events[m] == Send(t, true) && events[c].Count?
    ensures StackOf(states[b], t) == [] && forall k :: b < k <= i ==> DepthOf(states[k], t) > 0
    ensures forall k :: b < k < i ==> events[k] != Release(t, true)
    ensures StackOf(states[i + 1], t) == []
  {
    RunKeepsInv(states, events, i);
    RunKeepsOvertaken(states, events, i, t);
    assert ThreadSound(states[i], t);
    ReloggingIsOutermost(t, StackOf(states[i], t));
    b, m := StoryOf(states, events, i, t, 0);
    c := CountedBetween(states, events, b, i);
    forall k | b < k < i ensures events[k] != Release(t, true) {
      if events[k] == Release(t, true) {
        FailureReturns(states, events, k, t);
      }
    }
  }

  /** A re-login that fails ends its call. */
  lemma FailureReturns(states: seq<System>, events: seq<Event>, i: nat, t: ThreadId)
    requires Run(states, events) && i < |events| && events[i] == Release(t, true)
    ensures StackOf(states[i + 1], t) == []
  {
    RunKeepsInv(states, events, i);
    assert ThreadSound(states[i], t);
    ReloggingIsOutermost(t, StackOf(states[i], t));
  }

  /** A call goes for the lock exactly when its response was a 401, re-login is armed and
      nothing encloses the call; otherwise it returns at once. */
  lemma RelogsExactly(states: seq<System>, events: seq<Event>, i: nat, t: ThreadId, armed: bool)
    returns (b: nat, m: nat)
    requires Run(states, events) && i < |events| && events[i] == Decide(t, armed)
    ensures b < m < i && events[b] == BeginCall(t) && events[m].Send? && events[m].t == t
    ensures DepthOf(states[m], t) == DepthOf(states[i], t) == DepthOf(states[b], t) + 1
    ensures forall k :: b < k <= i ==> DepthOf(states[k], t) > DepthOf(states[b], t)
    ensures
      var k := StackOf(states[i + 1], t);
      if events[m].unauthorized && armed && StackOf(states[b], t) == []
      then k == [Call(WantLock(states[b].attempts))]
      else k == StackOf(states[i], t)[..DepthOf(states[b], t)]
  {
    var k := StackOf(states[i], t);
    RunKeepsInv(states, events, i);
    LoginThreadIsExact(states, events, i, t, t);
    assert ThreadSound(states[i], t);
    b, m := StoryOf(states, events, i, t, |k| - 1);
    EnclosedIsInLogin(t, k);
  }

  lemma EnclosedIsInLogin(t: ThreadId, k: Stack)
    requires Shape(t, k) && AtCall(k)
    ensures InLogin(k) <==> |k| > 1
  {
  }

  /** With the lock held, a call whose counter has not moved since it began starts exactly
      one re-login, on top of itself; one whose counter has moved goes on without. */
  lemma UnmovedCounterStartsARelogin(states: seq<System>, events: seq<Event>, i: nat, t: ThreadId)
    returns (b: nat, m: nat)
    requires Run(states, events) && i < |events| && events[i] == Compare(t)
    ensures b < m < i && events[b] == BeginCall(t) && events[m] == Send(t, true)
    ensures StackOf(states[b], t) == [] && forall k :: b < k <= i ==> DepthOf(states[k], t) > 0
    ensures
      var s, s' := states[i], states[i + 1];
      var seen := states[b].attempts;
      if s.attempts == seen
      then s'.started == s.started + [seen] && StackOf(s', t) == [Call(Relogging(seen)), Login(Entered, None, true)]
      else s'.started == s.started && StackOf(s', t) == [Call(Unlocked(seen))] && seen < s.attempts
  {
    RunKeepsInv(states, events, i);
    RunKeepsOvertaken(states, events, i, t);
    assert ThreadSound(states[i], t);
    ReloggingIsOutermost(t, StackOf(states[i], t));
    b, m := StoryOf(states, events, i, t, 0);
  }

  /** A re-login that worked is followed by the second send, which is then the only thing
      its thread can do. */
  lemma SuccessIsResent(states: seq<System>, events: seq<Event>, i: nat, t: ThreadId, e: Event)
    requires Run(states, events) && i < |events| && events[i] == Release(t, false)
    requires e.t == t
    ensures Enabled(states[i + 1], e) <==> e == Resend(t)
  {
  }

  /** The protocol never deadlocks: whoever holds the lock can go on without starting
      anything new. */
  lemma HolderCanGoOn(states: seq<System>, events: seq<Event>, i: nat, t: ThreadId) returns (e: Event)
    requires Run(states, events) && i < |states| && states[i].owner == Some(t)
    ensures e.t == t && Enabled(states[i], e) && !e.BeginCall? && !e.EnterLogin?
  {
    RunKeepsInv(states, events, i);
    assert ThreadSound(states[i], t);
    var top := Top(StackOf(states[i], t));
    e := match top
      case Login(Entered, _, _) => Count(t)
      case Login(Counted, _, _) => Mark(t)
      case Login(Marked, _, _) => Unmark(t)
      case Login(Unmarked, _, _) => ExitLogin(t)
      case Call(Begun(_)) => SendRaises(t)
      case Call(Answered(_, _)) => Decide(t, false)
      case Call(WantLock(_)) => Acquire(t)
      case Call(Locked(_)) => Compare(t)
      case Call(Relogging(_)) => Release(t, false)
      case Call(Unlocked(_)) => Resend(t);
  }
}
