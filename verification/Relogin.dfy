/** The shared re-login protocol: any number of threads, one re-entrant lock, a login
    counter and the unlocked reads of the login's owner. One event is one read, one write
    or one lock operation of one thread. */
module Relogin {
  import opened Outcomes

  type ThreadId = nat

  /** Inside `login_attempt`: lock taken, counter raised, owner set, owner restored. */
  datatype Stage = Entered | Counted | Marked | Unmarked

  /** Where a `_send_with_relogin` stands; `seen` is the counter it read first. */
  datatype Position =
    | Begun(seen: nat)
    | Answered(seen: nat, unauthorized: bool)
    | WantLock(seen: nat)
    | Locked(seen: nat)
    | Relogging(seen: nat)
    | Unlocked(seen: nat)

  /** One activation on a thread's stack. `automatic` tells a re-login from a login. */
  datatype Frame =
    | Call(at: Position)
    | Login(stage: Stage, outer: Option<ThreadId>, automatic: bool)

  type Stack = seq<Frame>

  /** `started` are the counter values at which automatic re-logins began, in order. */
  datatype System = System(
    owner: Option<ThreadId>,
    depth: nat,
    attempts: nat,
    loginThread: Option<ThreadId>,
    stacks: map<ThreadId, Stack>,
    started: seq<nat>)

  datatype Event =
    | BeginCall(t: ThreadId)
    | Send(t: ThreadId, unauthorized: bool)
    | SendRaises(t: ThreadId)
    | Decide(t: ThreadId, armed: bool)
    | Acquire(t: ThreadId)
    | Compare(t: ThreadId)
    | EnterLogin(t: ThreadId)
    | Count(t: ThreadId)
    | Mark(t: ThreadId)
    | Unmark(t: ThreadId)
    | ExitLogin(t: ThreadId)
    | Release(t: ThreadId, raised: bool)
    | Resend(t: ThreadId)

  const INITIAL := System(None, 0, 0, None, map[], [])

  function StackOf(s: System, t: ThreadId): (stack: Stack) {
    if t in s.stacks then s.stacks[t] else []
  }

  function Below(k: Stack): Stack
    requires k != []
  {
    k[..|k| - 1]
  }

  function Top(k: Stack): Frame
    requires k != []
  {
    k[|k| - 1]
  }

  predicate TopMarked(k: Stack) {
    k != [] && Top(k).Login? && Top(k).stage == Marked
  }

  /** Application code runs with nothing on the stack, or inside a login. */
  predicate RunsCode(k: Stack) {
    k == [] || TopMarked(k)
  }

  predicate Free(s: System, t: ThreadId) {
    s.owner == None || s.owner == Some(t)
  }

  predicate AtCall(k: Stack) {
    k != [] && Top(k).Call?
  }

  predicate AtLogin(k: Stack, stage: Stage) {
    k != [] && Top(k).Login? && Top(k).stage == stage
  }

  predicate Enabled(s: System, e: Event) {
    var k := StackOf(s, e.t);
    match e
    case BeginCall(_) => RunsCode(k)
    case Send(_, _) => AtCall(k) && Top(k).at.Begun?
    case SendRaises(_) => AtCall(k) && Top(k).at.Begun?
    case Decide(_, _) => AtCall(k) && Top(k).at.Answered?
    case Acquire(t) => AtCall(k) && Top(k).at.WantLock? && Free(s, t)
    case Compare(_) => AtCall(k) && Top(k).at.Locked?
    case EnterLogin(t) => RunsCode(k) && Free(s, t)
    case Count(_) => AtLogin(k, Entered)
    case Mark(_) => AtLogin(k, Counted)
    case Unmark(_) => AtLogin(k, Marked)
    case ExitLogin(_) => AtLogin(k, Unmarked)
    case Release(_, _) => AtCall(k) && Top(k).at.Relogging?
    case Resend(_) => AtCall(k) && Top(k).at.Unlocked?
  }

  function With(s: System, t: ThreadId, k: Stack): System {
    s.(stacks := s.stacks[t := k])
  }

  function Taken(s: System, t: ThreadId): (next: System) {
    s.(owner := Some(t), depth := s.depth + 1)
  }

  function Released(s: System): (next: System) {
    if s.depth <= 1 then s.(owner := None, depth := 0) else s.(depth := s.depth - 1)
  }

  function Next(s: System, e: Event): (next: System)
    requires Enabled(s, e)
  {
    var t := e.t;
    var k := StackOf(s, t);
    match e
    case BeginCall(_) => With(s, t, k + [Call(Begun(s.attempts))])
    case Send(_, unauthorized) => With(s, t, Below(k) + [Call(Answered(Top(k).at.seen, unauthorized))])
    case SendRaises(_) => With(s, t, Below(k))
    case Decide(_, armed) =>
      if !Top(k).at.unauthorized || !armed || s.loginThread == Some(t) then With(s, t, Below(k))
      else With(s, t, Below(k) + [Call(WantLock(Top(k).at.seen))])
    case Acquire(_) => With(Taken(s, t), t, Below(k) + [Call(Locked(Top(k).at.seen))])
    case Compare(_) =>
      var seen := Top(k).at.seen;
      if s.attempts == seen then
        With(Taken(s, t), t, Below(k) + [Call(Relogging(seen))] + [Login(Entered, None, true)])
        .(started := s.started + [seen])
      else With(Released(s), t, Below(k) + [Call(Unlocked(seen))])
    case EnterLogin(_) => With(Taken(s, t), t, k + [Login(Entered, None, false)])
    case Count(_) => With(s, t, Below(k) + [Top(k).(stage := Counted)]).(attempts := s.attempts + 1)
    case Mark(_) => With(s, t, Below(k) + [Top(k).(stage := Marked, outer := s.loginThread)]).(loginThread := Some(t))
    case Unmark(_) => With(s, t, Below(k) + [Top(k).(stage := Unmarked)]).(loginThread := Top(k).outer)
    case ExitLogin(_) => With(Released(s), t, Below(k))
    case Release(_, raised) =>
      With(Released(s), t, if raised then Below(k) else Below(k) + [Call(Unlocked(Top(k).at.seen))])
    case Resend(_) => With(s, t, Below(k))
  }

  ghost predicate Run(states: seq<System>, events: seq<Event>) {
    && |states| == |events| + 1
    && states[0] == INITIAL
    && forall i :: 0 <= i < |events| ==> Enabled(states[i], events[i]) && states[i + 1] == Next(states[i], events[i])
  }

  // ---------------------------------------------------------------- the invariant

  /** The lock levels a frame holds. */
  function Weight(f: Frame): (levels: nat) {
    match f
    case Call(at) => if at.Locked? || at.Relogging? then 1 else 0
    case Login(_, _, _) => 1
  }

  function Holds(k: Stack): (levels: nat) {
    if k == [] then 0 else Holds(Below(k)) + Weight(Top(k))
  }

  /** Whether the thread is inside a login: between setting and restoring the owner. */
  predicate InLogin(k: Stack) {
    k != [] && (TopMarked(k) || InLogin(Below(k)))
  }

  /** What may stand on what: a re-login only on a call with nothing under it, and a call
      inside a login never gets further than its answer. */
  predicate Fits(t: ThreadId, below: Stack, f: Frame) {
    match f
    case Call(at) => below == [] || (TopMarked(below) && (at.Begun? || at.Answered?))
    case Login(stage, outer, automatic) =>
      && (if automatic then |below| == 1 && below[0].Call? && below[0].at.Relogging? else RunsCode(below))
      && (stage == Marked || stage == Unmarked ==> outer == if InLogin(below) then Some(t) else None)
  }

  predicate Shape(t: ThreadId, k: Stack) {
    k == [] || (Shape(t, Below(k)) && Fits(t, Below(k), Top(k)))
  }

  /** A stack that is well formed, holds the lock `lock` times, and is in a login exactly
      when `marked`. */
  predicate StackSound(t: ThreadId, k: Stack, lock: nat, marked: bool) {
    Shape(t, k) && Holds(k) == lock && (marked <==> InLogin(k))
  }

  function LockOf(s: System, t: ThreadId): nat {
    if s.owner == Some(t) then s.depth else 0
  }

  predicate ThreadSound(s: System, t: ThreadId) {
    StackSound(t, StackOf(s, t), LockOf(s, t), s.loginThread == Some(t))
  }

  /** A re-login that has not raised the counter yet. */
  predicate AboutToCount(s: System) {
    && s.owner.Some?
    && var k := StackOf(s, s.owner.value);
       AtLogin(k, Entered) && Top(k).automatic
  }

  /** No counter value starts two re-logins; the last one started may not have counted. */
  ghost predicate StartedSound(s: System) {
    && (forall i :: 0 <= i < |s.started| ==>
          s.started[i] < s.attempts || (s.started[i] == s.attempts && AboutToCount(s)))
    && (forall i, j :: 0 <= i < j < |s.started| ==> s.started[i] != s.started[j])
  }

  ghost predicate Inv(s: System) {
    && (s.owner.None? <==> s.depth == 0)
    && (forall t :: ThreadSound(s, t))
    && StartedSound(s)
  }

  lemma Push(t: ThreadId, k: Stack, lock: nat, marked: bool, f: Frame)
    requires StackSound(t, k, lock, marked) && Fits(t, k, f)
    ensures Below(k + [f]) == k && Top(k + [f]) == f
    ensures StackSound(t, k + [f], lock + Weight(f), marked || (f.Login? && f.stage == Marked))
  {
    assert Below(k + [f]) == k;
  }

  lemma Pop(t: ThreadId, k: Stack, lock: nat, marked: bool)
    requires k != [] && StackSound(t, k, lock, marked)
    ensures Fits(t, Below(k), Top(k)) && lock >= Weight(Top(k))
    ensures StackSound(t, Below(k), lock - Weight(Top(k)), InLogin(Below(k)))
    ensures marked == (TopMarked(k) || InLogin(Below(k)))
  {
  }

  lemma {:induction false} LoginHoldsTheLock(k: Stack)
    requires InLogin(k)
    ensures Holds(k) > 0
  {
    if !TopMarked(k) {
      LoginHoldsTheLock(Below(k));
    }
  }

  /** The thread with a frame that holds the lock owns it, and nobody else is in a login. */
  lemma OwnerOf(s: System, t: ThreadId)
    requires Inv(s) && Holds(StackOf(s, t)) > 0
    ensures s.owner == Some(t) && s.depth == Holds(StackOf(s, t))
    ensures s.loginThread == None || s.loginThread == Some(t)
  {
    assert ThreadSound(s, t);
    if s.loginThread.Some? {
      var u := s.loginThread.value;
      assert ThreadSound(s, u);
      LoginHoldsTheLock(StackOf(s, u));
    }
  }

  lemma StepKeepsInv(s: System, e: Event)
    requires Inv(s) && Enabled(s, e)
    ensures Inv(Next(s, e))
  {
    var s' := Next(s, e);
    forall u ensures ThreadSound(s', u) {
      StepKeepsThread(s, e, u);
    }
    StepKeepsStarted(s, e);
  }

  lemma StepKeepsOtherThread(s: System, e: Event, u: ThreadId)
    requires Inv(s) && Enabled(s, e) && u != e.t
    ensures ThreadSound(Next(s, e), u)
  {
    var k := StackOf(s, e.t);
    assert ThreadSound(s, u) && ThreadSound(s, e.t);
    if k != [] {
      Pop(e.t, k, LockOf(s, e.t), s.loginThread == Some(e.t));
      if Weight(Top(k)) > 0 {
        OwnerOf(s, e.t);
      }
    }
    if InLogin(StackOf(s, u)) {
      LoginHoldsTheLock(StackOf(s, u));
    }
  }

  lemma StepKeepsThread(s: System, e: Event, u: ThreadId)
    requires Inv(s) && Enabled(s, e)
    ensures ThreadSound(Next(s, e), u)
  {
    if u != e.t {
      StepKeepsOtherThread(s, e, u);
    } else {
      match e
      case BeginCall(_) => BeginKeepsOwnThread(s, u);
      case EnterLogin(_) => EnterKeepsOwnThread(s, u);
      case Compare(_) => CompareKeepsOwnThread(s, u);
      case Send(_, unauthorized) => SendKeepsOwnThread(s, u, unauthorized);
      case Acquire(_) => AcquireKeepsOwnThread(s, u);
      case Count(_) => CountKeepsOwnThread(s, u);
      case Mark(_) => MarkKeepsOwnThread(s, u);
      case Unmark(_) => UnmarkKeepsOwnThread(s, u);
      case Decide(_, _) => DecideKeepsOwnThread(s, e);
      case Release(_, _) => ReleaseKeepsOwnThread(s, e);
      case _ => PopKeepsOwnThread(s, e);
    }
  }

  lemma BeginKeepsOwnThread(s: System, t: ThreadId)
    requires Inv(s) && Enabled(s, BeginCall(t))
    ensures ThreadSound(Next(s, BeginCall(t)), t)
  {
    assert ThreadSound(s, t);
    Push(t, StackOf(s, t), LockOf(s, t), s.loginThread == Some(t), Call(Begun(s.attempts)));
  }

  lemma EnterKeepsOwnThread(s: System, t: ThreadId)
    requires Inv(s) && Enabled(s, EnterLogin(t))
    ensures ThreadSound(Next(s, EnterLogin(t)), t)
  {
    assert ThreadSound(s, t);
    Push(t, StackOf(s, t), LockOf(s, t), s.loginThread == Some(t), Login(Entered, None, false));
  }

  lemma SendKeepsOwnThread(s: System, t: ThreadId, unauthorized: bool)
    requires Inv(s) && Enabled(s, Send(t, unauthorized))
    ensures ThreadSound(Next(s, Send(t, unauthorized)), t)
  {
    var k, lock, marked := StackOf(s, t), LockOf(s, t), s.loginThread == Some(t);
    var b := Below(k);
    assert ThreadSound(s, t);
    Pop(t, k, lock, marked);
    Push(t, b, lock - Weight(Top(k)), InLogin(b), Call(Answered(Top(k).at.seen, unauthorized)));
  }

  lemma AcquireKeepsOwnThread(s: System, t: ThreadId)
    requires Inv(s) && Enabled(s, Acquire(t))
    ensures ThreadSound(Next(s, Acquire(t)), t)
  {
    var k, lock, marked := StackOf(s, t), LockOf(s, t), s.loginThread == Some(t);
    var b := Below(k);
    assert ThreadSound(s, t);
    Pop(t, k, lock, marked);
    Push(t, b, lock - Weight(Top(k)), InLogin(b), Call(Locked(Top(k).at.seen)));
  }

  lemma CountKeepsOwnThread(s: System, t: ThreadId)
    requires Inv(s) && Enabled(s, Count(t))
    ensures ThreadSound(Next(s, Count(t)), t)
  {
    var k, lock, marked := StackOf(s, t), LockOf(s, t), s.loginThread == Some(t);
    var b := Below(k);
    assert ThreadSound(s, t);
    Pop(t, k, lock, marked);
    OwnerOf(s, t);
    Push(t, b, lock - Weight(Top(k)), InLogin(b), Top(k).(stage := Counted));
  }

  lemma MarkKeepsOwnThread(s: System, t: ThreadId)
    requires Inv(s) && Enabled(s, Mark(t))
    ensures ThreadSound(Next(s, Mark(t)), t)
  {
    var k, lock, marked := StackOf(s, t), LockOf(s, t), s.loginThread == Some(t);
    var b := Below(k);
    assert ThreadSound(s, t);
    Pop(t, k, lock, marked);
    OwnerOf(s, t);
    Push(t, b, lock - Weight(Top(k)), InLogin(b), Top(k).(stage := Marked, outer := s.loginThread));
  }

  lemma UnmarkKeepsOwnThread(s: System, t: ThreadId)
    requires Inv(s) && Enabled(s, Unmark(t))
    ensures ThreadSound(Next(s, Unmark(t)), t)
  {
    var k, lock, marked := StackOf(s, t), LockOf(s, t), s.loginThread == Some(t);
    var b := Below(k);
    assert ThreadSound(s, t);
    Pop(t, k, lock, marked);
    OwnerOf(s, t);
    Push(t, b, lock - Weight(Top(k)), InLogin(b), Top(k).(stage := Unmarked));
  }

  /** A frame that returns. */
  lemma PopKeepsOwnThread(s: System, e: Event)
    requires Inv(s) && Enabled(s, e) && (e.SendRaises? || e.ExitLogin? || e.Resend?)
    ensures ThreadSound(Next(s, e), e.t)
  {
    var t, k := e.t, StackOf(s, e.t);
    assert ThreadSound(s, t);
    Pop(t, k, LockOf(s, t), s.loginThread == Some(t));
    if Weight(Top(k)) > 0 {
      OwnerOf(s, t);
    }
  }

  lemma DecideKeepsOwnThread(s: System, e: Event)
    requires Inv(s) && Enabled(s, e) && e.Decide?
    ensures ThreadSound(Next(s, e), e.t)
  {
    var t, k := e.t, StackOf(s, e.t);
    assert ThreadSound(s, t);
    Pop(t, k, LockOf(s, t), s.loginThread == Some(t));
    if Top(k).at.unauthorized && e.armed && s.loginThread != Some(t) {
      Push(t, Below(k), LockOf(s, t), false, Call(WantLock(Top(k).at.seen)));
    }
  }

  lemma ReleaseKeepsOwnThread(s: System, e: Event)
    requires Inv(s) && Enabled(s, e) && e.Release?
    ensures ThreadSound(Next(s, e), e.t)
  {
    var t, k := e.t, StackOf(s, e.t);
    assert ThreadSound(s, t);
    Pop(t, k, LockOf(s, t), s.loginThread == Some(t));
    OwnerOf(s, t);
    if !e.raised {
      Push(t, Below(k), LockOf(s, t) - 1, InLogin(Below(k)), Call(Unlocked(Top(k).at.seen)));
    }
  }

  lemma CompareKeepsOwnThread(s: System, t: ThreadId)
    requires Inv(s) && Enabled(s, Compare(t))
    ensures ThreadSound(Next(s, Compare(t)), t)
  {
    var k := StackOf(s, t);
    var b, lock, marked := Below(k), LockOf(s, t), s.loginThread == Some(t);
    assert ThreadSound(s, t);
    Pop(t, k, lock, marked);
    OwnerOf(s, t);
    if s.attempts == Top(k).at.seen {
      var relogging := Call(Relogging(s.attempts));
      Push(t, b, lock - 1, marked, relogging);
      Push(t, b + [relogging], lock, marked, Login(Entered, None, true));
    } else {
      Push(t, b, lock - 1, marked, Call(Unlocked(Top(k).at.seen)));
    }
  }

  lemma StepKeepsStarted(s: System, e: Event)
    requires Inv(s) && Enabled(s, e)
    ensures Next(s, e).owner.None? <==> Next(s, e).depth == 0
    ensures StartedSound(Next(s, e))
  {
    var k := StackOf(s, e.t);
    assert ThreadSound(s, e.t);
    if k != [] && Weight(Top(k)) > 0 {
      OwnerOf(s, e.t);
    }
  }

  // ---------------------------------------------------------------- what runs keep

  lemma {:induction false} RunKeepsInv(states: seq<System>, events: seq<Event>, i: nat)
    requires Run(states, events) && i < |states|
    ensures Inv(states[i])
  {
    if i == 0 {
    } else {
      RunKeepsInv(states, events, i - 1);
      StepKeepsInv(states[i - 1], events[i - 1]);
    }
  }

  /** With any number of threads, a value of the login counter starts at most one
      automatic re-login, however many calls saw it. */
  lemma OneReloginPerCounterValue(states: seq<System>, events: seq<Event>, i: nat, a: nat, b: nat)
    requires Run(states, events) && i < |states|
    requires a < b < |states[i].started|
    ensures states[i].started[a] != states[i].started[b]
  {
    RunKeepsInv(states, events, i);
  }

  /** The unlocked owner read is exact for its own thread: it names a thread exactly while
      that thread is inside a login, and then no other thread is. */
  lemma LoginThreadIsExact(states: seq<System>, events: seq<Event>, i: nat, t: ThreadId, u: ThreadId)
    requires Run(states, events) && i < |states|
    ensures states[i].loginThread == Some(t) <==> InLogin(StackOf(states[i], t))
    ensures InLogin(StackOf(states[i], t)) && InLogin(StackOf(states[i], u)) ==> t == u
  {
    RunKeepsInv(states, events, i);
    assert ThreadSound(states[i], t) && ThreadSound(states[i], u);
  }

  /** Re-login never recurses: it stands on a call that nothing encloses, and a call made
      inside a login returns its 401 instead of starting another. */
  lemma ReloginNeverRecurses(states: seq<System>, events: seq<Event>, i: nat, t: ThreadId, n: nat)
    requires Run(states, events) && i < |states| && n < |StackOf(states[i], t)|
    ensures
      var k := StackOf(states[i], t);
      && (k[n].Login? && k[n].automatic ==> n == 1 && k[0].Call? && !InLogin(k[..n]))
      && (InLogin(k[..n]) && k[n].Call? ==> k[n].at.Begun? || k[n].at.Answered?)
  {
    RunKeepsInv(states, events, i);
    assert ThreadSound(states[i], t);
    var k := StackOf(states[i], t);
    FitsAt(t, k, n);
    if k[n].Login? && k[n].automatic {
      assert Below(k[..n]) == [];
    }
  }

  lemma {:induction false} FitsAt(t: ThreadId, k: Stack, n: nat)
    requires Shape(t, k) && n < |k|
    ensures Fits(t, k[..n], k[n])
  {
    if n < |k| - 1 {
      FitsAt(t, Below(k), n);
      assert Below(k)[..n] == k[..n];
    }
  }

  // ---------------------------------------------------------------- one unsafe call

  /** A response; `refusalCode` says whether its error code is a business refusal's. */
  datatype Response = Response(status: nat, refusalCode: bool)

  predicate IsBusinessRefusal(r: Response) {
    r.status == 403 && r.refusalCode
  }

  /** The backend rejects these before it executes the request. */
  predicate NotExecuted(r: Response) {
    r.status == 401 || (r.status == 403 && !IsBusinessRefusal(r))
  }

  /** The log holds the answers to the requests from `from` on. */
  predicate AnsweredFrom(http: nat -> Option<Response>, from: nat, log: seq<Response>) {
    forall k {:trigger log[k]} :: 0 <= k < |log| ==> http(from + k) == Some(log[k])
  }

  predicate NoneExecuted(log: seq<Response>) {
    forall k :: 0 <= k < |log| ==> NotExecuted(log[k])
  }

  /** The `send` of `_unsafe`: once, and again with a new CSRF token. `http(k)` answers
      the k-th request that carries the mutation, or raises; `token(k)` tells whether a token is still held then. */
  method SendUnsafe(http: nat -> Option<Response>, token: nat -> bool, from: nat)
    returns (r: Option<Response>, log: seq<Response>)
    ensures |log| <= 2 && AnsweredFrom(http, from, log)
    ensures forall k :: 0 <= k < |log| - 1 ==> log[k].status == 403 && NotExecuted(log[k])
    ensures r.Some? ==> log != [] && r.value == log[|log| - 1]
    ensures r.None? ==> http(from + |log|) == None && NoneExecuted(log)
    ensures r.Some? && |log| == 1 && token(from) ==> r.value.status != 403 || IsBusinessRefusal(r.value)
  {
    log := [];
    r := http(from);
    if r.None? {
      return;
    }
    log := [r.value];
    if r.value.status == 403 && token(from) && !IsBusinessRefusal(r.value) {
      r := http(from + 1);
      if r.Some? {
        log := log + [r.value];
      }
    }
  }

  /** `_unsafe` through `_send_with_relogin`. `mayRelogin` is what the three tests after the
      first send found; the callback may raise. At most four requests carry the mutation, and
      all but the last were rejected before they executed, so it runs at most once. */
  method Unsafe(http: nat -> Option<Response>, token: nat -> bool, mayRelogin: bool, callbackRaises: bool)
    returns (r: Option<Response>, log: seq<Response>, sends: nat)
    ensures 1 <= sends <= 2 && |log| <= 2 * sends
    ensures AnsweredFrom(http, 0, log)
    ensures r.Some? ==> log != [] && r.value == log[|log| - 1] && NoneExecuted(log[..|log| - 1])
    ensures r.None? ==> NoneExecuted(log)
    // The second send follows exactly a 401 to the first one and a re-login that worked.
    ensures sends == 2 ==>
      && mayRelogin && !callbackRaises
      && |log| > 0 && (log[0].status == 401 || (|log| > 1 && log[1].status == 401))
    ensures r.Some? && r.value.status == 401 && mayRelogin ==> sends == 2
  {
    sends := 1;
    r, log := SendUnsafe(http, token, 0);
    if r.None? || r.value.status != 401 || !mayRelogin {
      return;
    }
    if callbackRaises {
      return None, log, sends;
    }
    sends := 2;
    var again;
    r, again := SendUnsafe(http, token, |log|);
    var first := log;
    log := first + again;
    if r.Some? {
      assert log[..|log| - 1] == first + again[..|again| - 1];
    }
  }
}
