/** The loopback bridge as the object it is: jobs shared by reference between the
    tables and the request that waits on them. Each method is one `with self._cond`
    block; its contract is the step of the same name on the abstract state. */
module LoopbackBridge {
  import opened Outcomes
  import opened BridgeState

  /** The job dictionary; `done` is its event. */
  class Job {
    /** The state string the job was registered under; no two tokens share a job. */
    ghost const token: Token
    const cancel: Option<Signal>
    var dispatched: bool
    var closed: bool
    var done: bool
    var result: Option<Payload>

    constructor (ghost token: Token, cancel: Option<Signal>)
      ensures this.token == token && Contents() == Record(cancel, false, false, false, None)
    {
      this.token, this.cancel := token, cancel;
      dispatched, closed, done, result := false, false, false, None;
    }

    ghost function Contents(): (record: Record)
      reads this
    {
      Record(cancel, dispatched, closed, done, result)
    }
  }

  lemma ClosedSomeStep(records: map<Token, Record>, which: set<Token>, t: Token)
    requires t in records && t !in which
    ensures ClosedSome(records, which)[t] == records[t]
    ensures ClosedSome(records, which + {t}) == ClosedSome(records, which)[t := ClosedRecord(records[t])]
  {
  }

  class Bridge {
    var jobs: map<Token, Job>
    var late: map<Token, Job>
    var queue: seq<Token>
    var serving: bool
    var closed: bool
    /** Every job ever registered, and what it holds; requests keep theirs after it left
        the tables. */
    ghost var all: map<Token, Job>
    ghost var records: map<Token, Record>
    ghost var repr: set<Job>

    /** The tables name jobs that exist. */
    ghost predicate TablesSound()
      reads `jobs, `late, `queue, `all
    {
      && (forall t :: t in jobs ==> t in all && all[t] == jobs[t])
      && (forall t :: t in late ==> t in all && all[t] == late[t])
      && (forall t :: t in queue ==> t in jobs)
      && NoDuplicates(queue)
    }

    /** `records` is what the jobs hold. */
    ghost predicate JobsSound()
      reads `all, `records, `repr, repr
    {
      forall t :: t in all ==>
        t in records && all[t] in repr && all[t].token == t && all[t].Contents() == records[t]
    }

    ghost predicate Valid()
      reads this, repr
    {
      TablesSound() && JobsSound()
    }

    /** The abstract state. */
    ghost function View(): (core: Core)
      reads this
    {
      Core(records, jobs.Keys, late.Keys, queue, serving, closed)
    }

    constructor ()
      ensures Valid() && View() == EMPTY
      ensures all == map[]
    {
      jobs, late, queue, serving, closed := map[], map[], [], false, false;
      all, records, repr := map[], map[], {};
    }

    /** False when the source raises: the bridge is closed, or no server runs and none
        can be bound. */
    method Start(binds: bool) returns (ok: bool)
      requires Valid()
      modifies `serving
      ensures Valid()
      ensures ok <==> !closed && serving
      ensures View() == Started(old(View()), binds || old(serving))
    {
      if closed {
        return false;
      }
      if serving {
        return true;
      }
      if !binds {
        return false;
      }
      serving := true;
      return true;
    }

    /** A new job joins the jobs that exist; the tables stay as they are. */
    ghost method Enrol(t: Token, job: Job)
      requires Valid() && t !in all && job !in repr && job.token == t
      modifies `all, `records, `repr
      ensures Valid()
      ensures all == old(all)[t := job] && repr == old(repr) + {job}
      ensures records == old(records)[t := job.Contents()]
    {
      all, records, repr := all[t := job], records[t := job.Contents()], repr + {job};
    }

    /** The registration block of `request`; `t` is the fresh random state string. */
    method Register(t: Token, cancel: Option<Signal>) returns (job: Job)
      requires Valid() && t !in all
      modifies `jobs, `queue, `all, `records, `repr
      ensures Valid() && fresh(job) && all == old(all)[t := job] && repr == old(repr) + {job}
      ensures View() == Registered(old(View()), t, cancel)
    {
      job := new Job(t, cancel);
      Enrol(t, job);
      jobs := jobs[t := job];
      queue := queue + [t];
      assert jobs.Keys == old(View()).jobs + {t};
    }

    /** The token leaves the table and the queue. */
    method Unlist(t: Token)
      requires Valid()
      modifies `jobs, `queue
      ensures Valid()
      ensures View() == old(View()).(jobs := old(View()).jobs - {t}, queue := RemoveFirst(old(queue), t))
    {
      RemoveFirstLeavesNoCopy(queue, t);
      jobs := jobs - {t};
      if t in queue {
        queue := RemoveFirst(queue, t);
      } else {
        RemoveAbsent(queue, t);
      }
      assert jobs.Keys == old(View()).jobs - {t};
    }

    /** The `finally` block of `request`, and the `finished` it computes. */
    method Withdraw(t: Token, job: Job) returns (finished: bool)
      requires Valid() && t in all && all[t] == job
      modifies `jobs, `late, `queue
      ensures Valid()
      ensures View() == Withdrawn(old(View()), t)
      ensures finished == job.done
    {
      Unlist(t);
      finished := job.done;
      if job.dispatched && !finished {
        late := late[t := job];
        assert late.Keys == old(View()).late + {t};
      }
      assert job.Contents() == records[t];
    }

    predicate HasSignal(job: Job, signals: set<Signal>) {
      job.cancel.Some? && job.cancel.value in signals
    }

    /** The loop of `_next_job` while it holds the lock. The peer is found alive in the
        first `patience` tests and gone in the next; `signals` are the cancel events set
        when the last entry was tested, which the event of an entry skipped before then
        still is. */
    method PopLive(signals: set<Signal>, patience: nat) returns (taken: Option<Token>, skipped: nat)
      requires TablesSound()
      modifies `queue
      ensures skipped <= |old(queue)|
      ensures forall i :: 0 <= i < skipped ==> old(queue)[i] in jobs && HasSignal(jobs[old(queue)[i]], signals)
      ensures skipped > 0 || taken.Some? ==> serving
      ensures taken.None? ==> queue == old(queue)[skipped..] && (!serving || skipped == patience || queue == [])
      ensures taken.Some? ==>
        && skipped < |old(queue)| && taken.value == old(queue)[skipped] && queue == old(queue)[skipped + 1..]
        && taken.value in jobs && !HasSignal(jobs[taken.value], signals)
    {
      taken, skipped := None, 0;
      while taken == None
        invariant skipped + |queue| + (if taken.Some? then 1 else 0) == |old(queue)|
        invariant queue == old(queue)[|old(queue)| - |queue|..]
        invariant skipped <= patience && (skipped > 0 || taken.Some? ==> serving)
        invariant forall i :: 0 <= i < skipped ==> old(queue)[i] in jobs && HasSignal(jobs[old(queue)[i]], signals)
        invariant taken.Some? ==> taken.value == old(queue)[skipped] && !HasSignal(jobs[taken.value], signals)
        decreases |queue|, taken.None?
      {
        if !serving || skipped == patience || queue == [] {
          break;
        }
        var t := queue[0];
        queue := queue[1..];
        if HasSignal(jobs[t], signals) {
          skipped := skipped + 1;
        } else {
          taken := Some(t);
        }
      }
    }

    // The three writes to a registered job, each with its ghost record.

    method SetDispatched(t: Token, on: bool)
      requires Valid() && t in jobs
      modifies `records, repr
      ensures Valid() && records == old(records)[t := old(records)[t].(dispatched := on)]
    {
      jobs[t].dispatched := on;
      records := records[t := jobs[t].Contents()];
    }

    method Answer(t: Token, payload: Payload)
      requires Valid() && t in jobs
      modifies `records, repr
      ensures Valid() && records == old(records)[t := old(records)[t].(result := Some(payload), done := true)]
    {
      jobs[t].result := Some(payload);
      jobs[t].done := true;
      records := records[t := jobs[t].Contents()];
    }

    method Finish(t: Token)
      requires Valid() && t in jobs
      modifies `records, repr
      ensures Valid() && records == old(records)[t := ClosedRecord(old(records)[t])]
    {
      if !jobs[t].done {
        jobs[t].closed := true;
        jobs[t].done := true;
      }
      records := records[t := jobs[t].Contents()];
    }

    /** One locked attempt of `_next_job`: skip cancelled entries, take the first other one. */
    method NextJob(signals: set<Signal>, patience: nat) returns (taken: Option<Token>, skipped: nat)
      requires Valid()
      modifies `queue, `records, repr
      ensures Valid()
      ensures skipped <= |old(queue)|
      ensures forall i :: 0 <= i < skipped ==> Cancelled(old(View()), old(queue)[i], signals)
      ensures skipped > 0 || taken.Some? ==> serving
      ensures taken.None? ==> View() == Skipped(old(View()), skipped)
      ensures taken.None? ==> !serving || skipped == patience || queue == []
      ensures taken.Some? ==>
        && skipped < |old(queue)| && taken.value == old(queue)[skipped] && taken.value in old(jobs)
        && !Cancelled(old(View()), taken.value, signals)
        && View() == Taken(old(View()), skipped)
    {
      taken, skipped := PopLive(signals, patience);
      if taken.Some? {
        SetDispatched(taken.value, true);
      }
    }

    /** Requeueing keeps the tables sound exactly when it queues nothing twice; its one
        caller is the handler whose reply failed, which holds the job. */
    method Requeue(t: Token)
      requires Valid()
      modifies `queue, `records, repr
      ensures JobsSound()
      ensures Valid() <==> t !in old(queue)
      ensures View() == Requeued(old(View()), t)
    {
      if t in jobs {
        SetDispatched(t, false);
        queue := [t] + queue;
        if t in old(queue) {
          var i :| 0 <= i < |old(queue)| && old(queue)[i] == t;
          assert queue[0] == queue[i + 1];
        }
      }
    }

    /** An empty state or a payload that is no JSON object is refused. */
    method Resolve(state: Option<Token>, payload: Option<Payload>) returns (accepted: bool)
      requires Valid()
      modifies `records, repr
      ensures Valid()
      ensures accepted <==> state.Some? && payload.Some? && Accepts(old(View()), state.value)
      ensures View() == if accepted then Resolved(old(View()), state.value, payload.value) else old(View())
    {
      accepted := false;
      if state.Some? && payload.Some? && state.value in jobs {
        var job := jobs[state.value];
        if job.dispatched && !job.done {
          Answer(state.value, payload.value);
          accepted := true;
        }
      }
    }

    method TakeLate(state: Option<Token>, payload: Option<Payload>) returns (job: Option<Job>)
      requires Valid()
      modifies `late
      ensures Valid()
      ensures job.Some? <==> state.Some? && payload.Some? && state.value in old(late)
      ensures job.Some? ==> job.value == old(late)[state.value]
      ensures View() == if job.Some? then LateTaken(old(View()), state.value) else old(View())
    {
      if state.None? || payload.None? || state.value !in late {
        return None;
      }
      job := Some(late[state.value]);
      late := late - {state.value};
    }

    /** The loop of `close` over the registered jobs. */
    method FinishJobs()
      requires Valid()
      modifies `records, repr
      ensures Valid()
      ensures records == ClosedSome(old(records), jobs.Keys)
    {
      var finished: set<Token> := {};
      while exists t :: t in jobs && t !in finished
        invariant Valid() && finished <= jobs.Keys
        invariant records == ClosedSome(old(records), finished)
        decreases jobs.Keys - finished
      {
        var t :| t in jobs && t !in finished;
        ClosedSomeStep(old(records), finished, t);
        Finish(t);
        finished := finished + {t};
      }
      assert finished == jobs.Keys;
    }

    method Close()
      requires Valid()
      modifies `late, `queue, `serving, `closed, `records, repr
      ensures Valid()
      ensures View() == Closed(old(View()))
    {
      FinishJobs();
      serving := false;
      closed := true;
      late := map[];
      queue := [];
    }
  }

  lemma {:induction false} RemoveAbsent(q: seq<Token>, t: Token)
    requires t !in q
    ensures RemoveFirst(q, t) == q
  {
    if q == [] {
    } else {
      RemoveAbsent(q[1..], t);
      assert q == [q[0]] + q[1..];
    }
  }

  /** The unlocked tail of `request`, on a record nothing changes any more. */
  method Report(job: Job, finished: bool, cancelSet: bool) returns (ending: Ending)
    ensures Truthful(ending, job.Contents(), finished, cancelSet)
  {
    if job.closed {
      return SignerClosed(job.dispatched);
    }
    if !finished {
      if job.dispatched {
        return NoAnswer;
      }
      if cancelSet {
        return CallCancelled;
      }
      return NoTab;
    }
    ending := AnswerEnding(job.result);
  }
}
