/**
 The object of `CheckQueueLoop.dfy` simulates the state machine of `CheckQueue.dfy`: what a thread does from
 taking the mutex until it releases it or waits (`src/checkqueue.h:81-127`), what it executes in between
 (`src/checkqueue.h:129-134`) and the critical section of `Add` (`src/checkqueue.h:172-189`) are steps of the
 whole system. Whatever holds in every run of the machine therefore holds of the fields of the object.
 */
module CheckQueueSimulation {
  import opened Basics
  import opened CheckQueues
  import opened CheckQueueRuns
  import opened CheckQueueLoops

  /** The object has the shared fields of `s`, and the frame the local variables of thread `t`. */
  ghost predicate Matches<R>(s: State<R>, t: nat, queue: CheckQueue<R>, frame: Frame<R>)
    reads queue, frame
  {
    && t < |s.threads| && s.q == queue.Fields() && s.batchSize == queue.nBatchSize
    && s.threads[t] == frame.Locals(s.threads[t].phase)
  }

  /** How the state machine goes on after a critical section that ended with `decision`. */
  ghost predicate Follows<R>(s: State<R>, t: nat, e: Event<R>, s': State<R>, decision: Decision<R>) {
    && Step(s, e, s') && t < |s'.threads|
    && match decision
       case Took => s'.threads[t].phase == Working
       case Slept => s'.threads[t].phase == Waiting(false)
       case Finished(result) => t == 0 && e == Completed(result) && s'.threads[t].phase == Outside
  }

  /** From the top of `Loop` until the mutex is released: the clean-up, then the inner loop. */
  method Lock<R(==)>(queue: CheckQueue<R>, frame: Frame<R>, fMaster: bool, ghost s: State<R>, ghost t: nat)
    returns (decision: Decision<R>, ghost e: Event<R>, ghost s': State<R>)
    requires Matches(s, t, queue, frame) && MayLock(s, t) && fMaster == (t == 0)
    modifies queue, frame
    ensures Follows(s, t, e, s', decision) && queue.Fields() == s'.q && s'.batchSize == queue.nBatchSize
    ensures !decision.Finished? ==> e == Locked(t) && Matches(s', t, queue, frame)
  {
    hide Proceed;
    var notifyMaster := queue.Account(frame, fMaster);
    ghost var mid := CleanUp(s, t);
    assert Matches(mid, t, queue, frame) && mid.threads[t].phase == Holding;
    decision := Finish(queue, frame, fMaster, mid, t);
    s' := Proceed(mid, t);
    e := if decision.Finished? then Completed(decision.result) else Locked(t);
  }

  /** The inner loop, in a critical section of thread `t`. */
  method Finish<R(==)>(queue: CheckQueue<R>, frame: Frame<R>, fMaster: bool, ghost s: State<R>, ghost t: nat)
    returns (decision: Decision<R>)
    requires Matches(s, t, queue, frame) && s.threads[t].phase == Holding && fMaster == (t == 0)
    modifies queue, frame
    ensures queue.Fields() == Proceed(s, t).q && queue.nBatchSize == Proceed(s, t).batchSize
    ensures |Proceed(s, t).threads| == |s.threads| && (decision.Finished? <==> Returns(s, t))
    ensures decision.Finished? ==> decision.result == s.q.result && Proceed(s, t).threads[t].phase == Outside
    ensures !decision.Finished? ==> Matches(Proceed(s, t), t, queue, frame)
    ensures decision.Took? ==> Proceed(s, t).threads[t].phase == Working
    ensures decision.Slept? ==> Proceed(s, t).threads[t].phase == Waiting(false)
  {
    hide BatchLength;
    decision := queue.Continue(frame, fMaster);
  }

  /** From the return of the wait until the mutex is released. */
  method Wake<R(==)>(queue: CheckQueue<R>, frame: Frame<R>, fMaster: bool, ghost s: State<R>, ghost t: nat)
    returns (decision: Decision<R>, ghost e: Event<R>, ghost s': State<R>)
    requires Matches(s, t, queue, frame) && MayWake(s, t) && fMaster == (t == 0)
    modifies queue, frame
    ensures Follows(s, t, e, s', decision) && queue.Fields() == s'.q && s'.batchSize == queue.nBatchSize
    ensures !decision.Finished? ==>
              e == Woken(t, !s.threads[t].phase.notified) && Matches(s', t, queue, frame)
  {
    hide Proceed;
    queue.WakeUp(frame);
    ghost var mid := Awake(s, t);
    assert Matches(mid, t, queue, frame) && mid.threads[t].phase == Holding;
    decision := Finish(queue, frame, fMaster, mid, t);
    s' := Proceed(mid, t);
    e := if decision.Finished? then Completed(decision.result) else Woken(t, !s.threads[t].phase.notified);
  }

  /** The master adds the next `count` checks. */
  method Add<R(==)>(queue: CheckQueue<R>, count: nat, checks: seq<nat>, ghost s: State<R>) returns (ghost s': State<R>)
    requires 0 < |s.threads| && s.q == queue.Fields() && s.threads[0].phase.Outside?
    requires checks == Fresh(s.added, count)
    modifies queue
    ensures Step(s, Added(count), s') && queue.Fields() == s'.q
  {
    queue.Add(checks);
    s' := Append(s, count);
  }

  // ----- Executing a batch -----

  /** The states from `states[0]` on follow each other by executing checks in thread `t`. */
  ghost predicate RunsOnly<R>(states: seq<State<R>>, t: nat, outcome: nat -> Option<R>) {
    forall i :: 0 <= i < |states| - 1 ==>
      && MayRun(states[i], t)
      && var check := states[i].threads[t].checks[states[i].threads[t].next];
         Step(states[i], Ran(t, check, outcome(check)), states[i + 1])
  }

  lemma {:induction false} RunSteps<R>(s: State<R>, t: nat, outcome: nat -> Option<R>) returns (states: seq<State<R>>)
    requires t < |s.threads| && s.threads[t].phase.Working?
    ensures states != [] && states[0] == s && RunsOnly(states, t, outcome)
    ensures var last := states[|states| - 1];
            last.q == s.q && last.batchSize == s.batchSize &&
            last.threads == s.threads[t := RunAll(s.threads[t], outcome)]
    decreases |s.threads[t].checks| - s.threads[t].next
  {
    if MayRun(s, t) {
      var check := s.threads[t].checks[s.threads[t].next];
      var s1 := Execute(s, t, outcome(check));
      var rest := RunSteps(s1, t, outcome);
      states := [s] + rest;
      assert Step(s, Ran(t, check, outcome(check)), s1);
    } else {
      states := [s];
    }
  }

  /** Executing the batch is a run of steps of the machine, one for each check executed. */
  method Run<R(==)>(queue: CheckQueue<R>, frame: Frame<R>, outcome: nat -> Option<R>, ghost s: State<R>, ghost t: nat)
    returns (ghost states: seq<State<R>>)
    requires Matches(s, t, queue, frame) && s.threads[t].phase.Working? && frame.next == 0
    modifies frame
    ensures states != [] && states[0] == s && RunsOnly(states, t, outcome)
    ensures var last := states[|states| - 1]; Matches(last, t, queue, frame) && MayLock(last, t)
  {
    states := RunSteps(s, t, outcome);
    frame.Run(outcome);
  }

  /**
   After a critical section the run goes on; and when the object returns from `Complete`, its result is none
   exactly when every check added since the previous return was executed and returned none, and otherwise
   what one of them returned.
   */
  lemma ReturnedVerdict<R(!new)>(states: seq<State<R>>, events: seq<Event<R>>, t: nat, e: Event<R>, s': State<R>,
                                 decision: Decision<R>)
    requires Behaviour(states, events) && Follows(states[|events|], t, e, s', decision)
    ensures Behaviour(states + [s'], events + [e])
    ensures decision.Finished? ==>
              var first, last := RoundStart(events), AddedIn(events);
              && (decision.result.None? <==> forall c :: first <= c < last ==> Returned(events, c, None))
              && (decision.result.Some? ==> exists c :: first <= c < last && Returned(events, c, decision.result))
  {
    hide Step, Initial;
    Continued(states, events, e, s');
    if decision.Finished? {
      assert (events + [e])[..|events|] == events;
      CompleteVerdict(states + [s'], events + [e], |events|);
    }
  }

  lemma Continued<R>(states: seq<State<R>>, events: seq<Event<R>>, e: Event<R>, s': State<R>)
    requires Behaviour(states, events) && Step(states[|events|], e, s')
    ensures Behaviour(states + [s'], events + [e])
  {
    hide Step, Initial;
    var states', events' := states + [s'], events + [e];
    forall i | 0 <= i < |events'| ensures Step(states'[i], events'[i], states'[i + 1]) {
      if i < |events| {
        assert Step(states[i], events[i], states[i + 1]);
      }
    }
  }
}
