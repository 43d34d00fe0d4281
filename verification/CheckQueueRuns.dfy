/**
 What the check queue promises over every interleaving of the master and any number of workers
 (`src/checkqueue.h:20-31`): the verdict of `Complete`, the place of every check, and progress.
 */
module CheckQueueRuns {
  import opened Basics
  import opened CheckQueues
  import opened CheckQueueInvariants

  /** A run from a state before any thread has entered `Loop`. */
  ghost predicate Behaviour<R>(states: seq<State<R>>, events: seq<Event<R>>) {
    && |states| == |events| + 1
    && Initial(states[0])
    && forall i :: 0 <= i < |events| ==> Step(states[i], events[i], states[i + 1])
  }

  lemma {:induction false} BehaviourInv<R>(states: seq<State<R>>, events: seq<Event<R>>, i: nat)
    requires Behaviour(states, events) && i < |states|
    ensures Inv(states[i])
  {
    hide Inv, Step, Initial;
    if i == 0 {
      InitialInv(states[0]);
    } else {
      BehaviourInv(states, events, i - 1);
      StepInv(states[i - 1], events[i - 1], states[i]);
    }
  }

  // ----- What a run has done so far -----

  /** The number of checks added. */
  function AddedIn<R>(events: seq<Event<R>>): nat {
    if events == [] then 0
    else
      var last := events[|events| - 1];
      AddedIn(events[..|events| - 1]) + if last.Added? then last.count else 0
  }

  /** The number of checks added before `Complete` last returned. */
  function RoundStart<R>(events: seq<Event<R>>): nat {
    if events == [] then 0
    else if events[|events| - 1].Completed? then AddedIn(events)
    else RoundStart(events[..|events| - 1])
  }

  /** The check was executed and returned `outcome`. */
  ghost predicate Returned<R>(events: seq<Event<R>>, check: nat, outcome: Option<R>) {
    exists j :: 0 <= j < |events| && events[j].Ran? && events[j].check == check && events[j].outcome == outcome
  }

  /** What each event does to the history recorded in the state. */
  ghost predicate Records<R>(s: State<R>, e: Event<R>, s': State<R>) {
    && s'.added == s.added + (if e.Added? then e.count else 0)
    && s'.roundStart == (if e.Completed? then s.added else s.roundStart)
    && s'.outcomes == if e.Ran? then s.outcomes[e.check := e.outcome] else s.outcomes
  }

  lemma ProceedRecords<R>(s: State<R>, t: nat)
    requires t < |s.threads|
    ensures var s' := Proceed(s, t);
            && s'.added == s.added && s'.outcomes == s.outcomes
            && s'.roundStart == if s.q.queue == [] && Returns(s, t) then s.added else s.roundStart
  {
    hide Take;
  }

  lemma CleanUpRecords<R>(s: State<R>, t: nat)
    requires t < |s.threads|
    ensures var s' := CleanUp(s, t);
            |s'.threads| == |s.threads| && s'.added == s.added && s'.outcomes == s.outcomes &&
            s'.roundStart == s.roundStart
  {
  }

  lemma AwakeRecords<R>(s: State<R>, t: nat)
    requires t < |s.threads|
    ensures var s' := Awake(s, t);
            |s'.threads| == |s.threads| && s'.added == s.added && s'.outcomes == s.outcomes &&
            s'.roundStart == s.roundStart
  {
  }

  lemma StepRecords<R>(s: State<R>, e: Event<R>, s': State<R>)
    requires Step(s, e, s')
    ensures Records(s, e, s')
  {
    hide Proceed, CleanUp, Awake, Reached, Thread.Finished;
    match e
    case Added(count) =>
    case Announced(woken) =>
    case Locked(t) =>
      CleanUpRecords(s, t);
      ProceedRecords(CleanUp(s, t), t);
    case Woken(t, spurious) =>
      AwakeRecords(s, t);
      ProceedRecords(Awake(s, t), t);
    case Ran(t, check, outcome) =>
    case Completed(result) =>
      CleanUpRecords(s, 0);
      AwakeRecords(s, 0);
      ProceedRecords(CleanUp(s, 0), 0);
      ProceedRecords(Awake(s, 0), 0);
  }

  lemma {:induction false} History<R(!new)>(states: seq<State<R>>, events: seq<Event<R>>, i: nat)
    requires Behaviour(states, events) && i < |states|
    ensures states[i].added == AddedIn(events[..i]) && states[i].roundStart == RoundStart(events[..i])
    ensures forall c, o :: c in states[i].outcomes && states[i].outcomes[c] == o <==> Returned(events[..i], c, o)
  {
    hide Step;
    if i > 0 {
      History(states, events, i - 1);
      var s, e, s' := states[i - 1], events[i - 1], states[i];
      StepRecords(s, e, s');
      var before, upto := events[..i - 1], events[..i];
      assert upto[..i - 1] == before && upto[i - 1] == e;
      forall c, o ensures c in s'.outcomes && s'.outcomes[c] == o <==> Returned(upto, c, o) {
        ReturnedStep(before, e, c, o);
        assert upto == before + [e];
        if e.Ran? && e.check == c {
          BehaviourInv(states, events, i - 1);
          RanIsNew(s, e, s');
        }
      }
    }
  }

  lemma ReturnedStep<R>(events: seq<Event<R>>, e: Event<R>, c: nat, o: Option<R>)
    ensures Returned(events + [e], c, o) <==> Returned(events, c, o) || (e.Ran? && e.check == c && e.outcome == o)
  {
    var all := events + [e];
    if Returned(events, c, o) {
      var j :| 0 <= j < |events| && events[j].Ran? && events[j].check == c && events[j].outcome == o;
      assert all[j] == events[j];
    }
    if e.Ran? && e.check == c && e.outcome == o {
      assert all[|events|] == e;
    }
  }

  lemma RanIsNew<R>(s: State<R>, e: Event<R>, s': State<R>)
    requires Inv(s) && Step(s, e, s') && e.Ran?
    ensures e.check !in s.outcomes && s.roundStart <= e.check < s.added
  {
    hide Counted, Judged, MasterOk;
    NotYetRun(s, e.thread);
  }

  // ----- The verdict -----

  /** A returning master leaves the verdict of the checks of its round. */
  lemma ReturnsVerdict<R>(s: State<R>)
    requires Inv(s) && Returns(s, 0)
    ensures s.q.result.None? <==> forall c :: s.roundStart <= c < s.added ==> c in s.outcomes && s.outcomes[c].None?
    ensures s.q.result.Some? ==>
              exists c :: s.roundStart <= c < s.added && c in s.outcomes && s.outcomes[c] == s.q.result
  {
    hide Held, Counted, Recorded;
    assert Held(s) == multiset{};
  }

  lemma CompletedVerdict<R>(s: State<R>, result: Option<R>, s': State<R>)
    requires Inv(s) && Step(s, Completed(result), s')
    ensures result.None? <==> forall c :: s.roundStart <= c < s.added ==> c in s.outcomes && s.outcomes[c].None?
    ensures result.Some? ==> exists c :: s.roundStart <= c < s.added && c in s.outcomes && s.outcomes[c] == result
  {
    hide Core, CleanUp, Awake, Proceed, Thread.Finished;
    if MayLock(s, 0) && Returns(CleanUp(s, 0), 0) && result == CleanUp(s, 0).q.result {
      CleanUpInv(s, 0);
      CleanUpRecords(s, 0);
      ReturnsVerdict(CleanUp(s, 0));
    } else {
      AwakeInv(s, 0);
      AwakeRecords(s, 0);
      ReturnsVerdict(Awake(s, 0));
    }
  }

  /**
   In every run, `Complete` returns none exactly when every check added since it last returned was
   executed and returned none; otherwise it returns what one of these checks returned.
   */
  lemma CompleteVerdict<R(!new)>(states: seq<State<R>>, events: seq<Event<R>>, i: nat)
    requires Behaviour(states, events) && i < |events| && events[i].Completed?
    ensures var first, last := RoundStart(events[..i]), AddedIn(events[..i]);
            && (events[i].result.None? <==> forall c :: first <= c < last ==> Returned(events[..i], c, None))
            && (events[i].result.Some? ==> exists c :: first <= c < last && Returned(events[..i], c, events[i].result))
  {
    hide Inv, Step;
    BehaviourInv(states, events, i);
    History(states, events, i);
    var s, result := states[i], events[i].result;
    CompletedVerdict(s, result, states[i + 1]);
    if result.Some? {
      var c :| s.roundStart <= c < s.added && c in s.outcomes && s.outcomes[c] == result;
      assert Returned(events[..i], c, result);
    }
    forall c: nat | s.roundStart <= c < s.added
      ensures Returned(events[..i], c, None) <==> c in s.outcomes && s.outcomes[c].None?
    {
    }
    if !result.None? {
      var c :| s.roundStart <= c < s.added && !(c in s.outcomes && s.outcomes[c].None?);
      assert !Returned(events[..i], c, None);
    }
  }

  /** No check is executed twice, and every check is executed in the round it was added to. */
  lemma RunAtMostOnce<R(!new)>(states: seq<State<R>>, events: seq<Event<R>>, k: nat)
    requires Behaviour(states, events) && k < |events| && events[k].Ran?
    ensures RoundStart(events[..k]) <= events[k].check < AddedIn(events[..k])
    ensures forall j :: 0 <= j < k && events[j].Ran? ==> events[j].check != events[k].check
  {
    hide Inv, Step;
    BehaviourInv(states, events, k);
    History(states, events, k);
    RanIsNew(states[k], events[k], states[k + 1]);
    forall j | 0 <= j < k && events[j].Ran? ensures events[j].check in states[k].outcomes {
      assert events[..k][j] == events[j];
      assert Returned(events[..k], events[j].check, events[j].outcome);
    }
  }

  /** `nTodo` counts the queue and the batches, and no check is in two of these places or twice in one. */
  lemma EveryCheckHeldOnce<R>(states: seq<State<R>>, events: seq<Event<R>>, i: nat)
    requires Behaviour(states, events) && i < |states|
    ensures states[i].q.nTodo == |states[i].q.queue| + |Batches(states[i].threads)|
    ensures forall c :: (multiset(states[i].q.queue) + Batches(states[i].threads))[c] <= 1
    ensures states[i].q.nIdle == Sum(Idle, states[i].threads) && states[i].q.nTotal == Sum(Total, states[i].threads)
  {
    hide Recorded, Judged, MasterOk, Behaviour, Batches, Sum;
    BehaviourInv(states, events, i);
    var s := states[i];
    assert |multiset(s.q.queue) + Batches(s.threads)| == |multiset(s.q.queue)| + |Batches(s.threads)|;
  }

  /** The event is a critical section of thread `t` in `Loop`. */
  predicate ByThread<R>(e: Event<R>, t: nat) {
    (e.Locked? && e.thread == t) || (e.Woken? && e.thread == t)
  }

  /** In every run, a thread takes its batch from the back of the queue, and no more than its share. */
  lemma BatchInRun<R>(states: seq<State<R>>, events: seq<Event<R>>, i: nat, t: nat)
    requires Behaviour(states, events) && i < |events| && ByThread(events[i], t)
    requires t < |states[i + 1].threads| && states[i + 1].threads[t].phase.Working?
    ensures var q, q', batch := states[i].q, states[i + 1].q, states[i + 1].threads[t].checks;
            && q.queue == q'.queue + batch && batch != [] && q'.nTotal + q'.nIdle + 1 > 0
            && FairBatch(|batch|, states[i].batchSize, |q.queue|, q'.nTotal + q'.nIdle + 1)
  {
    hide Inv, BatchLength, FairBatch, Sum, Initial, Batches;
    EveryCheckHeldOnce(states, events, i + 1);
    SumNonNegative(Idle, states[i + 1].threads);
    SumNonNegative(Total, states[i + 1].threads);
    assert Step(states[i], events[i], states[i + 1]);
    StepTakes(states[i], events[i], states[i + 1], t);
  }

  lemma StepTakes<R>(s: State<R>, e: Event<R>, s': State<R>, t: nat)
    requires Step(s, e, s') && ByThread(e, t)
    requires t < |s'.threads| && s'.threads[t].phase.Working? && s'.q.nTotal + s'.q.nIdle + 1 > 0
    ensures var batch := s'.threads[t].checks;
            && s.q.queue == s'.q.queue + batch && batch != []
            && FairBatch(|batch|, s.batchSize, |s.q.queue|, s'.q.nTotal + s'.q.nIdle + 1)
  {
    hide Proceed, FairBatch;
    var mid := if e.Locked? then CleanUp(s, t) else Awake(s, t);
    assert mid.q.queue == s.q.queue && mid.batchSize == s.batchSize && |mid.threads| == |s.threads|;
    assert s' == Proceed(mid, t);
    ProceedTakes(mid, t);
  }

  lemma ProceedTakes<R>(s: State<R>, t: nat)
    requires t < |s.threads| && t < |Proceed(s, t).threads| && Proceed(s, t).threads[t].phase.Working?
    requires Proceed(s, t).q.nTotal + Proceed(s, t).q.nIdle + 1 > 0
    ensures var s' := Proceed(s, t);
            var batch := s'.threads[t].checks;
            && s.q.queue == s'.q.queue + batch && batch != []
            && FairBatch(|batch|, s.batchSize, |s.q.queue|, s'.q.nTotal + s'.q.nIdle + 1)
  {
    hide BatchLength, FairBatch;
    BatchFits(s.q, s.batchSize);
    BatchFair(s.q, s.batchSize);
  }

  // ----- Progress -----

  lemma {:induction false} SomeBatch<R>(threads: seq<Thread<R>>) returns (t: nat)
    requires Batches(threads) != multiset{}
    ensures t < |threads| && threads[t].phase.Working? && threads[t].checks != []
  {
    var n := |threads| - 1;
    if Batch(threads[n]) != multiset{} {
      t := n;
    } else {
      t := SomeBatch(threads[..n]);
    }
  }

  /** A master asleep without a notification is waiting for a worker that still holds a batch. */
  lemma SleepingMasterAwaited<R>(states: seq<State<R>>, events: seq<Event<R>>, i: nat) returns (t: nat)
    requires Behaviour(states, events) && i < |states|
    requires states[i].threads != [] && states[i].threads[0].phase == Waiting(false)
    ensures 0 < t < |states[i].threads| && states[i].threads[t].phase.Working? && states[i].threads[t].checks != []
    ensures states[i].q.queue == []
  {
    hide Behaviour;
    BehaviourInv(states, events, i);
    t := Awaited(states[i]);
  }

  lemma Awaited<R>(s: State<R>) returns (t: nat)
    requires Inv(s) && s.threads[0].phase == Waiting(false)
    ensures 0 < t < |s.threads| && s.threads[t].phase.Working? && s.threads[t].checks != [] && s.q.queue == []
  {
    hide Batches, Recorded, Judged, Counted;
    assert Held(s) == Batches(s.threads);
    t := SomeBatch(s.threads);
  }

  /** The master has called `Complete` and not yet returned. */
  ghost predicate InComplete<R>(s: State<R>) {
    s.threads != [] && (s.threads[0].phase.Waiting? || s.threads[0].phase.Working?)
  }

  predicate Spurious<R>(e: Event<R>) {
    e.Woken? && e.spurious
  }

  /** Until `Complete` returns, there is always a step to take that is not a spurious wake-up. */
  lemma NeverStuck<R(!new)>(s: State<R>)
    requires Inv(s) && InComplete(s)
    ensures exists e, s' :: Step(s, e, s') && !Spurious(e)
  {
    hide Core, CleanUp, Awake, Proceed, Execute;
    if s.threads[0].phase == Waiting(false) {
      var t := Awaited(s);
      WorkingMoves(s, t);
    } else if s.threads[0].phase.Waiting? {
      AwakeRecords(s, 0);
      if Returns(Awake(s, 0), 0) {
        assert Step(s, Completed(Awake(s, 0).q.result), Proceed(Awake(s, 0), 0));
      } else {
        assert Step(s, Woken(0, false), Proceed(Awake(s, 0), 0));
      }
    } else {
      WorkingMoves(s, 0);
    }
  }

  lemma WorkingMoves<R(!new)>(s: State<R>, t: nat)
    requires t < |s.threads| && s.threads[t].phase.Working?
    ensures exists e, s' :: Step(s, e, s') && !Spurious(e)
  {
    hide CleanUp, Proceed, Awake;
    var th := s.threads[t];
    CleanUpRecords(s, t);
    if !th.Finished() {
      var e := Ran(t, th.checks[th.next], None);
      assert Step(s, e, Execute(s, t, None)) && !Spurious(e);
    } else if Returns(CleanUp(s, t), t) {
      var e := Completed(CleanUp(s, t).q.result);
      assert Step(s, e, Proceed(CleanUp(s, t), t)) && !Spurious(e);
    } else {
      var e := Event<R>.Locked(t);
      assert Step(s, e, Proceed(CleanUp(s, t), t)) && !Spurious(e);
    }
  }

  /** Bounds the steps left: every queued check can still be taken, executed and accounted for. */
  ghost function StepsLeft<R>(s: State<R>): int {
    4 * |s.q.queue| + Sum(Effort, s.threads)
  }

  lemma StepsLeftNonNegative<R>(s: State<R>)
    requires Recorded(s)
    ensures StepsLeft(s) >= 0
  {
    hide Sum;
    forall t | 0 <= t < |s.threads| ensures Weight(Effort, s.threads[t]) >= 0 { ThreadFacts(s, t); }
    SumNonNegative(Effort, s.threads);
  }

  lemma NotifyEffort<R>(s: State<R>, t: nat)
    requires t < |s.threads|
    ensures StepsLeft(Notify(s, t)) <= StepsLeft(s) + 1
  {
    hide Sum;
    if s.threads[t].phase == Waiting(false) {
      SumUpdate(Effort, s.threads, t, s.threads[t].(phase := Waiting(true)));
    }
  }

  lemma CleanUpEffort<R>(s: State<R>, t: nat)
    requires Recorded(s) && MayLock(s, t)
    ensures StepsLeft(CleanUp(s, t)) < StepsLeft(s)
  {
    hide Sum, Recorded, Thread.Finished;
    ThreadFacts(s, t);
    var (q, th) := Settle(s.q, s.threads[t]);
    SumUpdate(Effort, s.threads, t, th);
    NotifyEffort(With(s, t, (q, th)), 0);
  }

  lemma AwakeEffort<R>(s: State<R>, t: nat)
    requires MayWake(s, t) && s.threads[t].phase.notified
    ensures StepsLeft(Awake(s, t)) < StepsLeft(s)
  {
    hide Sum;
    SumUpdate(Effort, s.threads, t, Stir(s.q, s.threads[t]).1);
  }

  lemma ProceedEffort<R>(s: State<R>, t: nat)
    requires t < |s.threads| && s.threads[t].phase.Holding? && !Returns(s, t)
    ensures StepsLeft(Proceed(s, t)) <= StepsLeft(s)
  {
    hide Sum, BatchLength;
    if s.q.queue != [] {
      BatchFits(s.q, s.batchSize);
      SumUpdate(Effort, s.threads, t, Take(s.q, s.threads[t], s.batchSize).1);
    } else {
      SumUpdate(Effort, s.threads, t, Sleep(s.q, s.threads[t]).1);
    }
  }

  lemma ExecuteEffort<R>(s: State<R>, t: nat, outcome: Option<R>)
    requires MayRun(s, t)
    ensures StepsLeft(Execute(s, t, outcome)) < StepsLeft(s)
  {
    hide Sum, Thread.Finished;
    SumUpdate(Effort, s.threads, t, s.threads[t].After(outcome));
  }

  lemma StepEffort<R>(s: State<R>, e: Event<R>, s': State<R>)
    requires Inv(s) && InComplete(s) && Step(s, e, s') && !Spurious(e) && !e.Completed?
    ensures StepsLeft(s') < StepsLeft(s)
  {
    hide Conserved, Counted, Recorded, Judged, CleanUp, Awake, Proceed, Execute, StepsLeft, Reached, Thread.Finished;
    match e
    case Locked(t) =>
      CleanUpInv(s, t);
      CleanUpEffort(s, t);
      ProceedEffort(CleanUp(s, t), t);
    case Woken(t, spurious) =>
      AwakeInv(s, t);
      AwakeEffort(s, t);
      ProceedEffort(Awake(s, t), t);
    case Ran(t, check, outcome) =>
      ExecuteEffort(s, t, outcome);
    case _ =>
  }

  /** Only the return of `Complete` takes the master out of it. */
  lemma StaysInComplete<R>(s: State<R>, e: Event<R>, s': State<R>)
    requires Inv(s) && InComplete(s) && Step(s, e, s') && !e.Completed?
    ensures InComplete(s')
  {
    hide Core, Thread.Finished, Reached, BatchLength;
    match e
    case Locked(t) =>
    case Woken(t, spurious) =>
    case Ran(t, check, outcome) =>
    case _ =>
  }

  /**
   `Complete` returns: from a reachable state with the master inside of it, a run without spurious
   wake-ups in which it does not return has at most `StepsLeft` steps. By `NeverStuck`, no such run
   ends before that.
   */
  lemma {:induction false} CompleteTerminates<R>(states: seq<State<R>>, events: seq<Event<R>>)
    requires |states| == |events| + 1 && Inv(states[0]) && InComplete(states[0])
    requires forall i :: 0 <= i < |events| ==> Step(states[i], events[i], states[i + 1])
    requires forall i :: 0 <= i < |events| ==> !Spurious(events[i]) && !events[i].Completed?
    ensures |events| <= StepsLeft(states[0])
  {
    hide Step, Core, InComplete, StepsLeft, Spurious;
    if events == [] {
      assert Recorded(states[0]) by { InvRecorded(states[0]); }
      StepsLeftNonNegative(states[0]);
    } else {
      var s, e, s' := states[0], events[0], states[1];
      StepInv(s, e, s');
      StepEffort(s, e, s');
      StaysInComplete(s, e, s');
      var states', events' := states[1..], events[1..];
      forall i | 0 <= i < |events'| ensures Step(states'[i], events'[i], states'[i + 1]) {
        assert Step(states[i + 1], events[i + 1], states[i + 2]);
      }
      CompleteTerminates(states', events');
    }
  }

  lemma InvRecorded<R>(s: State<R>)
    requires Inv(s)
    ensures Recorded(s)
  {
  }
}
