/**
 The invariant of the check queue, kept by every step: how `nTodo`, `nIdle` and `nTotal` count, where
 every check of the current round is, what `m_result` and the threads' `local_result` can hold, and
 when the master can be asleep.
 */
module CheckQueueInvariants {
  import opened Basics
  import opened CheckQueues

  // ----- Counting -----

  /** The batch a thread has taken and not yet accounted for. */
  ghost function Batch<R>(th: Thread<R>): multiset<nat> {
    if th.phase.Working? then multiset(th.checks) else multiset{}
  }

  ghost function Batches<R>(threads: seq<Thread<R>>): multiset<nat> {
    if threads == [] then multiset{} else Batches(threads[..|threads| - 1]) + Batch(threads[|threads| - 1])
  }

  /** The checks that are queued, or in a batch not yet accounted for. */
  ghost function Held<R>(s: State<R>): multiset<nat> {
    multiset(s.q.queue) + Batches(s.threads)
  }

  datatype Tally = Idle | Total | Effort

  /** `Effort` bounds the number of steps a thread can still take by itself. */
  ghost function Weight<R>(tally: Tally, th: Thread<R>): int {
    match tally
    case Idle => if th.phase.Waiting? then 1 else 0
    case Total => if th.phase.Waiting? || th.phase.Working? || th.phase.Holding? then 1 else 0
    case Effort =>
      if th.phase.Outside? || th.phase == Waiting(true) then 1
      else if th.phase.Working? then 3 * |th.checks| - th.next
      else 0
  }

  ghost function Sum<R>(tally: Tally, threads: seq<Thread<R>>): int {
    if threads == [] then 0 else Sum(tally, threads[..|threads| - 1]) + Weight(tally, threads[|threads| - 1])
  }

  lemma {:induction false} BatchesUpdate<R>(threads: seq<Thread<R>>, t: nat, th: Thread<R>)
    requires t < |threads|
    ensures Batches(threads[t := th]) + Batch(threads[t]) == Batches(threads) + Batch(th)
  {
    hide Batch;
    var n := |threads| - 1;
    var threads' := threads[t := th];
    if t < n {
      assert threads'[..n] == threads[..n][t := th];
      BatchesUpdate(threads[..n], t, th);
      var last := Batch(threads[n]);
      assert Batches(threads') == Batches(threads'[..n]) + last;
      Shuffle(Batches(threads'[..n]), Batch(threads[t]), Batches(threads[..n]), Batch(th), last);
    } else {
      assert threads'[..n] == threads[..n];
    }
  }

  lemma {:induction false} SumUpdate<R>(tally: Tally, threads: seq<Thread<R>>, t: nat, th: Thread<R>)
    requires t < |threads|
    ensures Sum(tally, threads[t := th]) == Sum(tally, threads) - Weight(tally, threads[t]) + Weight(tally, th)
  {
    hide Weight;
    var n := |threads| - 1;
    var threads' := threads[t := th];
    if t < n {
      assert threads'[..n] == threads[..n][t := th];
      SumUpdate(tally, threads[..n], t, th);
    } else {
      assert threads'[..n] == threads[..n];
    }
  }

  lemma {:induction false} BatchIncluded<R>(threads: seq<Thread<R>>, t: nat)
    requires t < |threads|
    ensures Batch(threads[t]) <= Batches(threads)
  {
    hide Batch;
    var n := |threads| - 1;
    if t < n {
      BatchIncluded(threads[..n], t);
    }
  }

  lemma {:induction false} TwoBatchesIncluded<R>(threads: seq<Thread<R>>, t: nat, u: nat)
    requires t < u < |threads|
    ensures Batch(threads[t]) + Batch(threads[u]) <= Batches(threads)
  {
    hide Batch;
    var n := |threads| - 1;
    if u < n {
      TwoBatchesIncluded(threads[..n], t, u);
    } else {
      BatchIncluded(threads[..n], t);
    }
  }

  lemma {:induction false} SumNonNegative<R>(tally: Tally, threads: seq<Thread<R>>)
    requires forall t :: 0 <= t < |threads| ==> Weight(tally, threads[t]) >= 0
    ensures Sum(tally, threads) >= 0
  {
    hide Weight;
    if threads != [] {
      SumNonNegative(tally, threads[..|threads| - 1]);
    }
  }

  // ----- The invariant -----

  /** `nTodo` counts the queued checks and all batches not accounted for; no check is in two places. */
  ghost predicate Conserved<R>(s: State<R>) {
    && s.q.nTodo == |Held(s)|
    && (forall c :: Held(s)[c] <= 1)
    && (forall c :: c in Held(s) ==> s.roundStart <= c < s.added)
  }

  ghost predicate Counted<R>(s: State<R>) {
    s.q.nIdle == Sum(Idle, s.threads) && s.q.nTotal == Sum(Total, s.threads)
  }

  /** A batch has been executed up to `next`, all but possibly the last of these without error. */
  ghost predicate BatchOk<R>(th: Thread<R>, outcomes: map<nat, Option<R>>, failed: bool) {
    && th.nNow == |th.checks| > 0
    && th.next <= |th.checks|
    && (th.doWork || (failed && th.next == 0))
    && (forall k :: 0 <= k < th.next ==> th.checks[k] in outcomes)
    && (forall k :: 0 <= k < th.next - 1 ==> outcomes[th.checks[k]].None?)
    && (th.next > 0 ==> th.local == outcomes[th.checks[th.next - 1]])
    && (forall k :: th.next <= k < |th.checks| ==> th.checks[k] !in outcomes)
  }

  ghost predicate ThreadOk<R>(th: Thread<R>, outcomes: map<nat, Option<R>>, failed: bool) {
    && (th.phase.Working? ==> BatchOk(th, outcomes, failed))
    && (th.phase.Outside? || th.phase.Notifying? ==> th.nNow == 0)
  }

  ghost predicate Recorded<R>(s: State<R>) {
    && (forall c :: c in s.q.queue ==> c !in s.outcomes)
    && (forall c :: c in s.outcomes ==> c < s.added)
    && (forall t :: 0 <= t < |s.threads| ==> ThreadOk(s.threads[t], s.outcomes, s.q.result.Some?))
  }

  /** A check of the current round that is neither queued nor in a batch ran without error, or there is an error. */
  ghost predicate Judged<R>(s: State<R>) {
    && (forall c :: s.roundStart <= c < s.added && c !in Held(s) ==>
          s.q.result.Some? || (c in s.outcomes && s.outcomes[c].None?))
    && (s.q.result.Some? ==>
          exists c :: s.roundStart <= c < s.added && c in s.outcomes && s.outcomes[c] == s.q.result)
  }

  /** The master is only asleep with an empty queue. */
  ghost predicate MasterOk<R>(s: State<R>) {
    && s.threads != [] && s.roundStart <= s.added
    && (forall t :: 0 < t < |s.threads| ==> !s.threads[t].phase.Notifying?)
    && (s.threads[0].phase.Waiting? ==> s.q.queue == [])
  }

  /** The master is only asleep without a notification while checks are left. */
  ghost predicate Watched<R>(s: State<R>) {
    s.threads != [] && s.threads[0].phase == Waiting(false) ==> s.q.nTodo > 0
  }

  ghost predicate Core<R>(s: State<R>) {
    Conserved(s) && Counted(s) && Recorded(s) && Judged(s) && MasterOk(s)
  }

  ghost predicate Inv<R>(s: State<R>) {
    Core(s) && Watched(s)
  }

  lemma {:induction false} InitialBatches<R>(threads: seq<Thread<R>>)
    requires forall t :: 0 <= t < |threads| ==> threads[t] == Idler()
    ensures Batches(threads) == multiset{} && Sum(Idle, threads) == 0 && Sum(Total, threads) == 0
  {
    if threads != [] {
      InitialBatches(threads[..|threads| - 1]);
    }
  }

  lemma InitialInv<R>(s: State<R>)
    requires Initial(s)
    ensures Inv(s)
  {
    hide Batches, Sum;
    InitialBatches(s.threads);
  }

  /** Nothing but where the checks are matters for `Held`. */
  lemma HeldUpdate<R>(s: State<R>, t: nat, q: Shared<R>, th: Thread<R>)
    requires t < |s.threads|
    ensures Held(With(s, t, (q, th))) + (multiset(s.q.queue) + Batch(s.threads[t])) ==
            Held(s) + (multiset(q.queue) + Batch(th))
  {
    hide Batches, Batch;
    BatchesUpdate(s.threads, t, th);
    var a, b, c, d := Batches(s.threads[t := th]), Batch(s.threads[t]), Batches(s.threads), Batch(th);
    var x, y := multiset(q.queue), multiset(s.q.queue);
    assert (x + a) + (y + b) == (x + y) + (a + b);
    assert (y + c) + (x + d) == (x + y) + (c + d);
  }

  lemma HeldSame<R>(s: State<R>, t: nat, q: Shared<R>, th: Thread<R>)
    requires t < |s.threads| && multiset(q.queue) + Batch(th) == multiset(s.q.queue) + Batch(s.threads[t])
    ensures Held(With(s, t, (q, th))) == Held(s)
  {
    hide Held, Batch;
    HeldUpdate(s, t, q, th);
    Cancel(Held(With(s, t, (q, th))), Held(s), multiset(s.q.queue) + Batch(s.threads[t]));
  }

  lemma ConservedSame<R>(s: State<R>, s': State<R>)
    requires Conserved(s) && Held(s') == Held(s) && s'.q.nTodo == s.q.nTodo
    requires s'.roundStart == s.roundStart && s'.added == s.added
    ensures Conserved(s')
  {
  }

  lemma JudgedSame<R>(s: State<R>, s': State<R>)
    requires Judged(s) && Held(s') == Held(s) && s'.q.result == s.q.result && s'.outcomes == s.outcomes
    requires s'.roundStart == s.roundStart && s'.added == s.added
    ensures Judged(s')
  {
    hide Held;
  }

  lemma CountedUpdate<R>(s: State<R>, t: nat, q: Shared<R>, th: Thread<R>)
    requires Counted(s) && t < |s.threads|
    requires q.nIdle == s.q.nIdle - Weight(Idle, s.threads[t]) + Weight(Idle, th)
    requires q.nTotal == s.q.nTotal - Weight(Total, s.threads[t]) + Weight(Total, th)
    ensures Counted(With(s, t, (q, th)))
  {
    hide Weight, Sum;
    SumUpdate(Idle, s.threads, t, th);
    SumUpdate(Total, s.threads, t, th);
  }

  lemma RecordedUpdate<R>(s: State<R>, t: nat, q: Shared<R>, th: Thread<R>)
    requires Recorded(s) && t < |s.threads| && (s.q.result.Some? ==> q.result.Some?)
    requires forall c :: c in q.queue ==> c in s.q.queue
    requires ThreadOk(th, s.outcomes, q.result.Some?)
    ensures Recorded(With(s, t, (q, th)))
  {
  }

  // ----- Notification -----

  lemma NotifyCore<R>(s: State<R>, t: nat)
    requires Core(s) && t < |s.threads|
    ensures Core(Notify(s, t)) && (t == 0 || Watched(s) ==> Watched(Notify(s, t)))
  {
    hide Batches, Sum, BatchOk, Held, Counted, Judged, Recorded, Conserved;
    if s.threads[t].phase == Waiting(false) {
      var th := s.threads[t].(phase := Waiting(true));
      var s' := With(s, t, (s.q, th));
      HeldSame(s, t, s.q, th);
      ConservedSame(s, s');
      JudgedSame(s, s');
      CountedUpdate(s, t, s.q, th);
      RecordedUpdate(s, t, s.q, th);
      assert Notify(s, t) == s';
    }
  }

  // ----- Entering the critical section -----

  lemma ThreadFacts<R>(s: State<R>, t: nat)
    requires Recorded(s) && t < |s.threads|
    ensures ThreadOk(s.threads[t], s.outcomes, s.q.result.Some?)
  {
  }

  /** The first iteration of `Loop`. */
  lemma StartCore<R>(s: State<R>, t: nat)
    requires Inv(s) && t < |s.threads| && s.threads[t].phase.Outside?
    ensures s.threads[t].nNow == 0 && Inv(With(s, t, Settle(s.q, s.threads[t])))
  {
    hide Batches, Sum, BatchOk, Held, Counted, Judged, Recorded, Conserved;
    ThreadFacts(s, t);
    var (q, th) := Settle(s.q, s.threads[t]);
    var s' := With(s, t, (q, th));
    HeldSame(s, t, q, th);
    ConservedSame(s, s');
    JudgedSame(s, s');
    CountedUpdate(s, t, q, th);
    RecordedUpdate(s, t, q, th);
  }

  /** Accounting removes exactly the batch from what is held. */
  lemma AccountHeld<R>(s: State<R>, t: nat)
    requires t < |s.threads| && s.threads[t].phase.Working? && s.threads[t].nNow > 0
    ensures Held(With(s, t, Settle(s.q, s.threads[t]))) + multiset(s.threads[t].checks) == Held(s)
  {
    hide Held;
    var (q, th) := Settle(s.q, s.threads[t]);
    HeldUpdate(s, t, q, th);
    var a, b := Held(With(s, t, (q, th))), Held(s);
    var x, y := multiset(s.q.queue), multiset(s.threads[t].checks);
    assert a + (x + y) == (a + y) + x;
    assert b + (x + multiset{}) == b + x;
    Cancel(a + y, b, x);
  }

  lemma AccountConserved<R>(s: State<R>, t: nat)
    requires Conserved(s) && Recorded(s) && t < |s.threads| && s.threads[t].phase.Working?
    ensures Conserved(With(s, t, Settle(s.q, s.threads[t])))
  {
    hide Held, Recorded;
    ThreadFacts(s, t);
    AccountHeld(s, t);
    var a, b := Held(With(s, t, Settle(s.q, s.threads[t]))), multiset(s.threads[t].checks);
    assert |a + b| == |a| + |b|;
    forall c ensures a[c] <= Held(s)[c] { assert (a + b)[c] == a[c] + b[c]; }
  }

  /** What a finished batch says: without an error, every check of it ran and returned none. */
  lemma FinishedBatch<R>(th: Thread<R>, outcomes: map<nat, Option<R>>, failed: bool)
    requires BatchOk(th, outcomes, failed) && th.Finished() && !failed
    ensures th.local.None? ==> forall c :: c in th.checks ==> c in outcomes && outcomes[c].None?
    ensures th.local.Some? ==> exists c :: c in th.checks && c in outcomes && outcomes[c] == th.local
  {
    if th.local.None? {
      forall c | c in th.checks ensures c in outcomes && outcomes[c].None? {
        var k :| 0 <= k < |th.checks| && th.checks[k] == c;
      }
    } else {
      assert th.checks[th.next - 1] in th.checks;
    }
  }

  lemma AccountJudged<R>(s: State<R>, t: nat)
    requires Conserved(s) && Recorded(s) && Judged(s) && t < |s.threads|
    requires s.threads[t].phase.Working? && s.threads[t].Finished()
    ensures Judged(With(s, t, Settle(s.q, s.threads[t])))
  {
    hide Held, Recorded, BatchOk, Thread.Finished;
    ThreadFacts(s, t);
    var before, checks := s.threads[t], s.threads[t].checks;
    assert before.nNow > 0 by { BatchNonEmpty(before, s.outcomes, s.q.result.Some?); }
    AccountHeld(s, t);
    var s' := With(s, t, Settle(s.q, before));
    var held: multiset<nat>, batch: multiset<nat> := Held(s'), multiset(checks);
    if s.q.result.None? {
      FinishedBatch(before, s.outcomes, false);
      forall c: nat | s.roundStart <= c < s.added && c !in held
        ensures s'.q.result.Some? || (c in s.outcomes && s.outcomes[c].None?)
      {
        assert (held + batch)[c] == batch[c];
      }
      if before.local.Some? {
        var c :| c in checks && c in s.outcomes && s.outcomes[c] == before.local;
        assert (held + batch)[c] > 0;
      }
    }
  }

  lemma BatchNonEmpty<R>(th: Thread<R>, outcomes: map<nat, Option<R>>, failed: bool)
    requires BatchOk(th, outcomes, failed)
    ensures th.nNow == |th.checks| > 0
  {
  }

  /** The clean-up of a batch keeps everything but the promise that a sleeping master has work to wait for. */
  lemma AccountCore<R>(s: State<R>, t: nat)
    requires Core(s) && t < |s.threads| && s.threads[t].phase.Working? && s.threads[t].Finished()
    ensures s.threads[t].nNow > 0 && Core(With(s, t, Settle(s.q, s.threads[t])))
  {
    hide Batches, Sum, BatchOk, Held, Counted, Judged, Recorded, Conserved, Thread.Finished;
    AccountConserved(s, t);
    AccountJudged(s, t);
    ThreadFacts(s, t);
    BatchNonEmpty(s.threads[t], s.outcomes, s.q.result.Some?);
    var (q, th) := Settle(s.q, s.threads[t]);
    CountedUpdate(s, t, q, th);
    RecordedUpdate(s, t, q, th);
  }

  lemma TodoNonNegative<R>(s: State<R>)
    requires Core(s)
    ensures s.q.nTodo >= 0
  {
  }

  /** A notified master need not have work to wait for. */
  lemma AccountInv<R>(s: State<R>, t: nat)
    requires Core(s) && Watched(s) && t < |s.threads| && s.threads[t].phase.Working? && s.threads[t].Finished()
    ensures Inv(CleanUp(s, t)) && CleanUp(s, t).threads[t].phase.Holding?
  {
    hide Core, Thread.Finished;
    AccountCore(s, t);
    var s' := With(s, t, Settle(s.q, s.threads[t]));
    TodoNonNegative(s');
    if s'.q.nTodo == 0 && t != 0 {
      NotifyCore(s', 0);
    }
  }

  lemma CleanUpInv<R>(s: State<R>, t: nat)
    requires Inv(s) && MayLock(s, t)
    ensures Inv(CleanUp(s, t)) && t < |CleanUp(s, t).threads| && CleanUp(s, t).threads[t].phase.Holding?
  {
    hide Core, Thread.Finished;
    if s.threads[t].phase.Outside? {
      StartCore(s, t);
    } else {
      AccountInv(s, t);
    }
  }

  lemma AwakeInv<R>(s: State<R>, t: nat)
    requires Inv(s) && MayWake(s, t)
    ensures Inv(Awake(s, t)) && t < |Awake(s, t).threads| && Awake(s, t).threads[t].phase.Holding?
  {
    hide Batches, Sum, BatchOk, Held, Counted, Judged, Recorded, Conserved;
    var (q, th) := Stir(s.q, s.threads[t]);
    var s' := With(s, t, (q, th));
    HeldSame(s, t, q, th);
    ConservedSame(s, s');
    JudgedSame(s, s');
    CountedUpdate(s, t, q, th);
    RecordedUpdate(s, t, q, th);
  }

  // ----- Leaving the critical section -----

  lemma TakeCore<R>(s: State<R>, t: nat)
    requires Inv(s) && t < |s.threads| && s.threads[t].phase.Holding? && s.q.queue != []
    ensures Inv(With(s, t, Take(s.q, s.threads[t], s.batchSize)))
  {
    hide Batches, Sum, BatchOk, Held, Counted, Judged, Conserved, BatchLength;
    BatchFits(s.q, s.batchSize);
    var (q, th) := Take(s.q, s.threads[t], s.batchSize);
    var s' := With(s, t, (q, th));
    assert s.q.queue == q.queue + th.checks;
    assert forall c :: c in th.checks ==> c in s.q.queue;
    HeldSame(s, t, q, th);
    ConservedSame(s, s');
    JudgedSame(s, s');
    CountedUpdate(s, t, q, th);
    NewBatchOk(th, s.outcomes, s.q.result.Some?);
    RecordedUpdate(s, t, q, th);
  }

  lemma NewBatchOk<R>(th: Thread<R>, outcomes: map<nat, Option<R>>, failed: bool)
    requires th.nNow == |th.checks| > 0 && th.next == 0 && th.doWork == !failed
    requires forall c :: c in th.checks ==> c !in outcomes
    ensures BatchOk(th, outcomes, failed)
  {
  }

  lemma SleepCore<R>(s: State<R>, t: nat)
    requires Inv(s) && t < |s.threads| && s.threads[t].phase.Holding? && s.q.queue == [] && !Returns(s, t)
    ensures Inv(With(s, t, Sleep(s.q, s.threads[t])))
  {
    TodoNonNegative(s);
    hide Batches, Sum, BatchOk, Held, Counted, Judged, Recorded, Conserved;
    var (q, th) := Sleep(s.q, s.threads[t]);
    var s' := With(s, t, (q, th));
    HeldSame(s, t, q, th);
    ConservedSame(s, s');
    JudgedSame(s, s');
    CountedUpdate(s, t, q, th);
    RecordedUpdate(s, t, q, th);
  }

  /** With nothing left to do, no thread holds a batch. */
  lemma NoneWorking<R>(s: State<R>, t: nat)
    requires Conserved(s) && Recorded(s) && s.q.nTodo == 0 && t < |s.threads|
    ensures !s.threads[t].phase.Working?
  {
    hide BatchOk;
    var th := s.threads[t];
    ThreadFacts(s, t);
    WorkingNonEmpty(th, s.outcomes, s.q.result.Some?);
    BatchIncluded(s.threads, t);
    assert Held(s) == multiset{};
    assert Batch(th) <= Held(s);
    assert th.phase.Working? ==> |Batch(th)| == |th.checks|;
  }

  lemma WorkingNonEmpty<R>(th: Thread<R>, outcomes: map<nat, Option<R>>, failed: bool)
    requires ThreadOk(th, outcomes, failed)
    ensures th.phase.Working? ==> |th.checks| > 0
  {
  }

  lemma LeaveCore<R>(s: State<R>)
    requires Inv(s) && s.threads[0].phase.Holding? && Returns(s, 0)
    ensures Inv(With(s, 0, Leave(s.q)).(roundStart := s.added))
  {
    hide Batches, Sum, BatchOk, Held, Counted;
    forall t | 0 <= t < |s.threads| ensures !s.threads[t].phase.Working? { NoneWorking(s, t); }
    var (q, th) := Leave(s.q);
    var s' := With(s, 0, (q, th));
    HeldSame(s, 0, q, th);
    CountedUpdate(s, 0, q, th);
    assert Held(s'.(roundStart := s.added)) == Held(s') by { HeldOf(s', s'.(roundStart := s.added)); }
    CountedOf(s', s'.(roundStart := s.added));
    assert Held(s) == multiset{};
  }

  lemma HeldOf<R>(s: State<R>, s': State<R>)
    requires s.threads == s'.threads && s.q.queue == s'.q.queue
    ensures Held(s) == Held(s')
  {
  }

  lemma CountedOf<R>(s: State<R>, s': State<R>)
    requires s.threads == s'.threads && s.q == s'.q && Counted(s)
    ensures Counted(s')
  {
  }

  lemma ProceedInv<R>(s: State<R>, t: nat)
    requires Inv(s) && t < |s.threads| && s.threads[t].phase.Holding?
    ensures Inv(Proceed(s, t))
  {
    hide Inv, Take;
    if s.q.queue != [] {
      TakeCore(s, t);
    } else if Returns(s, t) {
      LeaveCore(s);
    } else {
      SleepCore(s, t);
    }
  }

  // ----- Executing a check -----

  /** A check being executed is nowhere else. */
  lemma OnlyHere<R>(s: State<R>, t: nat, k: nat)
    requires Conserved(s) && t < |s.threads| && s.threads[t].phase.Working? && k < |s.threads[t].checks|
    ensures var c := s.threads[t].checks[k];
            && c !in s.q.queue
            && (forall u :: 0 <= u < |s.threads| && u != t && s.threads[u].phase.Working? ==> c !in s.threads[u].checks)
            && (forall j :: 0 <= j < |s.threads[t].checks| && j != k ==> s.threads[t].checks[j] != c)
            && s.roundStart <= c < s.added
  {
    var c := s.threads[t].checks[k];
    BatchIncluded(s.threads, t);
    assert c in Batch(s.threads[t]);
    assert Held(s)[c] >= multiset(s.q.queue)[c] + Batch(s.threads[t])[c];
    assert c in Held(s);
    forall u | 0 <= u < |s.threads| && u != t && s.threads[u].phase.Working? ensures c !in s.threads[u].checks {
      if t < u { TwoBatchesIncluded(s.threads, t, u); } else { TwoBatchesIncluded(s.threads, u, t); }
      assert (Batch(s.threads[t]) + Batch(s.threads[u]))[c] <= 1;
    }
    forall j | 0 <= j < |s.threads[t].checks| && j != k ensures s.threads[t].checks[j] != c {
      OnceIn(s.threads[t].checks, j, k);
    }
  }

  lemma OnceIn(s: seq<nat>, j: nat, k: nat)
    requires j < |s| && k < |s| && j != k
    ensures s[j] == s[k] ==> multiset(s)[s[j]] >= 2
  {
    var lo, hi := if j < k then j else k, if j < k then k else j;
    assert s == s[..lo + 1] + s[lo + 1..];
    assert s[lo] == s[..lo + 1][lo] && s[hi] == s[lo + 1..][hi - lo - 1];
    assert s[lo] in multiset(s[..lo + 1]) && s[hi] in multiset(s[lo + 1..]);
  }

  lemma OtherThreadOk<R>(th: Thread<R>, outcomes: map<nat, Option<R>>, failed: bool, c: nat, outcome: Option<R>)
    requires ThreadOk(th, outcomes, failed) && (th.phase.Working? ==> c !in th.checks)
    ensures ThreadOk(th, outcomes[c := outcome], failed)
  {
  }

  lemma ExecutedOk<R>(th: Thread<R>, outcomes: map<nat, Option<R>>, failed: bool, outcome: Option<R>)
    requires BatchOk(th, outcomes, failed) && !th.Finished()
    requires forall j :: 0 <= j < |th.checks| && j != th.next ==> th.checks[j] != th.checks[th.next]
    ensures BatchOk(th.After(outcome), outcomes[th.checks[th.next] := outcome], failed)
  {
    var c := th.checks[th.next];
    forall k | 0 <= k < th.next ensures th.checks[k] in outcomes && outcomes[th.checks[k]].None? {
      assert k == th.next - 1 ==> th.local == outcomes[th.checks[k]];
    }
  }

  lemma ExecuteRecorded<R>(s: State<R>, t: nat, outcome: Option<R>)
    requires Conserved(s) && Recorded(s) && MayRun(s, t)
    ensures Recorded(Execute(s, t, outcome))
  {
    hide BatchOk, Conserved;
    var th, s' := s.threads[t], Execute(s, t, outcome);
    var c := th.checks[th.next];
    OnlyHere(s, t, th.next);
    ExecutedOk(th, s.outcomes, s.q.result.Some?, outcome);
    forall u | 0 <= u < |s.threads| ensures ThreadOk(s'.threads[u], s'.outcomes, s.q.result.Some?) {
      if u != t { OtherThreadOk(s.threads[u], s.outcomes, s.q.result.Some?, c, outcome); }
    }
  }

  lemma ExecuteHeld<R>(s: State<R>, t: nat, outcome: Option<R>)
    requires Counted(s) && MayRun(s, t)
    ensures Held(Execute(s, t, outcome)) == Held(s) && Counted(Execute(s, t, outcome))
  {
    hide Batches, Sum, Held, Counted, Thread.Finished;
    var th := s.threads[t].After(outcome);
    var mid := With(s, t, (s.q, th));
    HeldSame(s, t, s.q, th);
    HeldOf(mid, Execute(s, t, outcome));
    CountedUpdate(s, t, s.q, th);
    CountedOf(mid, Execute(s, t, outcome));
  }

  lemma NotYetRun<R>(s: State<R>, t: nat)
    requires Conserved(s) && Recorded(s) && MayRun(s, t)
    ensures var c := s.threads[t].checks[s.threads[t].next]; c !in s.outcomes && s.roundStart <= c < s.added
  {
    hide Conserved;
    ThreadFacts(s, t);
    OnlyHere(s, t, s.threads[t].next);
  }

  lemma ExecuteInv<R>(s: State<R>, t: nat, outcome: Option<R>)
    requires Inv(s) && MayRun(s, t)
    ensures Inv(Execute(s, t, outcome))
  {
    hide Batches, Sum, BatchOk, Held, Counted, Recorded, Conserved, Judged, Thread.Finished;
    ExecuteRecorded(s, t, outcome);
    ExecuteHeld(s, t, outcome);
    ConservedSame(s, Execute(s, t, outcome));
    NotYetRun(s, t);
    ExecuteJudged(s, t, outcome);
  }

  lemma ExecuteJudged<R>(s: State<R>, t: nat, outcome: Option<R>)
    requires Judged(s) && MayRun(s, t) && Held(Execute(s, t, outcome)) == Held(s)
    requires s.threads[t].checks[s.threads[t].next] !in s.outcomes
    ensures Judged(Execute(s, t, outcome))
  {
    hide Held;
    var s' := Execute(s, t, outcome);
    if s.q.result.Some? {
      var c :| s.roundStart <= c < s.added && c in s.outcomes && s.outcomes[c] == s.q.result;
      assert c in s'.outcomes && s'.outcomes[c] == s.q.result;
    }
  }

  // ----- Adding checks -----

  lemma {:induction false} FreshChecks(first: nat, count: nat)
    ensures |multiset(Fresh(first, count))| == count
    ensures forall c :: multiset(Fresh(first, count))[c] <= 1
    ensures forall c :: c in multiset(Fresh(first, count)) <==> first <= c < first + count
  {
    hide Fresh;
    FreshNone(first);
    if count > 0 {
      FreshChecks(first, count - 1);
      FreshLast(first, count);
      var m := multiset(Fresh(first, count - 1));
      assert multiset(Fresh(first, count)) == m + multiset{first + count - 1};
    }
  }

  lemma FreshNone(first: nat)
    ensures Fresh(first, 0) == []
  {
  }

  lemma FreshLast(first: nat, count: nat)
    requires count > 0
    ensures Fresh(first, count) == Fresh(first, count - 1) + [first + count - 1]
  {
  }

  lemma AppendHeld<R>(s: State<R>, count: nat)
    requires s.threads != [] && s.threads[0].phase.Outside? && count > 0
    ensures Held(Append(s, count)) == Held(s) + multiset(Fresh(s.added, count))
  {
    hide Batches;
    var th := s.threads[0].(phase := Notifying(count));
    BatchesUpdate(s.threads, 0, th);
    assert Batch(th) == multiset{} == Batch(s.threads[0]);
    Cancel(Batches(s.threads[0 := th]), Batches(s.threads), multiset{});
    var extra := Fresh(s.added, count);
    assert multiset(s.q.queue + extra) == multiset(s.q.queue) + multiset(extra);
  }

  lemma AppendConserved<R>(s: State<R>, count: nat)
    requires Conserved(s) && MasterOk(s) && s.threads[0].phase.Outside? && count > 0
    ensures Conserved(Append(s, count))
  {
    hide Held;
    AppendHeld(s, count);
    FreshChecks(s.added, count);
    var extra := multiset(Fresh(s.added, count));
    forall c ensures Held(Append(s, count))[c] <= 1 {
      assert (Held(s) + extra)[c] == Held(s)[c] + extra[c];
    }
    forall c | c in Held(Append(s, count)) ensures s.roundStart <= c < s.added + count {
      assert (Held(s) + extra)[c] == Held(s)[c] + extra[c];
    }
    assert |Fresh(s.added, count)| == count;
  }

  lemma AppendRecorded<R>(s: State<R>, count: nat)
    requires Recorded(s) && s.threads != [] && s.threads[0].phase.Outside? && count > 0
    ensures Recorded(Append(s, count))
  {
    hide BatchOk;
    FreshChecks(s.added, count);
    forall c | c in s.q.queue + Fresh(s.added, count) ensures c !in s.outcomes {
      assert c in Fresh(s.added, count) ==> c in multiset(Fresh(s.added, count));
    }
  }

  lemma AppendJudged<R>(s: State<R>, count: nat)
    requires Judged(s) && s.threads != [] && s.threads[0].phase.Outside? && count > 0
    ensures Judged(Append(s, count))
  {
    hide Held;
    AppendHeld(s, count);
    FreshChecks(s.added, count);
    var s', extra := Append(s, count), multiset(Fresh(s.added, count));
    forall c | s'.roundStart <= c < s'.added && c !in Held(s')
      ensures s'.q.result.Some? || (c in s'.outcomes && s'.outcomes[c].None?)
    {
      assert (Held(s) + extra)[c] == Held(s)[c] + extra[c];
    }
  }

  lemma AppendCounted<R>(s: State<R>, count: nat)
    requires Counted(s) && s.threads != [] && s.threads[0].phase.Outside? && count > 0
    ensures Counted(Append(s, count))
  {
    hide Counted;
    var th := s.threads[0].(phase := Notifying(count));
    var q := Insert(s.q, Fresh(s.added, count));
    CountedUpdate(s, 0, q, th);
    CountedOf(With(s, 0, (q, th)), Append(s, count));
  }

  lemma AppendInv<R>(s: State<R>, count: nat)
    requires Inv(s) && s.threads[0].phase.Outside?
    ensures Inv(Append(s, count))
  {
    hide Batches, Sum, BatchOk, Held, Counted, Judged, Recorded, Conserved;
    if count > 0 {
      AppendConserved(s, count);
      AppendRecorded(s, count);
      AppendJudged(s, count);
      AppendCounted(s, count);
    }
  }

  // ----- Notifying the workers -----

  lemma {:induction false} BatchesSame<R>(a: seq<Thread<R>>, b: seq<Thread<R>>)
    requires |a| == |b| && forall t :: 0 <= t < |a| ==> Batch(a[t]) == Batch(b[t])
    requires forall t :: 0 <= t < |a| ==>
               Weight(Idle, a[t]) == Weight(Idle, b[t]) && Weight(Total, a[t]) == Weight(Total, b[t])
    ensures Batches(a) == Batches(b) && Sum(Idle, a) == Sum(Idle, b) && Sum(Total, a) == Sum(Total, b)
  {
    hide Batch, Weight;
    if a != [] {
      BatchesSame(a[..|a| - 1], b[..|b| - 1]);
    }
  }

  lemma AnnouncedThread<R>(s: State<R>, woken: set<nat>, t: nat)
    requires s.threads != [] && s.threads[0].phase.Notifying? && Reached(s, woken) && t < |s.threads|
    ensures var th, th' := s.threads[t], Announce(s, woken).threads[t];
            && Batch(th) == Batch(th') && Weight(Idle, th) == Weight(Idle, th') &&
               Weight(Total, th) == Weight(Total, th')
            && (th' == th || (!th'.phase.Working? && th'.nNow == th.nNow))
            && (th'.phase.Outside? ==> th.phase.Outside? || th.phase.Notifying?)
            && (th'.phase.Notifying? ==> t != 0 && th.phase.Notifying?)
            && (t == 0 ==> th'.phase.Outside?)
  {
  }

  lemma AnnounceHeld<R>(s: State<R>, woken: set<nat>)
    requires s.threads != [] && s.threads[0].phase.Notifying? && Reached(s, woken) && Counted(s)
    ensures Held(Announce(s, woken)) == Held(s) && Counted(Announce(s, woken))
  {
    hide Batches, Sum, Batch, Weight, Reached;
    forall t | 0 <= t < |s.threads|
      ensures var th, th' := s.threads[t], Announce(s, woken).threads[t];
              Batch(th) == Batch(th') && Weight(Idle, th) == Weight(Idle, th') &&
              Weight(Total, th) == Weight(Total, th')
    {
      AnnouncedThread(s, woken, t);
    }
    BatchesSame(s.threads, Announce(s, woken).threads);
  }

  lemma AnnounceRecorded<R>(s: State<R>, woken: set<nat>)
    requires s.threads != [] && s.threads[0].phase.Notifying? && Reached(s, woken) && Recorded(s)
    ensures Recorded(Announce(s, woken))
  {
    hide Reached, BatchOk;
    var s' := Announce(s, woken);
    forall t | 0 <= t < |s.threads| ensures ThreadOk(s'.threads[t], s'.outcomes, s'.q.result.Some?) {
      ThreadFacts(s, t);
      AnnouncedThread(s, woken, t);
    }
  }

  lemma AnnounceInv<R>(s: State<R>, woken: set<nat>)
    requires Inv(s) && s.threads[0].phase.Notifying? && Reached(s, woken)
    ensures Inv(Announce(s, woken))
  {
    hide Batches, Sum, BatchOk, Judged, Conserved, Counted, Recorded, Held, Reached;
    var s' := Announce(s, woken);
    AnnounceHeld(s, woken);
    AnnounceRecorded(s, woken);
    ConservedSame(s, s');
    JudgedSame(s, s');
    forall t | 0 <= t < |s.threads|
      ensures (t > 0 ==> !s'.threads[t].phase.Notifying?) && (t == 0 ==> s'.threads[t].phase.Outside?)
    {
      AnnouncedThread(s, woken, t);
    }
  }

  // ----- Every step -----

  lemma StepInv<R>(s: State<R>, e: Event<R>, s': State<R>)
    requires Inv(s) && Step(s, e, s')
    ensures Inv(s')
  {
    hide Core, Append, Announce, CleanUp, Awake, Proceed, Execute, Reached, Thread.Finished;
    match e
    case Added(count) => AppendInv(s, count);
    case Announced(woken) => AnnounceInv(s, woken);
    case Locked(t) => CleanUpInv(s, t); ProceedInv(CleanUp(s, t), t);
    case Woken(t, spurious) => AwakeInv(s, t); ProceedInv(Awake(s, t), t);
    case Ran(t, check, outcome) => ExecuteInv(s, t, outcome);
    case Completed(result) => CompletesInv(s, s', result);
  }

  lemma CompletesInv<R>(s: State<R>, s': State<R>, result: Option<R>)
    requires Inv(s) && Completes(s, s', result)
    ensures Inv(s')
  {
    hide Core, CleanUp, Awake, Proceed, Returns, Thread.Finished;
    if MayLock(s, 0) {
      CleanUpInv(s, 0);
      ProceedInv(CleanUp(s, 0), 0);
    }
    if MayWake(s, 0) {
      AwakeInv(s, 0);
      ProceedInv(Awake(s, 0), 0);
    }
  }
}
