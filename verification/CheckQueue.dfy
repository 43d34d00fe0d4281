/**
 The check queue (`src/checkqueue.h:72-189`) as a state machine.

 One thread, number 0, is the master; the others are workers. Every step is one critical section of
 the mutex, one check executed outside of it, a wake-up, or a notification. A check is named by the
 number of checks added before it. What a check returns is an arbitrary choice of the step that
 executes it, and is remembered in `outcomes`. Stop requests are not part of this model.
 */
module CheckQueues {
  import opened Basics

  /** The fields guarded by the mutex. */
  datatype Shared<R> = Shared(queue: seq<nat>, nIdle: int, nTotal: int, result: Option<R>, nTodo: int)

  datatype Phase =
    | Outside                   // a worker not yet started; the master outside `Add` and `Complete`
    | Notifying(count: nat)     // the master in `Add`, after releasing the mutex
    | Holding                   // inside a critical section of `Loop`
    | Waiting(notified: bool)   // in the wait of the condition variable
    | Working                   // outside the mutex with a batch taken and not yet accounted for

  /** The local variables of one call of `Loop`. `next` counts the checks of the batch executed so far. */
  datatype Thread<R> = Thread(phase: Phase, nNow: nat, checks: seq<nat>, next: nat, doWork: bool, local: Option<R>) {

    predicate Finished() {
      !doWork || next >= |checks| || (next > 0 && local.Some?)
    }

    /** The next check of the batch has been executed. */
    function After(outcome: Option<R>): Thread<R> {
      this.(next := next + 1, local := outcome)
    }
  }

  /** `added`, `roundStart` and `outcomes` only record what happened; no step looks at them. */
  datatype State<R> = State(q: Shared<R>, threads: seq<Thread<R>>, batchSize: nat,
                            added: nat, roundStart: nat, outcomes: map<nat, Option<R>>)

  // ----- The critical sections of Loop -----

  /** What the clean-up of a batch leaves in the shared fields and in the thread. */
  function Settle<R>(q: Shared<R>, th: Thread<R>): (Shared<R>, Thread<R>) {
    if th.nNow == 0 then
      (q.(nTotal := q.nTotal + 1), th.(phase := Holding))
    else if th.local.Some? && q.result.None? then
      (q.(result := th.local, nTodo := q.nTodo - th.nNow), th.(phase := Holding, checks := [], local := q.result))
    else
      (q.(nTodo := q.nTodo - th.nNow), th.(phase := Holding, checks := []))
  }

  /** The divisor is positive in every reachable state. */
  function Share(n: nat, workers: int): int {
    if workers > 0 then n / workers else 0
  }

  function BatchLength<R>(q: Shared<R>, batchSize: nat): int {
    Max(1, Min(batchSize, Share(|q.queue|, q.nTotal + q.nIdle + 1)))
  }

  lemma BatchFits<R>(q: Shared<R>, batchSize: nat)
    requires q.queue != []
    ensures 1 <= BatchLength(q, batchSize) <= |q.queue|
  {
    hide Share;
    ShareFits(|q.queue|, q.nTotal + q.nIdle + 1);
  }

  /**
   A batch is one check, or no larger than `nBatchSize` and the share of each of `workers`; and it is the largest
   such number.
   */
  ghost predicate FairBatch(n: int, batchSize: nat, queued: nat, workers: int) {
    && (n == 1 || (n <= batchSize && n * workers <= queued))
    && (n >= batchSize || (n + 1) * workers > queued)
  }

  lemma BatchFair<R>(q: Shared<R>, batchSize: nat)
    requires q.nTotal + q.nIdle + 1 > 0
    ensures FairBatch(BatchLength(q, batchSize), batchSize, |q.queue|, q.nTotal + q.nIdle + 1)
  {
    var workers := q.nTotal + q.nIdle + 1;
    var share := |q.queue| / workers;
    ShareBounds(|q.queue|, workers);
    if share < 1 { NoneOver(|q.queue|, workers, share); }
  }

  lemma ShareBounds(n: nat, workers: int)
    requires workers > 0
    ensures n / workers * workers <= n < (n / workers + 1) * workers
  {
    var share, rest := n / workers, n % workers;
    assert n == workers * share + rest;
    assert (share + 1) * workers == share * workers + workers;
  }

  lemma NoneOver(n: nat, workers: int, share: int)
    requires workers > 0 && share < 1 && n < (share + 1) * workers
    ensures n < workers && n < 2 * workers
  {
    if share < 0 { AtLeast(workers, share); }
    assert share <= 0 ==> (share + 1) * workers <= workers by {
      assert (share + 1) * workers == share * workers + workers;
      AtLeast(workers, share);
    }
  }

  lemma ShareFits(n: nat, workers: int)
    ensures 0 <= Share(n, workers) <= n
  {
    if workers > 0 {
      var share, rest := n / workers, n % workers;
      assert n == workers * share + rest;
      AtLeast(workers, share);
    }
  }

  lemma AtLeast(a: int, b: int)
    requires a > 0
    ensures b >= 0 ==> a * b >= b
    ensures b < 0 ==> a * b <= b
  {
    if b >= 0 {
      assert (a - 1) * b >= 0;
    } else {
      assert (a - 1) * b <= 0;
    }
  }

  /** The batch is taken from the back of the queue. */
  function Take<R>(q: Shared<R>, th: Thread<R>, batchSize: nat): (Shared<R>, Thread<R>)
    requires q.queue != []
  {
    BatchFits(q, batchSize);
    var n := BatchLength(q, batchSize);
    var start := |q.queue| - n;
    (q.(queue := q.queue[..start]),
     th.(phase := Working, nNow := n, checks := q.queue[start..], next := 0, doWork := q.result.None?))
  }

  function Sleep<R>(q: Shared<R>, th: Thread<R>): (Shared<R>, Thread<R>) {
    (q.(nIdle := q.nIdle + 1), th.(phase := Waiting(false)))
  }

  function Stir<R>(q: Shared<R>, th: Thread<R>): (Shared<R>, Thread<R>) {
    (q.(nIdle := q.nIdle - 1), th.(phase := Holding))
  }

  function Leave<R>(q: Shared<R>): (Shared<R>, Thread<R>) {
    (q.(nTotal := q.nTotal - 1, result := None), Idler())
  }

  /** A thread outside of `Loop`. */
  function Idler<R>(): Thread<R> {
    Thread(Outside, 0, [], 0, false, None)
  }

  // ----- Steps of the whole system -----

  function With<R>(s: State<R>, t: nat, part: (Shared<R>, Thread<R>)): State<R>
    requires t < |s.threads|
  {
    s.(q := part.0, threads := s.threads[t := part.1])
  }

  /** Wake the thread if it waits and nothing has woken it yet; otherwise the notification is lost. */
  function Notify<R>(s: State<R>, t: nat): State<R>
    requires t < |s.threads|
  {
    if s.threads[t].phase == Waiting(false) then
      s.(threads := s.threads[t := s.threads[t].(phase := Waiting(true))])
    else
      s
  }

  function CleanUp<R>(s: State<R>, t: nat): State<R>
    requires t < |s.threads|
  {
    var s' := With(s, t, Settle(s.q, s.threads[t]));
    if s.threads[t].nNow > 0 && s'.q.nTodo == 0 && t != 0 then Notify(s', 0) else s'
  }

  predicate Returns<R>(s: State<R>, t: nat) {
    t == 0 && s.q.queue == [] && s.q.nTodo == 0
  }

  /** The inner while loop: take a batch, return from `Complete`, or wait. */
  function Proceed<R>(s: State<R>, t: nat): State<R>
    requires t < |s.threads|
  {
    if s.q.queue != [] then With(s, t, Take(s.q, s.threads[t], s.batchSize))
    else if Returns(s, t) then With(s, t, Leave(s.q)).(roundStart := s.added)
    else With(s, t, Sleep(s.q, s.threads[t]))
  }

  /** A thread may take the mutex at the top of `Loop`. */
  predicate MayLock<R>(s: State<R>, t: nat) {
    && t < |s.threads|
    && (s.threads[t].phase.Outside? || (s.threads[t].phase.Working? && s.threads[t].Finished()))
  }

  predicate MayWake<R>(s: State<R>, t: nat) {
    t < |s.threads| && s.threads[t].phase.Waiting?
  }

  predicate MayRun<R>(s: State<R>, t: nat) {
    t < |s.threads| && s.threads[t].phase.Working? && !s.threads[t].Finished()
  }

  function Awake<R>(s: State<R>, t: nat): State<R>
    requires t < |s.threads|
  {
    With(s, t, Stir(s.q, s.threads[t]))
  }

  /** Execute the next check of the batch. */
  function Execute<R>(s: State<R>, t: nat, outcome: Option<R>): State<R>
    requires MayRun(s, t)
  {
    var th := s.threads[t];
    s.(threads := s.threads[t := th.After(outcome)],
       outcomes := s.outcomes[th.checks[th.next] := outcome])
  }

  /** The numbers `first`, ..., `first + count - 1`. */
  function Fresh(first: nat, count: nat): seq<nat> {
    seq(count, i requires 0 <= i => first + i)
  }

  function Insert<R>(q: Shared<R>, checks: seq<nat>): Shared<R> {
    q.(queue := q.queue + checks, nTodo := q.nTodo + |checks|)
  }

  /** The critical section of `Add`. */
  function Append<R>(s: State<R>, count: nat): State<R>
    requires 0 < |s.threads|
  {
    if count == 0 then s
    else s.(q := Insert(s.q, Fresh(s.added, count)), added := s.added + count,
            threads := s.threads[0 := s.threads[0].(phase := Notifying(count))])
  }

  /** A worker in the wait that nothing has woken yet. */
  ghost predicate Asleep<R>(s: State<R>, t: nat) {
    0 < t < |s.threads| && s.threads[t].phase == Waiting(false)
  }

  /** `woken` is what notifying one, respectively all, of the waiting workers can reach. */
  predicate Reached<R>(s: State<R>, woken: set<nat>) {
    && (forall t :: t in woken ==> 0 < t < |s.threads| && s.threads[t].phase == Waiting(false))
    && (s.threads != [] && s.threads[0].phase == Notifying(1) ==>
          |woken| <= 1 && (woken == {} ==> forall t :: 0 < t < |s.threads| ==> s.threads[t].phase != Waiting(false)))
    && (s.threads != [] && s.threads[0].phase != Notifying(1) ==>
          forall t :: 0 < t < |s.threads| && s.threads[t].phase == Waiting(false) ==> t in woken)
  }

  /** The notification of the workers after `Add` has released the mutex. */
  function Announce<R>(s: State<R>, woken: set<nat>): State<R> {
    s.(threads := seq(|s.threads|, t requires 0 <= t < |s.threads| =>
         if t == 0 then s.threads[t].(phase := Outside)
         else if t in woken then s.threads[t].(phase := Waiting(true))
         else s.threads[t]))
  }

  /**
   After adding two or more checks no worker stays asleep; after adding one check, one that was asleep has been
   woken, if any was. No other thread than these and the master is touched, and nothing shared.
   */
  lemma AnnounceWakes<R>(s: State<R>, woken: set<nat>)
    requires s.threads != [] && s.threads[0].phase.Notifying? && Reached(s, woken)
    ensures var s' := Announce(s, woken);
            && s'.q == s.q && |s'.threads| == |s.threads| && s'.threads[0] == s.threads[0].(phase := Outside)
            && (s.threads[0].phase.count != 1 ==> forall t: nat :: !Asleep(s', t))
            && (forall t: nat :: Asleep(s, t) && s.threads[0].phase.count == 1 ==>
                  exists u: nat :: Asleep(s, u) && s'.threads[u] == s.threads[u].(phase := Waiting(true)))
            && (forall t :: 0 < t < |s.threads| && !Asleep(s, t) ==> s'.threads[t] == s.threads[t])
            && (forall t :: 0 < t < |s.threads| && Asleep(s, t) ==>
                  s'.threads[t] == s.threads[t] || s'.threads[t] == s.threads[t].(phase := Waiting(true)))
            && (forall t: nat, u: nat :: Asleep(s, t) && Asleep(s, u) && t != u && s.threads[0].phase.count == 1 ==>
                  s'.threads[t] == s.threads[t] || s'.threads[u] == s.threads[u])
  {
    var s' := Announce(s, woken);
    if s.threads[0].phase.count == 1 {
      OneWoken(woken);
      forall t: nat | Asleep(s, t)
        ensures exists u: nat :: Asleep(s, u) && s'.threads[u] == s.threads[u].(phase := Waiting(true))
      {
        var u :| u in woken;
        assert Asleep(s, u) && s'.threads[u] == s.threads[u].(phase := Waiting(true));
      }
    }
  }

  lemma OneWoken(woken: set<nat>)
    ensures |woken| <= 1 ==> forall t, u :: t in woken && u in woken ==> t == u
  {
    forall t, u | t in woken && u in woken && t != u ensures |woken| > 1 {
      assert |{t, u}| == 2 && woken == {t, u} + (woken - {t, u});
    }
  }

  datatype Event<R> =
    | Added(count: nat)
    | Announced(woken: set<nat>)
    | Locked(thread: nat)
    | Woken(thread: nat, spurious: bool)
    | Ran(thread: nat, check: nat, outcome: Option<R>)
    | Completed(result: Option<R>)

  /** The master returns from `Complete`, at the top of `Loop` or after having waited. */
  ghost predicate Completes<R>(s: State<R>, s': State<R>, result: Option<R>) {
    || (MayLock(s, 0) && Returns(CleanUp(s, 0), 0) && s' == Proceed(CleanUp(s, 0), 0) &&
        result == CleanUp(s, 0).q.result)
    || (MayWake(s, 0) && Returns(Awake(s, 0), 0) && s' == Proceed(Awake(s, 0), 0) && result == Awake(s, 0).q.result)
  }

  ghost predicate Step<R>(s: State<R>, e: Event<R>, s': State<R>) {
    match e
    case Added(count) => 0 < |s.threads| && s.threads[0].phase.Outside? && s' == Append(s, count)
    case Announced(woken) =>
      0 < |s.threads| && s.threads[0].phase.Notifying? && Reached(s, woken) && s' == Announce(s, woken)
    case Locked(t) => MayLock(s, t) && !Returns(CleanUp(s, t), t) && s' == Proceed(CleanUp(s, t), t)
    case Woken(t, spurious) =>
      && MayWake(s, t) && spurious == !s.threads[t].phase.notified
      && !Returns(Awake(s, t), t) && s' == Proceed(Awake(s, t), t)
    case Ran(t, check, outcome) =>
      MayRun(s, t) && check == s.threads[t].checks[s.threads[t].next] && s' == Execute(s, t, outcome)
    case Completed(result) => Completes(s, s', result)
  }

  /** Before any thread has entered `Loop`. */
  ghost predicate Initial<R>(s: State<R>) {
    && s.q == Shared([], 0, 0, None, 0)
    && s.threads != [] && (forall t :: 0 <= t < |s.threads| ==> s.threads[t] == Idler())
    && s.added == 0 && s.roundStart == 0 && s.outcomes == map[]
  }
}
