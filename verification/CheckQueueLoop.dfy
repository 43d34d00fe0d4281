/**
 `CCheckQueue` as an object whose fields are updated in place: the critical sections of `Loop`
 (`src/checkqueue.h:81-127`), the execution of a batch outside the mutex (`src/checkqueue.h:129-134`)
 and `Add` (`src/checkqueue.h:172-189`). Each method does what the step of the same name does to the
 shared fields and to the local variables of the calling thread.
 */
module CheckQueueLoops {
  import opened Basics
  import opened CheckQueues

  /** The local variables of one call of `Loop`; a batch is kept until it is accounted for. */
  class Frame<R(==)> {
    var nNow: nat
    var checks: seq<nat>
    var next: nat
    var doWork: bool
    var local: Option<R>

    constructor ()
      ensures Locals(Outside) == Idler()
    {
      nNow, checks, next, doWork, local := 0, [], 0, false, None;
    }

    function Locals(phase: Phase): Thread<R>
      reads this
    {
      Thread(phase, nNow, checks, next, doWork, local)
    }

    /**
     Execute the checks of the batch until one returns an error; `outcome` is what each would return.
     Without work to do, `local` keeps the value of an earlier batch.
     */
    method Run(outcome: nat -> Option<R>)
      requires next == 0
      modifies this`next, this`local
      ensures Locals(Working) == RunAll(old(Locals(Working)), outcome)
      ensures Locals(Working).Finished() && next <= |checks|
      ensures !doWork ==> next == 0 && local == old(local)
      ensures doWork && checks != [] ==> next > 0 && local == outcome(checks[next - 1])
      ensures forall k :: 0 <= k < next - 1 ==> outcome(checks[k]).None?
      ensures doWork && (forall k :: 0 <= k < |checks| ==> outcome(checks[k]).None?) ==> next == |checks|
    {
      if doWork {
        while next < |checks|
          invariant next <= |checks|
          invariant RunAll(Locals(Working), outcome) == RunAll(old(Locals(Working)), outcome)
          invariant !(next > 0 && local.Some?)
          invariant forall k :: 0 <= k < next ==> outcome(checks[k]).None?
          invariant next > 0 ==> local == outcome(checks[next - 1])
        {
          local := outcome(checks[next]);
          next := next + 1;
          if local.Some? {
            break;
          }
        }
      }
    }
  }

  /** Execute checks one after the other, as the steps of one thread do, until the batch is finished. */
  function RunAll<R>(th: Thread<R>, outcome: nat -> Option<R>): Thread<R>
    decreases |th.checks| - th.next
  {
    if th.Finished() then th else RunAll(th.After(outcome(th.checks[th.next])), outcome)
  }

  datatype Decision<R> = Took | Slept | Finished(result: Option<R>)

  class CheckQueue<R(==)> {
    var queue: seq<nat>
    var nIdle: int
    var nTotal: int
    var result: Option<R>
    var nTodo: int
    const nBatchSize: nat

    constructor (batchSize: nat)
      ensures Fields() == Shared([], 0, 0, None, 0) && nBatchSize == batchSize
    {
      queue, nIdle, nTotal, result, nTodo := [], 0, 0, None, 0;
      nBatchSize := batchSize;
    }

    function Fields(): Shared<R>
      reads this
    {
      Shared(queue, nIdle, nTotal, result, nTodo)
    }

    /** The clean-up of the previous batch, at the top of `Loop`. */
    method Account(frame: Frame<R>, fMaster: bool) returns (notifyMaster: bool)
      modifies this, frame
      ensures (Fields(), frame.Locals(Holding)) == Settle(old(Fields()), old(frame.Locals(Working)))
      ensures notifyMaster == (old(frame.nNow) > 0 && nTodo == 0 && !fMaster)
      ensures queue == old(queue) && nIdle == old(nIdle) && frame.nNow == old(frame.nNow)
      ensures old(frame.nNow) == 0 ==> nTotal == old(nTotal) + 1 && nTodo == old(nTodo) && result == old(result)
      ensures old(frame.nNow) > 0 ==>
                && nTotal == old(nTotal) && nTodo == old(nTodo) - frame.nNow
                && result == if old(result).Some? then old(result) else old(frame.local)
    {
      notifyMaster := false;
      if frame.nNow > 0 {
        if frame.local.Some? && result.None? {
          frame.local, result := result, frame.local;
        }
        nTodo := nTodo - frame.nNow;
        frame.checks := [];
        if nTodo == 0 && !fMaster {
          notifyMaster := true;
        }
      } else {
        nTotal := nTotal + 1;
      }
    }

    /** The inner loop of the critical section, up to taking a batch, waiting or returning. */
    method Continue(frame: Frame<R>, fMaster: bool) returns (decision: Decision<R>)
      modifies this, frame
      ensures old(queue) != [] ==>
                && decision.Took?
                && (Fields(), frame.Locals(Working)) == Take(old(Fields()), old(frame.Locals(Holding)), nBatchSize)
      ensures old(queue) == [] && fMaster && old(nTodo) == 0 ==>
                decision == Finished(old(result)) && Fields() == Leave(old(Fields())).0
      ensures old(queue) == [] && !(fMaster && old(nTodo) == 0) ==>
                && decision.Slept?
                && (Fields(), frame.Locals(Waiting(false))) == Sleep(old(Fields()), old(frame.Locals(Holding)))
      ensures nTodo == old(nTodo) && frame.local == old(frame.local)
      ensures decision.Took? ==>
                && |queue| < |old(queue)| && queue == old(queue)[..|queue|] && frame.checks == old(queue)[|queue|..]
                && frame.nNow == |frame.checks| && frame.next == 0 && frame.doWork == old(result).None?
                && nTotal == old(nTotal) && nIdle == old(nIdle) && result == old(result)
                && (nTotal + nIdle + 1 > 0 ==> FairBatch(frame.nNow, nBatchSize, |old(queue)|, nTotal + nIdle + 1))
      ensures decision.Slept? ==> queue == [] && nTotal == old(nTotal) && nIdle == old(nIdle) + 1
      ensures decision.Finished? ==> queue == [] && nTotal == old(nTotal) - 1 && nIdle == old(nIdle) && result.None?
    {
      if queue == [] {
        if fMaster && nTodo == 0 {
          nTotal := nTotal - 1;
          decision := Finished(result);
          result := None;
          return;
        }
        nIdle := nIdle + 1;
        decision := Slept;
      } else {
        BatchFits(Fields(), nBatchSize);
        if nTotal + nIdle + 1 > 0 { BatchFair(Fields(), nBatchSize); }
        frame.nNow := BatchLength(Fields(), nBatchSize);
        var start := |queue| - frame.nNow;
        frame.checks, frame.next := queue[start..], 0;
        queue := queue[..start];
        frame.doWork := result.None?;
        decision := Took;
      }
    }

    /** After the wait. */
    method WakeUp(frame: Frame<R>)
      modifies this`nIdle
      ensures (Fields(), frame.Locals(Holding)) == Stir(old(Fields()), old(frame.Locals(Waiting(true))))
      ensures nIdle == old(nIdle) - 1
    {
      nIdle := nIdle - 1;
    }

    /** The critical section of `Add`; with no checks to add it is not entered. */
    method Add(checks: seq<nat>)
      modifies this`queue, this`nTodo
      ensures Fields() == Insert(old(Fields()), checks)
      ensures queue == old(queue) + checks && nTodo == old(nTodo) + |checks|
    {
      if checks == [] {
        assert queue + checks == queue;
        return;
      }
      queue := queue + checks;
      nTodo := nTodo + |checks|;
    }
  }
}
