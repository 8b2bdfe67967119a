/** `context::run` as the program states it, on one of any number of threads; the others
    act before every access. Each access is shown to be one step of the protocol. */
module Context {
  import opened Sequences
  import opened ContextProtocol

  predicate ActsFor(a: Action, me: Thread) {
    (a.Enter? || a.Runner?) && a.thread == me
  }

  predicate Runs(s: State, r: Thread, pc: Pc) {
    r in s.runners && s.runners[r] == pc
  }

  /** What a thread counts on while others act. */
  ghost predicate Keeps(s: State, t: State, me: Thread) {
    && (me in t.runners <==> me in s.runners)
    && (me in s.runners ==> t.runners[me] == s.runners[me])
    && Hand(t.ledger, me) == Hand(s.ledger, me)
    && (s.lock == Some(me) ==> t.lock == s.lock)
    && s.ledger.log <= t.ledger.log && s.posts <= t.posts
  }

  lemma RunnerStepKeepsMe(s: State, r: Thread, me: Thread)
    requires Inv(s) && r in s.runners && r != me
    ensures Keeps(s, RunnerStep(s, r), me)
  {
    assert RunnerInv(s, r);
  }

  lemma StepKeepsMe(s: State, a: Action, me: Thread)
    requires Inv(s) && !ActsFor(a, me)
    ensures Keeps(s, Step(s, a), me)
  {
    if a.Runner? && a.thread in s.runners {
      RunnerStepKeepsMe(s, a.thread, me);
    }
  }

  lemma {:induction false} OthersLeaveMe(s: State, others: seq<Action>, me: Thread)
    requires Inv(s) && forall a :: a in others ==> !ActsFor(a, me)
    ensures Keeps(s, Run(s, others), me)
    decreases |others|
  {
    if others == [] {
    } else {
      assert others[0] in others;
      StepKeepsInv(s, others[0]);
      StepKeepsMe(s, others[0], me);
      OthersLeaveMe(Step(s, others[0]), others[1..], me);
    }
  }

  ghost predicate NeverActsFor(turns: seq<seq<Action>>, me: Thread) {
    forall i, a :: 0 <= i < |turns| && a in turns[i] ==> !ActsFor(a, me)
  }

  /** A post has moved from what was left to the log. */
  lemma Moved(log: seq<nat>, log': seq<nat>, left: seq<nat>, left': seq<nat>, post: nat)
    requires log <= log' && |log'| > 0 && log'[|log'| - 1] == post && left == [post] + left'
    ensures forall p :: p in log || p in left ==> p in log' || p in left'
  {
  }

  lemma StillThere(log: seq<nat>, log': seq<nat>)
    requires log <= log'
    ensures forall p :: p in log ==> p in log'
  {
  }

  /** What only grows. */
  ghost predicate Grows(s: State, t: State) {
    s.ledger.log <= t.ledger.log && s.posts <= t.posts
  }

  /** Some of the turns have been used; if there were none, nobody else has acted. */
  ghost predicate Passed(turns: seq<seq<Action>>, later: seq<seq<Action>>, s: State, t: State) {
    if turns == [] then later == [] && t.stopFlag == s.stopFlag && |t.stack| <= |s.stack| && t.posts == s.posts
    else |later| < |turns|
  }

  /** The thread cannot go on: it waits for a mutex that another thread holds, or it is blocked,
      nothing is posted and it has not been told to stop. */
  predicate Stuck(s: State, r: Thread) {
    || ((Runs(s, r, Locking) || Runs(s, r, Blocked)) && s.lock.Some? && s.lock != Some(r))
    || (Runs(s, r, Blocked) && s.stack == [] && !s.stopFlag)
  }

  /** The last action is this thread's, and `stop_` was set when it took place. */
  ghost predicate JustSawStop(schedule: seq<Action>, me: Thread) {
    && schedule != [] && schedule[|schedule| - 1] == Runner(me)
    && Reach(schedule[..|schedule| - 1]).stopFlag
  }

  /** This thread has acted at a moment when `stop_` was set, after the first `from` actions. */
  ghost predicate SawStop(schedule: seq<Action>, from: nat, me: Thread) {
    exists k :: from <= k < |schedule| && schedule[k] == Runner(me) && Reach(schedule[..k]).stopFlag
  }

  lemma SawStopEarlier(schedule: seq<Action>, later: seq<Action>, from: nat, me: Thread)
    requires schedule <= later && from < |schedule| && JustSawStop(schedule, me)
    ensures SawStop(later, from, me)
  {
    var k := |schedule| - 1;
    assert later[k] == schedule[k] && later[..k] == schedule[..k];
  }

  ghost predicate HeldElsewhere(s: State, post: nat, me: Thread) {
    exists q :: q in s.runners && q != me && Holds(s.ledger, q, post)
  }

  /** Every post below `n` is resumed or in another runner's hands. */
  ghost predicate Settled(s: State, n: nat, me: Thread) {
    forall post: nat :: post < n ==> post in s.ledger.log || HeldElsewhere(s, post, me)
  }

  lemma ReturnedSettled(schedule: seq<Action>, me: Thread, n: nat)
    requires me in Reach(schedule).runners && Reach(schedule).runners[me].Returned?
    requires n <= Reach(schedule).runners[me].seen
    ensures Settled(Reach(schedule), n, me)
  {
    var s := Reach(schedule);
    forall post: nat | post < n
      ensures post in s.ledger.log || HeldElsewhere(s, post, me)
    {
      ReturnedRunner(schedule, me, post);
    }
  }

  /** The runner is about to test `stop_`, having found the stack empty after that many posts at least. */
  predicate StopChecks(s: State, r: Thread, n: nat) {
    r in s.runners && s.runners[r].StopCheck? && s.runners[r].seen >= n
  }

  class Context {
    var stopFlag: bool
    var lock: Option<Thread>
    /** What the other threads do before each of the accesses to come. */
    var turns: seq<seq<Action>>
    var sys: State
    ghost var schedule: seq<Action>

    ghost predicate Valid(me: Thread)
      reads this
    {
      && sys == Reach(schedule) && stopFlag == sys.stopFlag && lock == sys.lock
      && NeverActsFor(turns, me)
    }

    constructor (me: Thread, turns: seq<seq<Action>>)
      requires NeverActsFor(turns, me)
      ensures Valid(me) && sys == Init() && this.turns == turns
    {
      stopFlag, lock, this.turns := false, None, turns;
      sys, schedule := Init(), [];
    }

    method Did(a: Action)
      requires sys == Reach(schedule)
      modifies this`sys, this`schedule
      ensures sys == Step(old(sys), a) == Reach(schedule) && schedule == old(schedule) + [a]
      ensures Reach(schedule[..|schedule| - 1]) == old(sys)
    {
      RunAppend(Init(), schedule, [a]);
      assert (schedule + [a])[..|schedule|] == schedule;
      sys, schedule := Step(sys, a), schedule + [a];
    }

    method Others(me: Thread)
      requires Valid(me)
      modifies this
      ensures Valid(me) && old(schedule) <= schedule && Keeps(old(sys), sys, me)
      ensures turns == if old(turns) == [] then [] else old(turns)[1..]
      ensures old(turns) == [] ==> sys == old(sys)
    {
      if turns != [] {
        ReachInv(schedule);
        OthersLeaveMe(sys, turns[0], me);
        RunAppend(Init(), schedule, turns[0]);
        sys, schedule, turns := ContextProtocol.Run(sys, turns[0]), schedule + turns[0], turns[1..];
        stopFlag, lock := sys.stopFlag, sys.lock;
      }
    }

    /** `stop`, called by any thread. */
    method Stop(me: Thread, value: bool)
      requires Valid(me)
      modifies this
      ensures Valid(me) && old(schedule) < schedule && stopFlag == value
      ensures schedule[|schedule| - 1] == SetStop(value) && sys == Reach(schedule[..|schedule| - 1]).(stopFlag := value)
    {
      Others(me);
      stopFlag := value;
      Did(SetStop(value));
    }

    /** `post`, called by any thread. */
    method Post(me: Thread) returns (post: nat)
      requires Valid(me)
      modifies this
      ensures Valid(me) && old(schedule) < schedule && schedule[|schedule| - 1] == Push
      ensures old(sys.posts) <= post == sys.posts - 1 && sys.stack == [post] + Reach(schedule[..|schedule| - 1]).stack
    {
      Others(me);
      post := sys.posts;
      Did(Push);
    }

    /** One attempt to take the mutex; it succeeds exactly if the mutex is free at that moment. */
    method TryLock(me: Thread) returns (locked: bool, ghost now: State)
      requires Valid(me) && (Runs(sys, me, Locking) || Runs(sys, me, Blocked))
      modifies this
      ensures Valid(me) && old(schedule) <= schedule && Grows(old(sys), sys)
      ensures Passed(old(turns), turns, old(sys), sys) && Hand(sys.ledger, me) == old(Hand(sys.ledger, me))
      ensures locked <==> now.lock.None?
      ensures locked ==> Runs(sys, me, if old(Runs(sys, me, Locking)) then Acquiring else PredicateAcquire)
      ensures !locked ==> Runs(sys, me, old(sys.runners)[me]) && sys.lock == now.lock
    {
      Others(me);
      now := sys;
      locked := lock.None?;
      if locked {
        lock := Some(me);
      }
      Did(Runner(me));
    }

    /** `lock`, also at the end of a wait. It fails only if another thread keeps the mutex for ever. */
    method Lock(me: Thread) returns (locked: bool)
      requires Valid(me) && (Runs(sys, me, Locking) || Runs(sys, me, Blocked))
      modifies this
      ensures Valid(me) && old(schedule) <= schedule && Grows(old(sys), sys)
      ensures Passed(old(turns), turns, old(sys), sys) && Hand(sys.ledger, me) == old(Hand(sys.ledger, me))
      ensures locked ==> Runs(sys, me, if old(Runs(sys, me, Locking)) then Acquiring else PredicateAcquire)
      ensures !locked ==> turns == [] && Stuck(sys, me)
    {
      var quiet := turns == [];
      ghost var now;
      locked, now := TryLock(me);
      while !locked && !quiet
        invariant Valid(me) && old(schedule) <= schedule && Grows(old(sys), sys)
        invariant Passed(old(turns), turns, old(sys), sys) && Hand(sys.ledger, me) == old(Hand(sys.ledger, me))
        invariant locked ==> Runs(sys, me, if old(Runs(sys, me, Locking)) then Acquiring else PredicateAcquire)
        invariant !locked ==> Runs(sys, me, old(sys.runners)[me])
        invariant !locked && quiet ==> turns == [] && sys.lock.Some?
        decreases |turns|, !quiet
      {
        quiet := turns == [];
        locked, now := TryLock(me);
      }
      ReachInv(schedule);
      assert RunnerInv(sys, me);
    }

    /** `acquire`, in the loop and in the predicate of the wait: whether there was anything. */
    method Acquire(me: Thread) returns (head: bool, ghost now: State)
      requires Valid(me) && (Runs(sys, me, Acquiring) || Runs(sys, me, PredicateAcquire))
      modifies this
      ensures Valid(me) && old(schedule) <= schedule && Grows(old(sys), sys)
      ensures Passed(old(turns), turns, old(sys), sys) && (old(turns) == [] ==> now == old(sys))
      ensures (head <==> now.stack != []) && sys.stack == [] && sys.posts == now.posts >= old(sys.posts)
      ensures Hand(sys.ledger, me) == Reverse(now.stack)
      ensures head ==> Runs(sys, me, Unlocking) && Hand(sys.ledger, me) != []
      ensures !head && old(Runs(sys, me, Acquiring)) ==> Runs(sys, me, StopCheck(sys.posts))
      ensures !head && old(Runs(sys, me, PredicateAcquire)) ==> Runs(sys, me, PredicateStop(sys.posts))
    {
      Others(me);
      now := sys;
      ReverseMembers(sys.stack);
      head := sys.stack != [];
      Did(Runner(me));
    }

    /** The load of `stop_` in the loop: it leads out if and only if it finds the flag set. */
    method LoadStop(me: Thread) returns (stopping: bool)
      requires Valid(me) && me in sys.runners && sys.runners[me].StopCheck?
      modifies this
      ensures Valid(me) && old(schedule) < schedule && Grows(old(sys), sys)
      ensures Passed(old(turns), turns, old(sys), sys) && stopping == stopFlag
      ensures if stopping then Runs(sys, me, Leaving(old(sys.runners)[me].seen)) else Runs(sys, me, PredicateAcquire)
      ensures stopping <==> JustSawStop(schedule, me)
    {
      Others(me);
      stopping := stopFlag;
      Did(Runner(me));
    }

    /** The way out. */
    method Leave(me: Thread)
      requires Valid(me) && me in sys.runners && sys.runners[me].Leaving?
      modifies this
      ensures Valid(me) && old(schedule) <= schedule && Grows(old(sys), sys)
      ensures Runs(sys, me, Returned(old(sys.runners)[me].seen)) && Hand(sys.ledger, me) == [] && lock.None?
    {
      Others(me);
      ReachInv(schedule);
      assert RunnerInv(sys, me);
      lock := None;
      Did(Runner(me));
      ReachInv(schedule);
      assert RunnerInv(sys, me);
    }

    /** The test of `stop_` in the loop, and the way out when it is set. */
    method LeaveIfStopped(me: Thread) returns (stopping: bool)
      requires Valid(me) && me in sys.runners && sys.runners[me].StopCheck?
      modifies this
      ensures Valid(me) && old(schedule) <= schedule && Grows(old(sys), sys)
      ensures !stopping ==> Runs(sys, me, PredicateAcquire) && Passed(old(turns), turns, old(sys), sys) && !stopFlag
      ensures stopping ==> Runs(sys, me, Returned(old(sys.runners)[me].seen)) && Hand(sys.ledger, me) == []
      ensures stopping ==> SawStop(schedule, |old(schedule)|, me)
      ensures stopping ==> Settled(sys, old(sys.runners)[me].seen, me)
    {
      stopping := LoadStop(me);
      ghost var loaded := schedule;
      if stopping {
        Leave(me);
        SawStopEarlier(loaded, schedule, |old(schedule)|, me);
        ReturnedSettled(schedule, me, sys.runners[me].seen);
      }
    }

    /** The load of `stop_` in the predicate: the wait ends if and only if it finds the flag set;
        otherwise the thread blocks and gives up the mutex. */
    method BlockUnlessStopped(me: Thread) returns (stopping: bool)
      requires Valid(me) && me in sys.runners && sys.runners[me].PredicateStop?
      modifies this
      ensures Valid(me) && old(schedule) <= schedule && Grows(old(sys), sys)
      ensures Passed(old(turns), turns, old(sys), sys) && stopping == stopFlag
      ensures if stopping then Runs(sys, me, StopCheck(old(sys.runners)[me].seen)) else Runs(sys, me, Blocked) && lock.None?
      ensures stopping <==> JustSawStop(schedule, me)
    {
      Others(me);
      stopping := stopFlag;
      if !stopping {
        lock := None;
      }
      Did(Runner(me));
    }

    /** The predicate of the wait, once. If nobody else acts meanwhile it fails only when nothing
        is posted and `stop_` is not set. */
    method TryPredicate(me: Thread) returns (ended: bool, head: bool)
      requires Valid(me) && Runs(sys, me, PredicateAcquire)
      modifies this
      ensures Valid(me) && old(schedule) <= schedule && Grows(old(sys), sys)
      ensures Passed(old(turns), turns, old(sys), sys)
      ensures head ==> ended && Runs(sys, me, Unlocking) && Hand(sys.ledger, me) != []
      ensures head && old(turns) == [] ==> |sys.stack| < |old(sys.stack)|
      ensures ended && !head ==> StopChecks(sys, me, old(sys.posts)) && JustSawStop(schedule, me) && stopFlag
      ensures !ended ==> Runs(sys, me, Blocked) && (old(turns) == [] ==> Stuck(sys, me))
    {
      ghost var now;
      head, now := Acquire(me);
      ended := head;
      if !head {
        ended := BlockUnlessStopped(me);
      }
    }

    /** The wait: its predicate is tried first, and again after every turn of the others, with the
        mutex held. It ends with a batch at hand, or because the predicate has just seen `stop_`
        set; otherwise the thread is left stuck when nobody else acts any more. */
    method Wait(me: Thread) returns (ended: bool, head: bool)
      requires Valid(me) && Runs(sys, me, PredicateAcquire)
      modifies this
      ensures Valid(me) && old(schedule) <= schedule && Grows(old(sys), sys)
      ensures Passed(old(turns), turns, old(sys), sys)
      ensures head ==> ended && Runs(sys, me, Unlocking) && Hand(sys.ledger, me) != []
      ensures head && old(turns) == [] ==> |sys.stack| < |old(sys.stack)|
      ensures ended && !head ==> StopChecks(sys, me, old(sys.posts)) && JustSawStop(schedule, me)
      ensures ended && !head && old(turns) == [] ==> stopFlag
      ensures !ended ==> turns == [] && Stuck(sys, me)
    {
      var quiet := turns == [];
      ended, head := TryPredicate(me);
      while !ended && !quiet
        invariant Valid(me) && old(schedule) <= schedule && Grows(old(sys), sys)
        invariant Passed(old(turns), turns, old(sys), sys)
        invariant head ==> ended && Runs(sys, me, Unlocking) && Hand(sys.ledger, me) != []
        invariant head && old(turns) == [] ==> |sys.stack| < |old(sys.stack)|
        invariant ended && !head ==> StopChecks(sys, me, old(sys.posts)) && JustSawStop(schedule, me) && stopFlag
        invariant !ended ==> Runs(sys, me, Blocked) && (quiet ==> turns == [] && Stuck(sys, me))
        invariant quiet ==> turns == []
        decreases |turns|, !quiet
      {
        var locked := Lock(me);
        if !locked {
          return false, false;
        }
        quiet := turns == [];
        ended, head := TryPredicate(me);
      }
    }

    /** Unlocks the mutex before a batch is resumed. */
    method Unlock(me: Thread)
      requires Valid(me) && Runs(sys, me, Unlocking)
      modifies this
      ensures Valid(me) && old(schedule) <= schedule && Grows(old(sys), sys)
      ensures Passed(old(turns), turns, old(sys), sys) && lock.None?
      ensures Runs(sys, me, Draining) && Hand(sys.ledger, me) == old(Hand(sys.ledger, me))
    {
      Others(me);
      lock := None;
      Did(Runner(me));
    }

    /** One turn of the loop over the batch. */
    method ResumeNext(me: Thread) returns (post: nat)
      requires Valid(me) && Runs(sys, me, Draining) && Hand(sys.ledger, me) != []
      modifies this
      ensures Valid(me) && old(schedule) <= schedule && Grows(old(sys), sys)
      ensures Passed(old(turns), turns, old(sys), sys)
      ensures Runs(sys, me, Draining)
      ensures old(Hand(sys.ledger, me)) == [post] + Hand(sys.ledger, me)
      ensures |sys.ledger.log| > |old(sys.ledger.log)| && sys.ledger.log[|sys.ledger.log| - 1] == post
    {
      Others(me);
      var batch := Hand(sys.ledger, me);
      post := batch[0];
      Did(Runner(me));
      assert batch == [post] + Hand(sys.ledger, me);
    }

    /** The end of that loop. */
    method EndDrain(me: Thread)
      requires Valid(me) && Runs(sys, me, Draining) && Hand(sys.ledger, me) == []
      modifies this
      ensures Valid(me) && old(schedule) <= schedule && Grows(old(sys), sys)
      ensures Passed(old(turns), turns, old(sys), sys)
      ensures Runs(sys, me, Locking) && Hand(sys.ledger, me) == []
    {
      Others(me);
      Did(Runner(me));
    }

    /** Unlock, and resume everything in the batch. */
    method Drain(me: Thread)
      requires Valid(me) && Runs(sys, me, Unlocking)
      modifies this
      ensures Valid(me) && old(schedule) <= schedule && Grows(old(sys), sys)
      ensures Passed(old(turns), turns, old(sys), sys)
      ensures Runs(sys, me, Locking) && Hand(sys.ledger, me) == []
      ensures forall post :: post in old(Hand(sys.ledger, me)) ==> post in sys.ledger.log
    {
      ghost var batch := Hand(sys.ledger, me);
      Unlock(me);
      while Hand(sys.ledger, me) != []
        invariant Valid(me) && old(schedule) <= schedule && Grows(old(sys), sys)
        invariant Passed(old(turns), turns, old(sys), sys)
        invariant Runs(sys, me, Draining)
        invariant forall post :: post in batch ==> post in sys.ledger.log || post in Hand(sys.ledger, me)
        decreases |Hand(sys.ledger, me)|
      {
        ghost var log, left := sys.ledger.log, Hand(sys.ledger, me);
        var post := ResumeNext(me);
        Moved(log, sys.ledger.log, left, Hand(sys.ledger, me), post);
      }
      ghost var log := sys.ledger.log;
      EndDrain(me);
      StillThere(log, sys.ledger.log);
    }

    /** The inner loop of `run`, until there is a batch or the thread has left; otherwise the
        thread is left stuck when nobody else acts any more. */
    method AwaitBatch(me: Thread) returns (returned: bool, head: bool)
      requires Valid(me) && me in sys.runners && sys.runners[me].StopCheck?
      modifies this
      ensures Valid(me) && old(schedule) <= schedule && Grows(old(sys), sys)
      ensures head ==> !returned && Runs(sys, me, Unlocking) && Hand(sys.ledger, me) != []
      ensures head ==> Passed(old(turns), turns, old(sys), sys)
      ensures head && old(turns) == [] ==> |sys.stack| < |old(sys.stack)|
      ensures returned ==> me in sys.runners && sys.runners[me].Returned? && Hand(sys.ledger, me) == []
      ensures returned ==> SawStop(schedule, |old(schedule)|, me) && Settled(sys, old(sys.runners)[me].seen, me)
      ensures !head && !returned ==> turns == [] && Stuck(sys, me)
    {
      ghost var seen := sys.runners[me].seen;
      ReachInv(schedule);
      assert RunnerInv(sys, me);
      ghost var first := true;
      while true
        invariant Valid(me) && old(schedule) <= schedule && Grows(old(sys), sys)
        invariant StopChecks(sys, me, seen) && seen <= old(sys.posts) <= sys.posts
        invariant first || Passed(old(turns), turns, old(sys), sys)
        invariant first ==> sys == old(sys) && turns == old(turns) && schedule == old(schedule)
        decreases |turns|, if stopFlag then 0 else 1
      {
        ghost var before, s := turns, sys;
        returned := LeaveIfStopped(me);
        if returned {
          return true, false;
        }
        var ended;
        ended, head := Wait(me);
        if !ended {
          return false, false;
        }
        if head {
          return false, true;
        }
        first := false;
      }
    }

    /** Takes the mutex and gets a batch, or leaves; otherwise the thread is left stuck. */
    method NextBatch(me: Thread) returns (returned: bool, head: bool)
      requires Valid(me) && Runs(sys, me, Locking)
      modifies this
      ensures Valid(me) && old(schedule) <= schedule && Grows(old(sys), sys)
      ensures head ==> !returned && Runs(sys, me, Unlocking) && Hand(sys.ledger, me) != []
      ensures head ==> Passed(old(turns), turns, old(sys), sys)
      ensures head && old(turns) == [] ==> |sys.stack| < |old(sys.stack)|
      ensures returned ==> me in sys.runners && sys.runners[me].Returned? && Hand(sys.ledger, me) == []
      ensures returned ==> SawStop(schedule, |old(schedule)|, me) && Settled(sys, old(sys.posts), me)
      ensures !head && !returned ==> turns == [] && Stuck(sys, me)
    {
      returned := false;
      head := Lock(me);
      if !head {
        return;
      }
      ghost var now;
      head, now := Acquire(me);
      if !head {
        returned, head := AwaitBatch(me);
      }
    }

    /** `run`. A thread that returns has seen `stop_` set, has nothing in its hands, and everything
        posted before the call is resumed or in another runner's hands. It fails to return only
        if it is left stuck when nobody else acts any more. */
    method Run(me: Thread) returns (returned: bool)
      requires Valid(me) && me !in sys.runners
      modifies this
      ensures Valid(me) && old(schedule) <= schedule && Grows(old(sys), sys)
      ensures returned ==> me in sys.runners && sys.runners[me].Returned? && Hand(sys.ledger, me) == []
      ensures returned ==> SawStop(schedule, |old(schedule)|, me) && Settled(sys, old(sys.posts), me)
      ensures !returned ==> turns == [] && Stuck(sys, me)
    {
      Did(Enter(me));
      while true
        invariant Valid(me) && old(schedule) <= schedule && Grows(old(sys), sys)
        invariant Runs(sys, me, Locking) && old(sys.posts) <= sys.posts
        decreases |turns|, |sys.stack|
      {
        var head;
        returned, head := NextBatch(me);
        if !head {
          return;
        }
        Drain(me);
      }
    }
  }
}
