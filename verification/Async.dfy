/** The two sides of an await as the program states them, on promises that live on the heap,
    with every other coroutine of the chain free to act before each access. */
module Async {
  import opened Sequences
  import opened AwaitChain

  class Promise {
    var state: bool
    var continuation: Option<nat>

    constructor ()
      ensures !state && continuation.None?
    {
      state, continuation := false, None;
    }
  }

  /** Nobody else moves a coroutine that is neither parked nor waiting to be started. */
  lemma StepLeavesMe(s: State, a: Action, i: nat)
    requires Inv(s) && i < |s.tasks| && a.i != i
    requires s.tasks[i].pc !in {NotStarted, Parked, Final}
    ensures var t := Step(s, a); i < |t.tasks| && t.tasks[i].pc == s.tasks[i].pc
  {
    OnlyAwaitersHaveCallees(s, i);
    if a.i < |s.tasks| {
      OnlyAwaitersHaveCallees(s, a.i);
    }
  }

  lemma {:induction false} OthersLeaveMe(s: State, others: seq<Action>, i: nat)
    requires Inv(s) && i < |s.tasks| && s.tasks[i].pc !in {NotStarted, Parked, Final}
    requires forall a :: a in others ==> a.i != i
    ensures var t := Run(s, others); i < |t.tasks| && t.tasks[i].pc == s.tasks[i].pc
    decreases |others|
  {
    if others == [] {
    } else {
      assert others[0] in others;
      StepKeepsInv(s, others[0]);
      StepLeavesMe(s, others[0], i);
      OthersLeaveMe(Step(s, others[0]), others[1..], i);
    }
  }

  /** The state before the last action. */
  ghost function Before(schedule: seq<Action>): State
    requires schedule != []
  {
    Reach(schedule[..|schedule| - 1])
  }

  /** The last step is that of a coroutine resuming its awaiter, which was parked. */
  ghost predicate JustResumedAwaiter(schedule: seq<Action>, i: nat) {
    && schedule != [] && schedule[|schedule| - 1] == Proceed(i)
    && 0 < i < |Before(schedule).tasks|
    && Before(schedule).tasks[i - 1].pc.Parked? && Before(schedule).tasks[i].continuation == Some(i - 1)
  }

  /** The last step is that of a coroutine reaching its end before its awaiter has come: the
      bit was not set, and the awaiter is not parked and stays where it is. */
  ghost predicate JustCameFirst(schedule: seq<Action>, i: nat) {
    && schedule != [] && schedule[|schedule| - 1] == Proceed(i)
    && 0 < i < |Before(schedule).tasks| && |Reach(schedule).tasks| == |Before(schedule).tasks|
    && !Before(schedule).tasks[i].state && Reach(schedule).tasks[i].state
    && !Before(schedule).tasks[i - 1].pc.Parked? && Reach(schedule).tasks[i - 1] == Before(schedule).tasks[i - 1]
  }

  ghost predicate NeverMoves(turns: seq<seq<Action>>, me: nat) {
    forall k, a :: 0 <= k < |turns| && a in turns[k] ==> a.i != me
  }

  /** At most the promise of coroutine `c` has changed. */
  ghost predicate OnlyPromiseOf(s: State, t: State, c: nat) {
    && |t.tasks| == |s.tasks|
    && forall j :: 0 <= j < |s.tasks| && j != c ==>
         t.tasks[j].state == s.tasks[j].state && t.tasks[j].continuation == s.tasks[j].continuation
  }

  lemma AwaiterFacts(schedule: seq<Action>, i: nat)
    requires i < |Reach(schedule).tasks|
    requires var pc := Reach(schedule).tasks[i].pc; pc.Start? || pc.SetContinuation? || pc.Exchange?
    ensures var s := Reach(schedule);
      && s.fault == NoFault && i + 1 < |s.tasks|
      && Link(i, s.tasks[i], s.tasks[i + 1])
      && OnlyPromiseOf(s, Step(s, Proceed(i)), if s.tasks[i].pc.Start? then |s.tasks| else i + 1)
  {
    ReachInv(schedule);
    OnlyAwaitersHaveCallees(Reach(schedule), i);
  }

  lemma CompletionFacts(schedule: seq<Action>, i: nat)
    requires i < |Reach(schedule).tasks|
    requires var pc := Reach(schedule).tasks[i].pc; pc.Complete? || pc.Continue?
    ensures var s := Reach(schedule);
      && s.fault == NoFault && i > 0
      && Link(i - 1, s.tasks[i - 1], s.tasks[i])
      && OnlyPromiseOf(s, Step(s, Proceed(i)), i)
  {
    ReachInv(schedule);
    OnlyAwaitersHaveCallees(Reach(schedule), i - 1);
  }

  class Chain {
    /** The promise of every live coroutine, outermost first. */
    var promises: seq<Promise>
    /** What the other coroutines do before each of the accesses to come. */
    var turns: seq<seq<Action>>
    var sys: State
    ghost var schedule: seq<Action>

    ghost predicate Shows(tasks: seq<Task>)
      reads this, promises
    {
      && |promises| == |tasks| && Distinct(promises)
      && forall j :: 0 <= j < |tasks| ==>
           promises[j].state == tasks[j].state && promises[j].continuation == tasks[j].continuation
    }

    ghost predicate Valid(me: nat)
      reads this, promises
    {
      && sys == Reach(schedule) && Shows(sys.tasks)
      && NeverMoves(turns, me)
    }

    constructor (me: nat, turns: seq<seq<Action>>)
      requires NeverMoves(turns, me)
      ensures Valid(me) && sys == Init() && fresh(promises) && this.turns == turns
    {
      var root := new Promise();
      promises, this.turns := [root], turns;
      sys, schedule := Init(), [];
    }

    method Did(a: Action)
      requires sys == Reach(schedule)
      modifies this`sys, this`schedule
      ensures sys == Step(old(sys), a) == Reach(schedule) && schedule == old(schedule) + [a]
      ensures Before(schedule) == old(sys)
    {
      RunAppend(Init(), schedule, [a]);
      sys, schedule := Step(sys, a), schedule + [a];
      assert schedule[..|schedule| - 1] == old(schedule);
    }

    /** Makes the heap show these promises. */
    method Show(tasks: seq<Task>)
      requires Distinct(promises)
      modifies this`promises, promises
      ensures Shows(tasks) && fresh(set p | p in promises && p !in old(promises))
    {
      var shown: seq<Promise> := [];
      while |shown| < |tasks|
        invariant |shown| <= |tasks| && Distinct(shown) && unchanged(this)
        invariant forall j :: 0 <= j < |shown| && j < |promises| ==> shown[j] == promises[j]
        invariant forall j :: |promises| <= j < |shown| ==> fresh(shown[j])
        invariant forall j :: 0 <= j < |shown| ==>
                    shown[j].state == tasks[j].state && shown[j].continuation == tasks[j].continuation
      {
        var k := |shown|;
        var p := new Promise();
        if k < |promises| {
          p := promises[k];
        }
        p.state, p.continuation := tasks[k].state, tasks[k].continuation;
        shown := shown + [p];
      }
      promises := shown;
    }

    /** Lets the other coroutines act. */
    method Others(i: nat)
      requires Valid(i) && i < |sys.tasks| && sys.tasks[i].pc !in {NotStarted, Parked, Final}
      modifies this, promises
      ensures Valid(i) && old(schedule) <= schedule && fresh(set p | p in promises && p !in old(promises))
      ensures i < |sys.tasks| && sys.tasks[i].pc == old(sys.tasks[i].pc)
    {
      if turns != [] {
        ReachInv(schedule);
        OthersLeaveMe(sys, turns[0], i);
        RunAppend(Init(), schedule, turns[0]);
        var s := Run(sys, turns[0]);
        Show(s.tasks);
        sys, schedule, turns := s, schedule + turns[0], turns[1..];
      }
    }

    method ResumeCallee(i: nat)
      requires Valid(i) && i < |sys.tasks| && sys.tasks[i].pc.Start?
      modifies this, promises
      ensures Valid(i) && old(schedule) <= schedule && i + 1 < |sys.tasks| && sys.tasks[i].pc.SetContinuation?
      ensures fresh(set p | p in promises && p !in old(promises))
    {
      Others(i);
      AwaiterFacts(schedule, i);
      Did(Proceed(i));
    }

    method WriteContinuation(i: nat)
      requires Valid(i) && i < |sys.tasks| && sys.tasks[i].pc.SetContinuation?
      modifies this, promises
      ensures Valid(i) && old(schedule) <= schedule && i < |sys.tasks| && sys.tasks[i].pc.Exchange?
      ensures fresh(set p | p in promises && p !in old(promises))
    {
      Others(i);
      AwaiterFacts(schedule, i);
      promises[i + 1].continuation := Some(i);
      Did(Proceed(i));
    }

    /** `m_state.exchange(true)` on the promise of coroutine `c`, as the next step of `i`. */
    method Exchange(i: nat, c: nat) returns (was: bool)
      requires Valid(i) && c < |sys.tasks| && OnlyPromiseOf(sys, Step(sys, Proceed(i)), c)
      requires Step(sys, Proceed(i)).tasks[c].state
      requires Step(sys, Proceed(i)).tasks[c].continuation == sys.tasks[c].continuation
      modifies this`sys, this`schedule, promises
      ensures Valid(i) && sys == Step(old(sys), Proceed(i)) && schedule == old(schedule) + [Proceed(i)]
      ensures Before(schedule) == old(sys)
      ensures was == old(promises[c].state)
    {
      was := promises[c].state;
      promises[c].state := true;
      Did(Proceed(i));
    }

    method ExchangeCalleeState(i: nat) returns (was: bool)
      requires Valid(i) && i < |sys.tasks| && sys.tasks[i].pc.Exchange?
      modifies this, promises
      ensures Valid(i) && old(schedule) <= schedule && i + 1 < |sys.tasks|
      ensures !was ==> sys.tasks[i].pc.Parked? && promises[i + 1].continuation == Some(i)
      ensures was ==> sys.tasks[i].pc.Result? && sys.tasks[i + 1].pc.Final?
    {
      Others(i);
      AwaiterFacts(schedule, i);
      was := Exchange(i, i + 1);
    }

    /** `try_set_continuation`. */
    method TrySetContinuation(i: nat) returns (suspended: bool)
      requires Valid(i) && i < |sys.tasks| && sys.tasks[i].pc.SetContinuation?
      modifies this, promises
      ensures Valid(i) && old(schedule) <= schedule && i + 1 < |sys.tasks|
      ensures suspended ==> sys.tasks[i].pc.Parked? && promises[i + 1].continuation == Some(i)
      ensures !suspended ==> sys.tasks[i].pc.Result? && sys.tasks[i + 1].pc.Final?
    {
      WriteContinuation(i);
      var was := ExchangeCalleeState(i);
      suspended := !was;
    }

    /** `awaitable_base::await_suspend`: resume the callee, register, exchange. True leaves the
        awaiter parked; false means the callee has already reached its final suspend point. */
    method AwaitSuspend(i: nat) returns (suspended: bool)
      requires Valid(i) && i < |sys.tasks| && sys.tasks[i].pc.Start?
      modifies this, promises
      ensures Valid(i) && old(schedule) <= schedule && i + 1 < |sys.tasks|
      ensures suspended ==> sys.tasks[i].pc.Parked? && promises[i + 1].continuation == Some(i)
      ensures !suspended ==> sys.tasks[i].pc.Result? && sys.tasks[i + 1].pc.Final?
    {
      ResumeCallee(i);
      suspended := TrySetContinuation(i);
    }

    method ExchangeOwnState(i: nat) returns (was: bool)
      requires Valid(i) && i < |sys.tasks| && sys.tasks[i].pc.Complete?
      modifies this, promises
      ensures Valid(i) && old(schedule) <= schedule && 0 < i < |sys.tasks|
      ensures fresh(set p | p in promises && p !in old(promises))
      ensures sys.tasks[i].pc == (if was then Continue else Final)
      ensures !was ==> JustCameFirst(schedule, i)
    {
      Others(i);
      CompletionFacts(schedule, i);
      was := Exchange(i, i);
    }

    /** `continuation::resume`, on the awaiter of coroutine `i`. */
    method ResumeContinuation(i: nat)
      requires Valid(i) && i < |sys.tasks| && sys.tasks[i].pc.Continue?
      modifies this, promises
      ensures Valid(i) && old(schedule) <= schedule && 0 < i < |sys.tasks|
      ensures sys.tasks[i].pc.Final? && sys.tasks[i - 1].pc.Result? && JustResumedAwaiter(schedule, i)
    {
      Others(i);
      CompletionFacts(schedule, i);
      assert promises[i].continuation == Some(i - 1) && sys.tasks[i - 1].pc.Parked?;
      Did(Proceed(i));
    }

    /** `final_awaitable::await_suspend`: exchange, and if the awaiter came first, resume it. */
    method FinalAwaitSuspend(i: nat) returns (resumed: bool)
      requires Valid(i) && i < |sys.tasks| && sys.tasks[i].pc.Complete?
      modifies this, promises
      ensures Valid(i) && old(schedule) <= schedule && 0 < i < |sys.tasks| && sys.tasks[i].pc.Final?
      ensures resumed ==> sys.tasks[i - 1].pc.Result? && JustResumedAwaiter(schedule, i)
      ensures !resumed ==> JustCameFirst(schedule, i)
    {
      resumed := ExchangeOwnState(i);
      if resumed {
        ResumeContinuation(i);
      }
    }
  }
}
