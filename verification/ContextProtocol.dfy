/** `context::run` on any number of threads over one stack, as a state machine. Posts are
    numbered in the order of their exchanges. A blocked runner may wake at any time, which
    covers notifications, lost notifications and spurious wake-ups alike. */
module ContextProtocol {
  import opened Sequences
  type Thread = nat

  /** Where a runner is. `seen` is the number of posts made when its last, empty, `acquire`
      took place. The second `acquire` is the one inside the predicate of the wait. */
  datatype Pc =
    | Locking
    | Acquiring
    | StopCheck(seen: nat)
    | PredicateAcquire
    | PredicateStop(seen: nat)
    | Blocked
    | Unlocking
    | Draining
    | Leaving(seen: nat)
    | Returned(seen: nat)

  /** Where the posts taken off the stack are: resumed, or in the hands of some runner. */
  datatype Ledger = Ledger(taken: nat, log: seq<nat>, hands: map<Thread, seq<nat>>)

  datatype State = State(
    stack: seq<nat>,
    posts: nat,
    ledger: Ledger,
    stopFlag: bool,
    lock: Option<Thread>,     // who holds mutex_
    runners: map<Thread, Pc>)

  datatype Action = Push | SetStop(value: bool) | Enter(thread: Thread) | Runner(thread: Thread)

  function Init(): State {
    State([], 0, Ledger(0, [], map[]), false, None, map[])
  }

  function Hand(l: Ledger, r: Thread): seq<nat> {
    if r in l.hands then l.hands[r] else []
  }

  function Take(l: Ledger, r: Thread, batch: seq<nat>): Ledger {
    l.(taken := l.taken + |batch|, hands := l.hands[r := batch])
  }

  function ResumeFirst(l: Ledger, r: Thread): Ledger
    requires Hand(l, r) != []
  {
    l.(log := l.log + [l.hands[r][0]], hands := l.hands[r := l.hands[r][1..]])
  }

  function To(s: State, r: Thread, pc: Pc): State {
    s.(runners := s.runners[r := pc])
  }

  /** `acquire`, and the branch on what it returned. */
  function Acquire(s: State, r: Thread, empty: Pc): State {
    To(s.(stack := [], ledger := Take(s.ledger, r, Reverse(s.stack))), r, if s.stack == [] then empty else Unlocking)
  }

  function RunnerStep(s: State, r: Thread): State
    requires r in s.runners
  {
    match s.runners[r]
    case Locking => if s.lock.None? then To(s.(lock := Some(r)), r, Acquiring) else s
    case Acquiring => Acquire(s, r, StopCheck(s.posts))
    case StopCheck(seen) => To(s, r, if s.stopFlag then Leaving(seen) else PredicateAcquire)
    case PredicateAcquire => Acquire(s, r, PredicateStop(s.posts))
    case PredicateStop(seen) => if s.stopFlag then To(s, r, StopCheck(seen)) else To(s.(lock := None), r, Blocked)
    case Blocked => if s.lock.None? then To(s.(lock := Some(r)), r, PredicateAcquire) else s
    case Unlocking => To(s.(lock := None), r, Draining)
    case Draining =>
      if Hand(s.ledger, r) == [] then To(s, r, Locking) else s.(ledger := ResumeFirst(s.ledger, r))
    case Leaving(seen) => To(s.(lock := None), r, Returned(seen))
    case Returned(_) => s
  }

  function Step(s: State, a: Action): State {
    match a
    case Push => s.(stack := [s.posts] + s.stack, posts := s.posts + 1)
    case SetStop(value) => s.(stopFlag := value)
    case Enter(r) => if r in s.runners && !s.runners[r].Returned? then s else To(s, r, Locking)
    case Runner(r) => if r in s.runners then RunnerStep(s, r) else s
  }

  function Run(s: State, schedule: seq<Action>): State
    decreases |schedule|
  {
    if schedule == [] then s else Run(Step(s, schedule[0]), schedule[1..])
  }

  ghost function Reach(schedule: seq<Action>): State {
    Run(Init(), schedule)
  }

  lemma {:induction false} RunAppend(s: State, first: seq<Action>, second: seq<Action>)
    ensures Run(s, first + second) == Run(Run(s, first), second)
    decreases |first|
  {
    if first == [] {
      assert first + second == second;
    } else {
      assert (first + second)[1..] == first[1..] + second;
      RunAppend(Step(s, first[0]), first[1..], second);
    }
  }

  // The ledger --------------------------------------------------------------

  predicate Holds(l: Ledger, r: Thread, post: nat) {
    post in Hand(l, r)
  }

  ghost predicate Held(l: Ledger, post: nat) {
    exists r :: Holds(l, r, post)
  }

  ghost predicate Increasing(s: seq<nat>) {
    forall i, j :: 0 <= i < j < |s| ==> s[i] < s[j]
  }

  /** Every post taken is in exactly one place, and every runner's batch is in order. */
  ghost predicate Balanced(l: Ledger) {
    && Distinct(l.log)
    && (forall post: nat :: post in l.log ==> post < l.taken)
    && (forall r :: Increasing(Hand(l, r)))
    && (forall r, post: nat :: Holds(l, r, post) ==> post < l.taken && post !in l.log)
    && (forall q, r, post: nat :: Holds(l, q, post) && Holds(l, r, post) ==> q == r)
    && (forall post: nat :: post < l.taken ==> post in l.log || Held(l, post))
  }

  lemma TakeBalances(l: Ledger, r: Thread, batch: seq<nat>)
    requires Balanced(l) && Hand(l, r) == []
    requires forall i :: 0 <= i < |batch| ==> batch[i] == l.taken + i
    ensures Balanced(Take(l, r, batch))
  {
    var t := Take(l, r, batch);
    assert forall post :: post in batch ==> l.taken <= post < t.taken;
    forall q, post: nat
      ensures Holds(t, q, post) <==> if q == r then post in batch else Holds(l, q, post)
    {
    }
    forall q
      ensures Increasing(Hand(t, q))
    {
      assert q != r ==> Hand(t, q) == Hand(l, q);
    }
    forall post: nat | post < t.taken
      ensures post in t.log || Held(t, post)
    {
      if post >= l.taken {
        assert batch[post - l.taken] == post;
        assert Holds(t, r, post);
      } else if post !in l.log {
        var q :| Holds(l, q, post);
        assert Holds(t, q, post);
      }
    }
  }

  lemma Apart(batch: seq<nat>)
    requires Increasing(batch) && batch != []
    ensures Increasing(batch[1..])
    ensures forall post :: post in batch <==> post == batch[0] || post in batch[1..]
    ensures batch[0] !in batch[1..]
  {
    assert batch == [batch[0]] + batch[1..];
    assert forall i :: 0 <= i < |batch[1..]| ==> batch[1..][i] == batch[i + 1];
  }

  lemma ResumeBalances(l: Ledger, r: Thread)
    requires Balanced(l) && Hand(l, r) != []
    ensures Balanced(ResumeFirst(l, r))
  {
    var batch, t := l.hands[r], ResumeFirst(l, r);
    var first := batch[0];
    Apart(batch);
    assert Holds(l, r, first);
    forall q, post: nat
      ensures Holds(t, q, post) <==> Holds(l, q, post) && post != first
    {
      assert Hand(t, q) == if q == r then batch[1..] else Hand(l, q);
    }
    forall q
      ensures Increasing(Hand(t, q))
    {
      assert Hand(t, q) == if q == r then batch[1..] else Hand(l, q);
    }
    forall post: nat | post < t.taken
      ensures post in t.log || Held(t, post)
    {
      if post !in t.log {
        var q :| Holds(l, q, post);
        assert Holds(t, q, post);
      }
    }
  }

  // The invariant -----------------------------------------------------------

  predicate HasLock(pc: Pc) {
    pc.Acquiring? || pc.StopCheck? || pc.PredicateAcquire? || pc.PredicateStop? || pc.Unlocking? || pc.Leaving?
  }

  /** The number of posts made when the runner last found the stack empty. */
  function Seen(pc: Pc): nat {
    if pc.StopCheck? || pc.PredicateStop? || pc.Leaving? || pc.Returned? then pc.seen else 0
  }

  ghost predicate RunnerInv(s: State, r: Thread)
    requires r in s.runners
  {
    && (HasLock(s.runners[r]) <==> s.lock == Some(r))
    && (!s.runners[r].Unlocking? && !s.runners[r].Draining? ==> Hand(s.ledger, r) == [])
    && Seen(s.runners[r]) <= s.ledger.taken
  }

  ghost predicate Inv(s: State) {
    && s.ledger.taken + |s.stack| == s.posts
    && (forall i :: 0 <= i < |s.stack| ==> s.stack[i] == s.posts - 1 - i)
    && Balanced(s.ledger)
    && (forall r :: r in s.ledger.hands ==> r in s.runners)
    && (s.lock.Some? ==> s.lock.value in s.runners)
    && (forall r :: r in s.runners ==> RunnerInv(s, r))
  }

  lemma TakenStack(s: State)
    requires Inv(s)
    ensures |Reverse(s.stack)| == |s.stack|
    ensures forall i :: 0 <= i < |s.stack| ==> Reverse(s.stack)[i] == s.ledger.taken + i
  {
    ReverseMembers(s.stack);
    forall i | 0 <= i < |s.stack|
      ensures Reverse(s.stack)[i] == s.ledger.taken + i
    {
      ReverseAt(s.stack, i);
    }
  }

  lemma AcquireKeepsInv(s: State, r: Thread, empty: Pc)
    requires Inv(s) && r in s.runners && s.lock == Some(r) && Hand(s.ledger, r) == []
    requires HasLock(empty) && Seen(empty) <= s.posts
    ensures Inv(Acquire(s, r, empty))
  {
    TakenStack(s);
    TakeBalances(s.ledger, r, Reverse(s.stack));
    var t := Acquire(s, r, empty);
    assert s.stack == [] ==> Reverse(s.stack) == [];
    forall q | q in t.runners
      ensures RunnerInv(t, q)
    {
      assert RunnerInv(s, q);
    }
  }

  /** The other runners are where they were, unless the lock was given to or taken from one of them. */
  lemma OthersKeepInv(s: State, t: State, r: Thread)
    requires Inv(s) && r in t.runners && RunnerInv(t, r)
    requires t.runners == s.runners[r := t.runners[r]]
    requires t.ledger.taken == s.ledger.taken
    requires forall q :: q != r ==> Hand(t.ledger, q) == Hand(s.ledger, q)
    requires t.lock == s.lock || (s.lock.None? && t.lock == Some(r)) || (s.lock == Some(r) && t.lock.None?)
    ensures forall q :: q in t.runners ==> RunnerInv(t, q)
  {
    forall q | q in t.runners
      ensures RunnerInv(t, q)
    {
      if q != r {
        assert RunnerInv(s, q);
      }
    }
  }

  lemma DrainKeepsInv(s: State, r: Thread)
    requires Inv(s) && r in s.runners && s.runners[r].Draining?
    ensures Inv(RunnerStep(s, r))
  {
    assert RunnerInv(s, r);
    if Hand(s.ledger, r) != [] {
      ResumeBalances(s.ledger, r);
    }
    OthersKeepInv(s, RunnerStep(s, r), r);
  }

  lemma WalkKeepsInv(s: State, r: Thread)
    requires Inv(s) && r in s.runners
    requires !s.runners[r].Acquiring? && !s.runners[r].PredicateAcquire? && !s.runners[r].Draining?
    ensures Inv(RunnerStep(s, r))
  {
    assert RunnerInv(s, r);
    OthersKeepInv(s, RunnerStep(s, r), r);
  }

  lemma RunnerKeepsInv(s: State, r: Thread)
    requires Inv(s) && r in s.runners
    ensures Inv(RunnerStep(s, r))
  {
    assert RunnerInv(s, r);
    match s.runners[r]
    case Acquiring => AcquireKeepsInv(s, r, StopCheck(s.posts));
    case PredicateAcquire => AcquireKeepsInv(s, r, PredicateStop(s.posts));
    case Draining => DrainKeepsInv(s, r);
    case _ => WalkKeepsInv(s, r);
  }

  lemma StepKeepsInv(s: State, a: Action)
    requires Inv(s)
    ensures Inv(Step(s, a))
  {
    var t := Step(s, a);
    match a
    case Push =>
      forall q | q in t.runners
        ensures RunnerInv(t, q)
      {
        assert RunnerInv(s, q);
      }
    case SetStop(_) =>
      forall q | q in t.runners
        ensures RunnerInv(t, q)
      {
        assert RunnerInv(s, q);
      }
    case Enter(r) =>
      if t != s {
        assert r in s.runners ==> RunnerInv(s, r);
        OthersKeepInv(s, t, r);
      }
    case Runner(r) => if r in s.runners { RunnerKeepsInv(s, r); }
  }

  lemma {:induction false} RunKeepsInv(s: State, schedule: seq<Action>)
    requires Inv(s)
    ensures Inv(Run(s, schedule))
    decreases |schedule|
  {
    if schedule == [] {
    } else {
      StepKeepsInv(s, schedule[0]);
      RunKeepsInv(Step(s, schedule[0]), schedule[1..]);
    }
  }

  lemma ReachInv(schedule: seq<Action>)
    ensures Inv(Reach(schedule))
  {
    RunKeepsInv(Init(), schedule);
  }

  // What the runners promise ------------------------------------------------

  /** Every post is in exactly one place: on the stack, resumed, or in the hands of exactly
      one runner; and nothing is resumed twice. No batch is ever dropped. */
  lemma ExactlyOnce(schedule: seq<Action>, post: nat)
    ensures var s := Reach(schedule);
      && Distinct(s.ledger.log)
      && (post < s.posts <==> post in s.stack || post in s.ledger.log || Held(s.ledger, post))
      && !(post in s.stack && post in s.ledger.log)
      && !(post in s.stack && Held(s.ledger, post))
      && !(post in s.ledger.log && Held(s.ledger, post))
      && (forall q, r :: Holds(s.ledger, q, post) && Holds(s.ledger, r, post) ==> q == r)
  {
    ReachInv(schedule);
    var s := Reach(schedule);
    if s.ledger.taken <= post < s.posts {
      assert s.stack[s.posts - 1 - post] == post;
    }
  }

  /** A runner that has returned holds nothing, and every post made before its last `acquire`
      has been resumed or is in the hands of another runner. */
  lemma ReturnedRunner(schedule: seq<Action>, r: Thread, post: nat)
    requires r in Reach(schedule).runners && Reach(schedule).runners[r].Returned?
    ensures var s := Reach(schedule);
      && Hand(s.ledger, r) == []
      && (post < s.runners[r].seen ==>
            post in s.ledger.log || exists q :: q in s.runners && q != r && Holds(s.ledger, q, post))
  {
    ReachInv(schedule);
    var s := Reach(schedule);
    assert RunnerInv(s, r);
    if post < s.runners[r].seen && post !in s.ledger.log {
      var q :| Holds(s.ledger, q, post);
      assert q in s.runners && q != r;
    }
  }

  lemma LeavingStep(s: State, a: Action, r: Thread)
    requires r in Step(s, a).runners && Step(s, a).runners[r].Leaving? && !(r in s.runners && s.runners[r].Leaving?)
    ensures s.stopFlag && a == Runner(r) && r in s.runners
    ensures s.runners[r] == StopCheck(Step(s, a).runners[r].seen)
    ensures Step(s, a) == To(s, r, Leaving(s.runners[r].seen))
  {
  }

  /** A runner leaves only from a check that finds `stop_` set, after an `acquire` that came
      up empty; it then holds nothing, and every post made before that `acquire` has been taken. */
  lemma LeavesOnlyWhenStopped(schedule: seq<Action>, a: Action, r: Thread)
    ensures var s := Reach(schedule);
      var t := Step(s, a);
      r in t.runners && t.runners[r].Leaving? && !(r in s.runners && s.runners[r].Leaving?) ==>
        && s.stopFlag && a == Runner(r) && s.runners[r] == StopCheck(t.runners[r].seen)
        && Hand(t.ledger, r) == [] && forall post :: post in t.stack ==> post >= t.runners[r].seen
  {
    ReachInv(schedule);
    var s := Reach(schedule);
    var t := Step(s, a);
    if r in t.runners && t.runners[r].Leaving? && !(r in s.runners && s.runners[r].Leaving?) {
      LeavingStep(s, a, r);
      assert RunnerInv(s, r);
    }
  }

  /** A runner whose predicate finds `stop_` set leaves the wait and, if the flag stays set,
      `run`, with three steps of its own; the mutex is then free. */
  lemma StopEndsTheWait(s: State, r: Thread)
    requires r in s.runners && s.runners[r].PredicateStop? && s.stopFlag
    ensures var t := Step(Step(Step(s, Runner(r)), Runner(r)), Runner(r));
      t == s.(runners := s.runners[r := Returned(s.runners[r].seen)], lock := None)
  {
    var t := Step(s, Runner(r));
    var u := Step(t, Runner(r));
    assert s.runners[r := StopCheck(s.runners[r].seen)][r := Leaving(s.runners[r].seen)]
        == s.runners[r := Leaving(s.runners[r].seen)];
    assert u.runners[r := Returned(s.runners[r].seen)] == s.runners[r := Returned(s.runners[r].seen)];
  }

  lemma StepMoves(s: State, r: Thread)
    requires r in s.runners
    ensures var t := RunnerStep(s, r);
      match s.runners[r]
      case Returned(_) => t == s
      case Locking => t.runners[r] == if s.lock.None? then Acquiring else Locking
      case Blocked => t.runners[r] == if s.lock.None? then PredicateAcquire else Blocked
      case Draining => if Hand(s.ledger, r) == [] then t.runners[r] == Locking else |t.ledger.log| == |s.ledger.log| + 1
      case _ => t.runners[r] != s.runners[r]
  {
  }

  /** A runner that has not returned can always go on, unless it waits for a mutex that another
      runner holds. */
  lemma OnlyTheMutexStops(schedule: seq<Action>, r: Thread)
    requires r in Reach(schedule).runners && !Reach(schedule).runners[r].Returned?
    ensures var s := Reach(schedule);
      Step(s, Runner(r)) == s ==>
        (s.runners[r].Locking? || s.runners[r].Blocked?) && s.lock.Some? && s.lock != Some(r) && s.lock.value in s.runners
  {
    ReachInv(schedule);
    var s := Reach(schedule);
    assert RunnerInv(s, r);
    StepMoves(s, r);
  }

  predicate OnlyRunner(schedule: seq<Action>, r: Thread) {
    forall a :: a in schedule && a.Enter? ==> a.thread == r
  }

  ghost predicate InOrder(s: State, r: Thread) {
    && (forall q :: q in s.runners ==> q == r)
    && s.ledger.log + Hand(s.ledger, r) == Upto(s.ledger.taken)
  }

  lemma RunnerKeepsOrder(s: State, r: Thread)
    requires Inv(s) && InOrder(s, r) && r in s.runners
    ensures InOrder(RunnerStep(s, r), r)
  {
    assert RunnerInv(s, r);
    TakenStack(s);
    var l := s.ledger;
    match s.runners[r]
    case Acquiring =>
      assert Upto(l.taken + |s.stack|) == Upto(l.taken) + Reverse(s.stack);
    case PredicateAcquire =>
      assert Upto(l.taken + |s.stack|) == Upto(l.taken) + Reverse(s.stack);
    case Draining =>
      if Hand(l, r) != [] {
        assert (l.log + [l.hands[r][0]]) + l.hands[r][1..] == l.log + l.hands[r];
      }
    case _ =>
  }

  lemma {:induction false} OneRunnerInOrder(s: State, schedule: seq<Action>, r: Thread)
    requires Inv(s) && InOrder(s, r) && OnlyRunner(schedule, r)
    ensures InOrder(Run(s, schedule), r)
    decreases |schedule|
  {
    if schedule == [] {
    } else {
      var a := schedule[0];
      var t := Step(s, a);
      assert a in schedule;
      StepKeepsInv(s, a);
      if a == Runner(r) && r in s.runners {
        assert RunnerInv(s, r);
        TakenStack(s);
        RunnerKeepsOrder(s, r);
      }
      OneRunnerInOrder(t, schedule[1..], r);
    }
  }

  /** With one runner the order is exact: what it has resumed, what it has in hand and the
      stack backwards are the posts in their order. */
  lemma OneRunnerIsFifo(schedule: seq<Action>, r: Thread)
    requires OnlyRunner(schedule, r)
    ensures var s := Reach(schedule);
      && s.ledger.log + Hand(s.ledger, r) + Reverse(s.stack) == Upto(s.posts)
      && (r in s.runners && s.runners[r].Returned? ==> Upto(s.runners[r].seen) <= s.ledger.log)
  {
    ReachInv(schedule);
    OneRunnerInOrder(Init(), schedule, r);
    var s := Reach(schedule);
    TakenStack(s);
    var l := s.ledger;
    assert Upto(s.posts) == Upto(l.taken) + Reverse(s.stack);
    if r in s.runners && s.runners[r].Returned? {
      assert RunnerInv(s, r) && l.log + [] == l.log;
      assert Upto(s.runners[r].seen) == Upto(l.taken)[..s.runners[r].seen];
    }
  }
}
