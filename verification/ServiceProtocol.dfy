/** The service's event loop as a state machine: any number of threads post and stop, one
    thread runs. Posts are numbered in the order of their successful exchanges. The kernel
    is one bit: `interrupt` arms it, a wait that reports it clears it. */
module ServiceProtocol {
  import opened Sequences

  /** Why `run` is not running. */
  datatype Exit = NotStarted | TimedOut | Signalled | Failed

  /** An entry reported by a wait: the interrupt, or an event some coroutine waits for. */
  datatype Entry = Interrupt | Io

  datatype Pc =
    | Outside(exit: Exit)
    | Entering
    | AtWait
    | Checking(timedOut: bool)
    | Entries(rest: seq<Entry>, interrupted: bool)
    | Acquiring
    | Draining

  /** The posts and where they are. */
  datatype Line = Line(
    stack: seq<nat>,        // posted and not taken, newest first
    posts: nat,             // how many posts have been made
    batch: seq<nat>,        // taken by `process` and not yet resumed
    log: seq<nat>,          // resumed, in order
    acquired: nat)          // how many posts had been made when the stack was last taken

  /** The last wait that returned without entries: the posts whose `interrupt` had completed
      when it returned, and whether the interrupt was armed at that moment. */
  datatype EmptyWait = EmptyWait(settled: set<nat>, armed: bool)

  datatype State = State(
    line: Line,
    interrupted: set<nat>,  // posts whose call of `interrupt` has completed
    armed: bool,            // the kernel will report the interrupt
    stopFlag: bool,         // stop_
    stoppers: set<nat>,     // threads in `stop` between the store and the end of `interrupt`
    stop: bool,             // the local copy in `run`
    pc: Pc,
    last: EmptyWait)

  datatype Action =
    | Push | CompletePost(post: nat)
    | StoreStop(thread: nat, value: bool) | CompleteStop(thread: nat)
    | Enter
    | Report(entries: seq<Entry>) | TimeOut | Signal | Fail
    | Runner

  /** The state `create` leaves: nothing posted, and armed by its call of `interrupt`. */
  function Init(): State {
    State(Line([], 0, [], [], 0), {}, true, false, {}, false, Outside(NotStarted), EmptyWait({}, false))
  }

  /** What the wait may report: something, and the interrupt at most once and only if armed. */
  predicate Reportable(s: State, entries: seq<Entry>) {
    && s.pc.AtWait? && entries != []
    && (Interrupt in entries ==> s.armed)
    && forall i, j :: 0 <= i < j < |entries| ==> !(entries[i].Interrupt? && entries[j].Interrupt?)
  }

  function Pushed(l: Line): Line {
    l.(stack := [l.posts] + l.stack, posts := l.posts + 1)
  }

  /** `acquire`. */
  function Taken(l: Line): Line {
    l.(stack := [], batch := Reverse(l.stack), acquired := l.posts)
  }

  function ResumedFirst(l: Line): Line
    requires l.batch != []
  {
    l.(log := l.log + [l.batch[0]], batch := l.batch[1..])
  }

  function RunnerStep(s: State): State {
    match s.pc
    case Entering => s.(stop := s.stopFlag, pc := AtWait)
    case Checking(timedOut) =>
      if s.stopFlag then s.(pc := Outside(if timedOut then TimedOut else Signalled)) else s.(pc := AtWait)
    case Entries(rest, interrupted) =>
      if rest == [] then s.(pc := if interrupted then Acquiring else AtWait)
      else if rest[0].Io? then s.(pc := Entries(rest[1..], interrupted))
      else s.(stop := s.stopFlag, pc := Entries(rest[1..], true))
    case Acquiring => s.(line := Taken(s.line), pc := Draining)
    case Draining =>
      if s.line.batch == [] then s.(pc := AtWait) else s.(line := ResumedFirst(s.line))
    case _ => s
  }

  /** A wait returns without entries. */
  function WaitedInVain(s: State, timedOut: bool): State {
    s.(pc := Checking(timedOut), last := EmptyWait(s.interrupted, s.armed))
  }

  function Step(s: State, a: Action): State {
    match a
    case Push => s.(line := Pushed(s.line))
    case CompletePost(post) =>
      if post < s.line.posts then s.(interrupted := s.interrupted + {post}, armed := true) else s
    case StoreStop(thread, value) => s.(stopFlag := value, stoppers := s.stoppers + {thread})
    case CompleteStop(thread) =>
      if thread in s.stoppers then s.(stoppers := s.stoppers - {thread}, armed := true) else s
    case Enter => if s.pc.Outside? then s.(pc := Entering) else s
    case Report(entries) =>
      if Reportable(s, entries) then s.(armed := s.armed && Interrupt !in entries, pc := Entries(entries, false)) else s
    case TimeOut =>
      // a wait has a timeout only while the local flag is set, and times out only when nothing is ready
      if s.pc.AtWait? && s.stop && !s.armed then WaitedInVain(s, true) else s
    case Signal => if s.pc.AtWait? then WaitedInVain(s, false) else s
    case Fail => if s.pc.AtWait? then s.(pc := Outside(Failed)) else s
    case Runner => RunnerStep(s)
  }

  function Run(s: State, schedule: seq<Action>): State
    decreases |schedule|
  {
    if schedule == [] then s else Run(Step(s, schedule[0]), schedule[1..])
  }

  ghost function Reach(schedule: seq<Action>): State {
    Run(Init(), schedule)
  }

  // The invariant -----------------------------------------------------------

  /** The runner has been told of the interrupt and has not yet taken the stack. */
  predicate Harvested(pc: Pc) {
    pc.Acquiring? || (pc.Entries? && (pc.interrupted || Interrupt in pc.rest))
  }

  /** The runner will read `stop_` before it waits again. */
  predicate ReloadPending(pc: Pc) {
    pc.Outside? || pc.Entering? || (pc.Entries? && Interrupt in pc.rest)
  }

  /** The last wait returned without entries, and the runner has done nothing since but look at `stop_`. */
  predicate CameUpEmpty(pc: Pc) {
    pc.Checking? || pc == Outside(TimedOut) || pc == Outside(Signalled)
  }

  /** What has been taken are the first posts, the others are on the stack, all in order. */
  ghost predicate InOrder(l: Line) {
    && l.log + l.batch == Upto(l.acquired) && l.acquired <= l.posts
    && l.log + l.batch + Reverse(l.stack) == Upto(l.posts)
  }

  /** Whoever has something to tell the runner has been heard or is going to be. */
  ghost predicate Heard(s: State) {
    && (forall post :: post in s.interrupted ==>
          post < s.line.posts && (post < s.line.acquired || s.armed || Harvested(s.pc)))
    && (s.stopFlag ==> s.stop || s.armed || s.stoppers != {} || ReloadPending(s.pc))
    && (CameUpEmpty(s.pc) && !s.last.armed ==> forall post :: post in s.last.settled ==> post < s.line.acquired)
    && (s.pc == Checking(true) || s.pc == Outside(TimedOut) ==> !s.last.armed)
  }

  ghost predicate Inv(s: State) {
    InOrder(s.line) && Heard(s) && (s.line.batch != [] ==> s.pc.Draining?)
  }

  lemma PushKeepsOrder(l: Line)
    requires InOrder(l)
    ensures InOrder(Pushed(l))
  {
    assert Pushed(l).stack[1..] == l.stack;
    assert l.log + l.batch + (Reverse(l.stack) + [l.posts]) == l.log + l.batch + Reverse(l.stack) + [l.posts];
    assert Upto(l.posts + 1) == Upto(l.posts) + [l.posts];
  }

  lemma ProcessKeepsOrder(l: Line)
    requires InOrder(l)
    ensures l.batch == [] ==> InOrder(Taken(l))
    ensures l.batch != [] ==> InOrder(ResumedFirst(l))
  {
    if l.batch == [] {
      assert l.log + l.batch == l.log && Reverse(Taken(l).stack) == [];
    } else {
      assert ResumedFirst(l).log + ResumedFirst(l).batch == l.log + l.batch;
    }
  }

  /** The posts taken are those made before the stack was last taken; the others are on it. */
  lemma TakenOrWaiting(l: Line, post: nat)
    requires InOrder(l) && post < l.posts
    ensures post in l.log + l.batch <==> post < l.acquired
    ensures post in l.stack <==> post >= l.acquired
  {
    var taken, waiting := l.log + l.batch, Reverse(l.stack);
    ReverseMembers(l.stack);
    assert |taken| == l.acquired;
    forall j | 0 <= j < |waiting|
      ensures waiting[j] == l.acquired + j
    {
      assert (taken + waiting)[l.acquired + j] == Upto(l.posts)[l.acquired + j];
    }
    if post < l.acquired {
      assert taken[post] == Upto(l.acquired)[post] == post;
    } else {
      assert waiting[post - l.acquired] == post;
    }
  }

  lemma EntriesKeepHeard(s: State)
    requires Heard(s) && s.pc.Entries?
    ensures Heard(RunnerStep(s))
  {
    if s.pc.rest != [] {
      assert Interrupt in s.pc.rest <==> s.pc.rest[0].Interrupt? || Interrupt in s.pc.rest[1..];
    }
  }

  lemma RunnerKeepsHeard(s: State)
    requires Heard(s)
    ensures Heard(RunnerStep(s))
  {
    if s.pc.Entries? {
      EntriesKeepHeard(s);
    }
  }

  lemma RunnerKeepsInv(s: State)
    requires Inv(s)
    ensures Inv(RunnerStep(s))
  {
    ProcessKeepsOrder(s.line);
    RunnerKeepsHeard(s);
  }

  lemma StepKeepsInv(s: State, a: Action)
    requires Inv(s)
    ensures Inv(Step(s, a))
  {
    if a.Runner? {
      RunnerKeepsInv(s);
    } else {
      PushKeepsOrder(s.line);
    }
  }

  lemma {:induction false} RunKeepsInv(s: State, schedule: seq<Action>)
    requires Inv(s)
    ensures Inv(Run(s, schedule))
    decreases |schedule|
  {
    if schedule == [] {
    } else {
      StepKeepsInv(s, schedule[0]);
      RunKeepsInv(Step(s, schedule[0]), schedule[1..]);
    }
  }

  lemma {:induction false} RunAppend(s: State, first: seq<Action>, second: seq<Action>)
    ensures Run(s, first + second) == Run(Run(s, first), second)
    decreases |first|
  {
    if first == [] {
      assert first + second == second;
    } else {
      assert (first + second)[1..] == first[1..] + second;
      RunAppend(Step(s, first[0]), first[1..], second);
    }
  }

  // What the loop promises --------------------------------------------------

  lemma ReachInv(schedule: seq<Action>)
    ensures Inv(Reach(schedule))
  {
    assert Reverse<nat>([]) == [];
    RunKeepsInv(Init(), schedule);
  }

  /** What has been resumed, what is at hand and the stack backwards are the posts in their
      order, at every moment: each post is resumed once at most, and in order. */
  lemma PostsAreConserved(schedule: seq<Action>)
    ensures var s := Reach(schedule);
      && s.line.log + s.line.batch + Reverse(s.line.stack) == Upto(s.line.posts)
      && s.line.log == Upto(|s.line.log|)
  {
    ReachInv(schedule);
    var s := Reach(schedule);
    assert s.line.log == Upto(s.line.posts)[..|s.line.log|];
  }

  /** No post is lost: while one that has been announced is waiting, the interrupt is armed,
      or the runner has been told and has not looked yet. */
  lemma NoPostIsLost(schedule: seq<Action>, post: nat)
    ensures var s := Reach(schedule);
      post in s.line.stack ==> s.armed || Harvested(s.pc) || post !in s.interrupted
  {
    ReachInv(schedule);
    if post in Reach(schedule).interrupted {
      TakenOrWaiting(Reach(schedule).line, post);
    }
  }

  /** No stop is lost. */
  lemma NoStopIsLost(schedule: seq<Action>)
    ensures var s := Reach(schedule);
      s.stopFlag ==> s.stop || s.armed || s.stoppers != {} || ReloadPending(s.pc)
  {
    ReachInv(schedule);
  }

  /** The runner never sleeps on work: if its wait has no timeout and nothing will wake it,
      and every post and stop has returned, everything has been resumed and nobody has
      asked it to stop. */
  lemma NeverSleepsOnWork(schedule: seq<Action>)
    ensures var s := Reach(schedule);
      s.pc.AtWait? && !s.stop && !s.armed && s.stoppers == {}
      && (forall post :: 0 <= post < s.line.posts ==> post in s.interrupted)
      ==> s.line.log == Upto(s.line.posts) && !s.stopFlag
  {
    ReachInv(schedule);
    var s := Reach(schedule);
    if s.pc.AtWait? && !s.armed && (forall post :: 0 <= post < s.line.posts ==> post in s.interrupted) {
      assert s.line.acquired < s.line.posts ==> s.line.acquired in s.interrupted;
      assert s.line.log + s.line.batch == s.line.log;
    }
  }

  /** Nothing is at hand at an exit, and what has been resumed are the posts made before the
      stack was last taken. */
  lemma ExitResumed(schedule: seq<Action>)
    ensures var s := Reach(schedule);
      s.pc.Outside? ==> s.line.batch == [] && forall post: nat :: post in s.line.log <==> post < s.line.acquired
  {
    ReachInv(schedule);
    var s := Reach(schedule);
    if s.pc.Outside? {
      assert s.line.log + s.line.batch == s.line.log && |s.line.log| == s.line.acquired;
      forall post: nat
        ensures post in s.line.log <==> post < s.line.acquired
      {
        if post < s.line.acquired {
          assert s.line.log[post] == Upto(s.line.acquired)[post];
        }
      }
    }
  }

  /** `run` leaves through a timed-out wait only having resumed every post whose call of
      `interrupt` had completed when that wait returned. */
  lemma ExitAfterTimeout(schedule: seq<Action>)
    ensures var s := Reach(schedule);
      s.pc == Outside(TimedOut) ==> s.line.batch == [] && forall post :: post in s.last.settled ==> post in s.line.log
  {
    ReachInv(schedule);
    ExitResumed(schedule);
  }

  lemma LeavingStep(s: State, a: Action)
    requires !s.pc.Outside? && (s.line.batch != [] ==> s.pc.Draining?)
    requires Step(s, a).pc.Outside? && Step(s, a).pc.exit != Failed
    ensures s.stopFlag && s.pc.Checking? && a == Runner && s.line.batch == []
  {
    assert a.Runner?;
  }

  /** Without an error `run` leaves only at a moment when `stop_` is set, nothing is at hand,
      and the wait before it came up empty. */
  lemma LeavesOnlyWhenStopped(schedule: seq<Action>, a: Action)
    ensures var s, t := Reach(schedule), Reach(schedule + [a]);
      t.pc.Outside? && !s.pc.Outside? && t.pc.exit != Failed ==>
        s.stopFlag && s.pc.Checking? && t.line.batch == [] && a == Runner
  {
    var s := Reach(schedule);
    RunAppend(Init(), schedule, [a]);
    ReachInv(schedule);
    if !s.pc.Outside? && Step(s, a).pc.Outside? && Step(s, a).pc.exit != Failed {
      LeavingStep(s, a);
    }
  }

  /** However `run` ended, it has resumed exactly the posts made before the stack was last
      taken, and leaves the later ones on the stack; if an announced post is among these, the
      interrupt is armed for the next `run`. */
  lemma WhatExitLeaves(schedule: seq<Action>, post: nat)
    requires Reach(schedule).pc.Outside? && post < Reach(schedule).line.posts
    ensures var s := Reach(schedule);
      && s.line.batch == []
      && (post in s.line.log <==> post < s.line.acquired)
      && (post in s.line.stack <==> post >= s.line.acquired)
      && (post in s.line.stack && post in s.interrupted ==> s.armed)
  {
    ReachInv(schedule);
    ExitResumed(schedule);
    TakenOrWaiting(Reach(schedule).line, post);
  }

  /** `run` leaves after a wait that a signal cut short. What was announced when that wait
      returned has been resumed if and only if all of it was posted before the stack was last
      taken; and so it is if the interrupt was not armed when the wait returned. */
  lemma ExitAfterSignal(schedule: seq<Action>)
    requires Reach(schedule).pc == Outside(Signalled)
    ensures var s := Reach(schedule);
      && ((forall post :: post in s.last.settled ==> post in s.line.log)
          <==> (forall post :: post in s.last.settled ==> post < s.line.acquired))
      && (!s.last.armed ==> forall post :: post in s.last.settled ==> post in s.line.log)
  {
    ReachInv(schedule);
    ExitResumed(schedule);
  }

  /** A wait that times out while `stop_` is set ends `run`, and nothing announced is left behind. */
  lemma TimeOutWhileWaiting(schedule: seq<Action>)
    requires var s := Reach(schedule); s.pc.AtWait? && s.stop && !s.armed && s.stopFlag
    ensures var s, t := Reach(schedule), Step(Step(Reach(schedule), TimeOut), Runner);
      && t.pc == Outside(TimedOut) && t.last == EmptyWait(s.interrupted, false)
      && t.line == s.line && t.line.batch == [] && forall post :: post in s.interrupted ==> post in t.line.log
  {
    ReachInv(schedule);
    var s := Reach(schedule);
    forall post | post in s.interrupted
      ensures post in s.line.log
    {
      assert s.line.log + s.line.batch == s.line.log;
      TakenOrWaiting(s.line, post);
    }
  }

  /** Whatever has cut a wait short, the test after it decides by `stop_` alone. */
  lemma TestDecides(s: State)
    requires s.pc.Checking?
    ensures Step(s, Runner) ==
            s.(pc := if !s.stopFlag then AtWait else if s.pc.timedOut then Outside(TimedOut) else Outside(Signalled))
  {
  }

  /** The same, told from the moment before: a signal that arrives while the runner waits and
      `stop_` is set ends `run`, with announced posts left behind exactly if one of them was
      posted after the stack was last taken; and then the interrupt is armed. */
  lemma SignalWhileWaiting(schedule: seq<Action>)
    requires Reach(schedule).pc.AtWait? && Reach(schedule).stopFlag
    ensures var s, t := Reach(schedule), Step(Step(Reach(schedule), Signal), Runner);
      && t.pc == Outside(Signalled) && t.last.settled == s.interrupted && t.last.armed == s.armed
      && ((exists post :: post in s.interrupted && post !in t.line.log)
          <==> (exists post :: post in s.interrupted && post >= s.line.acquired))
      && ((exists post :: post in s.interrupted && post >= s.line.acquired) ==> s.armed)
  {
    ReachInv(schedule);
    var s := Reach(schedule);
    forall post | post in s.interrupted
      ensures post in s.line.log <==> post < s.line.acquired
      ensures post >= s.line.acquired ==> s.armed
    {
      assert s.line.log + s.line.batch == s.line.log;
      TakenOrWaiting(s.line, post);
    }
  }

  lemma RunFour(s: State, a: Action, b: Action, c: Action, d: Action)
    ensures Run(s, [a, b, c, d]) == Step(Step(Step(Step(s, a), b), c), d)
  {
    var t := Step(s, a);
    var u := Step(t, b);
    var v := Step(u, c);
    assert [a, b, c, d][1..] == [b, c, d] && [b, c, d][1..] == [c, d] && [c, d][1..] == [d];
    assert Run(v, [d]) == Run(Step(v, d), []);
    assert Run(u, [c, d]) == Run(v, [d]);
    assert Run(t, [b, c, d]) == Run(u, [c, d]);
  }

  /** Such a run: the signal comes before the wait could report the interrupt. */
  lemma ExitAfterSignalMayLeaveWork()
    ensures var s := Reach([Enter, Runner, Push, CompletePost(0), StoreStop(0, true), CompleteStop(0), Signal, Runner]);
      && s.pc == Outside(Signalled) && s.last.settled == {0} && s.line.acquired == 0 && s.last.armed
      && s.armed && s.line.stack == [0] && s.line.log == []
  {
    var s4 := Step(Step(Step(Step(Init(), Enter), Runner), Push), CompletePost(0));
    var rest := [StoreStop(0, true), CompleteStop(0), Signal, Runner];
    RunAppend(Init(), [Enter, Runner, Push, CompletePost(0)], rest);
    assert [Enter, Runner, Push, CompletePost(0)] + rest ==
           [Enter, Runner, Push, CompletePost(0), StoreStop(0, true), CompleteStop(0), Signal, Runner];
    RunFour(Init(), Enter, Runner, Push, CompletePost(0));
    RunFour(s4, StoreStop(0, true), CompleteStop(0), Signal, Runner);
  }
}
