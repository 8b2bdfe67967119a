/** The service's methods as the program states them, with the other threads free to act
    before every access. Each access is shown to be one step of the protocol. */
module Service {
  import opened Sequences
  import opened ServiceProtocol

  /** What the kernel answers to a wait. */
  datatype Answer = Reports(entries: seq<Entry>) | TimesOut | Interrupted | Fails

  datatype Result = Stopped | Error | Running

  predicate IsRunners(a: Action) {
    a.Enter? || a.Report? || a.TimeOut? || a.Signal? || a.Fail? || a.Runner?
  }

  lemma {:induction false} OthersLeaveTheRunner(s: State, others: seq<Action>)
    requires forall a :: a in others ==> !IsRunners(a)
    ensures var t := Run(s, others);
      && t.pc == s.pc && t.stop == s.stop && t.line.batch == s.line.batch && t.line.log == s.line.log
      && t.last == s.last && t.line.acquired == s.line.acquired && s.line.posts <= t.line.posts
    decreases |others|
  {
    if others == [] {
    } else {
      assert others[0] in others;
      OthersLeaveTheRunner(Step(s, others[0]), others[1..]);
    }
  }

  lemma {:induction false} StopperStays(s: State, others: seq<Action>, me: nat)
    requires me in s.stoppers && CompleteStop(me) !in others
    ensures me in Run(s, others).stoppers
    decreases |others|
  {
    if others == [] {
    } else {
      assert others[0] in others;
      StopperStays(Step(s, others[0]), others[1..], me);
    }
  }

  // What the runner sees -------------------------------------------------------

  /** A wait has returned; `stop_` has been loaded into the local flag; or it has been tested
      after a wait without entries. */
  datatype Seen = Returned(answer: Answer) | Loaded(stop: bool) | Tested(stop: bool)

  function Note(s: State, a: Action): seq<Seen> {
    match a
    case Report(entries) => if Reportable(s, entries) then [Returned(Reports(entries))] else []
    case TimeOut => if s.pc.AtWait? && s.stop && !s.armed then [Returned(TimesOut)] else []
    case Signal => if s.pc.AtWait? then [Returned(Interrupted)] else []
    case Fail => if s.pc.AtWait? then [Returned(Fails)] else []
    case Runner =>
      (match s.pc
       case Entering => [Loaded(s.stopFlag)]
       case Checking(_) => [Tested(s.stopFlag)]
       case Entries(rest, _) => if rest != [] && rest[0].Interrupt? then [Loaded(s.stopFlag)] else []
       case _ => [])
    case _ => []
  }

  function Notes(s: State, actions: seq<Action>): seq<Seen>
    decreases |actions|
  {
    if actions == [] then [] else Note(s, actions[0]) + Notes(Step(s, actions[0]), actions[1..])
  }

  lemma Joined<T>(a: seq<T>, b: seq<T>, c: seq<T>)
    ensures a + (b + c) == a + b + c
  {
  }

  lemma {:induction false} NotesAppend(s: State, first: seq<Action>, second: seq<Action>)
    ensures Notes(s, first + second) == Notes(s, first) + Notes(Run(s, first), second)
    decreases |first|
  {
    if first == [] {
      assert first + second == second;
    } else {
      assert (first + second)[1..] == first[1..] + second;
      NotesAppend(Step(s, first[0]), first[1..], second);
      Joined(Note(s, first[0]), Notes(Step(s, first[0]), first[1..]), Notes(Run(s, first), second));
    }
  }

  lemma {:induction false} OthersNoteNothing(s: State, others: seq<Action>)
    requires forall a :: a in others ==> !IsRunners(a)
    ensures Notes(s, others) == []
    decreases |others|
  {
    if others == [] {
    } else {
      assert others[0] in others;
      OthersNoteNothing(Step(s, others[0]), others[1..]);
    }
  }

  /** What the runner has seen between two moments. */
  ghost function SeenSince(start: seq<Action>, end: seq<Action>): seq<Seen>
    requires start <= end
  {
    Notes(Reach(start), end[|start|..])
  }

  lemma SeenChain(start: seq<Action>, middle: seq<Action>, end: seq<Action>)
    requires start <= middle <= end
    ensures SeenSince(start, end) == SeenSince(start, middle) + SeenSince(middle, end)
  {
    var first, second := middle[|start|..], end[|middle|..];
    assert end[|start|..] == first + second && start + first == middle;
    NotesAppend(Reach(start), first, second);
    RunAppend(Init(), start, first);
  }

  lemma SeenNow(schedule: seq<Action>, a: Action)
    ensures SeenSince(schedule, schedule + [a]) == Note(Reach(schedule), a)
    ensures SeenSince(schedule, schedule) == []
  {
    assert (schedule + [a])[|schedule|..] == [a] && [a][1..] == [];
    assert schedule[|schedule|..] == [];
    var s := Reach(schedule);
    assert Notes(s, [a]) == Note(s, a) + Notes(Step(s, a), []) == Note(s, a);
  }

  /** The answers to the waits. */
  function Answers(seen: seq<Seen>): seq<Answer> {
    if seen == [] then []
    else (if seen[0].Returned? then [seen[0].answer] else []) + Answers(seen[1..])
  }

  lemma {:induction false} AnswersAppend(first: seq<Seen>, second: seq<Seen>)
    ensures Answers(first + second) == Answers(first) + Answers(second)
  {
    if first == [] {
      assert first + second == second;
    } else {
      assert (first + second)[1..] == first[1..] + second;
      AnswersAppend(first[1..], second);
      Joined(if first[0].Returned? then [first[0].answer] else [], Answers(first[1..]), Answers(second));
    }
  }

  /** What the kernel can answer; otherwise the wait is cut short by a signal, which always may be. */
  predicate Possible(s: State, answer: Answer) {
    match answer
    case Reports(entries) => Reportable(s, entries)
    case TimesOut => s.stop && !s.armed
    case _ => true
  }

  /** The local flag is reloaded if there was an interrupt, and then it is what the last load saw. */
  predicate LoadedLast(seen: seq<Seen>, interrupted: bool, stop0: bool, stop: bool) {
    && (forall i :: 0 <= i < |seen| ==> seen[i].Loaded?)
    && if interrupted then seen != [] && seen[|seen| - 1] == Loaded(stop) else seen == [] && stop == stop0
  }

  /** One more entry. */
  lemma LoadedNext(seen: seq<Seen>, interrupted0: bool, stop0: bool, stop1: bool, isInterrupt: bool, stop2: bool)
    requires LoadedLast(seen, interrupted0, stop0, stop1) && (!isInterrupt ==> stop2 == stop1)
    ensures LoadedLast(seen + if isInterrupt then [Loaded(stop2)] else [], interrupted0 || isInterrupt, stop0, stop2)
  {
  }

  lemma EntriesApart(entries: seq<Entry>, i: nat)
    requires i < |entries|
    ensures entries[i..] != [] && entries[i..][0] == entries[i] && entries[i..][1..] == entries[i + 1..]
    ensures Interrupt in entries[..i + 1] <==> Interrupt in entries[..i] || entries[i].Interrupt?
  {
    assert entries[..i + 1] == entries[..i] + [entries[i]];
  }

  /** What one turn of the loop sees, and how it ends. */
  predicate IsTurn(seen: seq<Seen>, result: Result) {
    && seen != [] && seen[0].Returned?
    && match seen[0].answer
       case Reports(_) => result.Running? && forall i :: 1 <= i < |seen| ==> seen[i].Loaded?
       case Fails => result.Error? && |seen| == 1
       case _ => |seen| == 2 && seen[1].Tested? && result == if seen[1].stop then Stopped else Running
  }

  /** Nothing seen ends the loop. */
  predicate RunsOn(seen: seq<Seen>) {
    Tested(true) !in seen && Returned(Fails) !in seen
  }

  lemma {:induction false} NoAnswers(seen: seq<Seen>)
    requires forall i :: 0 <= i < |seen| ==> !seen[i].Returned?
    ensures Answers(seen) == []
  {
    if seen == [] {
    } else {
      NoAnswers(seen[1..]);
    }
  }

  lemma RunsOnBoth(a: seq<Seen>, b: seq<Seen>)
    requires RunsOn(a) && RunsOn(b)
    ensures RunsOn(a + b)
  {
  }

  lemma LastApart<T>(a: seq<T>, b: seq<T>)
    requires b != []
    ensures (a + b)[|a + b| - 1] == b[|b| - 1] && (a + b)[..|a + b| - 1] == a + b[..|b| - 1]
  {
  }

  lemma TurnEnds(now: seq<Seen>, result: Result)
    requires IsTurn(now, result)
    ensures |Answers(now)| == 1
    ensures result.Running? ==> RunsOn(now)
    ensures !result.Running? ==> now[|now| - 1] == (if result.Stopped? then Tested(true) else Returned(Fails))
    ensures !result.Running? ==> RunsOn(now[..|now| - 1])
  {
    NoAnswers(now[1..]);
    if now[0].answer.Reports? {
      forall x | x in now
        ensures x != Tested(true) && x != Returned(Fails)
      {
        var i :| 0 <= i < |now| && now[i] == x;
      }
    } else if now[0].answer.Fails? {
      assert now[..0] == [];
    } else {
      assert now == [now[0], now[1]] && now[..1] == [now[0]];
    }
  }

  lemma TurnAdds(seen: seq<Seen>, now: seq<Seen>, result: Result)
    requires RunsOn(seen) && IsTurn(now, result)
    ensures var all := seen + now;
      && |Answers(all)| == |Answers(seen)| + 1
      && (result.Running? ==> RunsOn(all))
      && (!result.Running? ==> all[|all| - 1] == (if result.Stopped? then Tested(true) else Returned(Fails)))
      && (!result.Running? ==> RunsOn(all[..|all| - 1]))
  {
    AnswersAppend(seen, now);
    TurnEnds(now, result);
    LastApart(seen, now);
    if result.Running? {
      RunsOnBoth(seen, now);
    } else {
      RunsOnBoth(seen, now[..|now| - 1]);
    }
  }

  lemma RunnerArmsNothing(s: State)
    ensures var t := Step(s, Runner); t.stopFlag == s.stopFlag && t.armed == s.armed
  {
  }

  ghost predicate NoneIsRunners(turns: seq<seq<Action>>) {
    forall i, a :: 0 <= i < |turns| && a in turns[i] ==> !IsRunners(a)
  }

  class Service {
    var stopFlag: bool
    var armed: bool
    /** What the other threads do before each of the accesses to come. */
    var turns: seq<seq<Action>>
    var sys: State
    ghost var schedule: seq<Action>

    ghost predicate Valid()
      reads this
    {
      && sys == Reach(schedule) && stopFlag == sys.stopFlag && armed == sys.armed
      && NoneIsRunners(turns)
    }

    constructor (turns: seq<seq<Action>>)
      requires NoneIsRunners(turns)
      ensures Valid() && sys == Init() && this.turns == turns
    {
      stopFlag, armed, this.turns := false, true, turns;
      sys, schedule := Init(), [];
    }

    method Did(a: Action)
      requires sys == Reach(schedule)
      modifies this`sys, this`schedule
      ensures sys == Step(old(sys), a) == Reach(schedule) && schedule == old(schedule) + [a]
      ensures SeenSince(old(schedule), schedule) == Note(old(sys), a)
    {
      RunAppend(Init(), schedule, [a]);
      SeenNow(schedule, a);
      sys, schedule := Step(sys, a), schedule + [a];
    }

    method Others()
      requires Valid()
      modifies this
      ensures Valid() && old(schedule) <= schedule && SeenSince(old(schedule), schedule) == []
      ensures sys.pc == old(sys.pc) && sys.stop == old(sys.stop) && old(sys.line.posts) <= sys.line.posts
      ensures sys.line.batch == old(sys.line.batch) && sys.line.log == old(sys.line.log)
      ensures sys.last == old(sys.last) && sys.line.acquired == old(sys.line.acquired)
      ensures old(turns) == [] ==> sys == old(sys)
      ensures old(turns) != [] ==> sys == ServiceProtocol.Run(old(sys), old(turns)[0])
      ensures turns == if old(turns) == [] then [] else old(turns)[1..]
    {
      SeenNow(schedule, Runner);
      if turns != [] {
        OthersLeaveTheRunner(sys, turns[0]);
        OthersNoteNothing(sys, turns[0]);
        RunAppend(Init(), schedule, turns[0]);
        assert (schedule + turns[0])[|schedule|..] == turns[0];
        sys, schedule, turns := ServiceProtocol.Run(sys, turns[0]), schedule + turns[0], turns[1..];
        stopFlag, armed := sys.stopFlag, sys.armed;
      }
    }

    /** `stop_.store`. */
    method StoreStopFlag(me: nat, value: bool)
      requires Valid() && forall i :: 0 <= i < |turns| ==> CompleteStop(me) !in turns[i]
      modifies this
      ensures Valid() && old(schedule) < schedule && schedule[|schedule| - 1] == StoreStop(me, value)
      ensures me in sys.stoppers && stopFlag == value
      ensures forall i :: 0 <= i < |turns| ==> CompleteStop(me) !in turns[i]
    {
      Others();
      stopFlag := value;
      Did(StoreStop(me, value));
    }

    /** `interrupt`, called by `stop`. */
    method InterruptFor(me: nat)
      requires Valid() && me in sys.stoppers && forall i :: 0 <= i < |turns| ==> CompleteStop(me) !in turns[i]
      modifies this
      ensures Valid() && old(schedule) < schedule && schedule[|schedule| - 1] == CompleteStop(me)
      ensures armed && me !in sys.stoppers
    {
      if turns != [] {
        StopperStays(sys, turns[0], me);
      }
      Others();
      armed := true;
      Did(CompleteStop(me));
    }

    /** `stop`: store, then interrupt. No other thread acts under this thread's number. */
    method Stop(me: nat, value: bool)
      requires Valid() && forall i :: 0 <= i < |turns| ==> CompleteStop(me) !in turns[i]
      modifies this
      ensures Valid() && old(schedule) <= schedule && armed && me !in sys.stoppers
      ensures exists k :: |old(schedule)| <= k < |schedule| - 1 && schedule[k] == StoreStop(me, value)
      ensures schedule[|schedule| - 1] == CompleteStop(me)
    {
      StoreStopFlag(me, value);
      ghost var k := |schedule| - 1;
      InterruptFor(me);
      assert schedule[k] == StoreStop(me, value);
    }

    /** `scheduler::post`. */
    method PushPost() returns (post: nat)
      requires Valid()
      modifies this
      ensures Valid() && old(schedule) < schedule && schedule[|schedule| - 1] == Push
      ensures old(sys.line.posts) <= post == sys.line.posts - 1
    {
      Others();
      post := sys.line.posts;
      Did(Push);
    }

    /** `interrupt`, called by `post`. */
    method InterruptAfter(post: nat)
      requires Valid() && post < sys.line.posts
      modifies this
      ensures Valid() && old(schedule) < schedule && schedule[|schedule| - 1] == CompletePost(post)
      ensures armed && post < sys.line.posts && post in sys.interrupted
    {
      Others();
      armed := true;
      Did(CompletePost(post));
    }

    /** `post`: push, then interrupt. */
    method Post() returns (post: nat)
      requires Valid()
      modifies this
      ensures Valid() && old(schedule) <= schedule && armed
      ensures old(sys.line.posts) <= post < sys.line.posts && post in sys.interrupted
      ensures exists k :: |old(schedule)| <= k < |schedule| - 1 && schedule[k] == Push
      ensures schedule[|schedule| - 1] == CompletePost(post)
    {
      post := PushPost();
      ghost var k := |schedule| - 1;
      InterruptAfter(post);
      assert schedule[k] == Push;
    }

    /** The next step of the runner, after the others have acted; `before` is the state it is made in. */
    method Proceed() returns (ghost before: State)
      requires Valid()
      modifies this
      ensures Valid() && old(schedule) <= schedule && SeenSince(old(schedule), schedule) == Note(before, Runner)
      ensures sys == Step(before, Runner) && stopFlag == before.stopFlag && armed == before.armed
      ensures before.pc == old(sys.pc) && before.stop == old(sys.stop) && old(sys.line.posts) <= before.line.posts
      ensures before.line.batch == old(sys.line.batch) && before.line.log == old(sys.line.log)
      ensures before.last == old(sys.last) && before.line.acquired == old(sys.line.acquired)
    {
      Others();
      before := sys;
      ghost var acted := schedule;
      RunnerArmsNothing(sys);
      Did(Runner);
      SeenChain(old(schedule), acted, schedule);
    }

    /** A wait that reports entries clears the interrupt if it is among them. */
    method Harvest(entries: seq<Entry>) returns (count: int)
      requires Valid() && Reportable(sys, entries)
      modifies this
      ensures Valid() && schedule == old(schedule) + [Report(entries)]
      ensures SeenSince(old(schedule), schedule) == [Returned(Reports(entries))]
      ensures sys.stop == old(sys.stop) && sys.line.log == old(sys.line.log)
      ensures count == |entries| > 0 && sys.pc == Entries(entries, false)
      ensures armed == (old(armed) && Interrupt !in entries)
    {
      count := |entries|;
      armed := armed && Interrupt !in entries;
      Did(Report(entries));
    }

    /** A wait that returns without entries. */
    method ReturnEmpty(answer: Answer) returns (count: int)
      requires Valid() && sys.pc.AtWait? && !answer.Reports? && Possible(sys, answer)
      modifies this`sys, this`schedule
      ensures Valid() && old(schedule) <= schedule && SeenSince(old(schedule), schedule) == [Returned(answer)]
      ensures sys.stop == old(sys.stop) && sys.line == old(sys.line) && sys.interrupted == old(sys.interrupted)
      ensures match answer
        case TimesOut => count == 0 && sys.pc == Checking(true) && sys.last == EmptyWait(sys.interrupted, armed)
        case Interrupted => count == -1 && sys.pc == Checking(false) && sys.last == EmptyWait(sys.interrupted, armed)
        case _ => count == -1 && sys.pc == Outside(Failed)
    {
      count := if answer.TimesOut? then 0 else -1;
      Did(match answer case TimesOut => TimeOut case Interrupted => Signal case _ => Fail);
    }

    /** `epoll_wait` or `kevent`: whatever the script proposes, the kernel answers only what
        is possible at that moment, `now`. `count` is negative for the last two answers. */
    method Wait(proposal: Answer) returns (answer: Answer, count: int, ghost now: State)
      requires Valid() && sys.pc.AtWait?
      modifies this
      ensures Valid() && old(schedule) <= schedule && SeenSince(old(schedule), schedule) == [Returned(answer)]
      ensures now.stop == sys.stop == old(sys.stop) && sys.line.log == old(sys.line.log)
      ensures answer == if Possible(now, proposal) then proposal else Interrupted
      ensures armed == (now.armed && !(answer.Reports? && Interrupt in answer.entries))
      ensures match answer
        case Reports(entries) => count == |entries| > 0 && sys.pc == Entries(entries, false)
        case TimesOut => count == 0 && sys.pc == Checking(true) && sys.stop && !armed && sys.last.settled == sys.interrupted
        case Interrupted => count == -1 && sys.pc == Checking(false) && sys.last.settled == sys.interrupted && sys.last.armed == armed
        case Fails => count == -1 && sys.pc == Outside(Failed)
    {
      Others();
      now := sys;
      ghost var acted := schedule;
      answer := if Possible(sys, proposal) then proposal else Interrupted;
      if answer.Reports? {
        count := Harvest(answer.entries);
      } else {
        count := ReturnEmpty(answer);
      }
      SeenChain(old(schedule), acted, schedule);
    }

    /** One turn of the loop over the reported entries: an event is resumed, the interrupt has `stop_` reloaded. */
    method DispatchFirst(rest: seq<Entry>, interrupted0: bool, stop0: bool) returns (interrupted: bool, stop: bool)
      requires Valid() && rest != [] && sys.pc == Entries(rest, interrupted0) && stop0 == sys.stop
      modifies this
      ensures Valid() && old(schedule) <= schedule && sys.line.log == old(sys.line.log) && stop == sys.stop
      ensures SeenSince(old(schedule), schedule) == if rest[0].Interrupt? then [Loaded(stop)] else []
      ensures rest[0].Interrupt? ==> stop == stopFlag
      ensures rest[0].Io? ==> stop == stop0
      ensures sys.pc == Entries(rest[1..], interrupted) && (interrupted <==> interrupted0 || rest[0].Interrupt?)
    {
      interrupted, stop := interrupted0, stop0;
      var _ := Proceed();
      if rest[0].Interrupt? {
        interrupted := true;
        stop := stopFlag;
      }
    }

    /** The end of that loop. */
    method EndDispatch(interrupted: bool)
      requires Valid() && sys.pc == Entries([], interrupted)
      modifies this
      ensures Valid() && old(schedule) <= schedule && SeenSince(old(schedule), schedule) == []
      ensures sys.stop == old(sys.stop) && sys.line.log == old(sys.line.log)
      ensures sys.pc == if interrupted then Acquiring else AtWait
    {
      var _ := Proceed();
    }

    /** The loop over the reported entries. The local flag is reloaded exactly when the
        interrupt is among them, and then it is what the last load saw. */
    method Dispatch(entries: seq<Entry>, stop0: bool) returns (interrupted: bool, stop: bool)
      requires Valid() && sys.pc == Entries(entries, false) && stop0 == sys.stop
      modifies this
      ensures Valid() && old(schedule) <= schedule && sys.line.log == old(sys.line.log) && stop == sys.stop
      ensures interrupted <==> Interrupt in entries
      ensures LoadedLast(SeenSince(old(schedule), schedule), interrupted, stop0, stop)
      ensures sys.pc == if interrupted then Acquiring else AtWait
    {
      interrupted, stop := false, stop0;
      SeenNow(schedule, Runner);
      for i := 0 to |entries|
        invariant Valid() && old(schedule) <= schedule && sys.line.log == old(sys.line.log) && stop == sys.stop
        invariant sys.pc == Entries(entries[i..], interrupted)
        invariant interrupted <==> Interrupt in entries[..i]
        invariant LoadedLast(SeenSince(old(schedule), schedule), interrupted, stop0, stop)
      {
        ghost var before, interrupted0, stop1 := schedule, interrupted, stop;
        EntriesApart(entries, i);
        interrupted, stop := DispatchFirst(entries[i..], interrupted, stop);
        SeenChain(old(schedule), before, schedule);
        LoadedNext(SeenSince(old(schedule), before), interrupted0, stop0, stop1, entries[i].Interrupt?, stop);
      }
      assert entries[..|entries|] == entries;
      ghost var before := schedule;
      EndDispatch(interrupted);
      SeenChain(old(schedule), before, schedule);
    }

    method Acquire()
      requires Valid() && sys.pc.Acquiring?
      modifies this
      ensures Valid() && old(schedule) <= schedule && SeenSince(old(schedule), schedule) == []
      ensures sys.pc.Draining? && sys.stop == old(sys.stop)
      ensures sys.line.log == old(sys.line.log) && old(sys.line.posts) <= |sys.line.log| + |sys.line.batch| == sys.line.posts
    {
      var _ := Proceed();
      ReachInv(schedule);
      assert |sys.line.log + sys.line.batch + Reverse(sys.line.stack)| == sys.line.posts && Reverse(sys.line.stack) == [];
    }

    /** `process`, on the numbers of the posts: everything posted before it is then resumed. */
    method Process()
      requires Valid() && sys.pc.Acquiring?
      modifies this
      ensures Valid() && old(schedule) <= schedule && SeenSince(old(schedule), schedule) == []
      ensures sys.pc.AtWait? && sys.stop == old(sys.stop)
      ensures old(sys.line.log) <= sys.line.log && old(sys.line.posts) <= |sys.line.log|
    {
      Acquire();
      while sys.line.batch != []
        invariant Valid() && old(schedule) <= schedule && SeenSince(old(schedule), schedule) == []
        invariant sys.pc.Draining? && sys.stop == old(sys.stop)
        invariant old(sys.line.log) <= sys.line.log && old(sys.line.posts) <= |sys.line.log| + |sys.line.batch|
        decreases |sys.line.batch|
      {
        ghost var before := schedule;
        var _ := Proceed();
        SeenChain(old(schedule), before, schedule);
      }
      ghost var before := schedule;
      var _ := Proceed();
      SeenChain(old(schedule), before, schedule);
    }

    /** The test of `stop_` after a wait without entries: it is the way out if and only if the
        load finds `stop_` set, whether the wait has timed out or been cut short. */
    method LeaveIfStopped() returns (stopping: bool)
      requires Valid() && sys.pc.Checking?
      modifies this
      ensures Valid() && old(schedule) <= schedule && sys.stop == old(sys.stop) && sys.line.log == old(sys.line.log)
      ensures SeenSince(old(schedule), schedule) == [Tested(stopping)] && stopping == stopFlag
      ensures sys.pc == if !stopping then AtWait else Outside(if old(sys.pc.timedOut) then TimedOut else Signalled)
      ensures stopping ==> sys.line.batch == []
      ensures sys.pc == Outside(TimedOut) ==> forall post :: post in sys.last.settled ==> post in sys.line.log
    {
      var _ := Proceed();
      stopping := stopFlag;
      ReachInv(schedule);
      ExitResumed(schedule);
    }

    /** The first load of `stop_`. */
    method LoadStop() returns (stop: bool)
      requires Valid() && sys.pc.Outside?
      modifies this
      ensures Valid() && old(schedule) <= schedule && sys.line.log == old(sys.line.log)
      ensures SeenSince(old(schedule), schedule) == [Loaded(stop)]
      ensures sys.pc.AtWait? && stop == sys.stop == stopFlag
    {
      Did(Enter);
      ghost var entered := schedule;
      var _ := Proceed();
      SeenChain(old(schedule), entered, schedule);
      stop := stopFlag;
    }

    /** One turn of the loop in `run`. A wait without entries ends `run` if and only if the test
        after it finds `stop_` set; a failed wait ends it with an error; entries never do. */
    method Turn(proposal: Answer, stop0: bool) returns (result: Result, stop: bool, ghost seen: seq<Seen>)
      requires Valid() && sys.pc.AtWait? && stop0 == sys.stop
      modifies this
      ensures Valid() && old(schedule) <= schedule && old(sys.line.log) <= sys.line.log
      ensures seen == SeenSince(old(schedule), schedule) && IsTurn(seen, result)
      ensures result.Running? ==> sys.pc.AtWait? && stop == sys.stop
      ensures result.Stopped? ==> stopFlag && sys.line.batch == [] && sys.pc in {Outside(TimedOut), Outside(Signalled)}
      ensures sys.pc == Outside(TimedOut) ==> forall post :: post in sys.last.settled ==> post in sys.line.log
      ensures result.Error? ==> sys.pc == Outside(Failed)
    {
      var answer, count, _ := Wait(proposal);
      ghost var waited := schedule;
      stop := stop0;
      if count < 1 {
        if count < 0 && answer.Fails? {
          return Error, stop, [Returned(Fails)];
        }
        var stopping := LeaveIfStopped();
        SeenChain(old(schedule), waited, schedule);
        return if stopping then Stopped else Running, stop, SeenSince(old(schedule), schedule);
      }
      var interrupted;
      interrupted, stop := Dispatch(answer.entries, stop);
      ghost var dispatched := schedule;
      SeenChain(old(schedule), waited, dispatched);
      if interrupted {
        Process();
        SeenChain(old(schedule), dispatched, schedule);
      }
      return Running, stop, SeenSince(old(schedule), schedule);
    }

    /** `run`, for as long as the script of the kernel's answers lasts. It is still running only
        if it has waited once for each answer and never found `stop_` set after a wait without
        entries; it has stopped exactly if the last such test, and no other, found it set. */
    method Run(answers: seq<Answer>) returns (result: Result, ghost seen: seq<Seen>)
      requires Valid() && sys.pc.Outside?
      modifies this
      ensures Valid() && old(schedule) <= schedule && old(sys.line.log) <= sys.line.log
      ensures seen == SeenSince(old(schedule), schedule)
      ensures result.Running? ==> |Answers(seen)| == |answers| && RunsOn(seen)
      ensures result.Stopped? ==> seen != [] && seen[|seen| - 1] == Tested(true) && RunsOn(seen[..|seen| - 1])
      ensures result.Error? ==> seen != [] && seen[|seen| - 1] == Returned(Fails) && RunsOn(seen[..|seen| - 1])
      ensures result.Stopped? ==> stopFlag && sys.line.batch == []
      ensures result.Stopped? ==> sys.pc == Outside(TimedOut) || sys.pc == Outside(Signalled)
      ensures sys.pc == Outside(TimedOut) ==> forall post :: post in sys.last.settled ==> post in sys.line.log
      ensures result.Error? ==> sys.pc == Outside(Failed)
    {
      var stop := LoadStop();
      seen := SeenSince(old(schedule), schedule);
      var i := 0;
      while i < |answers|
        invariant i <= |answers|
        invariant Valid() && old(schedule) <= schedule && old(sys.line.log) <= sys.line.log
        invariant sys.pc.AtWait? && stop == sys.stop
        invariant seen == SeenSince(old(schedule), schedule) && |Answers(seen)| == i && RunsOn(seen)
      {
        ghost var before, earlier := schedule, seen;
        ghost var now;
        result, stop, now := Turn(answers[i], stop);
        SeenChain(old(schedule), before, schedule);
        seen := earlier + now;
        TurnAdds(earlier, now, result);
        if !result.Running? {
          return;
        }
        i := i + 1;
      }
      return Running, seen;
    }
  }
}
