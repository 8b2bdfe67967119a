/** `starter::start`: a coroutine is started from outside the coroutines, and a continuation is
    to be resumed when it has finished. The starting thread and the coroutine meet through the
    coroutine's `m_state`, as two coroutines do. */
module Starter {

  /** The coroutine to start: there may be none, and it may have finished before. */
  datatype Callee = Missing | NotStarted | Body | Complete | Continue | Final

  /** Where the starting thread is; the names are those of the step to come. */
  datatype Pc = Test | ResumeCallee | Register | Exchange | ResumeContinuation | Returned

  datatype Fault = NoFault | StartedTwice | NotRegistered | Race

  datatype State = State(
    callee: Callee,
    state: bool,        // m_state
    registered: bool,   // m_continuation has been assigned for this start
    pc: Pc,
    started: nat,       // how often the coroutine has been started by this call
    resumed: nat,       // how often the continuation has been resumed
    fault: Fault)

  /** A step of the starting thread, the end of the coroutine's body, a step of its final awaitable. */
  datatype Action = Start | Finish | Completion

  /** The coroutine before the call. One that has finished has set its bit. */
  function Init(callee: Callee): State {
    State(callee, callee.Final?, false, Test, 0, 0, NoFault)
  }

  predicate Startable(callee: Callee) {
    callee.Missing? || callee.NotStarted? || callee.Final?
  }

  /** There is nothing to run: no coroutine, or `done()`. */
  predicate NothingToRun(callee: Callee) {
    callee.Missing? || callee.Final?
  }

  function StartStep(s: State): State {
    match s.pc
    case Test => s.(pc := if NothingToRun(s.callee) then ResumeContinuation else ResumeCallee)
    case ResumeCallee =>
      if s.callee.NotStarted? then s.(callee := Body, started := s.started + 1, pc := Register)
      else s.(fault := StartedTwice)
    case Register => if s.callee.Continue? then s.(fault := Race) else s.(registered := true, pc := Exchange)
    case Exchange => s.(state := true, pc := if s.state then ResumeContinuation else Returned)
    case ResumeContinuation => s.(resumed := s.resumed + 1, pc := Returned)
    case Returned => s
  }

  function CompletionStep(s: State): State {
    match s.callee
    case Complete => s.(state := true, callee := if s.state then Continue else Final)
    case Continue =>
      if s.registered then s.(resumed := s.resumed + 1, callee := Final) else s.(fault := NotRegistered)
    case _ => s
  }

  function Step(s: State, a: Action): State {
    if s.fault != NoFault then s
    else match a
      case Start => StartStep(s)
      case Finish => if s.callee.Body? then s.(callee := Complete) else s
      case Completion => CompletionStep(s)
  }

  function Run(s: State, schedule: seq<Action>): State
    decreases |schedule|
  {
    if schedule == [] then s else Run(Step(s, schedule[0]), schedule[1..])
  }

  ghost function Reach(callee: Callee, schedule: seq<Action>): State {
    Run(Init(callee), schedule)
  }

  lemma {:induction false} RunAppend(s: State, first: seq<Action>, second: seq<Action>)
    ensures Run(s, first + second) == Run(Run(s, first), second)
    decreases |first|
  {
    if first == [] {
      assert first + second == second;
    } else {
      assert (first + second)[1..] == first[1..] + second;
      RunAppend(Step(s, first[0]), first[1..], second);
    }
  }

  /** The coroutine runs or has finished, and nobody has got to the bit but itself. */
  ghost predicate Running(s: State) {
    (s.callee.Body? || s.callee.Complete? || s.callee.Final?) && (s.state <==> s.callee.Final?)
  }

  ghost predicate Inv(s: State) {
    && s.fault == NoFault && (s.callee.Final? ==> s.state) && (s.callee.Missing? ==> s.started == 0)
    && (s.started > 0 && s.pc != Register ==> s.registered)
    && match s.pc
       case Test => Startable(s.callee) && (s.state <==> s.callee.Final?) && s.resumed == s.started == 0
       case ResumeCallee => s.callee.NotStarted? && !s.state && s.resumed == s.started == 0
       case Register => Running(s) && s.started == 1 && s.resumed == 0
       case Exchange => Running(s) && s.registered && s.started == 1 && s.resumed == 0
       case ResumeContinuation => NothingToRun(s.callee) && s.resumed == 0 && s.started <= 1
       case Returned =>
         if NothingToRun(s.callee) then s.resumed == 1 && s.started <= 1
         else !s.callee.NotStarted? && s.state && s.registered && s.resumed == 0 && s.started == 1
  }

  lemma {:induction false} RunKeepsInv(s: State, schedule: seq<Action>)
    requires Inv(s)
    ensures Inv(Run(s, schedule))
    decreases |schedule|
  {
    if schedule == [] {
    } else {
      RunKeepsInv(Step(s, schedule[0]), schedule[1..]);
    }
  }

  /** Whatever coroutine is started and however the two run: nothing is started twice or
      resumed without a continuation; the continuation is resumed at most once, and only when
      there is no coroutine or it is at its final suspend point; and when `start` has returned
      and the coroutine has finished, or there was nothing to run, it has been resumed once. */
  lemma ContinuesExactlyOnce(callee: Callee, schedule: seq<Action>)
    requires Startable(callee)
    ensures var s := Reach(callee, schedule);
      && s.fault == NoFault && s.resumed <= 1 && s.started <= 1
      && (s.resumed == 1 ==> NothingToRun(s.callee) && s.pc.Returned?)
      && (s.pc.Returned? && NothingToRun(s.callee) ==> s.resumed == 1)
      && (s.pc.Returned? && !NothingToRun(s.callee) ==> s.registered && s.state)
      && (s.pc.ResumeCallee? ==> s.callee.NotStarted?) && (s.pc.Register? ==> !s.callee.Continue?)
      && (s.callee.Continue? ==> s.registered)
  {
    RunKeepsInv(Init(callee), schedule);
  }

  lemma RunThree(s: State, a: Action, b: Action, c: Action)
    ensures Run(s, [a, b, c]) == Step(Step(Step(s, a), b), c) && Run(s, [a, b]) == Step(Step(s, a), b)
  {
    var t := Step(s, a);
    var u := Step(t, b);
    assert [a, b, c][1..] == [b, c] && [b, c][1..] == [c] && [c][1..] == [] && [a, b][1..] == [b] && [b][1..] == [];
    assert Run(u, [c]) == Run(Step(u, c), []) && Run(t, [b]) == Run(u, []);
    assert Run(t, [b, c]) == Run(u, [c]);
  }

  /** A coroutine that has been started and then finishes reaches its final suspend point with
      its own two steps, and if `start` has returned they resume the continuation, with no help
      from the starter. */
  lemma CompletionContinues(callee: Callee, schedule: seq<Action>)
    requires Startable(callee)
    requires Reach(callee, schedule).pc.Returned? && Reach(callee, schedule).callee.Body?
    ensures var s := Run(Reach(callee, schedule), [Finish, Completion, Completion]);
      s.resumed == 1 && s.callee.Final? && s.fault == NoFault
  {
    RunKeepsInv(Init(callee), schedule);
    RunThree(Reach(callee, schedule), Finish, Completion, Completion);
  }

  /** A coroutine that finishes before the starter has registered is at its final suspend point
      after one step; the starter then finds it there and resumes the continuation itself. */
  lemma StarterContinues(callee: Callee, schedule: seq<Action>)
    requires Startable(callee)
    requires Reach(callee, schedule).pc.Register? && Reach(callee, schedule).callee.Body?
    ensures var s := Run(Run(Reach(callee, schedule), [Finish, Completion]), [Start, Start, Start]);
      s.resumed == 1 && s.callee.Final? && s.pc.Returned? && s.fault == NoFault
  {
    RunKeepsInv(Init(callee), schedule);
    var s := Reach(callee, schedule);
    RunThree(s, Finish, Completion, Completion);
    RunThree(Step(Step(s, Finish), Completion), Start, Start, Start);
  }

  /** The coroutine leaves the starting thread where it is. */
  lemma {:induction false} CalleeLeavesStarter(s: State, schedule: seq<Action>)
    requires Start !in schedule
    ensures var t := Run(s, schedule); t.pc == s.pc && t.registered == s.registered && t.started == s.started
    decreases |schedule|
  {
    if schedule == [] {
    } else {
      assert schedule[0] in schedule;
      CalleeLeavesStarter(Step(s, schedule[0]), schedule[1..]);
    }
  }

  ghost predicate NeverStarts(turns: seq<seq<Action>>) {
    forall k :: 0 <= k < |turns| ==> Start !in turns[k]
  }

  /** The promise of the coroutine and the call of `start`. */
  class Starter {
    var state: bool
    var registered: bool
    var resumed: nat
    /** What the coroutine does before each of the accesses to come. */
    var turns: seq<seq<Action>>
    const callee: Callee
    var sys: State
    ghost var schedule: seq<Action>

    ghost predicate Valid()
      reads this
    {
      && Startable(callee) && sys == Reach(callee, schedule) && NeverStarts(turns)
      && state == sys.state && registered == sys.registered && resumed == sys.resumed
    }

    constructor (callee: Callee, turns: seq<seq<Action>>)
      requires Startable(callee) && NeverStarts(turns)
      ensures Valid() && sys == Init(callee) && this.callee == callee && this.turns == turns
    {
      this.callee, this.turns := callee, turns;
      state, registered, resumed, sys, schedule := callee.Final?, false, 0, Init(callee), [];
    }

    method Others()
      requires Valid()
      modifies this
      ensures Valid() && old(schedule) <= schedule
      ensures sys.pc == old(sys).pc && sys.started == old(sys).started && registered == old(registered)
    {
      if turns != [] {
        CalleeLeavesStarter(sys, turns[0]);
        RunAppend(Init(callee), schedule, turns[0]);
        sys, schedule, turns := Run(sys, turns[0]), schedule + turns[0], turns[1..];
        state, registered, resumed := sys.state, sys.registered, sys.resumed;
      }
    }

    method Did()
      requires sys == Reach(callee, schedule)
      modifies this`sys, this`schedule
      ensures sys == Step(old(sys), Action.Start) == Reach(callee, schedule) && schedule == old(schedule) + [Action.Start]
    {
      RunAppend(Init(callee), schedule, [Action.Start]);
      sys, schedule := Step(sys, Action.Start), schedule + [Action.Start];
    }

    /** `m_coroutine && !m_coroutine.done()`. */
    method IsThereWork() returns (work: bool)
      requires Valid() && sys.pc.Test?
      modifies this
      ensures Valid() && old(schedule) <= schedule
      ensures sys.pc == if work then ResumeCallee else ResumeContinuation
    {
      Others();
      RunKeepsInv(Init(callee), schedule);
      work := !sys.callee.Missing? && !sys.callee.Final?;
      Did();
    }

    /** `m_coroutine.resume()`: the coroutine has not been started before. */
    method ResumeTheCallee()
      requires Valid() && sys.pc.ResumeCallee?
      modifies this
      ensures Valid() && old(schedule) <= schedule && sys.pc.Register? && sys.started == 1
    {
      Others();
      RunKeepsInv(Init(callee), schedule);
      Did();
    }

    /** `try_set_continuation`: false if the coroutine has finished before. */
    method TrySetContinuation() returns (suspended: bool)
      requires Valid() && sys.pc.Register?
      modifies this
      ensures Valid() && old(schedule) <= schedule && registered
      ensures sys.pc == (if suspended then Returned else ResumeContinuation) && sys.started == old(sys).started
    {
      Others();
      RunKeepsInv(Init(callee), schedule);
      registered := true;
      Did();
      Others();
      suspended := !state;
      state := true;
      Did();
      RunKeepsInv(Init(callee), schedule);
    }

    /** `continuation.resume()`: nothing runs any more, and nobody has resumed it before. */
    method ResumeTheContinuation()
      requires Valid() && sys.pc.ResumeContinuation?
      modifies this
      ensures Valid() && old(schedule) <= schedule && sys.pc.Returned?
      ensures resumed == 1 && NothingToRun(sys.callee)
    {
      Others();
      RunKeepsInv(Init(callee), schedule);
      resumed := resumed + 1;
      Did();
    }

    /** `start`. True means that it resumed the continuation itself, because there was nothing
        to run or it has finished meanwhile; otherwise the coroutine has the continuation, and
        it has been resumed exactly if the coroutine has finished by now. */
    method Start() returns (now: bool)
      requires Valid() && sys.pc.Test?
      modifies this
      ensures Valid() && old(schedule) <= schedule && sys.pc.Returned? && sys.fault == NoFault
      ensures now ==> resumed == 1 && NothingToRun(sys.callee)
      ensures !now ==> registered && state && sys.started == 1
      ensures resumed == if NothingToRun(sys.callee) then 1 else 0
    {
      var work := IsThereWork();
      var suspended := false;
      if work {
        ResumeTheCallee();
        suspended := TrySetContinuation();
      }
      if !suspended {
        ResumeTheContinuation();
      }
      now := !suspended;
      RunKeepsInv(Init(callee), schedule);
    }
  }
}
