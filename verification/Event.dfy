/** The Windows event: the coroutine that waits and the completion that arrives each exchange
    `ready_`; whoever comes second resumes the coroutine. */
module Event {

  datatype WaiterPc = Register | WaiterExchange | WaiterResume | WaiterDone

  datatype CompletionPc = Expected | CompletionResume | CompletionDone

  datatype State = State(
    ready: bool,
    registered: bool,           // awaiter_ has been assigned
    waiter: WaiterPc,
    completion: CompletionPc,
    resumed: nat,
    fault: bool)                // resumed without an awaiter, or twice

  datatype Action = Waiter | Completion

  const INIT := State(false, false, Register, Expected, 0, false)

  function Resume(s: State): State {
    s.(resumed := s.resumed + 1, fault := s.fault || !s.registered || s.resumed > 0)
  }

  function Step(s: State, a: Action): State {
    match a
    case Waiter =>
      (match s.waiter
       case Register => s.(registered := true, waiter := WaiterExchange)
       case WaiterExchange => s.(ready := true, waiter := if s.ready then WaiterResume else WaiterDone)
       case WaiterResume => Resume(s).(waiter := WaiterDone)
       case WaiterDone => s)
    case Completion =>
      match s.completion
      case Expected => s.(ready := true, completion := if s.ready then CompletionResume else CompletionDone)
      case CompletionResume => Resume(s).(completion := CompletionDone)
      case CompletionDone => s
  }

  function Run(s: State, schedule: seq<Action>): State
    decreases |schedule|
  {
    if schedule == [] then s else Run(Step(s, schedule[0]), schedule[1..])
  }

  ghost predicate Inv(s: State) {
    && !s.fault
    && (s.registered <==> !s.waiter.Register?)
    && (s.ready <==> s.waiter.WaiterResume? || s.waiter.WaiterDone? || !s.completion.Expected?)
    && (s.waiter.WaiterResume? ==> s.completion.CompletionDone? && s.resumed == 0)
    && (s.completion.CompletionResume? ==> s.waiter.WaiterDone? && s.resumed == 0)
    && (s.waiter.Register? || s.waiter.WaiterExchange? ==> !s.completion.CompletionResume? && s.resumed == 0)
    && (s.waiter.WaiterDone? && s.completion.Expected? ==> s.resumed == 0)
    && (s.waiter.WaiterDone? && s.completion.CompletionDone? ==> s.resumed == 1)
  }

  lemma {:induction false} RunKeepsInv(s: State, schedule: seq<Action>)
    requires Inv(s)
    ensures Inv(Run(s, schedule))
    decreases |schedule|
  {
    if schedule == [] {
    } else {
      RunKeepsInv(Step(s, schedule[0]), schedule[1..]);
    }
  }

  /** The coroutine is resumed exactly once: never before it is registered and the completion
      has arrived, and certainly by the time both sides are through. */
  lemma ResumedExactlyOnce(schedule: seq<Action>)
    ensures var s := Run(INIT, schedule);
      && !s.fault && s.resumed <= 1
      && (s.resumed == 1 ==> s.registered && s.ready && !s.completion.Expected?)
      && (s.waiter.WaiterDone? && s.completion.CompletionDone? ==> s.resumed == 1)
  {
    RunKeepsInv(INIT, schedule);
  }

  lemma {:induction false} RunAppend(s: State, first: seq<Action>, second: seq<Action>)
    ensures Run(s, first + second) == Run(Run(s, first), second)
    decreases |first|
  {
    if first == [] {
      assert first + second == second;
    } else {
      assert (first + second)[1..] == first[1..] + second;
      RunAppend(Step(s, first[0]), first[1..], second);
    }
  }

  /** A side that is left alone stays where it is. */
  lemma {:induction false} OtherSideOnly(s: State, schedule: seq<Action>, mine: Action)
    requires mine !in schedule
    ensures var t := Run(s, schedule);
      if mine.Waiter? then t.waiter == s.waiter && t.registered == s.registered else t.completion == s.completion
    decreases |schedule|
  {
    if schedule == [] {
    } else {
      assert schedule[0] in schedule && schedule[0] != mine;
      OtherSideOnly(Step(s, schedule[0]), schedule[1..], mine);
    }
  }

  /** The event object as one of the two sides, `mine`, sees it. */
  class Event {
    var ready: bool
    var registered: bool
    var resumed: nat
    /** What the other side does before each of the accesses to come. */
    var turns: seq<seq<Action>>
    const mine: Action
    var sys: State
    ghost var schedule: seq<Action>

    ghost predicate Valid()
      reads this
    {
      && sys == Run(INIT, schedule)
      && ready == sys.ready && registered == sys.registered && resumed == sys.resumed
      && forall k :: 0 <= k < |turns| ==> mine !in turns[k]
    }

    constructor (mine: Action, turns: seq<seq<Action>>)
      requires forall k :: 0 <= k < |turns| ==> mine !in turns[k]
      ensures Valid() && sys == INIT && this.mine == mine && this.turns == turns
    {
      this.mine, this.turns := mine, turns;
      ready, registered, resumed, sys, schedule := false, false, 0, INIT, [];
    }

    method Others()
      requires Valid()
      modifies this
      ensures Valid() && old(schedule) <= schedule
      ensures if mine.Waiter? then sys.waiter == old(sys).waiter else sys.completion == old(sys).completion
    {
      if turns != [] {
        OtherSideOnly(sys, turns[0], mine);
        RunAppend(INIT, schedule, turns[0]);
        sys, schedule, turns := Run(sys, turns[0]), schedule + turns[0], turns[1..];
        ready, registered, resumed := sys.ready, sys.registered, sys.resumed;
      }
    }

    method Did()
      requires sys == Run(INIT, schedule)
      modifies this`sys, this`schedule
      ensures sys == Step(old(sys), mine) == Run(INIT, schedule) && schedule == old(schedule) + [mine]
    {
      RunAppend(INIT, schedule, [mine]);
      sys, schedule := Step(sys, mine), schedule + [mine];
    }

    /** `event::await_suspend`; `now` says that the coroutine was resumed from inside the call,
        which is the case exactly when the completion got to the bit first. */
    method AwaitSuspend() returns (now: bool)
      requires Valid() && mine.Waiter? && sys.waiter.Register?
      modifies this
      ensures Valid() && old(schedule) <= schedule && sys.waiter.WaiterDone?
      ensures now ==> resumed == 1 && sys.completion.CompletionDone?
      ensures !now ==> ready && registered && (resumed == 0 <==> !sys.completion.CompletionDone?)
    {
      Others();
      registered := true;
      Did();
      Others();
      now := ready;
      ready := true;
      Did();
      if now {
        Others();
        resumed := resumed + 1;
        Did();
      }
      RunKeepsInv(INIT, schedule);
    }

    /** `event::resume`, called when the operation completes. */
    method Resume() returns (now: bool)
      requires Valid() && mine.Completion? && sys.completion.Expected?
      modifies this
      ensures Valid() && old(schedule) <= schedule && sys.completion.CompletionDone?
      ensures now ==> resumed == 1 && registered && sys.waiter.WaiterDone?
      ensures !now ==> ready && (resumed == 0 <==> !sys.waiter.WaiterDone?)
    {
      Others();
      now := ready;
      ready := true;
      Did();
      if now {
        Others();
        resumed := resumed + 1;
        Did();
      }
      RunKeepsInv(INIT, schedule);
    }
  }
}
