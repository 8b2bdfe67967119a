/** Coroutines awaiting coroutines to any depth. Each pair meets through one bit, the
    callee's `m_state`, which both sides exchange: whoever comes second continues the
    awaiter. One action is one access to shared memory, one `resume()` or one `destroy()`;
    every coroutine of the chain may be running on a thread of its own. */
module AwaitChain {
  import opened Sequences

  datatype Pc =
    | NotStarted        // created, suspended at the initial suspend point
    | Body              // user code; nothing is being awaited
    | Start             // `await_suspend`: about to resume the callee
    | SetContinuation   // `try_set_continuation`: about to write the callee's `m_continuation`
    | Exchange          // about to exchange the callee's `m_state`
    | Parked            // suspended until the callee completes
    | Result            // `await_resume`: about to read the callee's result
    | Holding           // user code that still owns the completed callee
    | Complete          // the final awaitable: about to exchange its own `m_state`
    | Continue          // came second: about to resume the continuation
    | Final             // suspended at the final suspend point

  /** One coroutine: where it is, its promise, and how many awaits it has begun and got past. */
  datatype Task = Task(pc: Pc, state: bool, continuation: Option<nat>, begun: nat, continued: nat)

  datatype Fault =
    | NoFault
    | TouchedDestroyed
    | StartedTwice
    | ReadUnfinished
    | DestroyedRunning
    | ResumedNotParked
    | NoContinuation
    | Race

  /** The chain of live coroutines: each awaits or owns the next one. */
  datatype State = State(tasks: seq<Task>, fault: Fault)

  /** `Await`, `Again`, `Release` and `Finish` are decisions of a coroutine's body. */
  datatype Action = Await(i: nat) | Again(i: nat) | Release(i: nat) | Finish(i: nat) | Proceed(i: nat)

  const FRESH := Task(NotStarted, false, None, 0, 0)

  function Init(): State {
    State([FRESH.(pc := Body)], NoFault)
  }

  function Fail(s: State, f: Fault): State {
    s.(fault := f)
  }

  function Put(s: State, i: nat, t: Task): State
    requires i < |s.tasks|
  {
    s.(tasks := s.tasks[i := t])
  }

  /** What an awaiter does next; it works on the promise of the coroutine after it. */
  function AwaiterStep(s: State, i: nat): State
    requires i < |s.tasks|
  {
    var t := s.tasks[i];
    if i + 1 >= |s.tasks| then Fail(s, TouchedDestroyed)
    else
      var c := s.tasks[i + 1];
      match t.pc
      case Start =>
        if c.pc.NotStarted? then Put(Put(s, i, t.(pc := SetContinuation)), i + 1, c.(pc := Body))
        else Fail(s, StartedTwice)
      case SetContinuation =>
        if c.pc.Continue? then Fail(s, Race)
        else Put(Put(s, i, t.(pc := Exchange)), i + 1, c.(continuation := Some(i)))
      case Exchange =>
        if c.state then Put(s, i, t.(pc := Result, continued := t.continued + 1))
        else Put(Put(s, i, t.(pc := Parked)), i + 1, c.(state := true))
      case Result =>
        if c.pc.Final? then Put(s, i, t.(pc := Holding)) else Fail(s, ReadUnfinished)
      case _ => s
  }

  function CompletionStep(s: State, i: nat): State
    requires i < |s.tasks|
  {
    var t := s.tasks[i];
    match t.pc
    case Complete => Put(s, i, if t.state then t.(pc := Continue) else t.(state := true, pc := Final))
    case Continue =>
      if t.continuation.None? then Fail(s, NoContinuation)
      else
        var p := t.continuation.value;
        if p >= |s.tasks| || p == i || !s.tasks[p].pc.Parked? then Fail(s, ResumedNotParked)
        else Put(Put(s, i, t.(pc := Final)), p, s.tasks[p].(pc := Result, continued := s.tasks[p].continued + 1))
    case _ => s
  }

  /** The body's decisions: await a new coroutine, await the completed one again (it is ready
      at once), destroy it, or finish. The outermost coroutine has no awaiter to notify. */
  function Decide(s: State, i: nat, a: Action): State
    requires i < |s.tasks|
  {
    var t := s.tasks[i];
    match a
    case Await(_) =>
      if t.pc.Body? then State(s.tasks[i := t.(pc := Start, begun := t.begun + 1)] + [FRESH], s.fault) else s
    case Again(_) => if t.pc.Holding? then Put(s, i, t.(pc := Result)) else s
    case Release(_) =>
      if !t.pc.Holding? then s
      else if i + 1 >= |s.tasks| then Fail(s, TouchedDestroyed)
      else if i + 2 < |s.tasks| || !s.tasks[i + 1].pc.Final? then Fail(s, DestroyedRunning)
      else State(s.tasks[..i] + [t.(pc := Body)], s.fault)
    case Finish(_) => if t.pc.Body? then Put(s, i, t.(pc := if i == 0 then Final else Complete)) else s
    case Proceed(_) => s
  }

  function Step(s: State, a: Action): State {
    if s.fault != NoFault || a.i >= |s.tasks| then s
    else if !a.Proceed? then Decide(s, a.i, a)
    else
      match s.tasks[a.i].pc
      case Start | SetContinuation | Exchange | Result => AwaiterStep(s, a.i)
      case Complete | Continue => CompletionStep(s, a.i)
      case _ => s
  }

  function Run(s: State, schedule: seq<Action>): State
    decreases |schedule|
  {
    if schedule == [] then s else Run(Step(s, schedule[0]), schedule[1..])
  }

  ghost function Reach(schedule: seq<Action>): State {
    Run(Init(), schedule)
  }

  lemma {:induction false} RunAppend(s: State, first: seq<Action>, second: seq<Action>)
    ensures Run(s, first + second) == Run(Run(s, first), second)
    decreases |first|
  {
    if first == [] {
      assert first + second == second;
    } else {
      assert (first + second)[1..] == first[1..] + second;
      RunAppend(Step(s, first[0]), first[1..], second);
    }
  }

  // The invariant -----------------------------------------------------------

  predicate Awaiting(pc: Pc) {
    pc.Start? || pc.SetContinuation? || pc.Exchange? || pc.Parked? || pc.Result? || pc.Holding?
  }

  /** An awaiter and its callee. */
  ghost predicate Link(i: nat, p: Task, c: Task) {
    match p.pc
    case Start => c == FRESH
    case SetContinuation => c.continuation.None? && !c.pc.NotStarted? && !c.pc.Continue? && (c.state <==> c.pc.Final?)
    case Exchange => c.continuation == Some(i) && !c.pc.NotStarted? && !c.pc.Continue? && (c.state <==> c.pc.Final?)
    case Parked => c.continuation == Some(i) && !c.pc.NotStarted? && c.state && !c.pc.Final?
    case Result => c.state && c.pc.Final?
    case Holding => c.state && c.pc.Final?
    case _ => false
  }

  /** Every await that was begun is got past once: while it is under way one is outstanding. */
  ghost predicate Counted(t: Task) {
    t.begun == t.continued +
      if t.pc.Start? || t.pc.SetContinuation? || t.pc.Exchange? || t.pc.Parked? then 1 else 0
  }

  ghost predicate Inv(s: State) {
    && s.fault == NoFault && s.tasks != []
    && (forall i :: 0 <= i < |s.tasks| - 1 ==> Link(i, s.tasks[i], s.tasks[i + 1]))
    && !Awaiting(s.tasks[|s.tasks| - 1].pc)
    && !s.tasks[0].pc.NotStarted? && !s.tasks[0].pc.Complete? && !s.tasks[0].pc.Continue?
    && (forall i :: 0 <= i < |s.tasks| ==> Counted(s.tasks[i]))
  }

  /** A task can stand where another stood, as far as its awaiter is concerned. */
  predicate SameToAwaiter(c: Task, d: Task) {
    && d.state == c.state && d.continuation == c.continuation
    && (d.pc.NotStarted? <==> c.pc.NotStarted?) && (d.pc.Final? <==> c.pc.Final?)
    && (d.pc.Continue? <==> c.pc.Continue?) && (d.pc.Complete? <==> c.pc.Complete?)
    && !c.pc.NotStarted?
  }

  /** Replacing an awaiter and its callee. */
  lemma ReplacePair(s: State, i: nat, p: Task, c: Task)
    requires Inv(s) && i + 1 < |s.tasks|
    requires SameToAwaiter(s.tasks[i], p) && Counted(p) && Counted(c) && Link(i, p, c)
    requires if i + 1 == |s.tasks| - 1 then !Awaiting(c.pc) else c.pc == s.tasks[i + 1].pc
    ensures Inv(Put(Put(s, i, p), i + 1, c))
  {
    var t := Put(Put(s, i, p), i + 1, c);
    forall j | 0 <= j < |t.tasks| - 1
      ensures Link(j, t.tasks[j], t.tasks[j + 1])
    {
      assert Link(j, s.tasks[j], s.tasks[j + 1]);
    }
  }

  lemma OnlyAwaitersHaveCallees(s: State, i: nat)
    requires Inv(s) && i < |s.tasks|
    ensures Awaiting(s.tasks[i].pc) <==> i + 1 < |s.tasks|
    ensures i + 1 < |s.tasks| ==> Link(i, s.tasks[i], s.tasks[i + 1])
  {
    if i + 1 < |s.tasks| {
      assert Link(i, s.tasks[i], s.tasks[i + 1]);
    }
  }

  lemma AwaiterKeepsInv(s: State, i: nat)
    requires Inv(s) && i < |s.tasks|
    requires var pc := s.tasks[i].pc; pc.Start? || pc.SetContinuation? || pc.Exchange? || pc.Result?
    ensures Inv(AwaiterStep(s, i))
  {
    OnlyAwaitersHaveCallees(s, i);
    OnlyAwaitersHaveCallees(s, i + 1);
    var t := AwaiterStep(s, i);
    ReplacePair(s, i, t.tasks[i], t.tasks[i + 1]);
    assert t.tasks == s.tasks[i := t.tasks[i]][i + 1 := t.tasks[i + 1]];
  }

  lemma CompletionKeepsInv(s: State, i: nat)
    requires Inv(s) && i < |s.tasks| && (s.tasks[i].pc.Complete? || s.tasks[i].pc.Continue?)
    ensures Inv(CompletionStep(s, i))
  {
    OnlyAwaitersHaveCallees(s, i);
    OnlyAwaitersHaveCallees(s, i - 1);
    var t := CompletionStep(s, i);
    ReplacePair(s, i - 1, t.tasks[i - 1], t.tasks[i]);
    assert t.tasks == s.tasks[i - 1 := t.tasks[i - 1]][i := t.tasks[i]];
  }

  lemma BodyDecisionKeepsInv(s: State, i: nat, a: Action)
    requires Inv(s) && i < |s.tasks| && s.tasks[i].pc.Body?
    ensures Inv(Decide(s, i, a))
  {
    OnlyAwaitersHaveCallees(s, i);
    var t := Decide(s, i, a);
    forall j | 0 <= j < |t.tasks| - 1
      ensures Link(j, t.tasks[j], t.tasks[j + 1])
    {
      if j < |s.tasks| - 1 {
        assert Link(j, s.tasks[j], s.tasks[j + 1]);
      }
    }
  }

  lemma OwnerDecisionKeepsInv(s: State, i: nat, a: Action)
    requires Inv(s) && i < |s.tasks| && s.tasks[i].pc.Holding?
    ensures Inv(Decide(s, i, a))
  {
    OnlyAwaitersHaveCallees(s, i);
    OnlyAwaitersHaveCallees(s, i + 1);
    var t := Decide(s, i, a);
    forall j | 0 <= j < |t.tasks| - 1
      ensures Link(j, t.tasks[j], t.tasks[j + 1])
    {
      assert Link(j, s.tasks[j], s.tasks[j + 1]);
    }
  }

  lemma StepKeepsInv(s: State, a: Action)
    requires Inv(s)
    ensures Inv(Step(s, a))
  {
    if a.i < |s.tasks| {
      if !a.Proceed? {
        if s.tasks[a.i].pc.Body? {
          BodyDecisionKeepsInv(s, a.i, a);
        } else if s.tasks[a.i].pc.Holding? {
          OwnerDecisionKeepsInv(s, a.i, a);
        }
      } else {
        match s.tasks[a.i].pc
        case Start | SetContinuation | Exchange | Result => AwaiterKeepsInv(s, a.i);
        case Complete | Continue => CompletionKeepsInv(s, a.i);
        case _ =>
      }
    }
  }

  lemma {:induction false} RunKeepsInv(s: State, schedule: seq<Action>)
    requires Inv(s)
    ensures Inv(Run(s, schedule))
    decreases |schedule|
  {
    if schedule == [] {
    } else {
      StepKeepsInv(s, schedule[0]);
      RunKeepsInv(Step(s, schedule[0]), schedule[1..]);
    }
  }

  lemma ReachInv(schedule: seq<Action>)
    ensures Inv(Reach(schedule))
  {
    RunKeepsInv(Init(), schedule);
  }

  // What awaiting promises --------------------------------------------------

  /** Nothing is touched or read after its owner has destroyed it, nothing running is
      destroyed, no coroutine is started twice, and only parked awaiters are resumed: whatever
      a coroutine is about to do, what it needs is there and in the right place. */
  lemma NoFaultEver(schedule: seq<Action>, i: nat)
    requires i < |Reach(schedule).tasks|
    ensures var s := Reach(schedule);
      var pc := s.tasks[i].pc;
      && s.fault == NoFault
      && (Awaiting(pc) <==> i + 1 < |s.tasks|)
      && (pc.Start? ==> s.tasks[i + 1].pc.NotStarted?)
      && (pc.SetContinuation? || pc.Exchange? ==> !s.tasks[i + 1].pc.NotStarted? && !s.tasks[i + 1].pc.Continue?)
      && (pc.Result? || pc.Holding? ==> i + 2 == |s.tasks| && s.tasks[i + 1].pc.Final?)
      && (pc.Complete? || pc.Continue? ==> i > 0)
      && (pc.Continue? ==> s.tasks[i].continuation == Some(i - 1) && s.tasks[i - 1].pc.Parked?)
  {
    ReachInv(schedule);
    var s := Reach(schedule);
    OnlyAwaitersHaveCallees(s, i);
    if i + 1 < |s.tasks| {
      OnlyAwaitersHaveCallees(s, i + 1);
    }
    if i > 0 {
      OnlyAwaitersHaveCallees(s, i - 1);
    }
  }

  /** Each await is got past exactly once, and only after the callee has reached its final
      suspend point; so the coroutines of a chain continue from the inside out. */
  lemma ContinuesOnceAfterCallee(schedule: seq<Action>, i: nat)
    requires i < |Reach(schedule).tasks|
    ensures var s := Reach(schedule);
      var t := s.tasks[i];
      && t.continued <= t.begun <= t.continued + 1
      && (t.begun == t.continued + 1 <==> t.pc.Start? || t.pc.SetContinuation? || t.pc.Exchange? || t.pc.Parked?)
      && (t.pc.Result? || t.pc.Holding? ==> i + 2 == |s.tasks| && s.tasks[i + 1].pc.Final?)
      && (t.pc.Parked? ==> i + 1 < |s.tasks| && !s.tasks[i + 1].pc.Final?)
  {
    ReachInv(schedule);
    var s := Reach(schedule);
    OnlyAwaitersHaveCallees(s, i);
    if i + 1 < |s.tasks| {
      OnlyAwaitersHaveCallees(s, i + 1);
    }
  }

  /** The step in which an awaiter gets past its await is the callee's or its own, and in it
      the callee is at, or arrives at, its final suspend point. */
  lemma WhoContinues(schedule: seq<Action>, a: Action, i: nat)
    requires i < |Reach(schedule).tasks| && i < |Step(Reach(schedule), a).tasks|
    requires Step(Reach(schedule), a).tasks[i].continued != Reach(schedule).tasks[i].continued
    ensures var s, t := Reach(schedule), Step(Reach(schedule), a);
      && t.tasks[i].continued == s.tasks[i].continued + 1 && t.tasks[i].pc.Result?
      && i + 1 < |t.tasks| && t.tasks[i + 1].pc.Final?
      && ((s.tasks[i].pc.Exchange? && a == Proceed(i) && s.tasks[i + 1].pc.Final?)
          || (s.tasks[i].pc.Parked? && a == Proceed(i + 1) && s.tasks[i + 1].pc.Continue?))
  {
    ReachInv(schedule);
    var s := Reach(schedule);
    OnlyAwaitersHaveCallees(s, i);
    OnlyAwaitersHaveCallees(s, a.i);
    if a.i > 0 {
      OnlyAwaitersHaveCallees(s, a.i - 1);
    }
  }

  ghost predicate Runs(s: State, i: nat)
    requires i < |s.tasks|
  {
    s.tasks[i].pc.Body? || s.tasks[i].pc.Holding? || Step(s, Proceed(i)) != s
  }

  lemma StepChanges(s: State, i: nat)
    requires Inv(s) && i < |s.tasks|
    requires s.tasks[i].pc !in {Body, Holding, Parked, NotStarted, Final}
    ensures Step(s, Proceed(i)) != s
  {
    OnlyAwaitersHaveCallees(s, i);
    if i > 0 {
      OnlyAwaitersHaveCallees(s, i - 1);
    }
    assert Step(s, Proceed(i)).fault == NoFault ==> Step(s, Proceed(i)).tasks[i].pc != s.tasks[i].pc;
  }

  lemma RunsIfActive(s: State, i: nat)
    requires Inv(s) && i < |s.tasks|
    requires s.tasks[i].pc !in {Parked, NotStarted, Final}
    ensures Runs(s, i)
  {
    if s.tasks[i].pc !in {Body, Holding} {
      StepChanges(s, i);
    }
  }

  /** No wake-up is lost: until the outermost coroutine has finished, some coroutine is in
      user code or its next protocol step does something. */
  lemma SomebodyRuns(schedule: seq<Action>)
    ensures var s := Reach(schedule);
      && s.tasks != []
      && (s.tasks[0].pc.Final? || exists i: nat :: i < |s.tasks| && Runs(s, i))
  {
    ReachInv(schedule);
    var s := Reach(schedule);
    var last := |s.tasks| - 1;
    OnlyAwaitersHaveCallees(s, last);
    if last > 0 {
      OnlyAwaitersHaveCallees(s, last - 1);
      if !(s.tasks[last].pc in {NotStarted, Final}) {
        RunsIfActive(s, last);
      } else {
        RunsIfActive(s, last - 1);
      }
    } else {
      assert s.tasks[last].pc.Final? || Runs(s, last);
    }
  }

  // What each decision does -------------------------------------------------

  /** The coroutine in whose body the chain ends begins to await a new one. */
  lemma AwaitBegins(schedule: seq<Action>, i: nat)
    requires i < |Reach(schedule).tasks| && Reach(schedule).tasks[i].pc.Body?
    ensures var s := Reach(schedule);
      && i == |s.tasks| - 1
      && Step(s, Await(i)) == s.(tasks := s.tasks[..i] + [s.tasks[i].(pc := Start, begun := s.tasks[i].begun + 1), FRESH])
  {
    ReachInv(schedule);
    var s := Reach(schedule);
    OnlyAwaitersHaveCallees(s, i);
    assert s.tasks[i := s.tasks[i].(pc := Start, begun := s.tasks[i].begun + 1)] + [FRESH]
        == s.tasks[..i] + [s.tasks[i].(pc := Start, begun := s.tasks[i].begun + 1), FRESH];
  }

  /** An owner that releases a completed callee destroys it, keeps the coroutines up to itself
      as they are, and is back in its body, from which it can await another one. */
  lemma ReleaseDestroys(schedule: seq<Action>, i: nat)
    requires i < |Reach(schedule).tasks| && Reach(schedule).tasks[i].pc.Holding?
    ensures var s, t := Reach(schedule), Step(Reach(schedule), Release(i));
      && |s.tasks| == i + 2 && t.fault == NoFault
      && t.tasks == s.tasks[..i] + [s.tasks[i].(pc := Body)]
      && Step(t, Await(i)).tasks == s.tasks[..i] + [s.tasks[i].(pc := Start, begun := s.tasks[i].begun + 1), FRESH]
  {
    ReachInv(schedule);
    var s := Reach(schedule);
    OnlyAwaitersHaveCallees(s, i);
    OnlyAwaitersHaveCallees(s, i + 1);
    var t := Step(s, Release(i));
    var begun := t.tasks[i].(pc := Start, begun := t.tasks[i].begun + 1);
    assert t.tasks[i := begun] + [FRESH] == s.tasks[..i] + [begun, FRESH];
  }

  /** A callee that finishes reaches its final suspend point with at most two steps of its own,
      whatever its awaiter has done by then; and the outermost coroutine with none. */
  lemma FinishReachesTheEnd(schedule: seq<Action>, i: nat)
    requires i < |Reach(schedule).tasks| && Reach(schedule).tasks[i].pc.Body?
    ensures var t := Step(Reach(schedule), Finish(i));
      var u := Step(t, Proceed(i));
      && t.fault == NoFault && |t.tasks| == |Reach(schedule).tasks|
      && (i == 0 ==> t.tasks[i].pc.Final?)
      && (i > 0 ==> u.fault == NoFault && i < |u.tasks| && u.tasks[i].state)
      && (i > 0 && !u.tasks[i].pc.Final? ==> i < |Step(u, Proceed(i)).tasks| && Step(u, Proceed(i)).tasks[i].pc.Final?)
  {
    var s := Reach(schedule);
    ReachInv(schedule);
    var t := Step(s, Finish(i));
    StepKeepsInv(s, Finish(i));
    if i > 0 {
      StepKeepsInv(t, Proceed(i));
      OnlyAwaitersHaveCallees(t, i - 1);
      OnlyAwaitersHaveCallees(Step(t, Proceed(i)), i - 1);
      StepKeepsInv(Step(t, Proceed(i)), Proceed(i));
    }
  }

  /** A completed coroutine is ready at once when it is awaited again. */
  lemma AgainIsReady(schedule: seq<Action>, i: nat)
    requires i < |Reach(schedule).tasks| && Reach(schedule).tasks[i].pc.Holding?
    ensures var s, t := Reach(schedule), Step(Reach(schedule), Again(i));
      t == Put(s, i, s.tasks[i].(pc := Result)) && Step(t, Proceed(i)) == s
  {
    ReachInv(schedule);
    var s := Reach(schedule);
    OnlyAwaitersHaveCallees(s, i);
    assert s.tasks[i := s.tasks[i].(pc := Result)][i := s.tasks[i]] == s.tasks;
  }

  // A whole await -------------------------------------------------------------

  /** The chain with an awaiter and its callee at its end. */
  function Pair(outer: seq<Task>, p: Task, c: Task): State {
    State(outer + [p, c], NoFault)
  }

  lemma PairStep(outer: seq<Task>, p: Task, c: Task, a: Action)
    requires a.i == |outer| || a.i == |outer| + 1
    ensures var i := |outer|;
      forall q, d :: Put(Put(Pair(outer, p, c), i, q), i + 1, d) == Pair(outer, q, d)
                  && Put(Put(Pair(outer, p, c), i + 1, d), i, q) == Pair(outer, q, d)
                  && Put(Pair(outer, p, c), i, q) == Pair(outer, q, c)
                  && Put(Pair(outer, p, c), i + 1, d) == Pair(outer, p, d)
  {
    var i, s := |outer|, Pair(outer, p, c);
    forall q, d
      ensures Put(Put(s, i, q), i + 1, d) == Pair(outer, q, d) && Put(Put(s, i + 1, d), i, q) == Pair(outer, q, d)
      ensures Put(s, i, q) == Pair(outer, q, c) && Put(s, i + 1, d) == Pair(outer, p, d)
    {
      assert s.tasks[i := q] == outer + [q, c];
      assert s.tasks[i + 1 := d] == outer + [p, d];
      assert s.tasks[i := q][i + 1 := d] == outer + [q, d];
      assert s.tasks[i + 1 := d][i := q] == outer + [q, d];
    }
  }

  function After(s: State, a: Action, b: Action, c: Action): State {
    Step(Step(Step(s, a), b), c)
  }

  /** A coroutine in its body, the last of the chain, has begun to await and has resumed its callee. */
  lemma CalleeStarts(outer: seq<Task>, p: Task)
    requires p.pc.Body?
    ensures var i, awaiting := |outer|, p.(pc := SetContinuation, begun := p.begun + 1);
      Step(Step(State(outer + [p], NoFault), Await(i)), Proceed(i)) == Pair(outer, awaiting, FRESH.(pc := Body))
  {
    var i, s := |outer|, State(outer + [p], NoFault);
    var q := p.(pc := Start, begun := p.begun + 1);
    assert s.tasks[i := q] + [FRESH] == outer + [q, FRESH];
    PairStep(outer, q, FRESH, Proceed(i));
  }

  /** The callee finishes before its awaiter has registered. */
  lemma CalleeComesFirst(outer: seq<Task>, p: Task)
    requires p.pc.SetContinuation?
    ensures var i := |outer|;
      Step(Step(Pair(outer, p, FRESH.(pc := Body)), Finish(i + 1)), Proceed(i + 1)) == Pair(outer, p, Task(Final, true, None, 0, 0))
  {
    var i := |outer|;
    PairStep(outer, p, FRESH.(pc := Body), Finish(i + 1));
    PairStep(outer, p, FRESH.(pc := Complete), Proceed(i + 1));
  }

  /** Then the awaiter goes on without parking. */
  lemma AwaiterGoesOn(outer: seq<Task>, p: Task)
    requires p.pc.SetContinuation?
    ensures var i := |outer|;
      After(Pair(outer, p, Task(Final, true, None, 0, 0)), Proceed(i), Proceed(i), Proceed(i))
      == Pair(outer, p.(pc := Holding, continued := p.continued + 1), Task(Final, true, Some(i), 0, 0))
  {
    var i := |outer|;
    PairStep(outer, p, Task(Final, true, None, 0, 0), Proceed(i));
    PairStep(outer, p.(pc := Exchange), Task(Final, true, Some(i), 0, 0), Proceed(i));
    PairStep(outer, p.(pc := Result, continued := p.continued + 1), Task(Final, true, Some(i), 0, 0), Proceed(i));
  }

  /** The awaiter registers and parks before its callee finishes. */
  lemma AwaiterParks(outer: seq<Task>, p: Task)
    requires p.pc.SetContinuation?
    ensures var i := |outer|;
      Step(Step(Pair(outer, p, FRESH.(pc := Body)), Proceed(i)), Proceed(i))
      == Pair(outer, p.(pc := Parked), Task(Body, true, Some(i), 0, 0))
  {
    var i := |outer|;
    PairStep(outer, p, FRESH.(pc := Body), Proceed(i));
    PairStep(outer, p.(pc := Exchange), FRESH.(pc := Body, continuation := Some(i)), Proceed(i));
  }

  /** Then the callee finishes and resumes it. */
  lemma CalleeResumes(outer: seq<Task>, p: Task)
    requires p.pc.Parked?
    ensures var i := |outer|;
      After(Pair(outer, p, Task(Body, true, Some(i), 0, 0)), Finish(i + 1), Proceed(i + 1), Proceed(i + 1))
      == Pair(outer, p.(pc := Result, continued := p.continued + 1), Task(Final, true, Some(i), 0, 0))
  {
    var i := |outer|;
    PairStep(outer, p, Task(Body, true, Some(i), 0, 0), Finish(i + 1));
    PairStep(outer, p, Task(Complete, true, Some(i), 0, 0), Proceed(i + 1));
    PairStep(outer, p, Task(Continue, true, Some(i), 0, 0), Proceed(i + 1));
  }

  lemma ResultIsRead(outer: seq<Task>, p: Task)
    requires p.pc.Result?
    ensures var i := |outer|;
      Step(Pair(outer, p, Task(Final, true, Some(i), 0, 0)), Proceed(i))
      == Pair(outer, p.(pc := Holding), Task(Final, true, Some(i), 0, 0))
  {
    PairStep(outer, p, Task(Final, true, Some(|outer|), 0, 0), Proceed(|outer|));
  }

  /** The steps between the start of the callee and its release. */
  function MiddleOf(i: nat, calleeFirst: bool): seq<Action> {
    if calleeFirst then [Finish(i + 1), Proceed(i + 1)] + [Proceed(i), Proceed(i), Proceed(i)]
    else [Proceed(i), Proceed(i)] + [Finish(i + 1), Proceed(i + 1), Proceed(i + 1)] + [Proceed(i)]
  }

  /** The steps of a whole await, whoever comes first. */
  function WholeAwait(i: nat, calleeFirst: bool): seq<Action> {
    [Await(i), Proceed(i)] + MiddleOf(i, calleeFirst) + [Release(i)]
  }

  lemma RunSteps(s: State, a: Action, rest: seq<Action>)
    ensures Run(s, [a] + rest) == Run(Step(s, a), rest) && Run(s, [a]) == Step(s, a)
  {
    assert ([a] + rest)[1..] == rest && [a][1..] == [];
    assert Run(Step(s, a), []) == Step(s, a);
  }

  lemma RunThree(s: State, a: Action, b: Action, c: Action)
    ensures Run(s, [a, b, c]) == After(s, a, b, c) && Run(s, [a, b]) == Step(Step(s, a), b)
  {
    RunSteps(s, a, [b, c]);
    RunSteps(Step(s, a), b, [c]);
    RunSteps(Step(Step(s, a), b), c, []);
    assert [a, b, c] == [a] + [b, c] && [b, c] == [b] + [c] && [a, b] == [a] + [b];
    RunSteps(s, a, [b]);
    RunSteps(Step(s, a), b, []);
  }

  /** One run after another. */
  lemma RunOn(s: State, first: seq<Action>, t: State, second: seq<Action>, u: State)
    requires Run(s, first) == t && Run(t, second) == u
    ensures Run(s, first + second) == u
  {
    RunAppend(s, first, second);
  }

  lemma CalleeFirst(outer: seq<Task>, p: Task)
    requires p.pc.SetContinuation?
    ensures var i := |outer|;
      Run(Pair(outer, p, FRESH.(pc := Body)), MiddleOf(i, true))
      == Pair(outer, p.(pc := Holding, continued := p.continued + 1), Task(Final, true, Some(i), 0, 0))
  {
    var i, s, t := |outer|, Pair(outer, p, FRESH.(pc := Body)), Pair(outer, p, Task(Final, true, None, 0, 0));
    var u := Pair(outer, p.(pc := Holding, continued := p.continued + 1), Task(Final, true, Some(i), 0, 0));
    assert Run(s, [Finish(i + 1), Proceed(i + 1)]) == t by {
      CalleeComesFirst(outer, p);
      RunThree(s, Finish(i + 1), Proceed(i + 1), Proceed(i));
    }
    assert Run(t, [Proceed(i), Proceed(i), Proceed(i)]) == u by {
      AwaiterGoesOn(outer, p);
      RunThree(t, Proceed(i), Proceed(i), Proceed(i));
    }
    RunOn(s, [Finish(i + 1), Proceed(i + 1)], t, [Proceed(i), Proceed(i), Proceed(i)], u);
  }

  lemma AwaiterFirst(outer: seq<Task>, p: Task)
    requires p.pc.SetContinuation?
    ensures var i := |outer|;
      Run(Pair(outer, p, FRESH.(pc := Body)), MiddleOf(i, false))
      == Pair(outer, p.(pc := Holding, continued := p.continued + 1), Task(Final, true, Some(i), 0, 0))
  {
    var i, s := |outer|, Pair(outer, p, FRESH.(pc := Body));
    var t := Pair(outer, p.(pc := Parked), Task(Body, true, Some(i), 0, 0));
    var u := Pair(outer, p.(pc := Result, continued := p.continued + 1), Task(Final, true, Some(i), 0, 0));
    var v := Pair(outer, p.(pc := Holding, continued := p.continued + 1), Task(Final, true, Some(i), 0, 0));
    assert Run(s, [Proceed(i), Proceed(i)]) == t by {
      AwaiterParks(outer, p);
      RunThree(s, Proceed(i), Proceed(i), Proceed(i));
    }
    assert Run(t, [Finish(i + 1), Proceed(i + 1), Proceed(i + 1)]) == u by {
      CalleeResumes(outer, p.(pc := Parked));
      RunThree(t, Finish(i + 1), Proceed(i + 1), Proceed(i + 1));
    }
    assert Run(u, [Proceed(i)]) == v by {
      ResultIsRead(outer, p.(pc := Result, continued := p.continued + 1));
      RunSteps(u, Proceed(i), []);
    }
    RunOn(s, [Proceed(i), Proceed(i)], t, [Finish(i + 1), Proceed(i + 1), Proceed(i + 1)], u);
    RunOn(s, [Proceed(i), Proceed(i)] + [Finish(i + 1), Proceed(i + 1), Proceed(i + 1)], u, [Proceed(i)], v);
  }

  /** A whole await ends where it began, in the awaiter's body, with one more await begun and
      got past and no callee left; whoever comes first, and whatever chain it happens in. */
  lemma AwaitReturns(schedule: seq<Action>, i: nat, calleeFirst: bool)
    requires i < |Reach(schedule).tasks| && Reach(schedule).tasks[i].pc.Body?
    ensures var s := Reach(schedule);
      Run(s, WholeAwait(i, calleeFirst))
      == Put(s, i, s.tasks[i].(begun := s.tasks[i].begun + 1, continued := s.tasks[i].continued + 1))
  {
    var s := Reach(schedule);
    ReachInv(schedule);
    OnlyAwaitersHaveCallees(s, i);
    var outer, p := s.tasks[..i], s.tasks[i];
    assert s == State(outer + [p], NoFault);
    var awaiting := p.(pc := SetContinuation, begun := p.begun + 1);
    var started := Pair(outer, awaiting, FRESH.(pc := Body));
    var held := Pair(outer, awaiting.(pc := Holding, continued := p.continued + 1), Task(Final, true, Some(i), 0, 0));
    var back := Put(s, i, p.(begun := p.begun + 1, continued := p.continued + 1));
    assert Run(s, [Await(i), Proceed(i)]) == started by {
      CalleeStarts(outer, p);
      RunThree(s, Await(i), Proceed(i), Proceed(i));
    }
    assert Run(started, MiddleOf(i, calleeFirst)) == held by {
      if calleeFirst {
        CalleeFirst(outer, awaiting);
      } else {
        AwaiterFirst(outer, awaiting);
      }
    }
    assert Run(held, [Release(i)]) == back by {
      RunSteps(held, Release(i), []);
      assert held.tasks[..i] == outer;
      assert back.tasks == outer + [p.(begun := p.begun + 1, continued := p.continued + 1)];
    }
    RunOn(s, [Await(i), Proceed(i)], started, MiddleOf(i, calleeFirst), held);
    RunOn(s, [Await(i), Proceed(i)] + MiddleOf(i, calleeFirst), held, [Release(i)], back);
  }
}
