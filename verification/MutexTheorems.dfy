/** What the mutex promises over every interleaving of any number of lock operations. */
module MutexTheorems {
  import opened Sequences
  import opened MutexProtocol

  ghost function Reach<Op>(schedule: seq<Action<Op>>): State<Op> {
    Run(Init(), schedule)
  }

  lemma ReachInv<Op>(schedule: seq<Action<Op>>)
    ensures Inv(Reach(schedule))
  {
    InitInv<Op>();
    RunKeepsInv(Init<Op>(), schedule);
  }

  /** The asserts in `unlock` hold, the reversal never follows a null pointer, and only a
      waiting operation is resumed. */
  lemma NoFaultEver<Op>(schedule: seq<Action<Op>>, op: Op)
    ensures var s := Reach(schedule);
      && s.fault == NoFault
      && match PcOf(s, op)
         case Owner => s.word.Locked?
         case Draining => s.word.Locked? && s.word.stack != []
         case Reversing(next, _) => next != []
         case Granting(head) => head != []
         case Resuming(next) => PcOf(s, next) == Waiting
         case _ => true
  {
    ReachInv(schedule);
    var s := Reach(schedule);
    OnlyTheHolderUnlocks(s, op);
    if PcOf(s, op).Resuming? {
      ResumesAWaiter(s, op);
    }
  }

  /** At most one operation has the lock, and the word says so exactly: when it reads
      "not locked" nobody has the lock and nobody waits for it. */
  lemma MutualExclusion<Op>(schedule: seq<Action<Op>>, a: Op, b: Op)
    ensures var s := Reach(schedule);
      && (HasLock(PcOf(s, a)) && HasLock(PcOf(s, b)) ==> a == b)
      && (HasLock(PcOf(s, a)) ==> s.word.Locked?)
      && (s.word.NotLocked? ==> s.holder.None? && Queue(s) == [] && PcOf(s, a) != Waiting)
      && (PcOf(s, a) == Waiting ==> a in Queue(s) && s.holder.Some?)
  {
    ReachInv(schedule);
  }

  /** The holder's list followed by the reversed stack is the line of parked operations in
      the order in which they arrived, in the middle of an `unlock` too. */
  lemma QueueIsArrivalOrder<Op>(schedule: seq<Action<Op>>)
    ensures var s := Reach(schedule);
      && s.arrivals == s.grants + Queue(s)
      && Distinct(Queue(s))
      && (forall op :: op in Queue(s) ==> PcOf(s, op) == Waiting)
  {
    ReachInv(schedule);
  }

  /** The asserts in the destructor: with no operation parked, the word is "not locked" or
      "locked without waiters" and `m_waiters` is null; one parked operation breaks them or
      is at hand in an `unlock`. */
  lemma DestructorAsserts<Op>(schedule: seq<Action<Op>>)
    ensures var s := Reach(schedule);
      && ((forall op :: PcOf(s, op) != Waiting) <==> Queue(s) == [])
      && (Queue(s) == [] ==> (s.word.NotLocked? || s.word == Locked([])) && s.waiters == [])
      && (Queue(s) != [] && InHand(s) == s.waiters ==> (s.word.Locked? && s.word.stack != []) || s.waiters != [])
  {
    ReachInv(schedule);
    var s := Reach(schedule);
    if Queue(s) != [] {
      assert PcOf(s, Queue(s)[0]) == Waiting;
    } else if s.word.Locked? {
      ReverseMembers(s.word.stack);
      assert InHand(s) == [];
    }
  }

  /** `m_waiters` belongs to the holder: nobody else's step changes it. */
  lemma WaitersArePrivate<Op>(schedule: seq<Action<Op>>, a: Action<Op>)
    ensures var s := Reach(schedule);
      Step(s, a).waiters != s.waiters ==> s.holder == Some(a.op)
  {
    ReachInv(schedule);
    OnlyTheHolderUnlocks(Reach(schedule), a.op);
  }

  /** How the lock changes hands: it is taken afresh or set free only when nobody waits,
      and otherwise it goes to the head of the line. So no newcomer overtakes. */
  lemma NobodyOvertakes<Op>(schedule: seq<Action<Op>>, a: Action<Op>)
    requires Step(Reach(schedule), a).holder != Reach(schedule).holder
    ensures var s, t := Reach(schedule), Step(Reach(schedule), a);
      || (s.holder.None? && Queue(s) == [] && t.holder == Some(a.op) && Queue(t) == [])
      || (t.holder.None? && Queue(s) == [] && s.holder == Some(a.op))
      || (s.holder == Some(a.op) && Queue(s) != [] && t.holder == Some(Queue(s)[0])
          && Queue(t) == Queue(s)[1..] && t.grants == s.grants + [Queue(s)[0]])
  {
    var s := Reach(schedule);
    ReachInv(schedule);
    OnlyTheHolderUnlocks(s, a.op);
    StepKeepsInv(s, a);
    if s.holder == Some(a.op) {
      UnlockMovesTheQueue(s, a.op);
      if PcOf(s, a.op).Resuming? {
        var t := Step(s, a);
        assert Queue(s) == [PcOf(s, a.op).op] + Queue(t);
      }
    }
  }

  lemma {:induction false} LogsOnlyGrow<Op>(s: State<Op>, schedule: seq<Action<Op>>)
    ensures s.grants <= Run(s, schedule).grants && s.arrivals <= Run(s, schedule).arrivals
    decreases |schedule|
  {
    if schedule == [] {
    } else {
      var t := Step(s, schedule[0]);
      assert s.grants <= t.grants && s.arrivals <= t.arrivals;
      LogsOnlyGrow(t, schedule[1..]);
    }
  }

  lemma LineLater<Op>(s: State<Op>, schedule: seq<Action<Op>>)
    requires Inv(s)
    ensures var u := Run(s, schedule);
      && s.grants <= u.grants && s.arrivals <= u.arrivals
      && u.arrivals == u.grants + Queue(u)
      && (forall o :: o in Queue(u) ==> PcOf(u, o) == Waiting)
  {
    LogsOnlyGrow(s, schedule);
    RunKeepsInv(s, schedule);
  }

  lemma LinesAfterPush<Op>(schedule: seq<Action<Op>>, op: Op, rest: seq<Action<Op>>)
    requires Pushes(Reach(schedule), op, false)
    ensures var s := Reach(schedule);
      var u := Run(Step(s, Proceed(op, false)), rest);
      && s.grants + Queue(s) + [op] <= u.arrivals && s.grants <= u.grants && op !in Queue(s)
      && u.arrivals == u.grants + Queue(u)
      && (forall o :: o in Queue(u) ==> PcOf(u, o) == Waiting)
  {
    var s := Reach(schedule);
    var t := Step(s, Proceed(op, false));
    ReachInv(schedule);
    LineLater(t, rest) by {
      StepKeepsInv(s, Proceed(op, false));
    }
    assert t.arrivals == s.arrivals + [op] && t.grants == s.grants;
  }

  /** A line whose first part has been served: where the operation that came last then stands now. */
  lemma PlaceInLine<Op>(served: seq<Op>, line: seq<Op>, op: Op, servedLater: seq<Op>, lineLater: seq<Op>, all: seq<Op>)
    requires all == servedLater + lineLater && served + line + [op] <= all
    requires op !in line && served <= servedLater
    ensures var n := |served| + |line|;
      if |servedLater| > n then servedLater[n] == op && op !in servedLater[|served|..n]
      else op in lineLater
  {
    var n := |served| + |line|;
    assert all[n] == (served + line + [op])[n] == op;
    if |servedLater| > n {
      forall i | |served| <= i < n
        ensures servedLater[i] != op
      {
        assert servedLater[i] == all[i] == (served + line + [op])[i] == line[i - |served|];
      }
    } else {
      assert lineLater[n - |servedLater|] == op;
    }
  }

  /** An operation whose push succeeds while k others are parked receives the lock by
      exactly the (k+1)-th grant that follows, and waits until then. */
  lemma FifoBound<Op>(schedule: seq<Action<Op>>, op: Op, rest: seq<Action<Op>>)
    requires Pushes(Reach(schedule), op, false)
    ensures var s := Reach(schedule);
      var u := Run(Step(s, Proceed(op, false)), rest);
      var n := |s.grants| + |Queue(s)|;
      if |u.grants| > n then u.grants[n] == op && op !in u.grants[|s.grants|..n]
      else PcOf(u, op) == Waiting
  {
    var s := Reach(schedule);
    var u := Run(Step(s, Proceed(op, false)), rest);
    LinesAfterPush(schedule, op, rest);
    PlaceInLine(s.grants, Queue(s), op, u.grants, Queue(u), u.arrivals);
  }

  /** The next step of whoever has the lock always does something. */
  lemma TheHolderIsNeverStuck<Op>(schedule: seq<Action<Op>>, op: Op, spurious: bool)
    requires Reach(schedule).holder == Some(op)
    ensures Step(Reach(schedule), Proceed(op, spurious)) != Reach(schedule)
  {
    var s := Reach(schedule);
    ReachInv(schedule);
    UnlockMovesTheQueue(s, op);
    if PcOf(s, op).Resuming? {
      assert |Queue(s)| == 1 + |Queue(UnlockStep(s, op, PcOf(s, op)))|;
    }
  }

  /** How many more turns an `unlock` that has taken the stack needs to hand over the lock. */
  function TurnsToGrant<Op>(pc: Pc<Op>): nat {
    match pc
    case Reversing(next, _) => |next| + 2
    case Granting(_) => 2
    case Resuming(_) => 1
    case _ => 0
  }

  function TurnsOf<Op(==)>(op: Op, schedule: seq<Action<Op>>): nat {
    if schedule == [] then 0
    else (if schedule[0].Proceed? && schedule[0].op == op then 1 else 0) + TurnsOf(op, schedule[1..])
  }

  lemma OwnTurn<Op>(s: State<Op>, op: Op)
    requires Inv(s) && s.holder == Some(op) && TurnsToGrant(PcOf(s, op)) > 0
    ensures var t := UnlockStep(s, op, PcOf(s, op));
      && s.grants <= t.grants
      && (|t.grants| == |s.grants| ==> TurnsToGrant(PcOf(t, op)) > 0)
      && TurnsToGrant(PcOf(t, op)) < TurnsToGrant(PcOf(s, op))
  {
    UnlockMovesTheQueue(s, op);
  }

  lemma OneTurn<Op>(s: State<Op>, op: Op, a: Action<Op>)
    requires Inv(s) && TurnsToGrant(PcOf(s, op)) > 0
    ensures var t := Step(s, a);
      && s.grants <= t.grants
      && (|t.grants| == |s.grants| ==> TurnsToGrant(PcOf(t, op)) > 0)
      && TurnsToGrant(PcOf(t, op)) <= TurnsToGrant(PcOf(s, op)) - if a.Proceed? && a.op == op then 1 else 0
  {
    OnlyTheHolderUnlocks(s, op);
    if a.op == op {
      OwnTurn(s, op);
    } else {
      OnlyTheHolderUnlocks(s, a.op);
    }
  }

  /** Once `unlock` has taken the stack, its own turns alone hand over the lock, one turn
      a waiter taken and two more: no interference delays it. */
  lemma {:induction false} UnlockIsWaitFree<Op>(s: State<Op>, op: Op, schedule: seq<Action<Op>>)
    requires Inv(s) && TurnsToGrant(PcOf(s, op)) > 0
    requires TurnsOf(op, schedule) >= TurnsToGrant(PcOf(s, op))
    ensures |Run(s, schedule).grants| > |s.grants|
    decreases |schedule|
  {
    var a := schedule[0];
    var t := Step(s, a);
    StepKeepsInv(s, a);
    LogsOnlyGrow(t, schedule[1..]);
    OneTurn(s, op, a);
    if |t.grants| == |s.grants| {
      UnlockIsWaitFree(t, op, schedule[1..]);
    }
  }
}
