/** The mutex on the heap: lock operations linked through `m_next`, the stack behind
    `m_state`, and the holder's own list behind `m_waiters`. Other operations may act
    before every access; each access is shown to be one step of the protocol. */
module AsyncMutex {
  import opened Sequences
  import opened Chains
  import opened MutexProtocol
  import opened MutexTheorems

  /** What the other operations do before an access, and whether a weak exchange then fails for no reason. */
  datatype Turn = Turn(others: seq<Action<Node>>, spurious: bool)

  function Stack<Op>(w: Word<Op>): seq<Op> {
    if w.NotLocked? then [] else w.stack
  }

  function Changes<Op(==)>(s: State<Op>, actions: seq<Action<Op>>): nat
    decreases |actions|
  {
    if actions == [] then 0
    else
      var t := Step(s, actions[0]);
      (if t.word != s.word then 1 else 0) + Changes(t, actions[1..])
  }

  /** What has hindered `me`: changes of the word by others, and its exchanges that failed for no reason. */
  function Disturbances<Op(==)>(s: State<Op>, actions: seq<Action<Op>>, me: Op): nat
    decreases |actions|
  {
    if actions == [] then 0
    else
      var a := actions[0];
      var t := Step(s, a);
      (if a == Proceed(me, true) || (a.op != me && t.word != s.word) then 1 else 0) + Disturbances(t, actions[1..], me)
  }

  lemma {:induction false} DisturbancesAdd<Op>(s: State<Op>, first: seq<Action<Op>>, second: seq<Action<Op>>, me: Op)
    ensures Disturbances(s, first + second, me) == Disturbances(s, first, me) + Disturbances(Run(s, first), second, me)
    decreases |first|
  {
    if first == [] {
      assert first + second == second;
    } else {
      assert (first + second)[1..] == first[1..] + second;
      DisturbancesAdd(Step(s, first[0]), first[1..], second, me);
    }
  }

  lemma {:induction false} OthersDisturb<Op>(s: State<Op>, others: seq<Action<Op>>, me: Op)
    requires forall a :: a in others ==> a.op != me
    ensures Disturbances(s, others, me) == Changes(s, others)
    decreases |others|
  {
    if others == [] {
    } else {
      assert others[0] in others;
      OthersDisturb(Step(s, others[0]), others[1..], me);
    }
  }

  /** An attempt of `me` after some actions of the others. */
  lemma AttemptDisturbed(schedule: seq<Action<Node>>, others: seq<Action<Node>>, me: Node, spurious: bool)
    requires forall a :: a in others ==> a.op != me
    ensures Disturbances(Reach(schedule), (schedule + others + [Proceed(me, spurious)])[|schedule|..], me)
         == Changes(Reach(schedule), others) + if spurious then 1 else 0
  {
    var s, mine := Reach(schedule), [Proceed(me, spurious)];
    assert (schedule + others + mine)[|schedule|..] == others + mine;
    DisturbancesAdd(s, others, mine, me);
    OthersDisturb(s, others, me);
    assert mine[1..] == [] && Disturbances(Step(Run(s, others), mine[0]), [], me) == 0;
  }

  lemma DisturbancesSince(start: seq<Action<Node>>, middle: seq<Action<Node>>, end: seq<Action<Node>>, me: Node)
    requires start <= middle <= end
    ensures Disturbances(Reach(start), end[|start|..], me)
         == Disturbances(Reach(start), middle[|start|..], me) + Disturbances(Reach(middle), end[|middle|..], me)
  {
    var first, second := middle[|start|..], end[|middle|..];
    assert end[|start|..] == first + second && start + first == middle;
    DisturbancesAdd(Reach(start), first, second, me);
    RunAppend(Init<Node>(), start, first);
  }

  lemma {:induction false} UnchangedWithoutChanges<Op>(s: State<Op>, actions: seq<Action<Op>>)
    requires Changes(s, actions) == 0
    ensures Run(s, actions).word == s.word
    decreases |actions|
  {
    if actions == [] {
    } else {
      UnchangedWithoutChanges(Step(s, actions[0]), actions[1..]);
    }
  }

  lemma OneStepLeavesMe<Op>(s: State<Op>, a: Action<Op>, me: Op)
    requires Inv(s) && PcOf(s, me) != Waiting && a.op != me
    ensures var t := Step(s, a);
      && PcOf(t, me) == PcOf(s, me)
      && (s.holder == Some(me) ==>
            t.holder == s.holder && t.waiters == s.waiters && t.grants == s.grants)
  {
    OnlyTheHolderUnlocks(s, a.op);
  }

  /** The others can neither move an operation that is not waiting nor touch what a holder has at hand. */
  lemma {:induction false} OthersLeaveMe<Op>(s: State<Op>, actions: seq<Action<Op>>, me: Op)
    requires Inv(s) && PcOf(s, me) != Waiting
    requires forall a :: a in actions ==> a.op != me
    ensures var t := Run(s, actions);
      && PcOf(t, me) == PcOf(s, me)
      && (s.holder == Some(me) ==>
            t.holder == s.holder && t.waiters == s.waiters && t.grants == s.grants && InHand(t) == InHand(s))
    decreases |actions|
  {
    if actions == [] {
    } else {
      var a := actions[0];
      assert a in actions;
      var t := Step(s, a);
      StepKeepsInv(s, a);
      OnlyTheHolderUnlocks(s, a.op);
      OneStepLeavesMe(s, a, me);
      OthersLeaveMe(t, actions[1..], me);
    }
  }

  lemma StepStaysInOps<Op>(s: State<Op>, a: Action<Op>, ops: set<Op>)
    requires s.pcs.Keys <= ops && a.op in ops
    ensures Step(s, a).pcs.Keys <= ops
  {
  }

  lemma {:induction false} RunStaysInOps<Op>(s: State<Op>, actions: seq<Action<Op>>, ops: set<Op>)
    requires Inv(s) && s.pcs.Keys <= ops && forall a :: a in actions ==> a.op in ops
    ensures Run(s, actions).pcs.Keys <= ops
    decreases |actions|
  {
    if actions == [] {
    } else {
      assert actions[0] in actions;
      StepKeepsInv(s, actions[0]);
      StepStaysInOps(s, actions[0], ops);
      RunStaysInOps(Step(s, actions[0]), actions[1..], ops);
    }
  }

  lemma WaitersAtHand<Op>(s: State<Op>)
    requires Inv(s)
    ensures s.waiters == [] || s.waiters == InHand(s) ||
            (s.holder.Some? && PcOf(s, s.holder.value).Resuming?
             && InHand(s) == [PcOf(s, s.holder.value).op] + s.waiters)
  {
  }

  /** The stack, the holder's list and what the holder has at hand are made of parked
      operations, and the stack shares none with the others. */
  lemma QueueParts<Op>(s: State<Op>)
    requires Inv(s)
    ensures Distinct(Stack(s.word)) && Distinct(InHand(s)) && Distinct(s.waiters)
    ensures forall op :: op in Stack(s.word) ==> op in s.pcs && s.pcs[op] == Waiting && op !in InHand(s)
    ensures forall op :: op in InHand(s) ==> op in s.pcs && s.pcs[op] == Waiting
    ensures forall op :: op in s.waiters ==> op in InHand(s)
  {
    var stack := Stack(s.word);
    assert Queue(s) == InHand(s) + Reverse(stack);
    DistinctParts(InHand(s), Reverse(stack));
    DistinctReversed(stack);
    ReverseMembers(stack);
    assert forall op :: op in InHand(s) || op in Reverse(stack) ==> op in Queue(s);
    WaitersAtHand(s);
    if s.holder.Some? && PcOf(s, s.holder.value).Resuming? {
      DistinctParts([PcOf(s, s.holder.value).op], s.waiters);
    }
  }

  // Facts about reached states, for the methods below ------------------------

  lemma ReachParts(schedule: seq<Action<Node>>)
    ensures var s := Reach(schedule);
      && Distinct(Stack(s.word)) && Distinct(InHand(s)) && Distinct(s.waiters)
      && (forall op :: op in Stack(s.word) ==> op in s.pcs && s.pcs[op] == Waiting && op !in InHand(s))
      && (forall op :: op in InHand(s) ==> op in s.pcs && s.pcs[op] == Waiting)
      && (forall op :: op in s.waiters ==> op in InHand(s))
  {
    ReachInv(schedule);
    QueueParts(Reach(schedule));
  }

  /** What the others may have done to a state in which `me` is not waiting. */
  lemma ReachLater(schedule: seq<Action<Node>>, others: seq<Action<Node>>,
                   me: Node, ops: set<Node>)
    requires PcOf(Reach(schedule), me) != Waiting && Reach(schedule).pcs.Keys <= ops
    requires forall a :: a in others ==> a.op in ops && a.op != me
    ensures var s, t := Reach(schedule), Reach(schedule + others);
      && t == Run(s, others) && t.pcs.Keys <= ops && PcOf(t, me) == PcOf(s, me)
      && s.arrivals <= t.arrivals
      && (Changes(s, others) == 0 ==> t.word == s.word)
      && (s.holder == Some(me) ==>
            t.holder == s.holder && t.waiters == s.waiters && t.grants == s.grants && InHand(t) == InHand(s))
  {
    var s := Reach(schedule);
    ReachInv(schedule);
    RunAppend(Init<Node>(), schedule, others);
    RunStaysInOps(s, others, ops);
    OthersLeaveMe(s, others, me);
    LogsOnlyGrow(s, others);
    if Changes(s, others) == 0 {
      UnchangedWithoutChanges(s, others);
    }
  }

  lemma ReachStep(schedule: seq<Action<Node>>, a: Action<Node>, ops: set<Node>)
    requires Reach(schedule).pcs.Keys <= ops && a.op in ops
    ensures Reach(schedule + [a]) == Step(Reach(schedule), a)
    ensures Reach(schedule + [a]).pcs.Keys <= ops && Reach(schedule).fault == NoFault
  {
    ReachInv(schedule);
    RunAppend(Init<Node>(), schedule, [a]);
    StepStaysInOps(Reach(schedule), a, ops);
  }

  lemma StartEffect<Op>(s: State<Op>, me: Op)
    requires s.fault == NoFault && PcOf(s, me) == Done
    ensures var t := Step(s, Start(me));
      t.word == s.word && t.waiters == s.waiters && PcOf(t, me) == Trying(Peek(s.word))
  {
  }

  lemma TryLockEffect<Op>(s: State<Op>, me: Op)
    requires s.fault == NoFault && PcOf(s, me) == Done
    ensures var t := Step(s, TryLock(me));
      && t.waiters == s.waiters
      && (if s.word.NotLocked? then t.word == Locked([]) && t.holder == Some(me) else t == s)
  {
  }

  /** What one attempt of `await_suspend` does. */
  lemma AttemptEffect<Op>(s: State<Op>, me: Op, spurious: bool)
    requires s.fault == NoFault && PcOf(s, me).Trying?
    ensures var t := Step(s, Proceed(me, spurious));
      && t.waiters == s.waiters
      && (spurious || Peek(s.word) != PcOf(s, me).seen ==> t.word == s.word && PcOf(t, me) == Trying(Peek(s.word)))
      && (!spurious && Peek(s.word) == PcOf(s, me).seen ==>
            if s.word.NotLocked? then t.word == Locked([]) && t.holder == Some(me) && PcOf(t, me) == Owner
            else t.word == Locked([me] + s.word.stack) && PcOf(t, me) == Waiting && t.arrivals == s.arrivals + [me])
  {
  }

  /** What one step of `unlock` does. */
  lemma UnlockEffect(schedule: seq<Action<Node>>, me: Node)
    requires HasLock(PcOf(Reach(schedule), me))
    ensures var s := Reach(schedule);
      var t := Step(s, Proceed(me, false));
      && s.holder == Some(me) && s.word.Locked?
      && t.arrivals == s.arrivals
      && (HasLock(PcOf(t, me)) ==> t.holder == s.holder)
      && match PcOf(s, me)
         case Owner =>
           t.word == s.word && t.waiters == s.waiters && t.grants == s.grants
           && PcOf(t, me) == if s.waiters == [] then Releasing else Granting(s.waiters)
         case Releasing =>
           t.waiters == s.waiters == [] && t.grants == s.grants
           && (if s.word.stack == [] then t.word.NotLocked? && PcOf(t, me) == Done
               else t.word == s.word && PcOf(t, me) == Draining)
         case Draining =>
           t.waiters == s.waiters == [] && t.grants == s.grants && s.word.stack != []
           && t.word == Locked([]) && PcOf(t, me) == Reversing(s.word.stack, [])
         case Reversing(next, head) =>
           t.waiters == s.waiters == [] && t.grants == s.grants && t.word == s.word && next != []
           && PcOf(t, me) == if |next| == 1 then Granting([next[0]] + head) else Reversing(next[1..], [next[0]] + head)
         case Granting(head) =>
           head != [] && t.waiters == head[1..] && t.grants == s.grants && t.word == s.word
           && PcOf(t, me) == Resuming(head[0])
         case Resuming(op) =>
           t.waiters == s.waiters && t.grants == s.grants + [op] && t.word == s.word
           && t.holder == Some(op) && PcOf(t, op) == Owner && PcOf(s, op) == Waiting
         case _ => true
  {
    ReachInv(schedule);
    OnlyTheHolderUnlocks(Reach(schedule), me);
    UnlockMovesTheQueue(Reach(schedule), me);
    QueueParts(Reach(schedule));
  }

  /** What a reversal has at hand: the rest of the stack and the list built so far. */
  lemma ReversingParts(schedule: seq<Action<Node>>, me: Node, rest: seq<Node>, head: seq<Node>)
    requires PcOf(Reach(schedule), me) == Reversing(rest, head)
    ensures var s := Reach(schedule);
      && Distinct(rest) && Distinct(head) && (forall op :: op in rest ==> op !in head)
      && s.waiters == [] && rest != [] && InHand(s) == Reverse(rest) + head
      && (forall op :: op in rest ==> op in InHand(s) && op in s.pcs && op !in Stack(s.word))
      && (forall op :: op in head ==> op in InHand(s) && op in s.pcs && op !in Stack(s.word))
  {
    var s := Reach(schedule);
    ReachInv(schedule);
    OnlyTheHolderUnlocks(s, me);
    QueueParts(s);
    DistinctParts(Reverse(rest), head);
    DistinctReversed(rest);
    ReverseMembers(rest);
  }

  lemma GrantingParts(schedule: seq<Action<Node>>, me: Node, head: seq<Node>)
    requires PcOf(Reach(schedule), me) == Granting(head)
    ensures var s := Reach(schedule);
      && head != [] && InHand(s) == head
      && (forall op :: op in head ==> op in s.pcs && op !in Stack(s.word))
  {
    ReachInv(schedule);
    OnlyTheHolderUnlocks(Reach(schedule), me);
    QueueParts(Reach(schedule));
  }

  /** What an `unlock` that began at one point and has ended at another has done for the line. */
  lemma UnlockServesTheFirst(before: seq<Action<Node>>, after: seq<Action<Node>>)
    requires Reach(before).arrivals <= Reach(after).arrivals
    ensures var s, t := Reach(before), Reach(after);
      && (t.word.NotLocked? && t.grants == s.grants ==> Queue(s) == [])
      && (forall op :: t.grants == s.grants + [op] ==>
            |s.grants| < |t.arrivals| && op == t.arrivals[|s.grants|] && (Queue(s) != [] ==> op == Queue(s)[0]))
  {
    ReachInv(before);
    ReachInv(after);
    var s, t := Reach(before), Reach(after);
    if Queue(s) != [] {
      assert t.arrivals[|s.grants|] == s.arrivals[|s.grants|] == Queue(s)[0];
    }
    assert t.arrivals == t.grants + Queue(t);
  }

  ghost predicate Within(s: seq<Node>, ops: set<Node>) {
    forall op :: op in s ==> op in ops
  }

  ghost predicate Apart(a: seq<Node>, b: seq<Node>) {
    forall op :: op in a ==> op !in b
  }

  /** The stack and the holder's list, for an operation that is in neither. */
  lemma ReachLists(schedule: seq<Action<Node>>, me: Node, ops: set<Node>)
    requires Reach(schedule).pcs.Keys <= ops && PcOf(Reach(schedule), me) != Waiting
    ensures var s := Reach(schedule);
      && Distinct(Stack(s.word)) && Within(Stack(s.word), ops) && Apart([me], Stack(s.word))
      && Distinct(s.waiters) && Within(s.waiters, ops) && Apart([me], s.waiters)
      && Apart(Stack(s.word), s.waiters)
  {
    ReachParts(schedule);
  }

  lemma ReachHand(schedule: seq<Action<Node>>, ops: set<Node>)
    requires Reach(schedule).pcs.Keys <= ops
    ensures var s := Reach(schedule); Within(InHand(s), ops) && Apart(InHand(s), Stack(s.word))
  {
    ReachParts(schedule);
  }

  /** What a holder counts on while others act. */
  ghost predicate Kept(s: State<Node>, t: State<Node>) {
    && t.holder == s.holder && t.waiters == s.waiters && t.grants == s.grants && s.arrivals <= t.arrivals
    && InHand(t) == InHand(s)
  }

  /** No turn contains an action of `me`. */
  ghost predicate AllForeign(turns: seq<Turn>, ops: set<Node>, me: Node) {
    forall i, a :: 0 <= i < |turns| && a in turns[i].others ==> a.op in ops && a.op != me
  }

  /** What the others do next. */
  function Acts(turns: seq<Turn>): seq<Action<Node>> {
    if turns == [] then [] else turns[0].others
  }

  class Mutex {
    const ops: set<Node>
    var state: Seen<Node>
    var waiters: Node?
    var turns: seq<Turn>
    /** The protocol's view of the mutex, and everything done to it so far. */
    var sys: State<Node>
    ghost var schedule: seq<Action<Node>>

    ghost predicate Follows()
      reads this
    {
      sys == Reach(schedule) && sys.pcs.Keys <= ops
    }

    ghost predicate Valid()
      reads this, ops
    {
      && Follows()
      && Within(Stack(sys.word), ops) && Within(sys.waiters, ops)
      && state == Peek(sys.word)
      && Chain(First(Stack(sys.word)), Stack(sys.word))
      && Chain(waiters, sys.waiters)
    }

    ghost predicate Foreign(me: Node)
      reads this
    {
      me in ops && AllForeign(turns, ops, me)
    }

    constructor (ops: set<Node>, turns: seq<Turn>)
      ensures Valid() && this.ops == ops && this.turns == turns && sys == Init()
    {
      this.ops, this.turns := ops, turns;
      state, waiters := SeenNotLocked, null;
      sys, schedule := Init(), [];
    }

    /** Records the access just made as the named step of the protocol. */
    method Did(a: Action<Node>)
      requires Follows() && a.op in ops
      modifies this`sys, this`schedule
      ensures Follows() && sys == Step(old(sys), a) && schedule == old(schedule) + [a]
      ensures old(sys).fault == NoFault
    {
      ReachStep(schedule, a, ops);
      sys := Step(sys, a);
      schedule := schedule + [a];
    }

    /** Makes the heap show a later state of the protocol; a holder's own list is left alone. */
    method Show(seen: Seen<Node>, stack: seq<Node>, line: seq<Node>, keep: bool, me: Node)
      requires Distinct(stack) && Distinct(line) && Within(stack, ops) && Within(line, ops)
      requires Apart(stack, line) && Apart([me], stack) && Apart([me], line)
      requires keep ==> Chain(waiters, line)
      modifies this`state, this`waiters, ops
      ensures state == seen && Chain(First(stack), stack) && Chain(waiters, line)
      ensures me.next == old(me.next)
      ensures keep ==> waiters == old(waiters)
      ensures keep ==> forall op :: op in ops && op !in stack ==> op.next == old(op.next)
    {
      assert me in [me];
      state := seen;
      Link(stack, ops);
      if !keep {
        Link(line, ops);
        waiters := First(line);
      }
    }

    /** Lets the others act. */
    method Others(me: Node) returns (spurious: bool)
      requires Valid() && Foreign(me) && PcOf(sys, me) != Waiting
      modifies this, ops
      ensures Valid() && Foreign(me) && schedule == old(schedule) + Acts(old(turns))
      ensures PcOf(sys, me) == old(PcOf(sys, me)) && me.next == old(me.next)
      ensures turns == if old(turns) == [] then [] else old(turns)[1..]
      ensures spurious <==> old(turns) != [] && old(turns)[0].spurious
      ensures Changes(old(sys), Acts(old(turns))) == 0 ==> sys.word == old(sys.word)
      ensures old(sys.holder) == Some(me) ==> Kept(old(sys), sys) && waiters == old(waiters)
      ensures old(sys.holder) == Some(me) ==> forall op :: op in InHand(sys) ==> op in ops && op.next == old(op.next)
    {
      spurious := false;
      ReachHand(schedule, ops);
      if turns != [] {
        var turn := turns[0];
        var t := Run(sys, turn.others);
        ReachLater(schedule, turn.others, me, ops);
        ReachLists(schedule + turn.others, me, ops);
        ReachHand(schedule + turn.others, ops);
        spurious := turn.spurious;
        Show(Peek(t.word), Stack(t.word), t.waiters, sys.holder == Some(me), me);
        sys, schedule, turns := t, schedule + turn.others, turns[1..];
      }
    }

    /** `compare_exchange_strong(not_locked, locked_no_waiters)`. */
    method TakeIfFree(me: Node) returns (locked: bool)
      requires Valid() && me in ops && PcOf(sys, me) == Done
      modifies this`state, this`sys, this`schedule
      ensures Valid() && schedule == old(schedule) + [TryLock(me)]
      ensures locked ==> sys.holder == Some(me) && sys.word == Locked([])
      ensures !locked ==> PcOf(sys, me) == Done && sys.word.Locked?
    {
      locked := state == SeenNotLocked;
      ghost var s := sys;
      if locked {
        state := SeenNoWaiters;
      }
      Did(TryLock(me));
      TryLockEffect(s, me);
      assert Stack(sys.word) == Stack(s.word);
    }

    /** `try_lock`. */
    method TryToLock(me: Node) returns (locked: bool)
      requires Valid() && Foreign(me) && PcOf(sys, me) == Done
      modifies this, ops
      ensures Valid() && old(schedule) <= schedule
      ensures locked ==> sys.holder == Some(me) && sys.word == Locked([])
      ensures !locked ==> PcOf(sys, me) == Done && sys.word.Locked?
    {
      var _ := Others(me);
      locked := TakeIfFree(me);
    }

    /** The load at the start of `await_suspend`. */
    method LoadState(me: Node) returns (oldState: Seen<Node>)
      requires Valid() && Foreign(me) && PcOf(sys, me) == Done
      modifies this, ops
      ensures Valid() && Foreign(me) && old(schedule) <= schedule
      ensures PcOf(sys, me) == Trying(oldState) && oldState == state
    {
      var _ := Others(me);
      oldState := state;
      ghost var s := sys;
      Did(Start(me));
      StartEffect(s, me);
    }

    /** The exchange of `await_suspend` that takes a free lock. */
    method AcquireIfFree(me: Node, spurious: bool) returns (acquired: bool)
      requires Valid() && me in ops && PcOf(sys, me) == Trying(SeenNotLocked)
      modifies this`state, this`sys, this`schedule
      ensures Valid() && schedule == old(schedule) + [Proceed(me, spurious)]
      ensures acquired <==> !spurious && old(state) == SeenNotLocked
      ensures acquired ==> sys.holder == Some(me) && PcOf(sys, me) == Owner && sys.word == Locked([])
      ensures !acquired ==> PcOf(sys, me) == Trying(state) && sys.word == old(sys.word)
    {
      acquired := !spurious && state == SeenNotLocked;
      if acquired {
        state := SeenNoWaiters;
      }
      ghost var s := sys;
      Did(Proceed(me, spurious));
      AttemptEffect(s, me, spurious);
      assert Stack(sys.word) == Stack(s.word);
    }

    /** `compare_exchange_weak(not_locked, locked_no_waiters)`. */
    method AcquireWeak(me: Node) returns (acquired: bool)
      requires Valid() && Foreign(me) && PcOf(sys, me) == Trying(SeenNotLocked) && state == SeenNotLocked
      modifies this, ops
      ensures Valid() && Foreign(me) && old(schedule) <= schedule
      ensures acquired ==> sys.holder == Some(me) && PcOf(sys, me) == Owner && sys.word == Locked([])
      ensures !acquired ==> PcOf(sys, me) == Trying(state) && old(turns) != [] && turns == old(turns)[1..]
      ensures !acquired ==> Disturbances(old(sys), schedule[|old(schedule)|..], me) > 0
    {
      ghost var start, others := schedule, Acts(turns);
      var spurious := Others(me);
      AttemptDisturbed(start, others, me, spurious);
      acquired := AcquireIfFree(me, spurious);
    }

    /** The exchange of `await_suspend` that parks the operation. */
    method PushUnlessChanged(me: Node, oldState: Seen<Node>, spurious: bool) returns (pushed: bool)
      requires Valid() && me in ops && PcOf(sys, me) == Trying(oldState) && oldState != SeenNotLocked
      requires me.next == if oldState == SeenNoWaiters then null else oldState.op
      modifies this`state, this`sys, this`schedule
      ensures Valid() && schedule == old(schedule) + [Proceed(me, spurious)]
      ensures pushed <==> !spurious && old(state) == oldState
      ensures pushed ==> PcOf(sys, me) == Waiting && state == SeenWaiter(me)
      ensures pushed ==> sys.arrivals == old(sys.arrivals) + [me]
      ensures !pushed ==> PcOf(sys, me) == Trying(state) && sys.word == old(sys.word)
    {
      pushed := !spurious && state == oldState;
      ghost var s := sys;
      assert pushed ==> Peek(s.word) == oldState && me.next == First(Stack(s.word));
      if pushed {
        state := SeenWaiter(me);
      }
      Did(Proceed(me, spurious));
      AttemptEffect(s, me, spurious);
      if pushed {
        ChainMore(me, Stack(s.word));
      }
    }

    /** `compare_exchange_weak(oldState, this)`, after `m_next` has been set to `oldState`. */
    method PushWeak(me: Node, oldState: Seen<Node>) returns (pushed: bool)
      requires Valid() && Foreign(me) && PcOf(sys, me) == Trying(oldState) && state == oldState != SeenNotLocked
      requires me.next == if oldState == SeenNoWaiters then null else oldState.op
      modifies this, ops
      ensures Valid() && Foreign(me) && old(schedule) <= schedule
      ensures pushed ==> PcOf(sys, me) == Waiting && state == SeenWaiter(me)
      ensures pushed ==> |sys.arrivals| > 0 && sys.arrivals[|sys.arrivals| - 1] == me
      ensures !pushed ==> PcOf(sys, me) == Trying(state) && old(turns) != [] && turns == old(turns)[1..]
      ensures !pushed ==> Disturbances(old(sys), schedule[|old(schedule)|..], me) > 0
    {
      ghost var start, others := schedule, Acts(turns);
      var spurious := Others(me);
      AttemptDisturbed(start, others, me, spurious);
      pushed := PushUnlessChanged(me, oldState, spurious);
    }

    /** `m_next = oldState`: an operation that is not parked is in nobody's list. */
    method SetNext(me: Node, oldState: Seen<Node>)
      requires Valid() && me in ops && PcOf(sys, me) != Waiting && oldState != SeenNotLocked
      modifies me
      ensures Valid() && me.next == if oldState == SeenNoWaiters then null else oldState.op
    {
      ReachParts(schedule);
      me.next := if oldState == SeenNoWaiters then null else oldState.op;
    }

    /** One turn of the loop in `await_suspend`. */
    method Attempt(me: Node, oldState: Seen<Node>) returns (done: bool)
      requires Valid() && Foreign(me) && PcOf(sys, me) == Trying(oldState) && oldState == state
      modifies this, ops
      ensures Valid() && Foreign(me) && old(schedule) <= schedule
      ensures done && oldState == SeenNotLocked ==>
                sys.holder == Some(me) && PcOf(sys, me) == Owner && sys.word == Locked([])
      ensures done && oldState != SeenNotLocked ==>
                PcOf(sys, me) == Waiting && state == SeenWaiter(me)
                && |sys.arrivals| > 0 && sys.arrivals[|sys.arrivals| - 1] == me
      ensures !done ==> PcOf(sys, me) == Trying(state) && old(turns) != [] && turns == old(turns)[1..]
      ensures !done ==> Disturbances(old(sys), schedule[|old(schedule)|..], me) > 0
    {
      if oldState == SeenNotLocked {
        done := AcquireWeak(me);
      } else {
        SetNext(me, oldState);
        done := PushWeak(me, oldState);
      }
    }

    /** The lock operation's `await_suspend`. True means it is parked on top of the stack,
        false that it has the lock. Every retry is paid for by a change that somebody else
        made to the word during the call, or by a spurious failure. */
    method AwaitSuspend(me: Node) returns (parked: bool, retries: nat)
      requires Valid() && Foreign(me) && PcOf(sys, me) == Done
      modifies this, ops
      ensures Valid() && old(schedule) <= schedule
      ensures parked ==> PcOf(sys, me) == Waiting && state == SeenWaiter(me)
      ensures parked ==> |sys.arrivals| > 0 && sys.arrivals[|sys.arrivals| - 1] == me
      ensures !parked ==> sys.holder == Some(me) && PcOf(sys, me) == Owner && sys.word == Locked([])
      ensures retries <= Disturbances(old(sys), schedule[|old(schedule)|..], me)
    {
      var oldState := LoadState(me);
      retries := 0;
      while true
        invariant Valid() && Foreign(me) && old(schedule) <= schedule
        invariant PcOf(sys, me) == Trying(oldState) && oldState == state
        invariant retries <= Disturbances(old(sys), schedule[|old(schedule)|..], me)
        decreases |turns|
      {
        ghost var before := schedule;
        var done := Attempt(me, oldState);
        DisturbancesSince(old(schedule), before, schedule, me);
        if done {
          return oldState != SeenNotLocked, retries;
        }
        oldState := state;
        retries := retries + 1;
      }
    }

    ghost predicate Unlocking(me: Node, grants: seq<Node>, arrivals: seq<Node>)
      reads this, ops
    {
      && Valid() && Foreign(me) && sys.holder == Some(me) && HasLock(PcOf(sys, me))
      && sys.grants == grants && arrivals <= sys.arrivals
    }

    /** What the others may do between two accesses of `unlock`. */
    method OthersMeanwhile(me: Node, ghost arrivals: seq<Node>)
      requires Unlocking(me, sys.grants, arrivals)
      modifies this, ops
      ensures Unlocking(me, old(sys.grants), arrivals) && old(schedule) <= schedule
      ensures PcOf(sys, me) == old(PcOf(sys, me))
    {
      var _ := Others(me);
    }

    /** The look at `m_waiters`, after the assert. */
    method LoadWaiters(me: Node) returns (waitersHead: Node?)
      requires Valid() && me in ops && PcOf(sys, me) == Owner
      modifies this`sys, this`schedule
      ensures Valid() && schedule == old(schedule) + [Proceed(me, false)]
      ensures sys.holder == Some(me) && sys.grants == old(sys.grants) && sys.arrivals == old(sys.arrivals)
      ensures if waitersHead == null then PcOf(sys, me) == Releasing
              else PcOf(sys, me).Granting? && Chain(waitersHead, PcOf(sys, me).head)
    {
      UnlockEffect(schedule, me);
      assert state != SeenNotLocked;
      waitersHead := waiters;
      Did(Proceed(me, false));
    }

    /** The first lines of `unlock`. */
    method ReadWaiters(me: Node, ghost arrivals: seq<Node>) returns (waitersHead: Node?)
      requires Unlocking(me, sys.grants, arrivals) && PcOf(sys, me) == Owner
      modifies this, ops
      ensures Unlocking(me, old(sys.grants), arrivals) && old(schedule) <= schedule
      ensures if waitersHead == null then PcOf(sys, me) == Releasing
              else PcOf(sys, me).Granting? && Chain(waitersHead, PcOf(sys, me).head)
    {
      OthersMeanwhile(me, arrivals);
      waitersHead := LoadWaiters(me);
    }

    /** `compare_exchange_strong(locked_no_waiters, not_locked)`. */
    method ReleaseIfNoWaiters(me: Node) returns (released: bool)
      requires Valid() && me in ops && PcOf(sys, me) == Releasing
      modifies this`state, this`sys, this`schedule
      ensures Valid() && schedule == old(schedule) + [Proceed(me, false)]
      ensures sys.grants == old(sys.grants) && sys.arrivals == old(sys.arrivals)
      ensures released ==> sys.word.NotLocked? && PcOf(sys, me) == Done
      ensures !released ==> sys.holder == Some(me) && PcOf(sys, me) == Draining
    {
      UnlockEffect(schedule, me);
      released := state == SeenNoWaiters;
      if released {
        state := SeenNotLocked;
      }
      Did(Proceed(me, false));
    }

    method ReleaseUnlessAwaited(me: Node, ghost arrivals: seq<Node>) returns (released: bool)
      requires Unlocking(me, sys.grants, arrivals) && PcOf(sys, me) == Releasing
      modifies this, ops
      ensures Valid() && old(schedule) <= schedule && sys.grants == old(sys.grants) && arrivals <= sys.arrivals
      ensures released ==> sys.word.NotLocked? && PcOf(sys, me) == Done
      ensures !released ==> Unlocking(me, old(sys.grants), arrivals) && PcOf(sys, me) == Draining
    {
      OthersMeanwhile(me, arrivals);
      released := ReleaseIfNoWaiters(me);
    }

    /** `m_state.exchange(locked_no_waiters)`: the whole stack, and it is not empty. */
    method ExchangeWord(me: Node) returns (oldState: Seen<Node>)
      requires Valid() && me in ops && PcOf(sys, me) == Draining
      modifies this`state, this`sys, this`schedule
      ensures Valid() && schedule == old(schedule) + [Proceed(me, false)]
      ensures sys.holder == Some(me) && sys.grants == old(sys.grants) && sys.arrivals == old(sys.arrivals)
      ensures PcOf(sys, me).Reversing? && PcOf(sys, me).head == []
      ensures oldState.SeenWaiter? && Chain(oldState.op, PcOf(sys, me).next)
    {
      UnlockEffect(schedule, me);
      oldState := state;
      state := SeenNoWaiters;
      Did(Proceed(me, false));
      assert oldState != SeenNoWaiters && oldState != SeenNotLocked;
    }

    method TakeStack(me: Node, ghost arrivals: seq<Node>) returns (oldState: Seen<Node>)
      requires Unlocking(me, sys.grants, arrivals) && PcOf(sys, me) == Draining
      modifies this, ops
      ensures Unlocking(me, old(sys.grants), arrivals) && old(schedule) <= schedule
      ensures PcOf(sys, me).Reversing? && PcOf(sys, me).head == []
      ensures oldState.SeenWaiter? && Chain(oldState.op, PcOf(sys, me).next)
    {
      OthersMeanwhile(me, arrivals);
      oldState := ExchangeWord(me);
    }

    /** What the others may do while the stack is being reversed. */
    method OthersWhileReversing(me: Node, ghost arrivals: seq<Node>, ghost rest: seq<Node>,
                                ghost head: seq<Node>, next: Node, waitersHead: Node?)
      requires Unlocking(me, sys.grants, arrivals) && PcOf(sys, me) == Reversing(rest, head)
      requires Chain(next, rest) && Chain(waitersHead, head)
      modifies this, ops
      ensures Unlocking(me, old(sys.grants), arrivals) && old(schedule) <= schedule
      ensures PcOf(sys, me) == Reversing(rest, head)
      ensures Chain(next, rest) && Chain(waitersHead, head)
    {
      ReversingParts(schedule, me, rest, head);
      var _ := Others(me);
    }

    /** The four assignments of the loop body: one node moves, and it is not on the stack. */
    method MoveFirst(next: Node, waitersHead: Node?, ghost rest: seq<Node>, ghost head: seq<Node>, ghost stack: seq<Node>)
      returns (temp: Node?)
      requires rest != [] && Chain(next, rest) && Chain(waitersHead, head) && Chain(First(stack), stack)
      requires Distinct(rest) && next !in head && next !in stack
      modifies next
      ensures Chain(temp, rest[1..]) && Chain(next, [next] + head) && Chain(First(stack), stack)
    {
      temp := MoveOne(next, waitersHead, rest, head);
    }

    /** They are one step of the protocol. */
    method Relink(me: Node, ghost rest: seq<Node>, ghost head: seq<Node>, next: Node, waitersHead: Node?)
      returns (temp: Node?)
      requires Valid() && me in ops && PcOf(sys, me) == Reversing(rest, head)
      requires Chain(next, rest) && Chain(waitersHead, head)
      modifies this`sys, this`schedule, next
      ensures Valid() && schedule == old(schedule) + [Proceed(me, false)]
      ensures rest != [] && next == rest[0] && Chain(next, [next] + head) && Chain(temp, rest[1..])
      ensures PcOf(sys, me) == if temp == null then Granting([next] + head) else Reversing(rest[1..], [next] + head)
      ensures sys.holder == Some(me) && sys.grants == old(sys.grants) && sys.arrivals == old(sys.arrivals)
    {
      ReversingParts(schedule, me, rest, head);
      UnlockEffect(schedule, me);
      ghost var s := sys;
      assert next in rest && waiters == null;
      Did(Proceed(me, false));
      assert sys.word == s.word && sys.waiters == s.waiters == [];
      temp := MoveFirst(next, waitersHead, rest, head, Stack(sys.word));
    }

    /** One turn of the loop, with the others acting before it. */
    method ReverseOne(me: Node, ghost arrivals: seq<Node>, ghost rest: seq<Node>,
                      ghost head: seq<Node>, next: Node, waitersHead: Node?)
      returns (temp: Node?)
      requires Unlocking(me, sys.grants, arrivals) && PcOf(sys, me) == Reversing(rest, head)
      requires Chain(next, rest) && Chain(waitersHead, head)
      modifies this, ops
      ensures Unlocking(me, old(sys.grants), arrivals) && old(schedule) <= schedule
      ensures rest != [] && next == rest[0] && Chain(next, [next] + head) && Chain(temp, rest[1..])
      ensures PcOf(sys, me) == if temp == null then Granting([next] + head) else Reversing(rest[1..], [next] + head)
    {
      OthersWhileReversing(me, arrivals, rest, head, next, waitersHead);
      ReversingParts(schedule, me, rest, head);
      temp := Relink(me, rest, head, next, waitersHead);
    }

    /** The whole loop: it terminates and leaves a null-terminated list in reverse. */
    method ReverseStack(me: Node, ghost arrivals: seq<Node>, ghost stack: seq<Node>,
                        first: Node)
      returns (waitersHead: Node)
      requires Unlocking(me, sys.grants, arrivals) && PcOf(sys, me) == Reversing(stack, []) && Chain(first, stack)
      modifies this, ops
      ensures Unlocking(me, old(sys.grants), arrivals) && old(schedule) <= schedule
      ensures PcOf(sys, me) == Granting(Reverse(stack)) && Chain(waitersHead, Reverse(stack))
    {
      ghost var rest, done: seq<Node> := stack, [];
      var head: Node?, next: Node? := null, first;
      while true
        invariant Unlocking(me, old(sys.grants), arrivals) && old(schedule) <= schedule
        invariant next != null && PcOf(sys, me) == Reversing(rest, done)
        invariant Chain(next, rest) && Chain(head, done)
        invariant Reverse(rest) + done == Reverse(stack)
        decreases |rest|
      {
        var temp := ReverseOne(me, arrivals, rest, done, next, head);
        ReverseTurn(rest, done);
        rest, done := rest[1..], [next] + done;
        if temp == null {
          return next;
        }
        head, next := next, temp;
      }
    }

    /** What the others may do while the line is ready in the holder's hands. */
    method OthersBeforeGranting(me: Node, ghost arrivals: seq<Node>, ghost head: seq<Node>,
                                waitersHead: Node?)
      requires Unlocking(me, sys.grants, arrivals) && PcOf(sys, me) == Granting(head) && Chain(waitersHead, head)
      modifies this, ops
      ensures Unlocking(me, old(sys.grants), arrivals) && old(schedule) <= schedule
      ensures PcOf(sys, me) == Granting(head) && Chain(waitersHead, head)
    {
      GrantingParts(schedule, me, head);
      var _ := Others(me);
    }

    /** `m_waiters = waitersHead->m_next`, just before the head of the list is resumed. */
    method StoreWaiters(me: Node, waitersHead: Node?)
      requires Valid() && me in ops && PcOf(sys, me).Granting? && Chain(waitersHead, PcOf(sys, me).head)
      modifies this`waiters, this`sys, this`schedule
      ensures Valid() && schedule == old(schedule) + [Proceed(me, false)]
      ensures sys.holder == Some(me) && sys.grants == old(sys.grants) && sys.arrivals == old(sys.arrivals)
      ensures waitersHead != null && PcOf(sys, me).Resuming? && PcOf(sys, me).op == waitersHead
      ensures sys.waiters == old(PcOf(sys, me).head)[1..]
    {
      ghost var head := PcOf(sys, me).head;
      UnlockEffect(schedule, me);
      GrantingParts(schedule, me, head);
      assert waitersHead != null;
      ChainLess(waitersHead, head);
      waiters := waitersHead.next;
      assert Chain(waiters, head[1..]);
      Did(Proceed(me, false));
    }

    method KeepTheRest(me: Node, ghost arrivals: seq<Node>, waitersHead: Node?)
      requires Unlocking(me, sys.grants, arrivals) && PcOf(sys, me).Granting?
      requires Chain(waitersHead, PcOf(sys, me).head)
      modifies this, ops
      ensures Unlocking(me, old(sys.grants), arrivals) && old(schedule) <= schedule
      ensures waitersHead != null && PcOf(sys, me).Resuming? && PcOf(sys, me).op == waitersHead
    {
      OthersBeforeGranting(me, arrivals, PcOf(sys, me).head, waitersHead);
      StoreWaiters(me, waitersHead);
    }

    /** `waitersHead->m_awaiter.resume()`: the operation resumed was waiting and now has the lock. */
    method ResumeNow(me: Node, waitersHead: Node)
      requires Valid() && me in ops && PcOf(sys, me) == Resuming(waitersHead)
      modifies this`sys, this`schedule
      ensures Valid() && schedule == old(schedule) + [Proceed(me, false)] && sys.arrivals == old(sys.arrivals)
      ensures old(PcOf(sys, waitersHead)) == Waiting && PcOf(sys, waitersHead) == Owner
      ensures sys.holder == Some(waitersHead) && sys.grants == old(sys.grants) + [waitersHead]
    {
      UnlockEffect(schedule, me);
      Did(Proceed(me, false));
    }

    method Resume(me: Node, ghost arrivals: seq<Node>, waitersHead: Node)
      requires Unlocking(me, sys.grants, arrivals) && PcOf(sys, me) == Resuming(waitersHead)
      modifies this, ops
      ensures Valid() && old(schedule) <= schedule && arrivals <= sys.arrivals
      ensures sys.holder == Some(waitersHead) && PcOf(sys, waitersHead) == Owner
      ensures sys.grants == old(sys.grants) + [waitersHead]
    {
      OthersMeanwhile(me, arrivals);
      ResumeNow(me, waitersHead);
    }

    /** The last two lines of `unlock`. */
    method Grant(me: Node, ghost arrivals: seq<Node>, waitersHead: Node?) returns (granted: Node)
      requires Unlocking(me, sys.grants, arrivals) && PcOf(sys, me).Granting?
      requires Chain(waitersHead, PcOf(sys, me).head)
      modifies this, ops
      ensures Valid() && old(schedule) <= schedule && arrivals <= sys.arrivals
      ensures sys.holder == Some(granted) && PcOf(sys, granted) == Owner
      ensures sys.grants == old(sys.grants) + [granted]
    {
      KeepTheRest(me, arrivals, waitersHead);
      Resume(me, arrivals, waitersHead);
      granted := waitersHead;
    }

    /** The branch of `unlock` that looks behind the word: null if the lock has been set free. */
    method TakeWaiters(me: Node, ghost arrivals: seq<Node>) returns (waitersHead: Node?)
      requires Unlocking(me, sys.grants, arrivals) && PcOf(sys, me) == Releasing
      modifies this, ops
      ensures Valid() && old(schedule) <= schedule && sys.grants == old(sys.grants) && arrivals <= sys.arrivals
      ensures waitersHead == null ==> sys.word.NotLocked? && PcOf(sys, me) == Done
      ensures waitersHead != null ==> Unlocking(me, old(sys.grants), arrivals) && PcOf(sys, me).Granting?
      ensures waitersHead != null ==> Chain(waitersHead, PcOf(sys, me).head)
    {
      var released := ReleaseUnlessAwaited(me, arrivals);
      if released {
        return null;
      }
      var oldState := TakeStack(me, arrivals);
      waitersHead := ReverseStack(me, arrivals, PcOf(sys, me).next, oldState.op);
    }

    /** `unlock`. Null means the lock is free and nobody was waiting; otherwise the result is
        the operation that has been resumed with the lock: of those that have ever parked, the
        first that had not been granted it before. */
    method Unlock(me: Node) returns (granted: Node?)
      requires Valid() && Foreign(me) && sys.holder == Some(me) && PcOf(sys, me) == Owner
      modifies this, ops
      ensures Valid() && old(schedule) <= schedule
      ensures granted == null ==> sys.word.NotLocked? && sys.grants == old(sys.grants) && old(Queue(sys)) == []
      ensures granted != null ==> sys.holder == Some(granted) && PcOf(sys, granted) == Owner
      ensures granted != null ==> sys.grants == old(sys.grants) + [granted]
      ensures granted != null ==> |old(sys.grants)| < |sys.arrivals| && granted == sys.arrivals[|old(sys.grants)|]
      ensures granted != null && old(Queue(sys)) != [] ==> granted == old(Queue(sys)[0])
    {
      ghost var before, arrivals := schedule, sys.arrivals;
      var waitersHead := ReadWaiters(me, arrivals);
      if waitersHead == null {
        waitersHead := TakeWaiters(me, arrivals);
      }
      granted := null;
      if waitersHead != null {
        granted := Grant(me, arrivals, waitersHead);
      }
      UnlockServesTheFirst(before, schedule);
    }
  }
}
