/** The asynchronous mutex as a state machine over any number of lock operations.
    `m_state` is one word: not locked, or locked with a stack of waiting operations,
    newest first. `m_waiters` is the list the holder keeps for itself, oldest first.
    One action is one atomic access, one turn of the reversal loop, or one `resume()`. */
module MutexProtocol {
  import opened Sequences

  datatype Word<Op> = NotLocked | Locked(stack: seq<Op>)

  /** What a load of `m_state` shows: a constant, or the address on top of the stack. */
  datatype Seen<Op> = SeenNotLocked | SeenNoWaiters | SeenWaiter(op: Op)

  /** Where an operation is. `Trying` is inside `await_suspend` with its last view of the
      word, `Owner` has the lock, and the rest are the points of `unlock`. */
  datatype Pc<Op> =
    | Trying(seen: Seen<Op>)
    | Waiting
    | Owner
    | Releasing
    | Draining
    | Reversing(next: seq<Op>, head: seq<Op>)
    | Granting(head: seq<Op>)
    | Resuming(op: Op)
    | Done

  datatype Fault = NoFault | AssertFailed(line: nat) | NullDereference | ResumedNotWaiting

  datatype State<Op> = State(
    word: Word<Op>,
    waiters: seq<Op>,       // m_waiters
    pcs: map<Op, Pc<Op>>,   // an operation not in the map has not been used
    holder: Option<Op>,
    arrivals: seq<Op>,      // operations in the order their push took effect
    grants: seq<Op>,        // operations in the order unlock resumed them
    fault: Fault)

  /** `Start` loads the word in `await_suspend`; `Proceed` takes an operation's next step.
      A weak compare-exchange may fail for no reason: `spurious` says that it does. */
  datatype Action<Op> = Start(op: Op) | TryLock(op: Op) | Proceed(op: Op, spurious: bool)

  function Init<Op>(): State<Op> {
    State(NotLocked, [], map[], None, [], [], NoFault)
  }

  function Peek<Op>(w: Word<Op>): Seen<Op> {
    match w
    case NotLocked => SeenNotLocked
    case Locked(stack) => if stack == [] then SeenNoWaiters else SeenWaiter(stack[0])
  }

  function PcOf<Op(==)>(s: State<Op>, op: Op): Pc<Op> {
    if op in s.pcs then s.pcs[op] else Done
  }

  function At<Op(==)>(s: State<Op>, op: Op, pc: Pc<Op>): State<Op> {
    s.(pcs := s.pcs[op := pc])
  }

  function Attempt<Op(==)>(s: State<Op>, op: Op, seen: Seen<Op>, spurious: bool): State<Op> {
    if spurious || Peek(s.word) != seen then At(s, op, Trying(Peek(s.word)))
    else if s.word.NotLocked? then At(s.(word := Locked([]), holder := Some(op)), op, Owner)
    else At(s.(word := Locked([op] + s.word.stack), arrivals := s.arrivals + [op]), op, Waiting)
  }

  function UnlockStep<Op(==)>(s: State<Op>, op: Op, pc: Pc<Op>): State<Op> {
    match pc
    case Owner =>
      if s.word.NotLocked? then s.(fault := AssertFailed(1193))
      else At(s, op, if s.waiters == [] then Releasing else Granting(s.waiters))
    case Releasing =>
      if s.word == Locked([]) then At(s.(word := NotLocked, holder := None), op, Done)
      else At(s, op, Draining)
    case Draining =>
      if s.word.NotLocked? || s.word.stack == [] then s.(fault := AssertFailed(1203))
      else At(s.(word := Locked([])), op, Reversing(s.word.stack, []))
    case Reversing(next, head) =>
      if next == [] then s.(fault := NullDereference)
      else
        var reversed := [next[0]] + head;
        At(s, op, if next[1..] == [] then Granting(reversed) else Reversing(next[1..], reversed))
    case Granting(head) =>
      if head == [] then s.(fault := AssertFailed(1212))
      else At(s.(waiters := head[1..]), op, Resuming(head[0]))
    case Resuming(next) =>
      if PcOf(s, next) != Waiting then s.(fault := ResumedNotWaiting)
      else At(At(s.(holder := Some(next), grants := s.grants + [next]), op, Done), next, Owner)
    case _ => s
  }

  function Step<Op(==)>(s: State<Op>, a: Action<Op>): State<Op> {
    var pc := PcOf(s, a.op);
    if s.fault != NoFault then s
    else match a
      case Start(op) => if pc == Done then At(s, op, Trying(Peek(s.word))) else s
      case TryLock(op) =>
        if pc == Done && s.word.NotLocked?
        then At(s.(word := Locked([]), holder := Some(op)), op, Owner) else s
      case Proceed(op, spurious) =>
        if pc.Trying? then Attempt(s, op, pc.seen, spurious) else UnlockStep(s, op, pc)
  }

  function Run<Op(==)>(s: State<Op>, schedule: seq<Action<Op>>): State<Op>
    decreases |schedule|
  {
    if schedule == [] then s else Run(Step(s, schedule[0]), schedule[1..])
  }

  // The queue ---------------------------------------------------------------

  predicate HasLock<Op>(pc: Pc<Op>) {
    pc.Owner? || pc.Releasing? || pc.Draining? || pc.Reversing? || pc.Granting? || pc.Resuming?
  }

  /** The part of the queue the holder has at hand, oldest first. */
  function InHand<Op(==)>(s: State<Op>): seq<Op> {
    if s.holder.None? then s.waiters
    else match PcOf(s, s.holder.value)
      case Reversing(next, head) => Reverse(next) + head
      case Granting(head) => head
      case Resuming(op) => [op] + s.waiters
      case _ => s.waiters
  }

  /** Every parked operation, in the order of arrival. */
  function Queue<Op(==)>(s: State<Op>): seq<Op> {
    InHand(s) + if s.word.NotLocked? then [] else Reverse(s.word.stack)
  }

  /** The queue lists every waiting operation once and nothing else. */
  ghost predicate Parks<Op>(pcs: map<Op, Pc<Op>>, queue: seq<Op>) {
    && (forall op :: op in queue ==> op in pcs && pcs[op] == Waiting)
    && (forall op :: op in pcs && pcs[op] == Waiting ==> op in queue)
    && Distinct(queue)
  }

  lemma ParksOthers<Op>(pcs: map<Op, Pc<Op>>, queue: seq<Op>, op: Op, pc: Pc<Op>)
    requires Parks(pcs, queue) && op !in queue && pc != Waiting
    ensures Parks(pcs[op := pc], queue)
  {
  }

  lemma ParksOneMore<Op>(pcs: map<Op, Pc<Op>>, queue: seq<Op>, op: Op)
    requires Parks(pcs, queue) && op !in queue
    ensures Parks(pcs[op := Waiting], queue + [op])
  {
  }

  lemma ParksOneLess<Op>(pcs: map<Op, Pc<Op>>, queue: seq<Op>, op: Op, pc: Pc<Op>)
    requires Parks(pcs, [op] + queue) && pc != Waiting
    ensures Parks(pcs[op := pc], queue)
  {
    var all := [op] + queue;
    assert forall i :: 0 <= i < |queue| ==> all[i + 1] == queue[i];
    assert all[0] == op;
    forall o | o in queue
      ensures o in all && o != op
    {
      var i :| 0 <= i < |queue| && queue[i] == o;
      assert all[i + 1] == o;
    }
    forall i, j | 0 <= i < j < |queue|
      ensures queue[i] != queue[j]
    {
      assert all[i + 1] != all[j + 1];
    }
  }

  ghost predicate HolderInv<Op>(s: State<Op>) {
    match s.holder
    case None => s.word.NotLocked? && s.waiters == []
    case Some(op) =>
      && s.word.Locked?
      && HasLock(PcOf(s, op))
      && match PcOf(s, op)
         case Releasing => s.waiters == []
         case Draining => s.waiters == [] && s.word.stack != []
         case Reversing(next, _) => s.waiters == [] && next != []
         case Granting(head) => head != [] && (s.waiters == [] || s.waiters == head)
         case _ => true
  }

  /** Who has the lock, and how far its `unlock` is. */
  ghost predicate LockInv<Op>(s: State<Op>) {
    && s.fault == NoFault
    && HolderInv(s)
    && (forall op :: op in s.pcs && HasLock(s.pcs[op]) ==> s.holder == Some(op))
  }

  ghost predicate Inv<Op>(s: State<Op>) {
    && LockInv(s)
    && Parks(s.pcs, Queue(s))
    && s.arrivals == s.grants + Queue(s)
  }

  // The invariant is kept ---------------------------------------------------

  /** Only the holder executes `unlock`. */
  lemma OnlyTheHolderUnlocks<Op>(s: State<Op>, op: Op)
    requires Inv(s)
    ensures HasLock(PcOf(s, op)) <==> s.holder == Some(op)
  {
  }

  predicate Pushes<Op(==)>(s: State<Op>, op: Op, spurious: bool) {
    !spurious && s.word.Locked? && PcOf(s, op) == Trying(Peek(s.word))
  }

  lemma AttemptMovesTheQueue<Op>(s: State<Op>, op: Op, spurious: bool)
    requires LockInv(s) && PcOf(s, op).Trying?
    ensures Queue(Attempt(s, op, PcOf(s, op).seen, spurious)) ==
            if Pushes(s, op, spurious) then Queue(s) + [op] else Queue(s)
  {
    var t := Attempt(s, op, PcOf(s, op).seen, spurious);
    if Pushes(s, op, spurious) {
      assert t.word.stack[1..] == s.word.stack;
      assert InHand(t) == InHand(s);
    } else if s.word.NotLocked? {
      assert Queue(s) == [];
    }
  }

  lemma AttemptKeepsLockInv<Op>(s: State<Op>, op: Op, spurious: bool)
    requires LockInv(s) && PcOf(s, op).Trying?
    ensures LockInv(Attempt(s, op, PcOf(s, op).seen, spurious))
  {
  }

  lemma AttemptKeepsTheLine<Op>(s: State<Op>, op: Op, spurious: bool)
    requires Parks(s.pcs, Queue(s)) && PcOf(s, op).Trying?
    ensures var t := Attempt(s, op, PcOf(s, op).seen, spurious);
      if Pushes(s, op, spurious)
      then Parks(t.pcs, Queue(s) + [op]) && t.arrivals == s.arrivals + [op]
      else Parks(t.pcs, Queue(s)) && t.arrivals == s.arrivals
  {
    var t := Attempt(s, op, PcOf(s, op).seen, spurious);
    assert op in s.pcs && op !in Queue(s);
    if Pushes(s, op, spurious) {
      ParksOneMore(s.pcs, Queue(s), op);
    } else {
      ParksOthers(s.pcs, Queue(s), op, PcOf(t, op));
    }
  }

  lemma AttemptKeepsInv<Op>(s: State<Op>, op: Op, spurious: bool)
    requires Inv(s) && PcOf(s, op).Trying?
    ensures Inv(Attempt(s, op, PcOf(s, op).seen, spurious))
  {
    AttemptMovesTheQueue(s, op, spurious);
    AttemptKeepsLockInv(s, op, spurious);
    AttemptKeepsTheLine(s, op, spurious);
  }

  lemma StartKeepsInv<Op>(s: State<Op>, op: Op)
    requires Inv(s) && PcOf(s, op) == Done
    ensures Inv(At(s, op, Trying(Peek(s.word))))
    ensures s.word.NotLocked? ==> Inv(At(s.(word := Locked([]), holder := Some(op)), op, Owner))
  {
    var t := At(s, op, Trying(Peek(s.word)));
    assert op !in Queue(s);
    assert Queue(t) == Queue(s);
    if s.word.NotLocked? {
      var u := At(s.(word := Locked([]), holder := Some(op)), op, Owner);
      assert Queue(s) == [] == Queue(u);
    }
  }

  /** The operation about to be resumed is first in line and waiting. */
  lemma ResumesAWaiter<Op>(s: State<Op>, op: Op)
    requires Inv(s) && s.holder == Some(op) && PcOf(s, op).Resuming?
    ensures PcOf(s, PcOf(s, op).op) == Waiting
  {
    assert Queue(s)[0] == PcOf(s, op).op;
  }

  /** A step of `unlock` leaves the queue alone, until the one that hands over the lock. */
  lemma UnlockKeepsTheQueue<Op>(s: State<Op>, op: Op)
    requires LockInv(s) && s.holder == Some(op) && !PcOf(s, op).Resuming?
    ensures Queue(UnlockStep(s, op, PcOf(s, op))) == Queue(s)
  {
    var t := UnlockStep(s, op, PcOf(s, op));
    match PcOf(s, op)
    case Owner =>
    case Releasing =>
    case Draining =>
      assert InHand(t) == Reverse(s.word.stack) + [];
    case Reversing(next, head) =>
      ReverseTurn(next, head);
    case Granting(head) =>
      assert head == [head[0]] + head[1..];
  }

  lemma GrantShortensTheQueue<Op>(s: State<Op>, op: Op)
    requires LockInv(s) && s.holder == Some(op) && PcOf(s, op).Resuming? && PcOf(s, PcOf(s, op).op) == Waiting
    ensures Queue(s) == [PcOf(s, op).op] + Queue(UnlockStep(s, op, PcOf(s, op)))
  {
    assert InHand(UnlockStep(s, op, PcOf(s, op))) == s.waiters;
  }

  lemma UnlockMovesTheQueue<Op>(s: State<Op>, op: Op)
    requires Inv(s) && s.holder == Some(op)
    ensures var t := UnlockStep(s, op, PcOf(s, op));
      && t.fault == NoFault
      && (PcOf(s, op).Resuming? ==> Queue(s) == [PcOf(s, op).op] + Queue(t))
      && (!PcOf(s, op).Resuming? ==> Queue(t) == Queue(s))
  {
    if PcOf(s, op).Resuming? {
      ResumesAWaiter(s, op);
      GrantShortensTheQueue(s, op);
    } else {
      UnlockKeepsTheQueue(s, op);
    }
  }

  lemma UnlockKeepsLockInv<Op>(s: State<Op>, op: Op)
    requires LockInv(s) && s.holder == Some(op)
    requires PcOf(s, op).Resuming? ==> PcOf(s, PcOf(s, op).op) == Waiting
    ensures LockInv(UnlockStep(s, op, PcOf(s, op)))
  {
    match PcOf(s, op)
    case Owner =>
    case Releasing =>
    case Draining =>
    case Reversing(_, _) =>
    case Granting(_) =>
    case Resuming(_) =>
  }

  lemma GrantKeepsTheLine<Op>(s: State<Op>, op: Op, queue: seq<Op>)
    requires PcOf(s, op).Resuming? && PcOf(s, PcOf(s, op).op) == Waiting
    requires Parks(s.pcs, [PcOf(s, op).op] + queue) && s.arrivals == s.grants + ([PcOf(s, op).op] + queue)
    ensures var t := UnlockStep(s, op, PcOf(s, op)); Parks(t.pcs, queue) && t.arrivals == t.grants + queue
  {
    var next := PcOf(s, op).op;
    assert op !in [next] + queue;
    ParksOthers(s.pcs, [next] + queue, op, Done);
    ParksOneLess(s.pcs[op := Done], queue, next, Owner);
  }

  lemma UnlockKeepsTheLine<Op>(s: State<Op>, op: Op, queue: seq<Op>)
    requires LockInv(s) && s.holder == Some(op) && !PcOf(s, op).Resuming?
    requires Parks(s.pcs, queue) && s.arrivals == s.grants + queue
    ensures var t := UnlockStep(s, op, PcOf(s, op)); Parks(t.pcs, queue) && t.arrivals == t.grants + queue
  {
    var t := UnlockStep(s, op, PcOf(s, op));
    assert op !in queue;
    ParksOthers(s.pcs, queue, op, PcOf(t, op));
  }

  lemma UnlockKeepsInv<Op>(s: State<Op>, op: Op)
    requires Inv(s) && s.holder == Some(op)
    ensures Inv(UnlockStep(s, op, PcOf(s, op)))
  {
    var queue := Queue(UnlockStep(s, op, PcOf(s, op)));
    UnlockMovesTheQueue(s, op);
    if PcOf(s, op).Resuming? {
      ResumesAWaiter(s, op);
      GrantKeepsTheLine(s, op, queue);
    } else {
      UnlockKeepsTheLine(s, op, queue);
    }
    UnlockKeepsLockInv(s, op);
  }

  lemma StepKeepsInv<Op>(s: State<Op>, a: Action<Op>)
    requires Inv(s)
    ensures Inv(Step(s, a))
  {
    OnlyTheHolderUnlocks(s, a.op);
    match a
    case Start(op) => if PcOf(s, op) == Done { StartKeepsInv(s, op); }
    case TryLock(op) => if PcOf(s, op) == Done { StartKeepsInv(s, op); }
    case Proceed(op, spurious) =>
      if PcOf(s, op).Trying? {
        AttemptKeepsInv(s, op, spurious);
      } else if s.holder == Some(op) {
        UnlockKeepsInv(s, op);
      }
  }

  lemma {:induction false} RunKeepsInv<Op>(s: State<Op>, schedule: seq<Action<Op>>)
    requires Inv(s)
    ensures Inv(Run(s, schedule))
    decreases |schedule|
  {
    if schedule == [] {
    } else {
      StepKeepsInv(s, schedule[0]);
      RunKeepsInv(Step(s, schedule[0]), schedule[1..]);
    }
  }

  lemma {:induction false} RunAppend<Op>(s: State<Op>, first: seq<Action<Op>>, second: seq<Action<Op>>)
    ensures Run(s, first + second) == Run(Run(s, first), second)
    decreases |first|
  {
    if first == [] {
      assert first + second == second;
    } else {
      assert (first + second)[1..] == first[1..] + second;
      RunAppend(Step(s, first[0]), first[1..], second);
    }
  }

  lemma InitInv<Op>()
    ensures Inv(Init<Op>())
  {
  }
}
