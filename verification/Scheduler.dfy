/** The scheduler's stack of posted schedules on the heap. Any number of threads post, any
    thread may take the whole stack, and they may do so before every access made here. */
module Scheduler {
  import opened Sequences
  import opened Chains

  datatype Event = Take | Push(node: Node)

  /** What the other threads do before an access, whether a weak exchange then fails for
      no reason, and what becomes of the link of a node that has been resumed. */
  datatype Turn = Turn(others: seq<Event>, spurious: bool, garbage: Node?)

  /** The scheduler's view of the queue: the stack, newest first, every node ever posted in
      the order of the successful exchanges, and every node ever taken off. */
  datatype Queue = Queue(stack: seq<Node>, posts: seq<Node>, taken: seq<Node>)

  function Pushed(q: Queue, node: Node): Queue {
    Queue([node] + q.stack, q.posts + [node], q.taken)
  }

  function Taken(q: Queue): Queue {
    Queue([], q.posts, q.taken + Reverse(q.stack))
  }

  ghost predicate Within(others: seq<Event>, nodes: set<Node>) {
    forall i :: 0 <= i < |others| && others[i].Push? ==> others[i].node in nodes
  }

  ghost predicate AllWithin(turns: seq<Turn>, nodes: set<Node>) {
    forall i :: 0 <= i < |turns| ==> Within(turns[i].others, nodes)
  }

  ghost predicate NobodyTakes(turns: seq<Turn>) {
    forall i :: 0 <= i < |turns| ==> Take !in turns[i].others
  }

  /** A schedule that is posted, or that somebody is about to resume, is not posted again. */
  function After1(q: Queue, mine: seq<Node>, e: Event): Queue {
    match e
    case Take => Taken(q)
    case Push(node) => if node in q.stack || node in mine then q else Pushed(q, node)
  }

  function AfterAll(q: Queue, mine: seq<Node>, others: seq<Event>): Queue
    decreases |others|
  {
    if others == [] then q else AfterAll(After1(q, mine, others[0]), mine, others[1..])
  }

  function Changes(q: Queue, mine: seq<Node>, others: seq<Event>): nat
    decreases |others|
  {
    if others == [] then 0
    else
      var r := After1(q, mine, others[0]);
      (if r.stack != q.stack then 1 else 0) + Changes(r, mine, others[1..])
  }

  /** What others do in one turn to hinder an exchange: changes of the head, and a failure for no reason. */
  function Disturbance(q: Queue, mine: seq<Node>, turn: Turn): nat {
    Changes(q, mine, turn.others) + if turn.spurious then 1 else 0
  }

  function Later(turns: seq<Turn>): seq<Turn> {
    if turns == [] then [] else turns[1..]
  }

  /** What the first of the turns to come makes of the queue. */
  function Next(q: Queue, mine: seq<Node>, turns: seq<Turn>): Queue {
    if turns == [] then q else AfterAll(q, mine, turns[0].others)
  }

  function AfterTurns(q: Queue, mine: seq<Node>, turns: seq<Turn>): Queue
    decreases |turns|
  {
    if turns == [] then q else AfterTurns(AfterAll(q, mine, turns[0].others), mine, turns[1..])
  }

  function Disturbances(q: Queue, mine: seq<Node>, turns: seq<Turn>): nat
    decreases |turns|
  {
    if turns == [] then 0
    else Disturbance(q, mine, turns[0]) + Disturbances(AfterAll(q, mine, turns[0].others), mine, turns[1..])
  }

  lemma {:induction false} OneMoreTurn(q: Queue, mine: seq<Node>, turns: seq<Turn>, turn: Turn)
    ensures var r := AfterTurns(q, mine, turns);
      && AfterTurns(q, mine, turns + [turn]) == AfterAll(r, mine, turn.others)
      && Disturbances(q, mine, turns + [turn]) == Disturbances(q, mine, turns) + Disturbance(r, mine, turn)
    decreases |turns|
  {
    if turns == [] {
      assert turns + [turn] == [turn] && [turn][1..] == [];
      assert Disturbances(AfterAll(q, mine, turn.others), mine, []) == 0;
    } else {
      assert (turns + [turn])[1..] == turns[1..] + [turn];
      OneMoreTurn(AfterAll(q, mine, turns[0].others), mine, turns[1..], turn);
    }
  }

  ghost predicate AllIn(s: seq<Node>, nodes: set<Node>) {
    forall node :: node in s ==> node in nodes
  }

  ghost predicate Apart(s: seq<Node>, mine: seq<Node>) {
    forall node :: node in s ==> node !in mine
  }

  /** Nothing is lost or duplicated: what was posted is what was taken and then the stack backwards. */
  ghost predicate Conserved(q: Queue) {
    Distinct(q.stack) && q.posts == q.taken + Reverse(q.stack)
  }

  lemma {:induction false} OthersConserve(q: Queue, mine: seq<Node>, others: seq<Event>)
    requires Conserved(q) && Apart(q.stack, mine)
    ensures var r := AfterAll(q, mine, others);
      && Conserved(r) && q.posts <= r.posts && q.taken <= r.taken
      && Apart(r.stack, mine)
      && (Changes(q, mine, others) == 0 ==> r.stack == q.stack)
      && (Take !in others ==> r.taken == q.taken)
    decreases |others|
  {
    if others == [] {
    } else {
      var r := After1(q, mine, others[0]);
      match others[0] {
        case Take =>
          assert Reverse<Node>([]) == [];
        case Push(node) =>
          assert ([node] + q.stack)[1..] == q.stack;
      }
      assert Conserved(r);
      OthersConserve(r, mine, others[1..]);
    }
  }

  /** One more of the turns left is used. */
  lemma OneMoreTurnUsed(q: Queue, mine: seq<Node>, used: seq<Turn>, left: seq<Turn>)
    ensures left != [] ==>
              var r := AfterTurns(q, mine, used);
              && used + left == used + [left[0]] + left[1..] && left[..1] == [] + [left[0]]
              && AfterTurns(q, mine, used + [left[0]]) == AfterAll(r, mine, left[0].others)
              && Disturbances(q, mine, used + [left[0]]) == Disturbances(q, mine, used) + Disturbance(r, mine, left[0])
  {
    if left != [] {
      OneMoreTurn(q, mine, used, left[0]);
    }
  }

  lemma Undisturbed(q: Queue, mine: seq<Node>, turns: seq<Turn>)
    requires Conserved(q) && Apart(q.stack, mine)
    ensures turns != [] && Changes(q, mine, turns[0].others) == 0 ==> AfterAll(q, mine, turns[0].others).stack == q.stack
  {
    if turns != [] {
      OthersConserve(q, mine, turns[0].others);
    }
  }

  lemma OneLonger<T>(init: seq<T>, s: seq<T>, k: nat)
    requires k < |s|
    ensures init + s[..k] + [s[k]] == init + s[..k + 1]
  {
  }

  lemma ReverseDistinct<T>(s: seq<T>)
    requires Distinct(s)
    ensures Distinct(Reverse(s))
  {
    ReverseMembers(s);
    forall i, j | 0 <= i < j < |s|
      ensures Reverse(s)[i] != Reverse(s)[j]
    {
      ReverseAt(s, i);
      ReverseAt(s, j);
    }
  }

  lemma TakenApart<T>(rest: seq<T>, done: seq<T>, taken: seq<T>)
    requires Reverse(rest) + done == taken && Distinct(taken)
    ensures Distinct(rest)
    ensures forall x :: x in rest ==> x in taken && x !in done
    ensures forall x :: x in done ==> x in taken
  {
    ReverseMembers(rest);
    DistinctParts(Reverse(rest), done);
    DistinctReversed(rest);
  }

  lemma {:induction false} OthersPushNodes(q: Queue, mine: seq<Node>, others: seq<Event>, nodes: set<Node>)
    requires AllIn(q.stack, nodes)
    requires Within(others, nodes)
    ensures AllIn(AfterAll(q, mine, others).stack, nodes)
    decreases |others|
  {
    if others == [] {
    } else {
      assert others[0] in others;
      OthersPushNodes(After1(q, mine, others[0]), mine, others[1..], nodes);
    }
  }

  lemma PushConserves(q: Queue, node: Node)
    requires Conserved(q) && node !in q.stack
    ensures Conserved(Pushed(q, node))
  {
    assert ([node] + q.stack)[1..] == q.stack;
  }

  lemma OneOver<T>(a: seq<T>, x: T, b: seq<T>)
    ensures a + ([x] + b) == a + [x] + b
  {
  }

  lemma SliceKept<T>(a: seq<T>, b: seq<T>, at: nat, n: nat)
    requires a <= b && at + n <= |a|
    ensures b[at..at + n] == a[at..at + n]
  {
  }

  class Scheduler {
    const nodes: set<Node>
    var head: Node?
    var queue: Queue
    /** The schedules the calling thread has taken and resumed, in order. */
    var resumed: seq<Node>
    var turns: seq<Turn>

    ghost predicate Valid()
      reads this, nodes
    {
      && Conserved(queue)
      && AllIn(queue.stack, nodes)
      && AllWithin(turns, nodes)
      && Chain(head, queue.stack)
    }

    /** No other thread takes from this scheduler: there is one runner. */
    ghost predicate Alone()
      reads this
    {
      NobodyTakes(turns)
    }

    /** What this thread has taken is what it has resumed and then the batch in its hands, and
        nobody else has taken anything: with one runner this holds at all times. */
    ghost predicate InHand(batch: seq<Node>)
      reads this
    {
      Alone() && queue.taken == resumed + batch
    }

    constructor (nodes: set<Node>, turns: seq<Turn>)
      requires AllWithin(turns, nodes)
      ensures Valid() && queue == Queue([], [], []) && resumed == []
      ensures NobodyTakes(turns) ==> InHand([])
      ensures this.nodes == nodes && this.turns == turns
    {
      this.nodes, this.turns := nodes, turns;
      head, queue, resumed := null, Queue([], [], []), [];
    }

    /** Lets the other threads act; the nodes in `mine` are in the caller's hands. */
    method Others(mine: seq<Node>) returns (spurious: bool, garbage: Node?)
      requires Valid() && Apart(queue.stack, mine)
      modifies this`head, this`queue, this`turns, nodes
      ensures Valid() && old(queue.posts) <= queue.posts && old(queue.taken) <= queue.taken
      ensures Apart(queue.stack, mine)
      ensures forall node :: node in mine && node in nodes ==> node.next == old(node.next)
      ensures turns == Later(old(turns)) && queue == Next(old(queue), mine, old(turns))
      ensures spurious <==> old(turns) != [] && old(turns)[0].spurious
      ensures queue.stack == old(queue.stack) ==> head == old(head)
      ensures old(Alone()) ==> Alone() && queue.taken == old(queue.taken)
    {
      spurious, garbage := false, null;
      if turns != [] {
        var turn := turns[0];
        OthersConserve(queue, mine, turn.others);
        OthersPushNodes(queue, mine, turn.others, nodes);
        spurious, garbage := turn.spurious, turn.garbage;
        queue, turns := AfterAll(queue, mine, turn.others), turns[1..];
        Link(queue.stack, nodes);
        head := First(queue.stack);
      }
    }

    /** `compare_exchange_weak(head, schedule)`, after `next` has been set to the head expected,
        which the others may have changed meanwhile. */
    method PushUnlessChanged(me: Node, expected: Node?, spurious: bool) returns (pushed: bool)
      requires Valid() && me in nodes && me !in queue.stack && me.next == expected
      modifies this`head, this`queue
      ensures Valid() && (pushed <==> !spurious && old(head) == expected)
      ensures queue == if pushed then Pushed(old(queue), me) else old(queue)
    {
      pushed := !spurious && head == expected;
      if pushed {
        ChainMore(me, queue.stack);
        PushConserves(queue, me);
        head, queue := me, Pushed(queue, me);
      }
    }

    /** One attempt of `post`; it fails only if the others hinder it in the turn they have before it. */
    method PushWeak(me: Node, expected: Node?) returns (pushed: bool)
      requires Valid() && me in nodes && Apart(queue.stack, [me]) && me.next == expected == head
      modifies this`head, this`queue, this`turns, nodes
      ensures Valid() && turns == Later(old(turns))
      ensures queue == if pushed then Pushed(Next(old(queue), [me], old(turns)), me) else Next(old(queue), [me], old(turns))
      ensures !pushed ==> Apart(queue.stack, [me]) && old(turns) != [] && Disturbance(old(queue), [me], old(turns)[0]) > 0
      ensures old(Alone()) ==> Alone() && queue.taken == old(queue.taken)
    {
      assert me in [me];
      Undisturbed(queue, [me], turns);
      var spurious, _ := Others([me]);
      pushed := PushUnlessChanged(me, expected, spurious);
    }

    /** The turns used so far are the first of the script, and they made the queue what it is. */
    ghost predicate Followed(start: Queue, script: seq<Turn>, me: Node, used: seq<Turn>)
      reads this
    {
      used + turns == script && queue == AfterTurns(start, [me], used)
    }

    /** The first load of the head. */
    method LoadHead(me: Node) returns (expected: Node?, ghost used: seq<Turn>)
      requires Valid() && me in nodes && me !in queue.stack
      modifies this`head, this`queue, this`turns, nodes
      ensures Valid() && expected == head && Apart(queue.stack, [me])
      ensures Followed(old(queue), old(turns), me, used)
      ensures old(Alone()) ==> Alone() && queue.taken == old(queue.taken)
    {
      used := if turns == [] then [] else turns[..1];
      OneMoreTurnUsed(queue, [me], [], turns);
      var _, _ := Others([me]);
      expected := head;
    }

    /** One turn of the loop in `post`. */
    method Attempt(me: Node, expected: Node?, ghost start: Queue, ghost script: seq<Turn>, ghost used0: seq<Turn>)
      returns (pushed: bool, ghost used: seq<Turn>)
      requires Valid() && me in nodes && Apart(queue.stack, [me]) && expected == head
      requires Followed(start, script, me, used0)
      modifies this`head, this`queue, this`turns, nodes
      ensures Valid() && used + turns == script && |turns| <= |old(turns)|
      ensures Disturbances(start, [me], used0) <= Disturbances(start, [me], used)
      ensures pushed ==> queue == Pushed(AfterTurns(start, [me], used), me)
      ensures !pushed ==> Apart(queue.stack, [me]) && Followed(start, script, me, used) && |turns| < |old(turns)|
      ensures !pushed ==> Disturbances(start, [me], used0) < Disturbances(start, [me], used)
      ensures old(Alone()) ==> Alone() && queue.taken == old(queue.taken)
    {
      assert me in [me];
      me.next := expected;
      OneMoreTurnUsed(start, [me], used0, turns);
      used := if turns == [] then used0 else used0 + [turns[0]];
      pushed := PushWeak(me, expected);
    }

    /** `post`. The new head is this schedule, on top of what the others made of the stack in
        the turns they had; and every retry is paid for by a change that one of them made to
        the head in one of these turns, or by a spurious failure. */
    method Post(me: Node) returns (retries: nat)
      requires Valid() && me in nodes && me !in queue.stack
      modifies this`head, this`queue, this`turns, nodes
      ensures Valid() && |turns| <= |old(turns)|
      ensures var used := old(turns)[..|old(turns)| - |turns|];
        && queue == Pushed(AfterTurns(old(queue), [me], used), me)
        && retries <= Disturbances(old(queue), [me], used)
      ensures old(Alone()) ==> Alone() && queue.taken == old(queue.taken)
    {
      ghost var start, script := queue, turns;
      var expected;
      ghost var used;
      expected, used := LoadHead(me);
      retries := 0;
      while true
        invariant Valid() && expected == head && Apart(queue.stack, [me]) && Followed(start, script, me, used)
        invariant retries <= Disturbances(start, [me], used)
        invariant old(Alone()) ==> Alone() && queue.taken == old(queue.taken)
        decreases |turns|
      {
        var pushed;
        pushed, used := Attempt(me, expected, start, script, used);
        if pushed {
          assert used == script[..|script| - |turns|];
          return;
        }
        expected := head;
        retries := retries + 1;
      }
    }

    /** A batch that some thread has taken and holds: a part of the order of taking. */
    ghost predicate Holds(taken: seq<Node>, at: nat)
      reads this
    {
      && Distinct(taken)
      && Apart(taken, queue.stack)
      && at + |taken| <= |queue.taken| && queue.taken[at..at + |taken|] == taken
    }

    /** `head_.exchange(nullptr)`. */
    method TakeAll() returns (first: Node?, stack: seq<Node>, ghost at: nat)
      requires Valid()
      modifies this`head, this`queue, this`turns, nodes
      ensures Valid() && Chain(first, stack) && Distinct(stack) && Holds(Reverse(stack), at)
      ensures AllIn(Reverse(stack), nodes)
      ensures old(queue.posts) <= queue.posts && old(queue.taken) <= queue.taken
      ensures |old(queue.taken)| <= at && |old(queue.posts)| <= at + |stack|
      ensures old(Alone()) ==> Alone() && queue.taken == old(queue.taken) + Reverse(stack)
      ensures stack == Next(old(queue), [], old(turns)).stack && queue == Taken(Next(old(queue), [], old(turns)))
    {
      var _, _ := Others([]);
      first, stack, at := head, queue.stack, |queue.taken|;
      ReverseMembers(stack);
      ReverseDistinct(stack);
      assert Reverse<Node>([]) == [];
      head, queue := null, Taken(queue);
    }

    /** Keeps a batch safe while the other threads act. */
    method OthersBeside(taken: seq<Node>, ghost at: nat) returns (garbage: Node?)
      requires Valid() && Holds(taken, at) && AllIn(taken, nodes)
      modifies this`head, this`queue, this`turns, nodes
      ensures Valid() && Holds(taken, at)
      ensures forall node :: node in taken ==> node.next == old(node.next)
      ensures old(queue.posts) <= queue.posts && old(queue.taken) <= queue.taken
      ensures old(Alone()) ==> Alone() && queue.taken == old(queue.taken)
      ensures queue == Next(old(queue), taken, old(turns))
    {
      var _, g := Others(taken);
      garbage := g;
    }

    /** Between two turns of the loop: what has been reversed, and what is still to be. */
    ghost predicate Reversing(next: Node?, prev: Node?, taken: seq<Node>, rest: seq<Node>, done: seq<Node>, at: nat)
      reads this, nodes, rest, done
    {
      && Reverse(rest) + done == taken && Holds(taken, at) && AllIn(taken, nodes)
      && Chain(next, rest) && Chain(prev, done)
    }

    method OthersWhileReversing(next: Node, prev: Node?, taken: seq<Node>, ghost rest: seq<Node>, ghost done: seq<Node>, ghost at: nat)
      requires Valid() && Reversing(next, prev, taken, rest, done, at)
      modifies this`head, this`queue, this`turns, nodes
      ensures Valid() && Reversing(next, prev, taken, rest, done, at)
      ensures old(queue.posts) <= queue.posts && old(queue.taken) <= queue.taken
      ensures old(Alone()) ==> Alone() && queue.taken == old(queue.taken)
    {
      TakenApart(rest, done, taken);
      var _ := OthersBeside(taken, at);
    }

    /** The loop body: one node moves; the others, and the stack behind the head, do not. */
    method Relink(next: Node, prev: Node?, ghost rest: seq<Node>, ghost done: seq<Node>) returns (temp: Node?)
      requires Chain(next, rest) && Chain(prev, done) && Chain(head, queue.stack)
      requires Distinct(rest) && next !in done && next !in queue.stack && rest != []
      modifies next
      ensures Chain(temp, rest[1..]) && Chain(next, [next] + done) && Chain(head, queue.stack)
    {
      temp := MoveOne(next, prev, rest, done);
    }

    /** One turn of the loop in `acquire`, with the other threads acting before it. */
    method ReverseOne(next: Node, prev: Node?, taken: seq<Node>, ghost rest: seq<Node>, ghost done: seq<Node>, ghost at: nat)
      returns (temp: Node?)
      requires Valid() && Reversing(next, prev, taken, rest, done, at)
      modifies this`head, this`queue, this`turns, nodes
      ensures rest != [] && next == rest[0]
      ensures Valid() && Reversing(temp, next, taken, rest[1..], [next] + done, at)
      ensures old(queue.posts) <= queue.posts && old(queue.taken) <= queue.taken
      ensures old(Alone()) ==> Alone() && queue.taken == old(queue.taken)
    {
      OthersWhileReversing(next, prev, taken, rest, done, at);
      TakenApart(rest, done, taken);
      ReverseTurn(rest, done);
      assert next in rest;
      temp := Relink(next, prev, rest, done);
    }

    /** The loop of `acquire`: it terminates, keeps the same nodes and null-terminates the result. */
    method ReverseBatch(first: Node?, stack: seq<Node>, ghost at: nat) returns (prev: Node?)
      requires Valid() && Chain(first, stack) && Holds(Reverse(stack), at)
      requires AllIn(Reverse(stack), nodes)
      modifies this`head, this`queue, this`turns, nodes
      ensures Valid() && Chain(prev, Reverse(stack)) && Holds(Reverse(stack), at)
      ensures old(queue.posts) <= queue.posts && old(queue.taken) <= queue.taken
      ensures old(Alone()) ==> Alone() && queue.taken == old(queue.taken)
    {
      var taken := Reverse(stack);
      var next: Node? := first;
      prev := null;
      ghost var rest, done: seq<Node> := stack, [];
      while next != null
        invariant Valid() && Reversing(next, prev, taken, rest, done, at)
        invariant old(queue.posts) <= queue.posts && old(queue.taken) <= queue.taken
        invariant old(Alone()) ==> Alone() && queue.taken == old(queue.taken)
        decreases |rest|
      {
        var node: Node := next;
        next := ReverseOne(node, prev, taken, rest, done, at);
        rest, done, prev := rest[1..], [node] + done, node;
      }
      assert Reverse(rest) + done == done;
    }

    /** `acquire`: takes the whole stack and reverses it in place. `taken` is the batch, oldest
        first; it is the part of the order of taking that starts at `at`, and it reaches up to
        the last schedule posted before the exchange. */
    method Acquire() returns (batch: Node?, taken: seq<Node>, ghost at: nat)
      requires Valid()
      modifies this`head, this`queue, this`turns, nodes
      ensures Valid() && Chain(batch, taken) && Holds(taken, at)
      ensures AllIn(taken, nodes)
      ensures old(queue.posts) <= queue.posts && old(queue.taken) <= queue.taken
      ensures |old(queue.taken)| <= at && |old(queue.posts)| <= at + |taken|
      ensures old(Alone()) ==> Alone() && queue.taken == old(queue.taken) + taken
      ensures old(InHand([])) ==> InHand(taken)
    {
      assert resumed + [] == resumed;
      var first, stack;
      first, stack, at := TakeAll();
      taken := Reverse(stack);
      ReverseMembers(stack);
      if first == null || first.next == null {
        assert |stack| <= 1 && taken == stack;
        return first, taken, at;
      }
      batch := ReverseBatch(first, stack, at);
    }

    lemma HoldsLess(node: Node, mine: seq<Node>, at: nat)
      requires Holds([node] + mine, at)
      ensures Holds(mine, at + 1) && node !in mine
    {
      var all := [node] + mine;
      DistinctParts([node], mine);
      assert node in [node];
      assert forall i :: 0 <= i < |mine| ==> all[i + 1] == mine[i];
      assert all[1..] == mine;
      assert queue.taken[at..at + |all|][1..] == queue.taken[at + 1..at + |all|];
    }

    /** `schedule::resume`: the coroutine runs on, may post again, and may end. From here on
        the node's link can hold anything, so nobody may rely on it. */
    method Resume(node: Node, mine: seq<Node>, ghost at: nat)
      requires Valid() && node in nodes && Holds([node] + mine, at)
      requires AllIn(mine, nodes)
      modifies this, nodes
      ensures Valid() && Holds(mine, at + 1)
      ensures forall n :: n in mine ==> n.next == old(n.next)
      ensures resumed == old(resumed) + [node]
      ensures old(queue.posts) <= queue.posts && old(queue.taken) <= queue.taken
      ensures old(Alone()) ==> Alone() && queue.taken == old(queue.taken)
      ensures old(InHand([node] + mine)) ==> InHand(mine)
      ensures queue == Next(old(queue), mine, old(turns))
    {
      OneOver(resumed, node, mine);
      HoldsLess(node, mine, at);
      resumed := resumed + [node];
      var garbage := OthersBeside(mine, at + 1);
      if node !in queue.stack {
        node.next := garbage;
      }
    }

    /** What is left of a batch, in the hands of the calling thread. */
    ghost predicate Resuming(head: Node?, batch: seq<Node>, at: nat)
      reads this, nodes, batch
    {
      Valid() && Chain(head, batch) && Holds(batch, at) && AllIn(batch, nodes)
    }

    /** One turn of the loop in `process`: the link is read before the node is resumed. */
    method ResumeFirst(head: Node, taken: seq<Node>, k: nat, ghost at: nat) returns (next: Node?)
      requires k <= |taken| && Resuming(head, taken[k..], at)
      modifies this, nodes
      ensures k < |taken| && head == taken[k] && resumed == old(resumed) + [head]
      ensures Resuming(next, taken[k + 1..], at + 1)
      ensures old(queue.posts) <= queue.posts && old(queue.taken) <= queue.taken
      ensures old(Alone()) ==> Alone() && queue.taken == old(queue.taken)
      ensures old(InHand(taken[k..])) ==> InHand(taken[k + 1..])
      ensures queue == Next(old(queue), taken[k + 1..], old(turns))
    {
      next := head.next;
      ChainLess(head, taken[k..]);
      assert taken[k..][1..] == taken[k + 1..];
      assert taken[k..] == [head] + taken[k + 1..];
      Resume(head, taken[k + 1..], at);
    }

    /** The loop of `process`. */
    method ResumeAll(first: Node?, taken: seq<Node>, ghost at: nat)
      requires Valid() && Chain(first, taken) && Holds(taken, at)
      requires AllIn(taken, nodes)
      modifies this, nodes
      ensures Valid() && resumed == old(resumed) + taken
      ensures old(queue.posts) <= queue.posts && old(queue.taken) <= queue.taken
      ensures old(Alone()) ==> Alone() && queue.taken == old(queue.taken)
      ensures old(InHand(taken)) ==> InHand([])
    {
      var head := first;
      var k := 0;
      ghost var from, batch := at, taken;
      ghost var was, posts, alone, inHand := resumed, queue.posts, Alone(), InHand(taken);
      ghost var before := queue.taken;
      assert taken[0..] == taken;
      while head != null
        invariant k <= |taken| && batch == taken[k..] && Resuming(head, batch, from)
        invariant resumed == was + taken[..k]
        invariant posts <= queue.posts && before <= queue.taken
        invariant alone ==> Alone() && queue.taken == before
        invariant inHand ==> InHand(batch)
        decreases |taken| - k
      {
        var node: Node := head;
        head := ResumeFirst(node, taken, k, from);
        OneLonger(was, taken, k);
        k, from, batch := k + 1, from + 1, taken[k + 1..];
      }
      assert taken[..k] == taken;
    }

    /** `process`: takes what has been posted and resumes it, once each, in the order of
        posting. The batch is a part of the order of taking that begins after everything taken
        before and reaches past everything posted before. With one runner everything taken has
        been resumed, in this order. */
    method Process() returns (ghost taken: seq<Node>, ghost at: nat)
      requires Valid()
      modifies this, nodes
      ensures Valid() && resumed == old(resumed) + taken
      ensures old(queue.posts) <= queue.posts && old(queue.taken) <= queue.taken
      ensures |old(queue.taken)| <= at && |old(queue.posts)| <= at + |taken| <= |queue.taken|
      ensures queue.taken[at..at + |taken|] == taken
      ensures old(Alone()) ==> Alone() && queue.taken == old(queue.taken) + taken
      ensures old(InHand([])) ==> InHand([])
    {
      var head, batch;
      head, batch, at := Acquire();
      taken := batch;
      ghost var order := queue.taken;
      ResumeAll(head, batch, at);
      SliceKept(order, queue.taken, at, |taken|);
    }
  }
}
