/** The stack of posts in the models of `service::run` and `context::run` holds numbers; the
    scheduler's is a list of nodes. A post's number is its position in the order of posting,
    and step by step the two do the same. */
module Refinement {
  import opened Sequences
  import opened Chains
  import Scheduler
  import Service = ServiceProtocol
  import Context = ContextProtocol

  /** These are the numbers of these nodes. */
  ghost predicate Named(numbers: seq<nat>, posts: seq<Node>, nodes: seq<Node>) {
    && |numbers| == |nodes|
    && forall i :: 0 <= i < |nodes| ==> numbers[i] < |posts| && posts[numbers[i]] == nodes[i]
  }

  lemma NamedLater(numbers: seq<nat>, posts: seq<Node>, nodes: seq<Node>, node: Node)
    requires Named(numbers, posts, nodes)
    ensures Named(numbers, posts + [node], nodes)
  {
  }

  lemma NamedReverse(numbers: seq<nat>, posts: seq<Node>, nodes: seq<Node>)
    requires Named(numbers, posts, nodes)
    ensures Named(Reverse(numbers), posts, Reverse(nodes))
  {
    var reversed: seq<nat> := Reverse(numbers);
    ReverseMembers(numbers);
    ReverseMembers(nodes);
    forall i | 0 <= i < |nodes|
      ensures reversed[i] < |posts| && posts[reversed[i]] == Reverse(nodes)[i]
    {
      ReverseAt(numbers, i);
      ReverseAt(nodes, i);
    }
  }

  /** The first of some nodes goes to the end of others, and so does its number. */
  lemma NamedMoved(batch: seq<nat>, log: seq<nat>, posts: seq<Node>, nodes: seq<Node>, resumed: seq<Node>)
    requires Named(batch, posts, nodes) && Named(log, posts, resumed) && batch != []
    ensures nodes != [] && Named(batch[1..], posts, nodes[1..])
    ensures Named(log + [batch[0]], posts, resumed + [nodes[0]])
  {
  }

  lemma MovedOver<T>(a: seq<T>, b: seq<T>)
    requires b != []
    ensures a + [b[0]] + b[1..] == a + b
  {
  }

  // One runner: the service ---------------------------------------------------

  /** The scheduler's queue, the batch in the runner's hands and the nodes it has resumed. */
  datatype Lists = Lists(queue: Scheduler.Queue, batch: seq<Node>, resumed: seq<Node>)

  const EMPTY := Lists(Scheduler.Queue([], [], []), [], [])

  ghost predicate Shows(l: Service.Line, x: Lists) {
    && l.posts == |x.queue.posts|
    && Named(l.stack, x.queue.posts, x.queue.stack)
    && Named(l.batch, x.queue.posts, x.batch)
    && Named(l.log, x.queue.posts, x.resumed)
    && x.queue.taken == x.resumed + x.batch
    && x.queue.posts == x.queue.taken + Reverse(x.queue.stack)
  }

  function Push(x: Lists, node: Node): Lists {
    x.(queue := Scheduler.Pushed(x.queue, node))
  }

  function Take(x: Lists): Lists {
    x.(queue := Scheduler.Taken(x.queue), batch := Reverse(x.queue.stack))
  }

  function ResumeFirst(x: Lists): Lists
    requires x.batch != []
  {
    x.(batch := x.batch[1..], resumed := x.resumed + [x.batch[0]])
  }

  /** `post` is `Push`. */
  lemma PostRefines(l: Service.Line, x: Lists, node: Node)
    requires Shows(l, x)
    ensures Shows(Service.Pushed(l), Push(x, node))
  {
    var posts := x.queue.posts;
    NamedLater(l.stack, posts, x.queue.stack, node);
    NamedLater(l.batch, posts, x.batch, node);
    NamedLater(l.log, posts, x.resumed, node);
    assert ([node] + x.queue.stack)[1..] == x.queue.stack;
    assert x.queue.taken + (Reverse(x.queue.stack) + [node]) == posts + [node];
  }

  /** `acquire` is the step at `Acquiring`. */
  lemma TakeRefines(l: Service.Line, x: Lists)
    requires Shows(l, x) && l.batch == []
    ensures Shows(Service.Taken(l), Take(x))
  {
    NamedReverse(l.stack, x.queue.posts, x.queue.stack);
    assert x.resumed + x.batch == x.resumed && Reverse<Node>([]) == [];
    assert x.queue.posts + [] == x.queue.posts;
  }

  /** One turn of the loop in `process` is the step at `Draining`. */
  lemma ResumeRefines(l: Service.Line, x: Lists)
    requires Shows(l, x) && l.batch != []
    ensures x.batch != [] && Shows(Service.ResumedFirst(l), ResumeFirst(x))
  {
    NamedMoved(l.batch, l.log, x.queue.posts, x.batch, x.resumed);
    MovedOver(x.resumed, x.batch);
  }

  /** What a step of the service does to the lists; the posts come from `node`. */
  function Follow(s: Service.State, a: Service.Action, x: Lists, node: nat -> Node): Lists {
    if a.Push? then Push(x, node(s.line.posts))
    else if a.Runner? && s.pc.Acquiring? then Take(x)
    else if a.Runner? && s.pc.Draining? && x.batch != [] then ResumeFirst(x)
    else x
  }

  function FollowAll(s: Service.State, schedule: seq<Service.Action>, x: Lists, node: nat -> Node): Lists
    decreases |schedule|
  {
    if schedule == [] then x
    else FollowAll(Service.Step(s, schedule[0]), schedule[1..], Follow(s, schedule[0], x, node), node)
  }

  /** The same on the numbers. */
  function LineAfter(s: Service.State, a: Service.Action): Service.Line {
    if a.Push? then Service.Pushed(s.line)
    else if a.Runner? && s.pc.Acquiring? then Service.Taken(s.line)
    else if a.Runner? && s.pc.Draining? && s.line.batch != [] then Service.ResumedFirst(s.line)
    else s.line
  }

  lemma LineFollows(s: Service.State, a: Service.Action, x: Lists, node: nat -> Node)
    requires Shows(s.line, x) && (s.line.batch != [] ==> s.pc.Draining?)
    ensures Shows(LineAfter(s, a), Follow(s, a, x, node))
  {
    if a.Push? {
      PostRefines(s.line, x, node(s.line.posts));
    } else if a.Runner? && s.pc.Acquiring? {
      TakeRefines(s.line, x);
    } else if a.Runner? && s.pc.Draining? && s.line.batch != [] {
      ResumeRefines(s.line, x);
    }
  }

  lemma OnlyTheseMoveTheLine(s: Service.State, a: Service.Action)
    ensures Service.Step(s, a).line == LineAfter(s, a)
  {
  }

  lemma FollowKeeps(s: Service.State, a: Service.Action, x: Lists, node: nat -> Node)
    requires Shows(s.line, x) && (s.line.batch != [] ==> s.pc.Draining?)
    ensures Shows(Service.Step(s, a).line, Follow(s, a, x, node))
  {
    LineFollows(s, a, x, node);
    OnlyTheseMoveTheLine(s, a);
  }

  lemma {:induction false} RunFollows(s: Service.State, schedule: seq<Service.Action>, x: Lists, node: nat -> Node)
    requires Service.Inv(s) && Shows(s.line, x)
    ensures Shows(Service.Run(s, schedule).line, FollowAll(s, schedule, x, node))
    decreases |schedule|
  {
    if schedule == [] {
    } else {
      FollowKeeps(s, schedule[0], x, node);
      Service.StepKeepsInv(s, schedule[0]);
      RunFollows(Service.Step(s, schedule[0]), schedule[1..], Follow(s, schedule[0], x, node), node);
    }
  }

  /** Over every run of the service, whatever nodes are posted: the numbers on its stack, in
      its batch and in its log are those of the nodes on the scheduler's stack, in the runner's
      hands and resumed. */
  lemma ServiceRefines(schedule: seq<Service.Action>, node: nat -> Node)
    ensures Shows(Service.Reach(schedule).line, FollowAll(Service.Init(), schedule, EMPTY, node))
  {
    assert Reverse<nat>([]) == [] && Reverse<Node>([]) == [];
    RunFollows(Service.Init(), schedule, EMPTY, node);
  }

  function PushTimes(l: Service.Line, n: nat): Service.Line {
    if n == 0 then l else Service.Pushed(PushTimes(l, n - 1))
  }

  lemma {:induction false} OneMorePush(l: Service.Line, n: nat)
    ensures PushTimes(Service.Pushed(l), n) == PushTimes(l, n + 1)
  {
    if n == 0 {
    } else {
      OneMorePush(l, n - 1);
    }
  }

  /** After so many posts the lists are these. */
  ghost predicate ShowsLater(l: Service.Line, x: Lists, q: Scheduler.Queue) {
    |q.posts| >= |x.queue.posts| && Shows(PushTimes(l, |q.posts| - |x.queue.posts|), x.(queue := q))
  }

  lemma OnePostEarlier(l: Service.Line, x: Lists, node: Node, q: Scheduler.Queue)
    requires ShowsLater(Service.Pushed(l), Push(x, node), q)
    ensures ShowsLater(l, x, q)
  {
    OneMorePush(l, |q.posts| - |x.queue.posts| - 1);
    assert Push(x, node).(queue := q) == x.(queue := q);
  }

  /** What other threads do in a turn, when none of them takes, are so many posts. */
  lemma {:induction false} OthersRefine(l: Service.Line, x: Lists, mine: seq<Node>, others: seq<Scheduler.Event>)
    requires Shows(l, x) && Scheduler.Take !in others
    ensures ShowsLater(l, x, Scheduler.AfterAll(x.queue, mine, others))
    decreases |others|
  {
    if others == [] {
      assert x.(queue := x.queue) == x;
    } else {
      assert others[0] in others && others[0].Push?;
      assert forall e :: e in others[1..] ==> e in others;
      var node := others[0].node;
      if node in x.queue.stack || node in mine {
        OthersRefine(l, x, mine, others[1..]);
      } else {
        PostRefines(l, x, node);
        OthersRefine(Service.Pushed(l), Push(x, node), mine, others[1..]);
        OnePostEarlier(l, x, node, Scheduler.AfterAll(x.queue, mine, others));
      }
    }
  }

  // Any number of runners: the context ----------------------------------------

  /** The queue, the batch in each runner's hands, and the nodes resumed in order. */
  datatype Shares = Shares(queue: Scheduler.Queue, hands: map<nat, seq<Node>>, resumed: seq<Node>)

  const NOTHING := Shares(Scheduler.Queue([], [], []), map[], [])

  function HandOf(x: Shares, r: nat): seq<Node> {
    if r in x.hands then x.hands[r] else []
  }

  ghost predicate Shared(s: Context.State, x: Shares) {
    && s.posts == |x.queue.posts| && s.ledger.taken == |x.queue.taken|
    && Named(s.stack, x.queue.posts, x.queue.stack)
    && (forall r :: Named(Context.Hand(s.ledger, r), x.queue.posts, HandOf(x, r)))
    && Named(s.ledger.log, x.queue.posts, x.resumed)
  }

  function ResumeOne(x: Shares, r: nat): Shares
    requires HandOf(x, r) != []
  {
    x.(resumed := x.resumed + [HandOf(x, r)[0]], hands := x.hands[r := HandOf(x, r)[1..]])
  }

  /** What a step of the context does to the lists. */
  function Share(s: Context.State, a: Context.Action, x: Shares, node: nat -> Node): Shares {
    if a.Push? then x.(queue := Scheduler.Pushed(x.queue, node(s.posts)))
    else if !a.Runner? || a.thread !in s.runners then x
    else if s.runners[a.thread].Acquiring? || s.runners[a.thread].PredicateAcquire? then
      x.(queue := Scheduler.Taken(x.queue), hands := x.hands[a.thread := Reverse(x.queue.stack)])
    else if s.runners[a.thread].Draining? && HandOf(x, a.thread) != [] then ResumeOne(x, a.thread)
    else x
  }

  function ShareAll(s: Context.State, schedule: seq<Context.Action>, x: Shares, node: nat -> Node): Shares
    decreases |schedule|
  {
    if schedule == [] then x
    else ShareAll(Context.Step(s, schedule[0]), schedule[1..], Share(s, schedule[0], x, node), node)
  }

  lemma SharedPost(s: Context.State, x: Shares, node: Node)
    requires Shared(s, x)
    ensures Shared(Context.Step(s, Context.Push), x.(queue := Scheduler.Pushed(x.queue, node)))
  {
    var posts, t := x.queue.posts, Context.Step(s, Context.Push);
    NamedLater(s.stack, posts, x.queue.stack, node);
    NamedLater(s.ledger.log, posts, x.resumed, node);
    forall r
      ensures Named(Context.Hand(t.ledger, r), posts + [node], HandOf(x, r))
    {
      NamedLater(Context.Hand(s.ledger, r), posts, HandOf(x, r), node);
    }
  }

  lemma SharedTake(s: Context.State, x: Shares, r: nat, empty: Context.Pc)
    requires Shared(s, x)
    ensures Shared(Context.Acquire(s, r, empty),
                   x.(queue := Scheduler.Taken(x.queue), hands := x.hands[r := Reverse(x.queue.stack)]))
  {
    var t := Context.Acquire(s, r, empty);
    var y := x.(queue := Scheduler.Taken(x.queue), hands := x.hands[r := Reverse(x.queue.stack)]);
    NamedReverse(s.stack, x.queue.posts, x.queue.stack);
    ReverseMembers(x.queue.stack);
    forall q
      ensures Named(Context.Hand(t.ledger, q), x.queue.posts, HandOf(y, q))
    {
      assert q != r ==> Named(Context.Hand(s.ledger, q), x.queue.posts, HandOf(x, q));
    }
  }

  lemma SharedResume(s: Context.State, x: Shares, r: nat)
    requires Shared(s, x) && r in s.runners && s.runners[r].Draining? && Context.Hand(s.ledger, r) != []
    ensures HandOf(x, r) != [] && Shared(Context.RunnerStep(s, r), ResumeOne(x, r))
  {
    var t, y := Context.RunnerStep(s, r), ResumeOne(x, r);
    forall q
      ensures Named(Context.Hand(t.ledger, q), x.queue.posts, HandOf(y, q))
    {
      assert Named(Context.Hand(s.ledger, q), x.queue.posts, HandOf(x, q));
    }
  }

  lemma ShareKeeps(s: Context.State, a: Context.Action, x: Shares, node: nat -> Node)
    requires Shared(s, x)
    ensures Shared(Context.Step(s, a), Share(s, a, x, node))
  {
    if a.Push? {
      SharedPost(s, x, node(s.posts));
    } else if a.Runner? && a.thread in s.runners {
      var r := a.thread;
      assert Named(Context.Hand(s.ledger, r), x.queue.posts, HandOf(x, r));
      match s.runners[r]
      case Acquiring => SharedTake(s, x, r, Context.StopCheck(s.posts));
      case PredicateAcquire => SharedTake(s, x, r, Context.PredicateStop(s.posts));
      case Draining => if HandOf(x, r) != [] { SharedResume(s, x, r); }
      case _ =>
    }
  }

  lemma {:induction false} RunShares(s: Context.State, schedule: seq<Context.Action>, x: Shares, node: nat -> Node)
    requires Shared(s, x)
    ensures Shared(Context.Run(s, schedule), ShareAll(s, schedule, x, node))
    decreases |schedule|
  {
    if schedule == [] {
    } else {
      ShareKeeps(s, schedule[0], x, node);
      RunShares(Context.Step(s, schedule[0]), schedule[1..], Share(s, schedule[0], x, node), node);
    }
  }

  /** Over every run of the context with any number of runners, whatever nodes are posted: the
      numbers on its stack, in each runner's hands and in the log are those of the nodes on the
      scheduler's stack, in that runner's batch and resumed. */
  lemma ContextRefines(schedule: seq<Context.Action>, node: nat -> Node)
    ensures Shared(Context.Reach(schedule), ShareAll(Context.Init(), schedule, NOTHING, node))
  {
    RunShares(Context.Init(), schedule, NOTHING, node);
  }
}
