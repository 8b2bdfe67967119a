/** What the generator handshake promises in every state of every interleaving. */
module GeneratorTheorems {
  import opened GeneratorProtocol

  ghost function Reach<T>(schedule: seq<Action<T>>): State<T> {
    Run(Init(), schedule)
  }

  lemma ReachInv<T>(schedule: seq<Action<T>>)
    ensures Inv(Reach(schedule))
  {
    RunKeepsInv(Init<T>(), schedule);
  }

  /** No assert fails, nothing is resumed that is not suspended, nothing is touched or
      destroyed out of turn, and no value is overwritten while it may be read. The asserts
      are those of lines 767 and 768, 805, 847, 855, and 706 and 707, in this order; then
      whoever touches the frame finds it alive, and the value is there when it is read. */
  lemma NoFaultEver<T>(schedule: seq<Action<T>>)
    ensures var s := Reach(schedule);
      && s.fault == NoFault
      && (s.producer.YLoad? ==> s.word !in {ReadyProducerActive, ReadyProducerSuspended})
      && (s.producer.SDestroy? ==> s.producer.seen == Cancelled)
      && (s.producer.SExchangeActive? ==> s.word in {NotReadyConsumerActive, NotReadyConsumerSuspended})
      && (s.consumer.WExchangeReady? ==> s.word in {ReadyProducerActive, ReadyProducerSuspended})
      && (s.consumer.WRegister? ==> s.consumer.seen in {ReadyProducerActive, NotReadyConsumerActive})
      && (s.consumer.WReload? ==> s.word in {ReadyProducerSuspended, NotReadyConsumerActive})
      && (s.consumer in {NotStarted, Holding, Ended} ==> s.word !in {NotReadyConsumerSuspended, Cancelled})
      && (s.producer !in {Parked, Gone} || s.consumer != Closed ==> s.frame.Alive?)
      && (s.producer.Body? ==> !s.final) && (s.consumer.Finished? ==> !s.current.Unassigned?)
      && (s.consumer.CDestroy? ==> s.producer.Parked?)
  {
    ReachInv(schedule);
  }

  // Wake-ups ----------------------------------------------------------------

  /** Neither side can take another protocol step: only the coroutine bodies can. */
  predicate Quiescent<T>(s: State<T>) {
    && s.producer in {Parked, Body, Gone}
    && s.consumer in {NotStarted, Holding, Ended, Suspended, Closed}
  }

  /** No wake-up is lost: the two sides are never both parked, a waiting consumer always
      has a running producer, and when the protocol comes to rest everything yielded has
      been handed over and a released generator has been destroyed. */
  lemma NoLostWakeUp<T>(schedule: seq<Action<T>>)
    ensures var s := Reach(schedule);
      && !(s.producer.Parked? && s.consumer.Suspended?)
      && (s.consumer.Suspended? ==> !s.producer.Parked? && !s.producer.Gone?)
      && (s.producer.Parked? && !s.word.Cancelled? ==> !s.consumer.Suspended? && !s.consumer.Closed?)
      && (Quiescent(s) ==> s.got == s.yielded)
      && (Quiescent(s) && s.consumer.Suspended? ==> s.producer.Body?)
      && (Quiescent(s) && s.consumer.Closed? ==> !s.frame.Alive?)
  {
    ReachInv(schedule);
  }

  /** No wake-up is doubled: whoever is about to resume the other side finds it parked,
      and the step leaves it running. */
  lemma EveryResumeFindsASleeper<T>(schedule: seq<Action<T>>)
    ensures var s := Reach(schedule);
      && (s.producer.YResume? || s.producer.SResume? ==>
            s.registered && s.consumer.Suspended? && ProducerStep(s).consumer.Finished?)
      && (s.consumer.AResume? || s.consumer.WResume? ==>
            s.producer.Parked? && !s.final && ConsumerStep(s).producer.Body?)
  {
    ReachInv(schedule);
  }

  // The stream --------------------------------------------------------------

  /** The consumer is handed exactly the values yielded so far, in order: at most the last
      one is missing, what it dereferences is the last value yielded, and it sees the end
      only after the last yield. */
  lemma StreamIsExact<T>(schedule: seq<Action<T>>)
    ensures var s := Reach(schedule);
      && s.got <= s.yielded
      && |s.yielded| <= |s.got| + 1
      && (s.consumer.Holding? ==> s.got == s.yielded != [] && s.current == At(s.yielded[|s.yielded| - 1]))
      && (s.consumer.Ended? ==> s.final && s.got == s.yielded)
  {
    ReachInv(schedule);
  }

  lemma ProducerYieldsNothing<T>(s: State<T>)
    ensures var t := ProducerStep(s); t.got == s.got && t.yielded == s.yielded && t.final == s.final
  {
  }

  lemma ConsumerYieldsNothing<T>(s: State<T>)
    ensures var t := ConsumerStep(s); s.got <= t.got && t.yielded == s.yielded && t.final == s.final
  {
  }

  lemma GrowsByOneStep<T>(s: State<T>, a: Action<T>)
    requires Inv(s)
    ensures var t := Step(s, a);
      && s.got <= t.got && s.yielded <= t.yielded
      && (s.final ==> t.final && t.yielded == s.yielded)
  {
    match a
    case Producer => ProducerYieldsNothing(s);
    case Consumer => ConsumerYieldsNothing(s);
    case _ => assert s.final ==> !s.producer.Body?;
  }

  /** Nothing handed over is ever taken back, and a finished stream never grows again. */
  lemma {:induction false} StreamOnlyGrows<T>(s: State<T>, schedule: seq<Action<T>>)
    requires Inv(s)
    ensures s.got <= Run(s, schedule).got && s.yielded <= Run(s, schedule).yielded
    ensures s.final ==> Run(s, schedule).final && Run(s, schedule).yielded == s.yielded
    decreases |schedule|
  {
    if schedule == [] {
    } else {
      var t := Step(s, schedule[0]);
      StepKeepsInv(s, schedule[0]);
      GrowsByOneStep(s, schedule[0]);
      StreamOnlyGrows(t, schedule[1..]);
    }
  }

  // The frame ---------------------------------------------------------------

  /** The frame is destroyed by the consumer exactly when its cancelling exchange found
      the producer suspended, otherwise by the producer, and only after a cancellation. */
  lemma DestroyedByTheRightSide<T>(schedule: seq<Action<T>>)
    ensures var s := Reach(schedule);
      && (s.frame == DestroyedBy(ConsumerSide) ==> s.cancelSaw.ReadyProducerSuspended?)
      && (s.frame == DestroyedBy(ProducerSide) ==> s.cancelSaw.ReadyProducerActive?)
      && (s.frame != Alive ==> s.word.Cancelled? && s.producer.Gone? && s.consumer.Closed?)
  {
    ReachInv(schedule);
  }

  /** Once the frame is gone nothing happens any more: neither side takes another step. */
  lemma {:induction false} DestroyedIsTheEnd<T>(s: State<T>, schedule: seq<Action<T>>)
    requires Inv(s) && !s.frame.Alive?
    ensures Run(s, schedule) == s
    decreases |schedule|
  {
    if schedule == [] {
    } else {
      DestroyedIsTheEnd(s, schedule[1..]);
    }
  }

  function ProducerTurns<T>(schedule: seq<Action<T>>): nat {
    if schedule == [] then 0
    else (if schedule[0].Producer? then 1 else 0) + ProducerTurns(schedule[1..])
  }

  function TurnsToDestroy<T>(s: State<T>): nat {
    if !s.frame.Alive? then 0
    else match s.producer
      case SDestroy(_) => 1
      case SExchangeReady => 2
      case _ => 3
  }

  lemma TurnCounts<T>(s: State<T>, a: Action<T>)
    requires Inv(s) && s.consumer.Closed?
    ensures Step(s, a).consumer.Closed?
    ensures TurnsToDestroy(Step(s, a)) <= if a.Producer? && s.frame.Alive? then TurnsToDestroy(s) - 1 else TurnsToDestroy(s)
  {
  }

  /** After a release that left the frame to the producer, three turns of the producer
      destroy it, whatever else is scheduled between them. */
  lemma {:induction false} ReleaseIsPrompt<T>(s: State<T>, schedule: seq<Action<T>>)
    requires Inv(s) && s.consumer.Closed?
    requires ProducerTurns(schedule) >= TurnsToDestroy(s)
    ensures !Run(s, schedule).frame.Alive?
    decreases |schedule|
  {
    if schedule == [] {
    } else {
      var t := Step(s, schedule[0]);
      StepKeepsInv(s, schedule[0]);
      TurnCounts(s, schedule[0]);
      ReleaseIsPrompt(t, schedule[1..]);
    }
  }

  // Data races --------------------------------------------------------------

  /** The two plain fields are never accessed from both sides at once when one access is a
      write: `m_consumerCoroutine` (written before an exchange, read by a resume) and
      `m_currentValue` (written by the producer's body, read by the consumer). */
  lemma NoRace<T>(schedule: seq<Action<T>>)
    ensures var s := Reach(schedule);
      && !(s.consumer.WRegister? && (s.producer.YResume? || s.producer.SResume?))
      && !(s.producer.Body? && ConsumerMayRead(s.consumer))
  {
    ReachInv(schedule);
  }

  // Work --------------------------------------------------------------------

  function ProducerWork(p: ProducerPc): nat {
    match p
    case YLoad => 12
    case YStore => 11
    case YResume => 10
    case YReload => 8
    case SExchangeActive => 7
    case SStore => 6
    case SResume => 5
    case SReload => 3
    case SExchangeReady => 2
    case SDestroy(_) => 1
    case _ => 0
  }

  function ConsumerWork(c: ConsumerPc): nat {
    match c
    case ALoad => 11
    case AStore => 10
    case AResume => 9
    case AReload => 8
    case WRegister(seen) => if seen.ReadyProducerActive? then 7 else 3
    case WExchangeReady => 6
    case WStore => 5
    case WResume => 4
    case WReload => 3
    case WExchangeActive => 2
    case Finished => 1
    case CDestroy => 1
    case _ => 0
  }

  function Pending<T>(s: State<T>): nat {
    ProducerWork(s.producer) + ConsumerWork(s.consumer)
  }

  predicate IsProtocol<T>(a: Action<T>) {
    a.Producer? || a.Consumer?
  }

  /** How many actions of the schedule are effective protocol steps, or effective decisions. */
  ghost function Effective<T>(s: State<T>, schedule: seq<Action<T>>, protocol: bool): nat
    decreases |schedule|
  {
    if schedule == [] then 0
    else
      var t := Step(s, schedule[0]);
      (if t != s && IsProtocol(schedule[0]) == protocol then 1 else 0) + Effective(t, schedule[1..], protocol)
  }

  lemma ProducerWorkShrinks<T>(s: State<T>)
    requires Inv(s) && ProducerStep(s) != s
    ensures Pending(ProducerStep(s)) < Pending(s)
  {
    match s.producer
    case YLoad =>
    case YStore =>
    case YResume =>
    case YReload =>
    case SExchangeActive =>
    case SStore =>
    case SResume =>
    case SReload =>
    case SExchangeReady =>
    case _ =>
  }

  lemma ConsumerWorkShrinks<T>(s: State<T>)
    requires Inv(s) && ConsumerStep(s) != s
    ensures Pending(ConsumerStep(s)) < Pending(s)
  {
    match s.consumer
    case ALoad =>
    case AStore =>
    case AResume =>
    case AReload =>
    case WRegister(_) =>
    case WExchangeReady =>
    case WStore =>
    case WResume =>
    case WReload =>
    case WExchangeActive =>
    case Finished =>
    case _ =>
  }

  lemma WorkShrinks<T>(s: State<T>, a: Action<T>)
    requires Inv(s) && Step(s, a) != s
    ensures IsProtocol(a) ==> Pending(Step(s, a)) < Pending(s)
    ensures !IsProtocol(a) ==> Pending(Step(s, a)) <= Pending(s) + 12
  {
    match a
    case Producer => ProducerWorkShrinks(s);
    case Consumer => ConsumerWorkShrinks(s);
    case _ =>
  }

  /** Neither side can be made to spin: over any interleaving there are at most twelve
      protocol steps for every decision the two coroutine bodies take. */
  lemma {:induction false} HandshakeIsBounded<T>(s: State<T>, schedule: seq<Action<T>>)
    requires Inv(s)
    ensures Effective(s, schedule, true) + Pending(Run(s, schedule))
         <= Pending(s) + 12 * Effective(s, schedule, false)
    decreases |schedule|
  {
    if schedule == [] {
    } else {
      var t := Step(s, schedule[0]);
      StepKeepsInv(s, schedule[0]);
      if t != s {
        WorkShrinks(s, schedule[0]);
      }
      HandshakeIsBounded(t, schedule[1..]);
    }
  }
}
