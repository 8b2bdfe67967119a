/** The generator's operations as the program states them: straight-line code over the
    fields of the promise, with the other side free to act before every access. Each
    access is shown to be one step of the protocol, so the object is at all times in a
    state some schedule reaches, and the asserts in the program hold where they stand. */
module Generator {
  import opened GeneratorProtocol
  import opened GeneratorTheorems

  predicate ActsFor<T>(a: Action<T>, side: Side) {
    if side.ProducerSide? then a.Producer? || a.Yield? || a.Finish?
    else a.Consumer? || a.Advance? || a.Release?
  }

  /** A side that is not parked moves only by its own actions. */
  lemma ConsumerStepLeavesTheProducer<T>(s: State<T>)
    requires !s.producer.Parked?
    ensures var t := ConsumerStep(s); t.producer == s.producer && t.final == s.final && t.yielded == s.yielded
  {
  }

  lemma ProducerStepLeavesTheConsumer<T>(s: State<T>)
    requires !s.consumer.Suspended?
    ensures var t := ProducerStep(s); t.consumer == s.consumer && t.got == s.got && t.cancelSaw == s.cancelSaw
  {
  }

  lemma {:induction false} OthersLeaveTheProducer<T>(s: State<T>, actions: seq<Action<T>>)
    requires forall a :: a in actions ==> ActsFor(a, ConsumerSide)
    requires !s.producer.Parked?
    ensures var t := Run(s, actions); t.producer == s.producer && t.final == s.final && t.yielded == s.yielded
    decreases |actions|
  {
    if actions == [] {
    } else {
      assert actions[0] in actions;
      ConsumerStepLeavesTheProducer(s);
      OthersLeaveTheProducer(Step(s, actions[0]), actions[1..]);
    }
  }

  lemma {:induction false} OthersLeaveTheConsumer<T>(s: State<T>, actions: seq<Action<T>>)
    requires forall a :: a in actions ==> ActsFor(a, ProducerSide)
    requires !s.consumer.Suspended?
    ensures var t := Run(s, actions); t.consumer == s.consumer && t.got == s.got && t.cancelSaw == s.cancelSaw
    decreases |actions|
  {
    if actions == [] {
    } else {
      assert actions[0] in actions;
      ProducerStepLeavesTheConsumer(s);
      OthersLeaveTheConsumer(Step(s, actions[0]), actions[1..]);
    }
  }

  lemma OthersStay<T>(s: State<T>, actions: seq<Action<T>>, side: Side)
    requires forall a :: a in actions ==> !ActsFor(a, side)
    ensures var t := Run(s, actions);
      && (side.ProducerSide? && !s.producer.Parked? ==>
            t.producer == s.producer && t.final == s.final && t.yielded == s.yielded)
      && (side.ConsumerSide? && !s.consumer.Suspended? ==>
            t.consumer == s.consumer && t.got == s.got && t.cancelSaw == s.cancelSaw)
  {
    if side.ProducerSide? && !s.producer.Parked? {
      OthersLeaveTheProducer(s, actions);
    } else if side.ConsumerSide? && !s.consumer.Suspended? {
      OthersLeaveTheConsumer(s, actions);
    }
  }

  lemma OthersActed<T>(schedule: seq<Action<T>>, actions: seq<Action<T>>, side: Side)
    requires forall a :: a in actions ==> !ActsFor(a, side)
    ensures var s, t := Reach(schedule), Run(Reach(schedule), actions);
      && t == Reach(schedule + actions) && Inv(t)
      && (side.ProducerSide? && !s.producer.Parked? ==>
            t.producer == s.producer && t.final == s.final && t.yielded == s.yielded)
      && (side.ConsumerSide? && !s.consumer.Suspended? ==>
            t.consumer == s.consumer && t.got == s.got && t.cancelSaw == s.cancelSaw)
  {
    RunAppend(Init<T>(), schedule, actions);
    ReachInv(schedule + actions);
    OthersStay(Reach(schedule), actions, side);
  }

  ghost predicate NeverActsFor<T>(interference: seq<seq<Action<T>>>, side: Side) {
    forall i, a :: 0 <= i < |interference| && a in interference[i] ==> !ActsFor(a, side)
  }

  class Promise<T> {
    var state: Word
    var registered: bool
    var currentValue: Current<T>
    var frame: Frame
    var producer: ProducerPc
    var final: bool
    var consumer: ConsumerPc
    var yielded: seq<T>
    var got: seq<T>
    var cancelSaw: Word
    /** How often this side has called `producer.resume()`. */
    var resumes: nat
    /** What the other side does before each of the accesses to come. */
    var interference: seq<seq<Action<T>>>
    /** Everything that has been done to this generator. */
    ghost var schedule: seq<Action<T>>

    function View(): State<T>
      reads this
    {
      State(state, registered, currentValue, frame, producer, final, consumer, yielded, got, cancelSaw, NoFault)
    }

    ghost predicate Valid()
      reads this
    {
      View() == Reach(schedule)
    }

    constructor (interference: seq<seq<Action<T>>>)
      ensures Valid() && schedule == [] && this.interference == interference
    {
      state, registered, currentValue, frame := ReadyProducerSuspended, false, Unassigned, Alive;
      producer, final, consumer, yielded, got := Parked, false, NotStarted, [], [];
      cancelSaw, resumes := Cancelled, 0;
      this.interference := interference;
      schedule := [];
    }

    /** The object follows the protocol and only the other side interferes. */
    ghost predicate Ready(side: Side)
      reads this
    {
      Valid() && NeverActsFor(interference, side)
    }

    /** Records the access just made: it must be exactly the named step of the protocol. */
    ghost method Did(earlier: State<T>, a: Action<T>)
      requires earlier == Reach(schedule) && View() == Step(earlier, a)
      modifies this`schedule
      ensures Valid() && schedule == old(schedule) + [a]
    {
      RunAppend(Init<T>(), schedule, [a]);
      schedule := schedule + [a];
    }

    method Become(s: State<T>)
      requires s.fault == NoFault
      modifies this
      ensures View() == s && schedule == old(schedule) && interference == old(interference) && resumes == old(resumes)
    {
      state, registered, currentValue, frame := s.word, s.registered, s.current, s.frame;
      producer, final, consumer, yielded, got := s.producer, s.final, s.consumer, s.yielded, s.got;
      cancelSaw := s.cancelSaw;
    }

    /** Lets the other side act. */
    method Others(ghost side: Side)
      requires Ready(side)
      modifies this
      ensures Ready(side) && old(schedule) <= schedule && resumes == old(resumes)
      ensures side.ProducerSide? && !old(producer).Parked? ==>
                producer == old(producer) && final == old(final) && yielded == old(yielded)
      ensures side.ConsumerSide? && !old(consumer).Suspended? ==>
                consumer == old(consumer) && got == old(got) && cancelSaw == old(cancelSaw)
    {
      if interference != [] {
        var s := Run(View(), interference[0]);
        OthersActed(schedule, interference[0], side);
        schedule, interference := schedule + interference[0], interference[1..];
        Become(s);
      }
    }

    // The producer's accesses -------------------------------------------------

    /** Where the producer is once the yield operation holds `initial`. */
    ghost predicate Holds(initial: Word)
      reads this
    {
      match initial
      case NotReadyConsumerSuspended => producer.Body? && !final
      case NotReadyConsumerActive => producer.SExchangeActive?
      case ReadyProducerActive => producer.SExchangeReady?
      case _ => producer == SDestroy(initial)
    }

    /** The first load of `internal_yield_value`, with its two asserts. */
    method LoadBeforeYield() returns (currentState: Word)
      requires Ready(ProducerSide) && producer.YLoad?
      modifies this
      ensures Ready(ProducerSide) && old(schedule) <= schedule && yielded == old(yielded) && final == old(final)
      ensures if currentState == NotReadyConsumerSuspended then producer.YStore? else Holds(currentState)
    {
      Others(ProducerSide);
      ghost var earlier := View();
      ReachInv(schedule);
      currentState := state;
      assert currentState != ReadyProducerActive;
      assert currentState != ReadyProducerSuspended;
      producer := if currentState == NotReadyConsumerSuspended then YStore
                  else if currentState == NotReadyConsumerActive then SExchangeActive else SDestroy(currentState);
      Did(earlier, Producer);
    }

    /** `m_state.store(value_ready_producer_active)`. */
    method StoreReady()
      requires Ready(ProducerSide) && (producer.YStore? || producer.SStore?)
      modifies this
      ensures Ready(ProducerSide) && old(schedule) <= schedule && yielded == old(yielded) && final == old(final)
      ensures producer == if old(producer).YStore? then YResume else SResume
    {
      Others(ProducerSide);
      ghost var earlier := View();
      ReachInv(schedule);
      state, producer := ReadyProducerActive, if producer.YStore? then YResume else SResume;
      Did(earlier, Producer);
    }

    /** `m_consumerCoroutine.resume()`: the consumer is registered and suspended. */
    method ResumeConsumer()
      requires Ready(ProducerSide) && (producer.YResume? || producer.SResume?)
      modifies this
      ensures Ready(ProducerSide) && old(schedule) <= schedule && yielded == old(yielded) && final == old(final)
      ensures producer == if old(producer).YResume? then YReload else SReload
    {
      Others(ProducerSide);
      ghost var earlier := View();
      ReachInv(schedule);
      assert registered && consumer.Suspended?;
      consumer, producer := Finished, if producer.YResume? then YReload else SReload;
      Did(earlier, Producer);
    }

    /** The load after the consumer has been resumed. */
    method LoadAfterResume() returns (currentState: Word)
      requires Ready(ProducerSide) && (producer.YReload? || producer.SReload?)
      modifies this
      ensures Ready(ProducerSide) && old(schedule) <= schedule && yielded == old(yielded) && final == old(final)
      ensures Holds(currentState) && currentState != NotReadyConsumerActive
    {
      Others(ProducerSide);
      ghost var earlier := View();
      ReachInv(schedule);
      currentState := state;
      producer := if currentState == NotReadyConsumerSuspended then Body
                  else if currentState == ReadyProducerActive then SExchangeReady else SDestroy(currentState);
      Did(earlier, Producer);
    }

    /** `compare_exchange_strong(currentState, value_ready_producer_suspended)`. */
    method ExchangeSuspended(expected: Word) returns (suspended: bool, currentState: Word)
      requires Ready(ProducerSide) && Holds(expected)
      requires expected == NotReadyConsumerActive || expected == ReadyProducerActive
      modifies this`state, this`producer, this`schedule
      ensures Ready(ProducerSide) && old(schedule) <= schedule
      ensures suspended ==> producer.Parked? && frame.Alive?
      ensures !suspended && currentState == NotReadyConsumerSuspended ==>
                if expected == NotReadyConsumerActive then producer.SStore? else producer.Body? && !final
      ensures !suspended && currentState != NotReadyConsumerSuspended ==>
                currentState == Cancelled && producer == SDestroy(Cancelled) && expected == ReadyProducerActive
      ensures currentState == old(state) && (suspended <==> old(state) == expected)
    {
      ghost var earlier := View();
      ReachInv(schedule);
      currentState, suspended := state, state == expected;
      if suspended {
        state, producer := ReadyProducerSuspended, Parked;
      } else {
        producer := if currentState != NotReadyConsumerSuspended then SDestroy(currentState)
                    else if expected == NotReadyConsumerActive then SStore else Body;
      }
      Did(earlier, Producer);
    }

    method SuspendUnlessChanged(expected: Word) returns (suspended: bool, currentState: Word)
      requires Ready(ProducerSide) && Holds(expected)
      requires expected == NotReadyConsumerActive || expected == ReadyProducerActive
      modifies this
      ensures Ready(ProducerSide) && old(schedule) <= schedule && yielded == old(yielded) && final == old(final)
      ensures suspended ==> producer.Parked? && frame.Alive?
      ensures !suspended && currentState == NotReadyConsumerSuspended ==>
                if expected == NotReadyConsumerActive then producer.SStore? else producer.Body? && !final
      ensures !suspended && currentState != NotReadyConsumerSuspended ==>
                currentState == Cancelled && producer == SDestroy(Cancelled) && expected == ReadyProducerActive
    {
      Others(ProducerSide);
      suspended, currentState := ExchangeSuspended(expected);
    }

    /** `producer.destroy()`. */
    method DestroySelf()
      requires Ready(ProducerSide) && producer.SDestroy?
      modifies this
      ensures Ready(ProducerSide) && old(schedule) <= schedule && yielded == old(yielded) && final == old(final)
      ensures old(producer) == SDestroy(Cancelled) && producer.Gone? && frame == DestroyedBy(ProducerSide)
    {
      Others(ProducerSide);
      ghost var earlier := View();
      ReachInv(schedule);
      frame, producer := DestroyedBy(ProducerSide), Gone;
      Did(earlier, Producer);
    }

    // The producer's operations -----------------------------------------------

    /** `internal_yield_value`. */
    method InternalYieldValue() returns (initial: Word)
      requires Ready(ProducerSide) && producer.YLoad?
      modifies this
      ensures Ready(ProducerSide) && Holds(initial)
      ensures old(schedule) <= schedule && yielded == old(yielded) && final == old(final)
    {
      initial := LoadBeforeYield();
      if initial == NotReadyConsumerSuspended {
        StoreReady();
        ResumeConsumer();
        initial := LoadAfterResume();
      }
    }

    /** The yield operation's `await_suspend`, entered when `await_ready` is false. False
        means the producer runs on; true means it is suspended or has been destroyed. */
    method YieldAwaitSuspend(initial: Word) returns (suspended: bool)
      requires Ready(ProducerSide) && Holds(initial) && initial != NotReadyConsumerSuspended
      modifies this
      ensures Ready(ProducerSide) && old(schedule) <= schedule && yielded == old(yielded) && final == old(final)
      ensures suspended ==> (producer.Parked? && frame.Alive?) || (producer.Gone? && frame == DestroyedBy(ProducerSide))
      ensures !suspended ==> producer.Body? && !final
    {
      var currentState := initial;
      if currentState == NotReadyConsumerActive {
        suspended, currentState := SuspendUnlessChanged(currentState);
        if suspended {
          return true;
        }
        if currentState == NotReadyConsumerSuspended {
          StoreReady();
          ResumeConsumer();
          currentState := LoadAfterResume();
          if currentState == NotReadyConsumerSuspended {
            return false;
          }
        }
      }
      if currentState == ReadyProducerActive {
        suspended, currentState := SuspendUnlessChanged(currentState);
        if suspended {
          return true;
        }
        if currentState == NotReadyConsumerSuspended {
          return false;
        }
      }
      DestroySelf();
      assert currentState == Cancelled;
      return true;
    }

    /** `yield_value` and `final_suspend` assign `m_currentValue` first. */
    method AssignValue(value: Current<T>)
      requires Ready(ProducerSide) && producer.Body? && !value.Unassigned?
      modifies this`currentValue, this`producer, this`final, this`yielded, this`schedule
      ensures Ready(ProducerSide) && old(schedule) <= schedule && producer.YLoad? && final == value.Null?
      ensures yielded == if value.At? then old(yielded) + [value.value] else old(yielded)
    {
      ghost var earlier := View();
      ReachInv(schedule);
      assert !ConsumerMayRead(consumer);
      currentValue, producer, final := value, YLoad, value.Null?;
      yielded := if value.At? then yielded + [value.value] else yielded;
      Did(earlier, if value.At? then Yield(value.value) else Finish);
    }

    /** `co_yield value`, or the final suspend when there is no value; the latter ends the stream. */
    method CoYield(value: Current<T>) returns (suspended: bool)
      requires Ready(ProducerSide) && producer.Body? && !value.Unassigned?
      modifies this
      ensures Ready(ProducerSide) && old(schedule) <= schedule && final == value.Null?
      ensures yielded == if value.At? then old(yielded) + [value.value] else old(yielded)
      ensures suspended ==> (producer.Parked? && frame.Alive?) || (producer.Gone? && frame == DestroyedBy(ProducerSide))
      ensures !suspended ==> producer.Body? && value.At?
    {
      AssignValue(value);
      var initial := InternalYieldValue();
      if initial == NotReadyConsumerSuspended {
        return false;
      }
      suspended := YieldAwaitSuspend(initial);
    }

    // The consumer's accesses -------------------------------------------------

    /** Where the consumer is once the advance operation holds `initial`. */
    ghost predicate Advancing(initial: Word)
      reads this
    {
      consumer == if initial == ReadyProducerSuspended then Finished else WRegister(initial)
    }

    /** The first load of the advance operation's constructor. */
    method LoadBeforeAdvance() returns (initial: Word)
      requires Ready(ConsumerSide) && consumer.ALoad?
      modifies this
      ensures Ready(ConsumerSide) && old(schedule) <= schedule && got == old(got)
      ensures if initial == ReadyProducerSuspended then consumer.AStore? else Advancing(initial)
      ensures resumes == old(resumes)
    {
      Others(ConsumerSide);
      ghost var earlier := View();
      ReachInv(schedule);
      initial := state;
      consumer := if initial == ReadyProducerSuspended then AStore else WRegister(initial);
      Did(earlier, Consumer);
    }

    /** `m_state.store(value_not_ready_consumer_active)`. */
    method StoreActive()
      requires Ready(ConsumerSide) && (consumer.AStore? || consumer.WStore?)
      modifies this
      ensures Ready(ConsumerSide) && old(schedule) <= schedule && got == old(got)
      ensures consumer == if old(consumer).AStore? then AResume else WResume
      ensures resumes == old(resumes)
    {
      Others(ConsumerSide);
      ghost var earlier := View();
      ReachInv(schedule);
      state, consumer := NotReadyConsumerActive, if consumer.AStore? then AResume else WResume;
      Did(earlier, Consumer);
    }

    /** `producer.resume()`: the producer is suspended and has not finished. */
    method ResumeNow()
      requires Ready(ConsumerSide) && (consumer.AResume? || consumer.WResume?)
      modifies this`producer, this`consumer, this`schedule
      ensures Ready(ConsumerSide) && old(schedule) <= schedule && old(producer).Parked? && !final
      ensures consumer == if old(consumer).AResume? then AReload else WReload
    {
      ghost var earlier := View();
      ReachInv(schedule);
      producer, consumer := Body, if consumer.AResume? then AReload else WReload;
      Did(earlier, Consumer);
    }

    method ResumeProducer()
      requires Ready(ConsumerSide) && (consumer.AResume? || consumer.WResume?)
      modifies this
      ensures Ready(ConsumerSide) && old(schedule) <= schedule && got == old(got)
      ensures consumer == if old(consumer).AResume? then AReload else WReload
      ensures resumes == old(resumes) + 1
    {
      Others(ConsumerSide);
      ResumeNow();
      resumes := resumes + 1;
    }

    /** The load after the producer has been resumed by the constructor. */
    method LoadAfterAdvance() returns (initial: Word)
      requires Ready(ConsumerSide) && consumer.AReload?
      modifies this
      ensures Ready(ConsumerSide) && old(schedule) <= schedule && got == old(got)
      ensures Advancing(initial)
      ensures resumes == old(resumes)
    {
      Others(ConsumerSide);
      ghost var earlier := View();
      ReachInv(schedule);
      initial := state;
      consumer := if initial == ReadyProducerSuspended then Finished else WRegister(initial);
      Did(earlier, Consumer);
    }

    /** `m_consumerCoroutine = consumerCoroutine`. */
    method Register(initial: Word)
      requires Ready(ConsumerSide) && consumer == WRegister(initial)
      modifies this
      ensures Ready(ConsumerSide) && old(schedule) <= schedule && got == old(got)
      ensures initial == ReadyProducerActive || initial == NotReadyConsumerActive
      ensures consumer == if initial == ReadyProducerActive then WExchangeReady else WExchangeActive
    {
      Others(ConsumerSide);
      ghost var earlier := View();
      ReachInv(schedule);
      registered, consumer := true, if initial == ReadyProducerActive then WExchangeReady else WExchangeActive;
      Did(earlier, Consumer);
    }

    /** `compare_exchange_strong(currentState, value_not_ready_consumer_suspended)`. */
    method WaitUnlessChanged(expected: Word) returns (suspended: bool, currentState: Word)
      requires Ready(ConsumerSide)
      requires if expected == ReadyProducerActive then consumer.WExchangeReady?
               else expected == NotReadyConsumerActive && consumer.WExchangeActive?
      modifies this
      ensures Ready(ConsumerSide) && old(schedule) <= schedule && got == old(got)
      ensures suspended ==> consumer.Suspended?
      ensures !suspended ==> currentState == ReadyProducerSuspended
      ensures !suspended ==> consumer == if expected == ReadyProducerActive then WStore else Finished
    {
      Others(ConsumerSide);
      ghost var earlier := View();
      ReachInv(schedule);
      currentState, suspended := state, state == expected;
      if suspended {
        state, consumer := NotReadyConsumerSuspended, Suspended;
      } else {
        consumer := if expected == ReadyProducerActive then WStore else Finished;
      }
      Did(earlier, Consumer);
    }

    /** The load after the producer has been resumed by `await_suspend`. */
    method LoadAfterWait() returns (currentState: Word)
      requires Ready(ConsumerSide) && consumer.WReload?
      modifies this
      ensures Ready(ConsumerSide) && old(schedule) <= schedule && got == old(got)
      ensures currentState == ReadyProducerSuspended || currentState == NotReadyConsumerActive
      ensures consumer == if currentState == ReadyProducerSuspended then Finished else WExchangeActive
    {
      Others(ConsumerSide);
      ghost var earlier := View();
      ReachInv(schedule);
      currentState := state;
      consumer := if currentState == ReadyProducerSuspended then Finished else WExchangeActive;
      Did(earlier, Consumer);
    }

    // The consumer's operations -----------------------------------------------

    /** `begin()` or `++` is called. */
    method Begin()
      requires Ready(ConsumerSide) && (consumer.NotStarted? || consumer.Holding?)
      modifies this`consumer, this`schedule
      ensures Ready(ConsumerSide) && consumer.ALoad? && schedule == old(schedule) + [Advance]
    {
      ghost var earlier := View();
      ReachInv(schedule);
      consumer := ALoad;
      Did(earlier, Advance);
    }

    /** The constructor of the advance operation, for `begin()` and `++`. A producer that its
        first load, `saw`, finds suspended is resumed once, and then `initial` is loaded again;
        otherwise nobody is resumed. */
    method StartAdvance() returns (initial: Word, saw: Word)
      requires Ready(ConsumerSide) && (consumer.NotStarted? || consumer.Holding?)
      modifies this
      ensures Ready(ConsumerSide) && Advancing(initial)
      ensures old(schedule) <= schedule && got == old(got)
      ensures resumes == old(resumes) + if saw == ReadyProducerSuspended then 1 else 0
      ensures saw != ReadyProducerSuspended ==> initial == saw
    {
      Begin();
      saw := LoadBeforeAdvance();
      initial := saw;
      if initial == ReadyProducerSuspended {
        StoreActive();
        ResumeProducer();
        initial := LoadAfterAdvance();
      }
    }

    /** The advance operation's `await_suspend`, entered when `await_ready` is false. */
    method AdvanceAwaitSuspend(initial: Word) returns (suspended: bool)
      requires Ready(ConsumerSide) && Advancing(initial) && initial != ReadyProducerSuspended
      modifies this
      ensures Ready(ConsumerSide) && old(schedule) <= schedule && got == old(got)
      ensures consumer == if suspended then Suspended else Finished
    {
      Register(initial);
      var currentState := initial;
      if currentState == ReadyProducerActive {
        suspended, currentState := WaitUnlessChanged(currentState);
        if suspended {
          return true;
        }
        assert currentState == ReadyProducerSuspended;
        StoreActive();
        ResumeProducer();
        currentState := LoadAfterWait();
        if currentState == ReadyProducerSuspended {
          return false;
        }
      }
      assert currentState == NotReadyConsumerActive;
      suspended, currentState := WaitUnlessChanged(currentState);
    }

    /** `await_resume`: one more value, or the end of the sequence. */
    method AwaitResume() returns (more: bool)
      requires Ready(ConsumerSide) && consumer.Finished?
      modifies this
      ensures Ready(ConsumerSide) && old(schedule) <= schedule
      ensures more ==> consumer.Holding? && currentValue.At? && got == yielded == old(got) + [currentValue.value]
      ensures !more ==> consumer.Ended? && final && got == yielded == old(got)
    {
      Others(ConsumerSide);
      ghost var earlier := View();
      ReachInv(schedule);
      assert !currentValue.Unassigned?;
      more := !currentValue.Null?;
      if more {
        consumer, got := Holding, got + [currentValue.value];
      } else {
        consumer := Ended;
      }
      Did(earlier, Consumer);
    }

    /** `m_state.exchange(cancelled)`. */
    method ExchangeCancelled() returns (previousState: Word)
      requires Ready(ConsumerSide) && consumer in {NotStarted, Holding, Ended}
      modifies this`state, this`cancelSaw, this`consumer, this`schedule
      ensures Ready(ConsumerSide) && old(schedule) <= schedule && state.Cancelled? && frame.Alive?
      ensures previousState == old(state) == cancelSaw
      ensures previousState in {NotReadyConsumerActive, ReadyProducerActive, ReadyProducerSuspended}
      ensures consumer == if previousState == ReadyProducerSuspended then CDestroy else Closed
    {
      ghost var earlier := View();
      ReachInv(schedule);
      previousState := state;
      state, cancelSaw := Cancelled, previousState;
      consumer := if previousState == ReadyProducerSuspended then CDestroy else Closed;
      Did(earlier, Release);
    }

    /** `request_cancellation`, with its two asserts; true when the producer was suspended. */
    method RequestCancellation() returns (destroy: bool)
      requires Ready(ConsumerSide) && consumer in {NotStarted, Holding, Ended}
      modifies this
      ensures Ready(ConsumerSide) && old(schedule) <= schedule && state.Cancelled? && frame.Alive?
      ensures destroy <==> cancelSaw == ReadyProducerSuspended
      ensures consumer == if destroy then CDestroy else Closed
    {
      Others(ConsumerSide);
      var previousState := ExchangeCancelled();
      assert previousState != NotReadyConsumerSuspended;
      assert previousState != Cancelled;
      destroy := previousState == ReadyProducerSuspended;
    }

    /** `m_coroutine.destroy()`. */
    method DestroyNow()
      requires Ready(ConsumerSide) && consumer.CDestroy?
      modifies this`frame, this`producer, this`consumer, this`schedule
      ensures Ready(ConsumerSide) && old(schedule) <= schedule && consumer.Closed? && state.Cancelled?
      ensures old(frame).Alive? && old(producer).Parked? && frame == DestroyedBy(ConsumerSide)
    {
      ghost var earlier := View();
      ReachInv(schedule);
      frame, producer, consumer := DestroyedBy(ConsumerSide), Gone, Closed;
      Did(earlier, Consumer);
    }

    /** The generator's destructor. */
    method Destruct()
      requires Ready(ConsumerSide) && consumer in {NotStarted, Holding, Ended}
      modifies this
      ensures Ready(ConsumerSide) && old(schedule) <= schedule && consumer.Closed? && state.Cancelled?
      ensures frame == DestroyedBy(ConsumerSide) <==> cancelSaw == ReadyProducerSuspended
    {
      var destroy := RequestCancellation();
      if destroy {
        Others(ConsumerSide);
        DestroyNow();
      }
    }
  }
}
