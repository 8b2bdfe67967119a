/** The lock-free handshake between an asynchronous generator (the producer) and
    the single coroutine that consumes it, as a state machine. One action is one
    atomic access to shared memory, one `resume()` or one `destroy()`. A resumed
    coroutine and the code that resumed it then run side by side, which covers
    both inline nesting and a producer that hops between threads. A schedule is
    any sequence of actions; an action that is not enabled changes nothing, so
    "for every schedule" is "for every interleaving".

    The machine does not presuppose what the protocol promises. A failed assert, a
    resume of a coroutine that is not suspended, an access to a destroyed frame, a
    second destruction and an overwritten value all stop the machine with a fault. */
module GeneratorProtocol {

  /** The five values of `m_state`. */
  datatype Word =
    | NotReadyConsumerActive
    | NotReadyConsumerSuspended
    | ReadyProducerActive
    | ReadyProducerSuspended
    | Cancelled

  /** `m_currentValue`: not yet assigned, null (the generator finished), or a pointer to a value. */
  datatype Current<T> = Unassigned | Null | At(value: T)

  datatype Side = ProducerSide | ConsumerSide

  datatype Frame = Alive | DestroyedBy(side: Side)

  datatype Fault =
    | NoFault
    | AssertFailed(line: nat)
    | ResumedNotSuspended
    | TouchedDestroyedFrame
    | DestroyedRunning
    | RanPastFinalSuspend
    | ReadUnassigned
    | OverwroteReadableValue

  /** Where the producer is. `Parked` is a coroutine suspended at its initial suspend
      point, at a `co_yield` or at its final suspend point. The `Y` points belong to
      `internal_yield_value`, the `S` points to the yield operation's `await_suspend`. */
  datatype ProducerPc =
    | Parked
    | Body
    | YLoad
    | YStore
    | YResume
    | YReload
    | SExchangeActive
    | SStore
    | SResume
    | SReload
    | SExchangeReady
    | SDestroy(seen: Word)
    | Gone

  /** Where the consumer is. `NotStarted`, `Holding` and `Ended` are outside an
      advance. The `A` points belong to the constructor of the advance operation, the
      `W` points to its `await_suspend`; `Finished` is the test in `await_resume`. */
  datatype ConsumerPc =
    | NotStarted
    | Holding
    | Ended
    | Suspended
    | ALoad
    | AStore
    | AResume
    | AReload
    | WRegister(seen: Word)
    | WExchangeReady
    | WStore
    | WResume
    | WReload
    | WExchangeActive
    | Finished
    | CDestroy
    | Closed

  datatype State<T> = State(
    word: Word,
    registered: bool,         // m_consumerCoroutine has been assigned
    current: Current<T>,      // m_currentValue
    frame: Frame,
    producer: ProducerPc,
    final: bool,              // the producer has reached its final suspend point
    consumer: ConsumerPc,
    yielded: seq<T>,          // every value the producer has yielded, in order
    got: seq<T>,              // every value the consumer has been handed, in order
    cancelSaw: Word,          // what the cancelling exchange returned (Cancelled: none yet)
    fault: Fault)

  /** `Yield`, `Finish`, `Advance` and `Release` are decisions of the two coroutine
      bodies; `Producer` and `Consumer` execute the next protocol step of a side. */
  datatype Action<T> = Producer | Yield(value: T) | Finish | Consumer | Advance | Release

  function Init<T>(): State<T> {
    State(ReadyProducerSuspended, false, Unassigned, Alive, Parked, false, NotStarted, [], [], Cancelled, NoFault)
  }

  predicate ConsumerMayRead(c: ConsumerPc) {
    c.Holding? || c.Finished?
  }

  // Producer ----------------------------------------------------------------

  /** The producer's body runs on after a yield; a finished producer must not. */
  function Onward<T>(s: State<T>): State<T> {
    if s.final then s.(fault := RanPastFinalSuspend) else s.(producer := Body)
  }

  /** The branch both `await_ready` and the yield operation's `await_suspend` take on the state they hold. */
  function Decide<T>(s: State<T>, seen: Word): State<T> {
    match seen
    case NotReadyConsumerSuspended => Onward(s)
    case NotReadyConsumerActive => s.(producer := SExchangeActive)
    case ReadyProducerActive => s.(producer := SExchangeReady)
    case _ => s.(producer := SDestroy(seen))
  }

  function ResumeConsumer<T>(s: State<T>, next: ProducerPc): State<T> {
    if s.registered && s.consumer.Suspended?
    then s.(consumer := Finished, producer := next)
    else s.(fault := ResumedNotSuspended)
  }

  function ProducerStep<T>(s: State<T>): State<T> {
    if s.producer in {Parked, Body, Gone} then s
    else if !s.frame.Alive? then s.(fault := TouchedDestroyedFrame)
    else match s.producer
      case YLoad =>
        if s.word.ReadyProducerActive? then s.(fault := AssertFailed(767))
        else if s.word.ReadyProducerSuspended? then s.(fault := AssertFailed(768))
        else if s.word.NotReadyConsumerSuspended? then s.(producer := YStore)
        else Decide(s, s.word)
      case YStore => s.(word := ReadyProducerActive, producer := YResume)
      case YResume => ResumeConsumer(s, YReload)
      case YReload => Decide(s, s.word)
      case SExchangeActive =>
        if s.word.NotReadyConsumerActive? then s.(word := ReadyProducerSuspended, producer := Parked)
        else if s.word.NotReadyConsumerSuspended? then s.(producer := SStore)
        else if s.word.ReadyProducerActive? then s.(producer := SExchangeReady)
        else s.(producer := SDestroy(s.word))
      case SStore => s.(word := ReadyProducerActive, producer := SResume)
      case SResume => ResumeConsumer(s, SReload)
      case SReload =>
        if s.word.NotReadyConsumerSuspended? then Onward(s)
        else if s.word.ReadyProducerActive? then s.(producer := SExchangeReady)
        else s.(producer := SDestroy(s.word))
      case SExchangeReady =>
        if s.word.ReadyProducerActive? then s.(word := ReadyProducerSuspended, producer := Parked)
        else if s.word.NotReadyConsumerSuspended? then Onward(s)
        else s.(producer := SDestroy(s.word))
      case SDestroy(seen) =>
        if !seen.Cancelled? then s.(fault := AssertFailed(805))
        else s.(frame := DestroyedBy(ProducerSide), producer := Gone)
      case _ => s
  }

  /** `yield_value` (a value) and `final_suspend` (null) assign `m_currentValue` first. */
  function Assign<T>(s: State<T>, next: Current<T>): State<T> {
    if !s.producer.Body? then s
    else if !s.frame.Alive? then s.(fault := TouchedDestroyedFrame)
    else if ConsumerMayRead(s.consumer) then s.(fault := OverwroteReadableValue)
    else s.(current := next, producer := YLoad, final := next.Null?,
            yielded := if next.At? then s.yielded + [next.value] else s.yielded)
  }

  // Consumer ----------------------------------------------------------------

  function ResumeProducer<T>(s: State<T>, next: ConsumerPc): State<T> {
    if s.producer.Parked? && !s.final
    then s.(producer := Body, consumer := next)
    else s.(fault := ResumedNotSuspended)
  }

  /** `await_ready` on the state the advance operation holds. */
  function Ready<T>(s: State<T>, seen: Word): State<T> {
    s.(consumer := if seen.ReadyProducerSuspended? then Finished else WRegister(seen))
  }

  /** The last part of the advance operation's `await_suspend`. */
  function Wait<T>(s: State<T>, seen: Word): State<T> {
    if seen.NotReadyConsumerActive? then s.(consumer := WExchangeActive) else s.(fault := AssertFailed(855))
  }

  function ConsumerStep<T>(s: State<T>): State<T> {
    if s.consumer in {NotStarted, Holding, Ended, Suspended, Closed} then s
    else if !s.frame.Alive? then s.(fault := TouchedDestroyedFrame)
    else match s.consumer
      case ALoad =>
        if s.word.ReadyProducerSuspended? then s.(consumer := AStore) else Ready(s, s.word)
      case AStore => s.(word := NotReadyConsumerActive, consumer := AResume)
      case AResume => ResumeProducer(s, AReload)
      case AReload => Ready(s, s.word)
      case WRegister(seen) =>
        var r := s.(registered := true);
        if seen.ReadyProducerActive? then r.(consumer := WExchangeReady) else Wait(r, seen)
      case WExchangeReady =>
        if s.word.ReadyProducerActive? then s.(word := NotReadyConsumerSuspended, consumer := Suspended)
        else if !s.word.ReadyProducerSuspended? then s.(fault := AssertFailed(847))
        else s.(consumer := WStore)
      case WStore => s.(word := NotReadyConsumerActive, consumer := WResume)
      case WResume => ResumeProducer(s, WReload)
      case WReload =>
        if s.word.ReadyProducerSuspended? then s.(consumer := Finished) else Wait(s, s.word)
      case WExchangeActive =>
        if s.word.NotReadyConsumerActive? then s.(word := NotReadyConsumerSuspended, consumer := Suspended)
        else s.(consumer := Finished)
      case Finished =>
        (match s.current
         case Unassigned => s.(fault := ReadUnassigned)
         case Null => s.(consumer := Ended)
         case At(v) => s.(consumer := Holding, got := s.got + [v]))
      case CDestroy =>
        if s.producer.Parked? then s.(frame := DestroyedBy(ConsumerSide), producer := Gone, consumer := Closed)
        else s.(fault := DestroyedRunning)
      case _ => s
  }

  /** `begin()` or `++`: never inside another advance and never past the end. */
  function StartAdvance<T>(s: State<T>): State<T> {
    if s.consumer.NotStarted? || s.consumer.Holding? then s.(consumer := ALoad) else s
  }

  /** The generator's destructor: `request_cancellation` outside an advance. */
  function Cancel<T>(s: State<T>): State<T> {
    if s.consumer !in {NotStarted, Holding, Ended} then s
    else if !s.frame.Alive? then s.(fault := TouchedDestroyedFrame)
    else if s.word.NotReadyConsumerSuspended? then s.(fault := AssertFailed(706))
    else if s.word.Cancelled? then s.(fault := AssertFailed(707))
    else s.(word := Cancelled, cancelSaw := s.word,
            consumer := if s.word.ReadyProducerSuspended? then CDestroy else Closed)
  }

  function Step<T>(s: State<T>, a: Action<T>): State<T> {
    if s.fault != NoFault then s
    else match a
      case Producer => ProducerStep(s)
      case Yield(v) => Assign(s, At(v))
      case Finish => Assign(s, Null)
      case Consumer => ConsumerStep(s)
      case Advance => StartAdvance(s)
      case Release => Cancel(s)
  }

  function Run<T>(s: State<T>, schedule: seq<Action<T>>): State<T>
    decreases |schedule|
  {
    if schedule == [] then s else Run(Step(s, schedule[0]), schedule[1..])
  }

  lemma {:induction false} RunAppend<T>(s: State<T>, first: seq<Action<T>>, second: seq<Action<T>>)
    ensures Run(s, first + second) == Run(Run(s, first), second)
    decreases |first|
  {
    if first == [] {
      assert first + second == second;
    } else {
      assert (first + second)[1..] == first[1..] + second;
      RunAppend(Step(s, first[0]), first[1..], second);
    }
  }

  // The invariant -----------------------------------------------------------

  /** The consumer has been handed everything that was yielded. */
  ghost predicate Consumed<T>(s: State<T>) {
    && s.got == s.yielded
    && (if s.yielded == [] then s.current.Unassigned? || s.current.Null?
        else s.current.Null? || s.current == At(s.yielded[|s.yielded| - 1]))
    && (s.current.Null? <==> s.final)
  }

  /** Exactly one item, a value or the end marker, is ready and not yet handed over. */
  ghost predicate Fresh<T>(s: State<T>) {
    if s.final then s.current.Null? && s.got == s.yielded
    else s.current.At? && s.yielded == s.got + [s.current.value]
  }

  /** The consumer's side of a state in which it may use the generator freely. */
  ghost predicate AtRest<T>(s: State<T>) {
    && Consumed(s)
    && match s.consumer
       case NotStarted => s.yielded == [] && !s.final && s.producer.Parked?
       case Ended => s.final
       case _ => !s.final && s.yielded != []
  }

  /** The consumer is past the assignment of `m_consumerCoroutine` in its current advance. */
  predicate Registered(c: ConsumerPc) {
    c in {WExchangeReady, WStore, WResume, WReload, WExchangeActive, Suspended}
  }

  /** The producer has resumed the consumer and has not looked at the state since. */
  predicate Lingering(p: ProducerPc) {
    p.YReload? || p.SReload? || p.SExchangeReady?
  }

  ghost predicate ParkedInv<T>(s: State<T>)
    requires s.word.ReadyProducerSuspended?
  {
    && s.producer.Parked?
    && match s.consumer
       case NotStarted | Holding | Ended => AtRest(s)
       case ALoad | AStore | WExchangeReady | WStore => Consumed(s) && !s.final
       case WRegister(seen) =>
         if seen.ReadyProducerActive? then Consumed(s) && !s.final
         else seen.NotReadyConsumerActive? && Fresh(s)
       case AReload | WReload | WExchangeActive | Finished => Fresh(s)
       case _ => false
  }

  ghost predicate ActiveInv<T>(s: State<T>)
    requires s.word.NotReadyConsumerActive?
  {
    if s.consumer.AResume? || s.consumer.WResume? then s.producer.Parked? && Consumed(s) && !s.final
    else
      && (s.consumer.AReload? || s.consumer.WReload? || s.consumer.WExchangeActive?
          || s.consumer == WRegister(NotReadyConsumerActive))
      && match s.producer
         case Body => Consumed(s) && !s.final
         case YLoad | SExchangeActive => Fresh(s)
         case _ => false
  }

  ghost predicate SuspendedInv<T>(s: State<T>)
    requires s.word.NotReadyConsumerSuspended?
  {
    && s.consumer.Suspended?
    && match s.producer
       case Body | YReload | SReload | SExchangeReady => Consumed(s) && !s.final
       case YLoad | YStore | SExchangeActive | SStore => Fresh(s)
       case _ => false
  }

  ghost predicate ReadyInv<T>(s: State<T>)
    requires s.word.ReadyProducerActive?
  {
    if s.producer.YResume? || s.producer.SResume? then s.consumer.Suspended? && Fresh(s)
    else
      && Lingering(s.producer)
      && match s.consumer
         case Finished => Fresh(s)
         case Holding | Ended => AtRest(s)
         case ALoad | WExchangeReady => Consumed(s) && !s.final
         case WRegister(seen) => seen.ReadyProducerActive? && Consumed(s) && !s.final
         case _ => false
  }

  ghost predicate CancelledInv<T>(s: State<T>)
    requires s.word.Cancelled?
  {
    && s.got == s.yielded
    && (s.cancelSaw.ReadyProducerSuspended? || s.cancelSaw.ReadyProducerActive?)
    && match s.frame
       case Alive =>
         if s.cancelSaw.ReadyProducerSuspended? then s.consumer.CDestroy? && s.producer.Parked?
         else s.consumer.Closed? && (Lingering(s.producer) || s.producer == SDestroy(Cancelled))
       case DestroyedBy(side) =>
         && s.consumer.Closed? && s.producer.Gone?
         && (side.ConsumerSide? <==> s.cancelSaw.ReadyProducerSuspended?)
  }

  ghost predicate Inv<T>(s: State<T>) {
    && s.fault == NoFault
    && (!s.word.Cancelled? ==> s.frame.Alive? && s.cancelSaw.Cancelled?)
    && (Registered(s.consumer) ==> s.registered)
    && match s.word
       case ReadyProducerSuspended => ParkedInv(s)
       case NotReadyConsumerActive => ActiveInv(s)
       case NotReadyConsumerSuspended => SuspendedInv(s)
       case ReadyProducerActive => ReadyInv(s)
       case Cancelled => CancelledInv(s)
  }

  lemma ProducerKeepsInv<T>(s: State<T>)
    requires Inv(s)
    ensures Inv(ProducerStep(s))
  {
    match s.producer
    case YLoad =>
    case YStore =>
    case YResume =>
    case YReload =>
    case SExchangeActive =>
    case SStore =>
    case SResume =>
    case SReload =>
    case SExchangeReady =>
    case SDestroy(_) =>
    case _ =>
  }

  lemma ConstructorKeepsInv<T>(s: State<T>)
    requires Inv(s) && s.consumer in {ALoad, AStore, AResume, AReload}
    ensures Inv(ConsumerStep(s))
  {
    match s.consumer
    case ALoad =>
    case AStore =>
    case AResume =>
    case _ =>
  }

  lemma AwaitSuspendKeepsInv<T>(s: State<T>)
    requires Inv(s)
    requires s.consumer.WRegister? || s.consumer in {WExchangeReady, WStore, WResume, WReload, WExchangeActive}
    ensures Inv(ConsumerStep(s))
  {
    match s.consumer
    case WRegister(_) =>
    case WExchangeReady =>
    case WStore =>
    case WResume =>
    case WReload =>
    case _ =>
  }

  lemma ConsumerKeepsInv<T>(s: State<T>)
    requires Inv(s)
    ensures Inv(ConsumerStep(s))
  {
    match s.consumer
    case ALoad | AStore | AResume | AReload => ConstructorKeepsInv(s);
    case WRegister(_) | WExchangeReady | WStore | WResume | WReload | WExchangeActive => AwaitSuspendKeepsInv(s);
    case Finished =>
    case CDestroy =>
    case _ =>
  }

  lemma AssignKeepsInv<T>(s: State<T>, next: Current<T>)
    requires Inv(s) && !next.Unassigned?
    ensures Inv(Assign(s, next))
  {
  }

  lemma DecisionsKeepInv<T>(s: State<T>)
    requires Inv(s)
    ensures Inv(StartAdvance(s)) && Inv(Cancel(s))
  {
  }

  lemma StepKeepsInv<T>(s: State<T>, a: Action<T>)
    requires Inv(s)
    ensures Inv(Step(s, a))
  {
    match a
    case Producer => ProducerKeepsInv(s);
    case Consumer => ConsumerKeepsInv(s);
    case Yield(v) => AssignKeepsInv(s, At(v));
    case Finish => AssignKeepsInv(s, Null);
    case _ => DecisionsKeepInv(s);
  }

  lemma {:induction false} RunKeepsInv<T>(s: State<T>, schedule: seq<Action<T>>)
    requires Inv(s)
    ensures Inv(Run(s, schedule))
    decreases |schedule|
  {
    if schedule == [] {
    } else {
      StepKeepsInv(s, schedule[0]);
      RunKeepsInv(Step(s, schedule[0]), schedule[1..]);
    }
  }
}
