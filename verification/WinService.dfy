/** The Windows service (qtservice_win.cpp) as interleaved steps of its threads: the main thread in `start()` and its
    event loop, the dispatcher thread, which also runs `handler` for the controls, and the thread of `serviceMain`,
    which runs `handler` for the start-up. A step is one access to the state the threads share. */
module WinService {
  import opened Text

  const STOP := 1
  const PAUSE := 2
  const CONTINUE := 3
  const INTERROGATE := 4
  const SHUTDOWN := 5
  const STARTUP := 256

  datatype Status = Stopped | StartPending | Running | PausePending | Paused | ContinuePending | StopPending

  // handler(code)

  predicate IsUser(code: int) { 128 <= code <= 255 }

  /** The codes for which `handler` posts an event and waits. */
  predicate Posts(code: int) {
    code == STARTUP || code == STOP || code == PAUSE || code == CONTINUE || code == SHUTDOWN || IsUser(code)
  }

  predicate Ends(code: int) { code == STOP || code == SHUTDOWN }

  function EventCode(code: int): int { if code == SHUTDOWN then STOP else code }

  /** The status set before the event is posted. */
  function PendingStatus(code: int): Option<Status> {
    if code == STARTUP then Some(StartPending)
    else if code == STOP then Some(StopPending)
    else if code == PAUSE then Some(PausePending)
    else if code == CONTINUE then Some(ContinuePending)
    else None
  }

  /** The status set after the wait. */
  function FinalStatus(code: int): Option<Status> {
    if code == STARTUP || code == CONTINUE then Some(Running)
    else if code == PAUSE then Some(Paused)
    else None
  }

  /** How far a call of `handler` has come; the names tell what was done last or is done next. */
  datatype Stage =
    | Idle            // no call
    | Locking         // called; next: lock the mutex
    | Entered         // holds the mutex
    | PendingWritten  // `status` is set; next: report it
    | Posting         // next: post the event
    | Posted          // next: wait, giving up the mutex
    | Waiting         // in the wait set of the condition
    | Woken           // next: lock the mutex again
    | Relocked        // holds the mutex again
    | FinalWritten    // `status` is set; next: report it
    | Unlocking       // next: unlock the mutex
    | Checking        // next: compare the status with SERVICE_STOPPED
    | Reporting       // next: report the status
    | Returned        // the call for the start-up is over

  /** A call of `handler`; `ticket` numbers the event it posted. */
  datatype Call = Call(stage: Stage, code: int, ticket: nat)

  predicate HoldsMutex(stage: Stage) {
    stage.Entered? || stage.PendingWritten? || stage.Posting? || stage.Posted?
    || stage.Relocked? || stage.FinalWritten? || stage.Unlocking?
  }

  /** The event is posted and the call not yet woken. */
  predicate Outstanding(stage: Stage) { stage.Posted? || stage.Waiting? }

  predicate IsWoken(stage: Stage) {
    stage.Woken? || stage.Relocked? || stage.FinalWritten? || stage.Unlocking? || stage.Checking? || stage.Reporting?
  }

  predicate InHandler(stage: Stage) { !stage.Idle? && !stage.Returned? }

  // The threads

  datatype Who = Startup | Control

  datatype Owner = Nobody | MainThread | HandlerThread(who: Who)

  datatype MainStage =
    | AwaitStart | CheckDispatcher | CountArgs | ReadArgs | CreateApp | CreateHandler | ReleaseServiceMain
    | Loop | Callback | LockToWake | WakeAll | UnlockAfterWake
    | LeftLoop | StoppedWritten | DeleteHandler | Finished | GaveUp

  /** The main thread: its position, the event it handles, and whether `quit` was called. */
  datatype Main = Main(stage: MainStage, code: int, quit: bool)

  datatype DispatcherStage = Starting | Connected | CallFailed | FailureWritten | Announcing | Over

  datatype ServiceStage = NotStarted | Appending | Releasing | Acquiring | Registering | Calling | Handling | Gone

  /** What the threads share during start-up; `argv` is what Windows passes to `serviceMain`. */
  datatype Boot = Boot(
    dispatcher: DispatcherStage,
    success: bool,
    console: bool,
    service: ServiceStage,
    argv: seq<string>,
    serviceArgs: seq<string>,
    argc: nat,
    mainArgs: seq<string>,
    sem1: nat,
    sem2: nat,
    controllerHandler: bool)

  /** The functions of the service that events lead to. */
  datatype Callback = OnStart | OnStop | OnPause | OnResume | OnCommand(number: int)

  /** Histories: events posted, events whose callback has returned, the callbacks themselves, user commands accepted
      by the service manager and passed to `processCommand`, and whether a control that ends the service was sent. */
  datatype History = History(
    posted: seq<int>,
    returned: seq<int>,
    callbacks: seq<Callback>,
    accepted: seq<int>,
    processed: seq<int>,
    ending: bool)

  datatype State = State(
    main: Main,
    startup: Call,
    control: Call,
    mutex: Owner,
    queue: seq<int>,
    status: Status,
    reports: seq<Status>,
    boot: Boot,
    history: History)

  function Initial(argv: seq<string>): State {
    State(Main(AwaitStart, 0, false), Call(Idle, STARTUP, 0), Call(Idle, INTERROGATE, 0), Nobody, [], Stopped, [],
          Boot(Starting, true, false, NotStarted, argv, [], 0, [], 0, 0, false),
          History([], [], [], [], [], false))
  }

  datatype Step =
    | Dispatcher(connects: bool)  // the next step of HandlerThread::run; `connects`: what the dispatcher call does
    | Service(registers: bool)    // the next step of serviceMain before it calls handler
    | MainStep(succeeds: bool)    // the next step of the main thread; `succeeds`: it gets the semaphore or application
    | Handle(who: Who)            // the next step of a call of handler
    | Deliver(code: int)          // the service manager calls handler on the dispatcher thread

  // Steps of the dispatcher thread and of serviceMain

  predicate DispatcherEnabled(b: Boot) { !b.dispatcher.Connected? && !b.dispatcher.Over? }

  function DispatcherNext(b: Boot, connects: bool): Boot {
    match b.dispatcher
    case Starting => b.(dispatcher := if connects then Connected else CallFailed)
    case CallFailed => b.(dispatcher := FailureWritten, success := false)
    case FailureWritten => b.(dispatcher := Announcing, console := connects)
    case Announcing => b.(dispatcher := Over, sem1 := b.sem1 + 1)
    case _ => b
  }

  predicate ServiceEnabled(b: Boot) {
    match b.service
    case NotStarted => b.dispatcher.Connected?
    case Acquiring => b.sem2 > 0
    case Handling => false
    case Gone => false
    case _ => true
  }

  function ServiceNext(s: State, registers: bool): State {
    var b := s.boot;
    match b.service
    case NotStarted => s.(boot := b.(service := Appending))
    case Appending =>
      if |b.serviceArgs| < |b.argv| then s.(boot := b.(serviceArgs := b.serviceArgs + [b.argv[|b.serviceArgs|]]))
      else s.(boot := b.(service := Releasing))
    case Releasing => s.(boot := b.(service := Acquiring, sem1 := b.sem1 + 1))
    case Acquiring => if b.sem2 > 0 then s.(boot := b.(service := Registering, sem2 := b.sem2 - 1)) else s
    case Registering => s.(boot := b.(service := if registers then Calling else Gone))
    case Calling => s.(boot := b.(service := Handling), startup := Call(Locking, STARTUP, 0))
    case _ => s
  }

  // Steps of the main thread

  predicate MainEnabled(s: State, succeeds: bool) {
    match s.main.stage
    case AwaitStart => succeeds <==> s.boot.sem1 > 0
    case Loop => s.main.quit || s.queue != []
    case LockToWake => s.mutex.Nobody?
    case Finished => false
    case GaveUp => false
    case _ => true
  }

  function MainAt(s: State, stage: MainStage): State { s.(main := s.main.(stage := stage)) }

  /** `wakeAll` on the condition. */
  function Wake(c: Call): Call { if c.stage.Waiting? then c.(stage := Woken) else c }

  /** `start()` up to the release of serviceMain. */
  function BootNext(s: State, succeeds: bool): State {
    var b := s.boot;
    match s.main.stage
    case AwaitStart =>
      if succeeds && b.sem1 > 0 then MainAt(s.(boot := b.(sem1 := b.sem1 - 1)), CheckDispatcher)
      else MainAt(s, GaveUp)
    case CheckDispatcher => MainAt(s, if b.success then CountArgs else GaveUp)
    case CountArgs => MainAt(s.(boot := b.(argc := |b.serviceArgs|)), ReadArgs)
    case ReadArgs =>
      if |b.mainArgs| < b.argc && |b.mainArgs| < |b.serviceArgs|
      then s.(boot := b.(mainArgs := b.mainArgs + [b.serviceArgs[|b.mainArgs|]]))
      else MainAt(s, CreateApp)
    case CreateApp => MainAt(s, if succeeds then CreateHandler else GaveUp)
    case CreateHandler => MainAt(s.(boot := b.(controllerHandler := true)), ReleaseServiceMain)
    case ReleaseServiceMain => MainAt(s.(boot := b.(sem2 := b.sem2 + 1)), Loop)
    case _ => s
  }

  /** The function of the service that `handleCustomEvent` calls for an event, if it calls one. */
  function CallbackOf(event: int): seq<Callback> {
    if event == STARTUP then [OnStart]
    else if event == STOP then [OnStop]
    else if event == PAUSE then [OnPause]
    else if event == CONTINUE then [OnResume]
    else if IsUser(event) then [OnCommand(event - 128)]
    else []
  }

  /** The callback of an event returns: `handleCustomEvent` up to the lock. */
  function CallbackReturns(s: State): State {
    var h := s.history;
    var code := s.main.code;
    s.(main := Main(LockToWake, code, s.main.quit || code == STOP),
       history := h.(returned := h.returned + [code],
                     callbacks := h.callbacks + CallbackOf(code),
                     processed := h.processed + if IsUser(code) then [code - 128] else []))
  }

  function LoopNext(s: State): State {
    match s.main.stage
    case Loop =>
      if s.main.quit then MainAt(s, LeftLoop)
      else if s.queue == [] then s
      else s.(main := Main(Callback, s.queue[0], s.main.quit), queue := s.queue[1..])
    case Callback => CallbackReturns(s)
    case LockToWake => MainAt(s.(mutex := MainThread), WakeAll)
    case WakeAll => MainAt(s.(startup := Wake(s.startup), control := Wake(s.control)), UnlockAfterWake)
    case UnlockAfterWake => MainAt(s.(mutex := Nobody), Loop)
    case LeftLoop => MainAt(s.(status := Stopped), StoppedWritten)
    case StoppedWritten => MainAt(Report(s), DeleteHandler)
    case DeleteHandler => MainAt(s.(boot := s.boot.(controllerHandler := false)), Finished)
    case _ => s
  }

  predicate Booting(stage: MainStage) {
    stage.AwaitStart? || stage.CheckDispatcher? || stage.CountArgs? || stage.ReadArgs? || stage.CreateApp?
    || stage.CreateHandler? || stage.ReleaseServiceMain?
  }

  function MainNext(s: State, succeeds: bool): State {
    if Booting(s.main.stage) then BootNext(s, succeeds) else LoopNext(s)
  }

  // Steps of a call of handler

  /** `pSetServiceStatus(serviceStatus, &status)`: the manager is told the status as it is now. */
  function Report(s: State): State { s.(reports := s.reports + [s.status]) }

  function CallOf(s: State, who: Who): Call { if who.Startup? then s.startup else s.control }

  function With(s: State, who: Who, c: Call): State {
    if who.Startup? then s.(startup := c) else s.(control := c)
  }

  function At(s: State, who: Who, stage: Stage): State {
    With(s, who, CallOf(s, who).(stage := stage))
  }

  predicate HandleEnabled(s: State, who: Who) {
    var stage := CallOf(s, who).stage;
    InHandler(stage) && !stage.Waiting? && (stage.Locking? || stage.Woken? ==> s.mutex.Nobody?)
  }

  function After(who: Who): Stage { if who.Startup? then Returned else Idle }

  function PostEvent(s: State, who: Who): State {
    var c := CallOf(s, who);
    var event := EventCode(c.code);
    With(s, who, Call(Posted, c.code, |s.history.posted|))
      .(queue := s.queue + [event], history := s.history.(posted := s.history.posted + [event]))
  }

  function HandleNext(s: State, who: Who): State {
    var c := CallOf(s, who);
    match c.stage
    case Locking => At(s.(mutex := HandlerThread(who)), who, Entered)
    case Entered =>
      if !Posts(c.code) then At(s, who, Unlocking)
      else if PendingStatus(c.code).Some? then At(s.(status := PendingStatus(c.code).value), who, PendingWritten)
      else At(s, who, Posting)
    case PendingWritten => At(Report(s), who, Posting)
    case Posting => PostEvent(s, who)
    case Posted => At(s.(mutex := Nobody), who, Waiting)
    case Woken => At(s.(mutex := HandlerThread(who)), who, Relocked)
    case Relocked =>
      if FinalStatus(c.code).Some? then At(s.(status := FinalStatus(c.code).value), who, FinalWritten)
      else At(s, who, Unlocking)
    case FinalWritten => At(Report(s), who, Unlocking)
    case Unlocking => At(s.(mutex := Nobody), who, Checking)
    case Checking => At(s, who, if s.status.Stopped? then After(who) else Reporting)
    case Reporting => At(Report(s), who, After(who))
    case _ => s
  }

  // The service manager

  /** Controls that post an event are sent neither before the start-up is over nor after the service was told to end. */
  predicate Accepts(s: State) {
    s.reports != [] && !s.reports[|s.reports| - 1].StartPending? && !s.history.ending
  }

  /** Controls reach a registered handler, one at a time. */
  predicate Deliverable(s: State, code: int) {
    0 <= code <= 255 && s.control.stage.Idle? && (s.boot.service.Calling? || s.boot.service.Handling?)
  }

  predicate DeliverEnabled(s: State, code: int) {
    Deliverable(s, code) && (Posts(code) ==> Accepts(s))
  }

  function DeliverNext(s: State, code: int): State {
    var h := s.history;
    s.(control := Call(Locking, code, 0),
       history := h.(ending := h.ending || Ends(code),
                     accepted := h.accepted + if IsUser(code) then [code - 128] else []))
  }

  /** The control sent by `sendCommand`, if it sends one; `running` is what `isRunning` answers. */
  function CommandControl(code: int, running: bool): Option<int> {
    if code < 0 || code > 127 || !running then None else Some(128 + code)
  }

  // Runs

  predicate Enabled(s: State, step: Step) {
    match step
    case Dispatcher(_) => DispatcherEnabled(s.boot)
    case Service(_) => ServiceEnabled(s.boot)
    case MainStep(succeeds) => MainEnabled(s, succeeds)
    case Handle(who) => HandleEnabled(s, who)
    case Deliver(code) => DeliverEnabled(s, code)
  }

  function Next(s: State, step: Step): State {
    match step
    case Dispatcher(connects) => s.(boot := DispatcherNext(s.boot, connects))
    case Service(registers) => ServiceNext(s, registers)
    case MainStep(succeeds) => MainNext(s, succeeds)
    case Handle(who) => HandleNext(s, who)
    case Deliver(code) => DeliverNext(s, code)
  }

  /** The steps can be taken one after the other from the start of the process. */
  predicate IsRun(argv: seq<string>, steps: seq<Step>) {
    || steps == []
    || (IsRun(argv, steps[..|steps| - 1]) && Enabled(StateAfter(argv, steps[..|steps| - 1]), steps[|steps| - 1]))
  }

  function StateAfter(argv: seq<string>, steps: seq<Step>): State {
    if steps == [] then Initial(argv) else Next(StateAfter(argv, steps[..|steps| - 1]), steps[|steps| - 1])
  }
}
