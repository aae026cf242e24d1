/** What holds in every reachable state of the Windows service. */
module WinInvariants {
  import opened Text
  import opened WinService

  // The mutex

  predicate MutexInv(s: State) {
    && (s.mutex == HandlerThread(Startup) <==> HoldsMutex(s.startup.stage))
    && (s.mutex == HandlerThread(Control) <==> HoldsMutex(s.control.stage))
    && (s.mutex == MainThread <==> s.main.stage.WakeAll? || s.main.stage.UnlockAfterWake?)
  }

  // Start-up

  /** serviceMain has released the first semaphore. */
  predicate Released(service: ServiceStage) {
    !service.NotStarted? && !service.Appending? && !service.Releasing?
  }

  /** serviceMain has acquired the second semaphore. */
  predicate PastSecond(service: ServiceStage) {
    service.Registering? || service.Calling? || service.Handling? || service.Gone?
  }

  /** The main thread knows that serviceMain has its arguments. */
  predicate PastCheck(stage: MainStage) {
    !stage.AwaitStart? && !stage.CheckDispatcher? && !stage.GaveUp?
  }

  predicate PastArgs(stage: MainStage) { PastCheck(stage) && !stage.CountArgs? && !stage.ReadArgs? }

  /** The main thread has released serviceMain. */
  predicate AppReady(stage: MainStage) { !Booting(stage) && !stage.GaveUp? }

  predicate BootInv(s: State) {
    var b, m := s.boot, s.main.stage;
    && b.serviceArgs <= b.argv && (b.service.Releasing? || Released(b.service) ==> b.serviceArgs == b.argv)
    && (!b.service.NotStarted? ==> b.dispatcher.Connected?)
    && (b.success <==> b.dispatcher.Starting? || b.dispatcher.Connected? || b.dispatcher.CallFailed?)
    && (b.sem1 > 0 || m.CheckDispatcher? ==> b.dispatcher.Over? || Released(b.service))
    && (PastCheck(m) ==> Released(b.service))
    && (m.ReadArgs? ==> b.argc == |b.argv|) && b.mainArgs <= b.argv && (PastArgs(m) ==> b.mainArgs == b.argv)
    && (b.sem2 > 0 || PastSecond(b.service) ==> AppReady(m))
    && (b.controllerHandler <==> m.ReleaseServiceMain? || (AppReady(m) && !m.Finished?))
    && (s.startup.stage.Idle? <==> !b.service.Handling?) && s.startup.code == STARTUP
    && !s.control.stage.Returned? && 0 <= s.control.code <= 255
    && (!s.control.stage.Idle? ==> b.service.Calling? || b.service.Handling?)
  }

  // Events

  /** The main thread has taken an event and not yet woken the waiter. */
  predicate AtEvent(stage: MainStage) { stage.Callback? || stage.LockToWake? || stage.WakeAll? }

  /** The event of an outstanding call is the only one under way: it is in the queue, or the main thread is at it. */
  predicate UnderWay(s: State, c: Call) {
    && c.ticket == |s.history.posted| - 1 && s.history.posted[c.ticket] == EventCode(c.code)
    && if AtEvent(s.main.stage) then s.queue == [] && s.main.code == EventCode(c.code)
       else s.queue == [EventCode(c.code)]
  }

  /** The callback for the event of this call has returned. */
  predicate Served(s: State, c: Call) {
    c.ticket < |s.history.returned| && s.history.returned[c.ticket] == EventCode(c.code)
  }

  predicate EventInv(s: State) {
    && s.history.posted == s.history.returned + (if s.main.stage.Callback? then [s.main.code] else []) + s.queue
    && !(Outstanding(s.startup.stage) && Outstanding(s.control.stage))
    && (Outstanding(s.startup.stage) ==> UnderWay(s, s.startup))
    && (Outstanding(s.control.stage) ==> UnderWay(s, s.control))
    && (!Outstanding(s.startup.stage) && !Outstanding(s.control.stage) ==> s.queue == [] && !AtEvent(s.main.stage))
    && (IsWoken(s.startup.stage) ==> Served(s, s.startup))
    && (IsWoken(s.control.stage) && Posts(s.control.code) ==> Served(s, s.control))
  }

  // Controls

  /** The start-up call has set the status to running. */
  predicate Started(stage: Stage) {
    stage.FinalWritten? || stage.Unlocking? || stage.Checking? || stage.Reporting? || stage.Returned?
  }

  /** The start-up call is done with the mutex. */
  predicate Settled(stage: Stage) { stage.Checking? || stage.Reporting? || stage.Returned? }

  predicate InPosting(c: Call) { InHandler(c.stage) && Posts(c.code) }

  predicate LeftTheLoop(stage: MainStage) {
    stage.LeftLoop? || stage.StoppedWritten? || stage.DeleteHandler? || stage.Finished?
  }

  predicate ControlInv(s: State) {
    var c, m, h := s.control, s.main, s.history;
    && (InPosting(c) ==> Started(s.startup.stage) && (!c.stage.Locking? ==> Settled(s.startup.stage)))
    && (c.stage.PendingWritten? ==> PendingStatus(c.code).Some?)
    && (c.stage.FinalWritten? ==> FinalStatus(c.code).Some?)
    && (Outstanding(c.stage) || c.stage.Posting? || c.stage.Woken? || c.stage.Relocked? ==> Posts(c.code))
    && (InPosting(c) ==> (h.ending <==> Ends(c.code)))
    && (m.quit ==> h.ending && s.queue == [] && Settled(s.startup.stage) && !m.stage.Callback? && !Booting(m.stage))
    && (m.quit && InPosting(c) ==> Outstanding(c.stage) || IsWoken(c.stage))
    && (LeftTheLoop(m.stage) ==> m.quit)
  }

  /** The start-up call has been woken. */
  predicate PastWake(stage: Stage) { IsWoken(stage) || stage.Returned? }

  /** What keeps the two calls of handler out of each other's way: a call that posts an event
      gets the mutex only when the start-up call has been woken. */
  predicate OrderInv(s: State) {
    var c, m := s.control, s.main;
    && (InPosting(c) ==> PastWake(s.startup.stage) || (c.stage.Locking? && m.stage.WakeAll?))
    && (InHandler(c.stage) && !Posts(c.code) ==>
          c.stage.Locking? || c.stage.Entered? || c.stage.Unlocking? || c.stage.Checking? || c.stage.Reporting?)
    && (m.quit ==> PastWake(s.startup.stage))
    && (LeftTheLoop(m.stage) ==> m.quit)
  }

  lemma ControlsAreOrdered(s: State)
    requires ControlInv(s)
    ensures OrderInv(s)
  {
  }

  // Statuses

  /** The status word changes only along these lines. */
  predicate Legal(a: Status, b: Status) {
    match a
    case StartPending => b.Running?
    case Running => b.PausePending? || b.ContinuePending? || b.StopPending? || b.Stopped?
    case Paused => b.PausePending? || b.ContinuePending? || b.StopPending? || b.Stopped?
    case PausePending => b.Paused?
    case ContinuePending => b.Running?
    case StopPending => b.Stopped?
    case Stopped => false
  }

  predicate IsPath(reports: seq<Status>) {
    && (reports != [] ==> reports[0].StartPending?)
    && forall i | 0 < i < |reports| :: reports[i] == reports[i - 1] || Legal(reports[i - 1], reports[i])
  }

  predicate StopIsWritten(stage: MainStage) { stage.StoppedWritten? || stage.DeleteHandler? || stage.Finished? }

  /** A status is set and its own report still to come. */
  predicate Unreported(s: State) {
    s.startup.stage.PendingWritten? || s.startup.stage.FinalWritten?
    || s.control.stage.PendingWritten? || s.control.stage.FinalWritten? || s.main.stage.StoppedWritten?
  }

  predicate ShowsPending(c: Call) {
    (c.stage.PendingWritten? || c.stage.Posting? || Outstanding(c.stage) || c.stage.Woken? || c.stage.Relocked?)
    && PendingStatus(c.code).Some?
  }

  /** What the status is, thread by thread. */
  predicate StatusIs(s: State) {
    var c := s.control;
    if StopIsWritten(s.main.stage) then s.status.Stopped?
    else if s.startup.stage.Idle? || s.startup.stage.Locking? || s.startup.stage.Entered? then
      s.status.Stopped? && s.reports == [] && !c.stage.Reporting?
    else if !Started(s.startup.stage) then
      s.status.StartPending? && forall i | 0 <= i < |s.reports| :: s.reports[i].StartPending?
    else if ShowsPending(c) then PendingStatus(c.code) == Some(s.status)
    else if c.stage.FinalWritten? then FinalStatus(c.code) == Some(s.status)
    else
      || s.status.Running? || s.status.Paused?
      || (s.status.StopPending? && s.history.ending && !(InPosting(c) && (c.stage.Locking? || c.stage.Entered?)))
  }

  predicate StatusInv(s: State) {
    && StatusIs(s)
    && IsPath(s.reports)
    && (s.reports == [] && !s.startup.stage.PendingWritten? ==> s.status.Stopped? && !Started(s.startup.stage))
    && (s.reports != [] ==>
          var last := s.reports[|s.reports| - 1];
          last == s.status || (Unreported(s) && Legal(last, s.status)))
  }

  // User commands, and the end

  /** The callback for the control under way has returned. */
  predicate CommandDone(s: State) {
    IsWoken(s.control.stage) || (Outstanding(s.control.stage) && (s.main.stage.LockToWake? || s.main.stage.WakeAll?))
  }

  function Unprocessed(s: State): seq<int> {
    if InHandler(s.control.stage) && IsUser(s.control.code) && !CommandDone(s) then [s.control.code - 128] else []
  }

  predicate CommandInv(s: State) {
    && s.history.accepted == s.history.processed + Unprocessed(s)
    // a service told to end has called quit, or is about to
    && (s.history.ending ==> s.main.quit || (InPosting(s.control) && Ends(s.control.code) && !CommandDone(s)))
  }

  predicate Inv(s: State) {
    MutexInv(s) && BootInv(s) && EventInv(s) && ControlInv(s) && StatusInv(s) && CommandInv(s)
  }

  lemma InitialInv(argv: seq<string>)
    ensures Inv(Initial(argv))
  {
  }

  /** A call of handler up to its posting of the event. */
  predicate IsEarly(stage: Stage) {
    stage.Locking? || stage.Entered? || stage.PendingWritten? || stage.Posting?
  }

  /** A call of handler that is about to give up the mutex, or has. */
  predicate IsEnding(stage: Stage) { stage.Unlocking? || stage.Checking? || stage.Reporting? }

  // Steps of the dispatcher thread

  lemma DispatcherKeepsBoot(s: State, connects: bool)
    requires MutexInv(s) && BootInv(s) && DispatcherEnabled(s.boot)
    ensures BootInv(Next(s, Dispatcher(connects))) && MutexInv(Next(s, Dispatcher(connects)))
  {
  }

  lemma DispatcherKeepsRest(s: State, connects: bool)
    requires Inv(s) && DispatcherEnabled(s.boot)
    ensures var s' := Next(s, Dispatcher(connects));
            EventInv(s') && ControlInv(s') && StatusInv(s') && CommandInv(s')
  {
  }

  // Steps of serviceMain

  lemma ServiceKeepsBoot(s: State, registers: bool)
    requires MutexInv(s) && BootInv(s) && ServiceEnabled(s.boot)
    ensures BootInv(ServiceNext(s, registers)) && MutexInv(ServiceNext(s, registers))
  {
  }

  lemma ServiceKeepsEvents(s: State, registers: bool)
    requires BootInv(s) && EventInv(s) && ServiceEnabled(s.boot)
    ensures EventInv(ServiceNext(s, registers))
  {
  }

  lemma ServiceKeepsCommands(s: State, registers: bool)
    requires BootInv(s) && ControlInv(s) && CommandInv(s) && ServiceEnabled(s.boot)
    ensures CommandInv(ServiceNext(s, registers))
  {
  }

  lemma ServiceKeepsControls(s: State, registers: bool)
    requires MutexInv(s) && BootInv(s) && EventInv(s) && ControlInv(s) && StatusInv(s) && ServiceEnabled(s.boot)
    ensures ControlInv(ServiceNext(s, registers)) && StatusInv(ServiceNext(s, registers))
  {
  }

  // Steps of the main thread up to its event loop

  lemma BootKeepsBoot(s: State, succeeds: bool)
    requires MutexInv(s) && BootInv(s) && MainEnabled(s, succeeds) && Booting(s.main.stage)
    ensures BootInv(BootNext(s, succeeds)) && MutexInv(BootNext(s, succeeds))
  {
  }

  lemma BootKeepsRest(s: State, succeeds: bool)
    requires Inv(s) && MainEnabled(s, succeeds) && Booting(s.main.stage)
    ensures var s' := BootNext(s, succeeds);
            EventInv(s') && ControlInv(s') && StatusInv(s') && CommandInv(s')
  {
  }

  // Steps of the event loop and of what follows it

  lemma LoopKeepsMutex(s: State)
    requires MutexInv(s) && MainEnabled(s, true) && !Booting(s.main.stage)
    ensures MutexInv(LoopNext(s))
  {
  }

  lemma LoopKeepsBoot(s: State)
    requires BootInv(s) && MainEnabled(s, true) && !Booting(s.main.stage)
    ensures BootInv(LoopNext(s))
  {
  }

  lemma LoopKeepsEvents(s: State)
    requires MutexInv(s) && BootInv(s) && EventInv(s) && OrderInv(s) && MainEnabled(s, true) && !Booting(s.main.stage)
    requires !s.main.stage.WakeAll?
    ensures EventInv(LoopNext(s))
  {
  }

  lemma LoopKeepsEventsAtWake(s: State)
    requires MutexInv(s) && BootInv(s) && EventInv(s) && OrderInv(s) && MainEnabled(s, true) && !Booting(s.main.stage)
    requires s.main.stage.WakeAll?
    ensures EventInv(LoopNext(s))
  {
  }

  lemma LoopKeepsControlsAtCallback(s: State)
    requires MutexInv(s) && BootInv(s) && EventInv(s) && ControlInv(s) && MainEnabled(s, true) && !Booting(s.main.stage)
    requires s.main.stage.Callback?
    ensures ControlInv(LoopNext(s))
  {
  }

  lemma LoopKeepsControlsAtLoop(s: State)
    requires MutexInv(s) && BootInv(s) && EventInv(s) && ControlInv(s) && MainEnabled(s, true) && !Booting(s.main.stage)
    requires s.main.stage.Loop?
    ensures ControlInv(LoopNext(s))
  {
  }

  lemma LoopKeepsControls(s: State)
    requires MutexInv(s) && BootInv(s) && EventInv(s) && ControlInv(s) && MainEnabled(s, true) && !Booting(s.main.stage)
    requires !s.main.stage.Callback? && !s.main.stage.Loop?
    ensures ControlInv(LoopNext(s))
  {
  }

  lemma LoopKeepsStatus(s: State)
    requires BootInv(s) && ControlInv(s) && StatusInv(s) && MainEnabled(s, true) && !Booting(s.main.stage)
    requires !LeftTheLoop(s.main.stage)
    ensures StatusInv(LoopNext(s))
  {
  }

  lemma LoopKeepsLastStatus(s: State)
    requires BootInv(s) && ControlInv(s) && StatusInv(s) && MainEnabled(s, true) && !Booting(s.main.stage)
    requires LeftTheLoop(s.main.stage)
    ensures StatusInv(LoopNext(s))
  {
  }

  lemma LoopKeepsCommands(s: State)
    requires MutexInv(s) && BootInv(s) && EventInv(s) && ControlInv(s) && CommandInv(s)
    requires MainEnabled(s, true) && !Booting(s.main.stage)
    ensures CommandInv(LoopNext(s))
  {
  }

  // Steps of a call of handler: the start-up

  lemma StartupKeepsMutex(s: State)
    requires MutexInv(s) && HandleEnabled(s, Startup)
    ensures MutexInv(HandleNext(s, Startup))
  {
  }

  lemma StartupKeepsBoot(s: State)
    requires BootInv(s) && HandleEnabled(s, Startup)
    ensures BootInv(HandleNext(s, Startup))
  {
  }

  lemma StartupKeepsEventsEarly(s: State)
    requires MutexInv(s) && BootInv(s) && EventInv(s) && OrderInv(s) && HandleEnabled(s, Startup)
    requires IsEarly(CallOf(s, Startup).stage)
    ensures EventInv(HandleNext(s, Startup))
  {
  }

  lemma StartupKeepsEventsLate(s: State)
    requires MutexInv(s) && BootInv(s) && EventInv(s) && OrderInv(s) && HandleEnabled(s, Startup)
    requires !IsEarly(CallOf(s, Startup).stage)
    ensures EventInv(HandleNext(s, Startup))
  {
  }

  lemma StartupKeepsControlsEarly(s: State)
    requires MutexInv(s) && BootInv(s) && EventInv(s) && ControlInv(s) && HandleEnabled(s, Startup)
    requires IsEarly(CallOf(s, Startup).stage)
    ensures ControlInv(HandleNext(s, Startup))
  {
  }

  lemma StartupKeepsControlsLate(s: State)
    requires MutexInv(s) && BootInv(s) && EventInv(s) && ControlInv(s) && HandleEnabled(s, Startup)
    requires !IsEarly(CallOf(s, Startup).stage)
    ensures ControlInv(HandleNext(s, Startup))
  {
  }

  lemma StartupKeepsStatusEarly(s: State)
    requires BootInv(s) && ControlInv(s) && StatusInv(s) && HandleEnabled(s, Startup)
    requires IsEarly(CallOf(s, Startup).stage)
    ensures StatusInv(HandleNext(s, Startup))
  {
  }

  lemma StartupKeepsStatusLate(s: State)
    requires BootInv(s) && ControlInv(s) && StatusInv(s) && HandleEnabled(s, Startup)
    requires !IsEarly(CallOf(s, Startup).stage) && !IsEnding(CallOf(s, Startup).stage)
    ensures StatusInv(HandleNext(s, Startup))
  {
  }

  lemma StartupKeepsStatusAtEnd(s: State)
    requires BootInv(s) && ControlInv(s) && StatusInv(s) && HandleEnabled(s, Startup)
    requires IsEnding(CallOf(s, Startup).stage)
    ensures StatusInv(HandleNext(s, Startup))
  {
  }

  lemma StartupKeepsCommands(s: State)
    requires MutexInv(s) && BootInv(s) && EventInv(s) && ControlInv(s) && CommandInv(s) && HandleEnabled(s, Startup)
    ensures CommandInv(HandleNext(s, Startup))
  {
  }

  // Steps of a call of handler: the controls

  lemma ControlKeepsMutex(s: State)
    requires MutexInv(s) && HandleEnabled(s, Control)
    ensures MutexInv(HandleNext(s, Control))
  {
  }

  lemma ControlKeepsBoot(s: State)
    requires BootInv(s) && HandleEnabled(s, Control)
    ensures BootInv(HandleNext(s, Control))
  {
  }

  lemma ControlKeepsEventsEarly(s: State)
    requires MutexInv(s) && BootInv(s) && EventInv(s) && OrderInv(s) && HandleEnabled(s, Control)
    requires IsEarly(CallOf(s, Control).stage)
    ensures EventInv(HandleNext(s, Control))
  {
  }

  lemma ControlKeepsEventsLate(s: State)
    requires MutexInv(s) && BootInv(s) && EventInv(s) && OrderInv(s) && HandleEnabled(s, Control)
    requires !IsEarly(CallOf(s, Control).stage)
    ensures EventInv(HandleNext(s, Control))
  {
  }

  lemma ControlKeepsControlsEarly(s: State)
    requires MutexInv(s) && BootInv(s) && EventInv(s) && ControlInv(s) && HandleEnabled(s, Control)
    requires IsEarly(CallOf(s, Control).stage)
    ensures ControlInv(HandleNext(s, Control))
  {
  }

  lemma ControlKeepsControlsLate(s: State)
    requires MutexInv(s) && BootInv(s) && EventInv(s) && ControlInv(s) && HandleEnabled(s, Control)
    requires !IsEarly(CallOf(s, Control).stage)
    ensures ControlInv(HandleNext(s, Control))
  {
  }

  lemma ControlKeepsStatusEarly(s: State)
    requires BootInv(s) && ControlInv(s) && StatusInv(s) && HandleEnabled(s, Control)
    requires IsEarly(CallOf(s, Control).stage)
    ensures StatusInv(HandleNext(s, Control))
  {
  }

  lemma ControlKeepsStatusLate(s: State)
    requires BootInv(s) && ControlInv(s) && StatusInv(s) && HandleEnabled(s, Control)
    requires !IsEarly(CallOf(s, Control).stage) && !IsEnding(CallOf(s, Control).stage)
    ensures StatusInv(HandleNext(s, Control))
  {
  }

  lemma ControlKeepsStatusAtEnd(s: State)
    requires BootInv(s) && ControlInv(s) && StatusInv(s) && HandleEnabled(s, Control)
    requires IsEnding(CallOf(s, Control).stage)
    ensures StatusInv(HandleNext(s, Control))
  {
  }

  lemma ControlKeepsCommands(s: State)
    requires MutexInv(s) && BootInv(s) && EventInv(s) && ControlInv(s) && CommandInv(s) && HandleEnabled(s, Control)
    ensures CommandInv(HandleNext(s, Control))
  {
  }

  // A control from the service manager

  lemma DeliverKeepsBoot(s: State, code: int)
    requires MutexInv(s) && BootInv(s) && Deliverable(s, code)
    ensures BootInv(DeliverNext(s, code)) && MutexInv(DeliverNext(s, code))
  {
  }

  lemma DeliverKeepsEvents(s: State, code: int)
    requires EventInv(s) && Deliverable(s, code)
    ensures EventInv(DeliverNext(s, code))
  {
  }

  lemma DeliverKeepsCommands(s: State, code: int)
    requires MutexInv(s) && BootInv(s) && ControlInv(s) && CommandInv(s) && DeliverEnabled(s, code)
    ensures CommandInv(DeliverNext(s, code))
  {
  }

  lemma DeliverKeepsControls(s: State, code: int)
    requires MutexInv(s) && BootInv(s) && EventInv(s) && ControlInv(s) && StatusInv(s) && DeliverEnabled(s, code)
    ensures ControlInv(DeliverNext(s, code)) && StatusInv(DeliverNext(s, code))
  {
  }
}
