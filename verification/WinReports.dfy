/** What the service manager is told, and which callback runs, over whole calls of handler: from the moment a control
    is sent to a service at rest until the service is at rest again, in every order of the steps between. */
module WinReports {
  import opened Text
  import opened WinService
  import opened WinInvariants
  import opened WinRuns

  // One call of handler

  /** The step with which a call of handler returns reports the status as it then is;
      nothing is reported only when the service has stopped. */
  lemma ReturnReports(s: State, who: Who)
    requires HandleEnabled(s, who) && InHandler(CallOf(s, who).stage)
    requires !InHandler(CallOf(HandleNext(s, who), who).stage)
    ensures var s' := HandleNext(s, who);
            && s'.status == s.status
            && (s.status != Stopped ==> s'.reports == s.reports + [s.status])
            && (s.status == Stopped ==> s'.reports == s.reports || s'.reports == s.reports + [Stopped])
            // the comparison with SERVICE_STOPPED comes before the report, and the main thread may stop between them
            && (s'.reports == s.reports <==> CallOf(s, who).stage.Checking?)
  {
  }

  // A control that does not end the service

  /** The statuses a control has the manager told, from a service whose status is `now`. */
  function Told(code: int, now: Status): seq<Status> {
    if code == PAUSE then [PausePending, Paused, Paused]
    else if code == CONTINUE then [ContinuePending, Running, Running]
    else if now == Stopped then []
    else [now]
  }

  function StatusBehind(code: int, now: Status): Status {
    if code == PAUSE then Paused else if code == CONTINUE then Running else now
  }

  /** The callbacks a control leads to. */
  function Leads(code: int): seq<Callback> {
    if code == PAUSE then [OnPause]
    else if code == CONTINUE then [OnResume]
    else if code == STOP || code == SHUTDOWN then [OnStop]
    else if 128 <= code <= 255 then [OnCommand(code - 128)]
    else []
  }

  /** The event a control is turned into. */
  function EventsOf(code: int): seq<int> {
    if code == STOP || code == SHUTDOWN then [STOP]
    else if code == PAUSE || code == CONTINUE || 128 <= code <= 255 then [code]
    else []
  }

  /** How many of the statuses of `Told` a call has reported when it is at this stage. */
  function ToldAt(stage: Stage, code: int): nat {
    var pending := if code == PAUSE || code == CONTINUE then 1 else 0;
    match stage
    case Locking => 0 case Entered => 0 case PendingWritten => 0
    case Posting => pending case Posted => pending case Waiting => pending
    case Woken => pending case Relocked => pending case FinalWritten => pending
    case Unlocking => 2 * pending case Checking => 2 * pending case Reporting => 2 * pending
    case _ => 2 * pending + 1
  }

  function Reported(stage: Stage, code: int, now: Status): seq<Status> {
    var told, n := Told(code, now), ToldAt(stage, code);
    if n <= |told| then told[..n] else told
  }

  /** The status when a call is at this stage. */
  function StatusAt(stage: Stage, code: int, now: Status): Status {
    if stage.Locking? || stage.Entered? then now
    else if stage.FinalWritten? || stage.Unlocking? || stage.Checking? || stage.Reporting? || stage.Idle?
    then StatusBehind(code, now)
    else if code == PAUSE then PausePending
    else if code == CONTINUE then ContinuePending
    else now
  }

  /** The event of the control has been handled. */
  predicate Handled(s: State) {
    IsWoken(s.control.stage) || s.control.stage.Idle? || s.main.stage.LockToWake? || s.main.stage.WakeAll?
  }

  /** A service on which nothing is under way: in its event loop, or at its end. */
  predicate Resting(s: State) {
    && s.boot.service.Handling? && !DispatcherEnabled(s.boot) && s.startup.stage.Returned? && s.control.stage.Idle?
    && if s.history.ending then s.main.stage.Finished? && s.status.Stopped?
       else s.main.stage.Loop? && (s.status.Running? || s.status.Paused?)
  }

  lemma RestIsResting(s: State)
    requires Inv(s) && AtRest(s) && s.boot.service.Handling?
    ensures Resting(s)
  {
    RestIsComplete(s);
    assert !Enabled(s, MainStep(true)) && !Enabled(s, Dispatcher(true));
  }

  /** `s` is on the way of a control `code` that does not end the service, sent in `s0`. */
  predicate OnTheWay(s0: State, code: int, s: State) {
    var c := s.control;
    && s.boot == s0.boot && s.startup.stage.Returned?
    && (if s0.status == Stopped then s.main.stage.Finished? && !Posts(code) && !c.stage.Reporting?
        else !s.history.ending)
    && (!c.stage.Idle? ==> c.code == code)
    && s.status == StatusAt(c.stage, code, s0.status)
    && s.reports == s0.reports + Reported(c.stage, code, s0.status)
    && s.history.callbacks == s0.history.callbacks + if Handled(s) then Leads(code) else []
  }

  /** The call for the control has posted its event, if it has one, and nothing else is posted. */
  predicate HasPosted(s0: State, code: int, s: State) {
    && s.startup.stage.Returned? && (!s.control.stage.Idle? ==> s.control.code == code)
    && s.history.posted == s0.history.posted + if IsEarly(s.control.stage) then [] else EventsOf(code)
  }

  lemma PostedIsKept(s0: State, code: int, s: State, step: Step)
    requires HasPosted(s0, code, s) && 0 <= code <= 255 && ControlInv(s) && Enabled(s, step)
    requires step == Handle(Control) || (step.MainStep? && Next(s, step) == MainNext(s, true))
    ensures HasPosted(s0, code, Next(s, step))
  {
    hide PendingStatus, FinalStatus, CallbackOf;
  }

  lemma ReportNext(told: seq<Status>, n: nat, before: seq<Status>)
    requires n < |told|
    ensures before + told[..n + 1] == before + told[..n] + [told[n]]
  {
  }

  lemma HandlerReportsNext(s0: State, code: int, s: State)
    requires 0 <= code <= 255 && !Ends(code) && OnTheWay(s0, code, s) && BootInv(s) && ControlInv(s)
    requires HandleEnabled(s, Control)
    ensures var s' := HandleNext(s, Control);
            && s'.status == StatusAt(s'.control.stage, code, s0.status)
            && s'.reports == s0.reports + Reported(s'.control.stage, code, s0.status)
  {
    var told, n := Told(code, s0.status), ToldAt(s.control.stage, code);
    if n < |told| {
      ReportNext(told, n, s0.reports);
    }
  }

  lemma HandlerStaysOnTheWay(s0: State, code: int, s: State)
    requires 0 <= code <= 255 && !Ends(code) && OnTheWay(s0, code, s) && Inv(s) && HandleEnabled(s, Control)
    ensures OnTheWay(s0, code, HandleNext(s, Control))
  {
    hide Told, ToldAt, Reported, StatusInv;
    HandlerReportsNext(s0, code, s);
  }

  lemma MainStaysOnTheWay(s0: State, code: int, s: State)
    requires 0 <= code <= 255 && !Ends(code) && OnTheWay(s0, code, s) && Inv(s) && MainEnabled(s, true)
    ensures OnTheWay(s0, code, MainNext(s, true))
  {
    hide Told, StatusInv;
  }

  /** Steps other than those of the control and of the main thread are not possible on the way. */
  lemma OnlyTwoMove(s0: State, s: State, step: Step)
    requires Resting(s0) && s.startup.stage.Returned? && Enabled(s, step) && !step.Deliver?
    requires s.boot.dispatcher == s0.boot.dispatcher && s.boot.service == s0.boot.service && AppReady(s.main.stage)
    ensures || step == Handle(Control)
            || (step.MainStep? && MainEnabled(s, true) && MainNext(s, step.succeeds) == MainNext(s, true))
  {
  }

  lemma {:induction false} WayIsKept(s0: State, code: int, s: State, steps: seq<Step>)
    requires Resting(s0) && 0 <= code <= 255 && !Ends(code) && OnTheWay(s0, code, s)
    requires HasPosted(s0, code, s) && Inv(s) && Undisturbed(s, steps)
    ensures OnTheWay(s0, code, Reached(s, steps)) && HasPosted(s0, code, Reached(s, steps)) && Inv(Reached(s, steps))
    decreases |steps|
  {
    hide OnTheWay, HasPosted, Inv, Next, Enabled, HandleNext, MainNext, Resting, MainEnabled, HandleEnabled;
    if steps != [] {
      OneStepOnTheWay(s0, code, s, steps[0]);
      StepKeeps(s, steps[0]);
      WayIsKept(s0, code, Next(s, steps[0]), steps[1..]);
    }
  }

  lemma OneStepOnTheWay(s0: State, code: int, s: State, step: Step)
    requires Resting(s0) && 0 <= code <= 255 && !Ends(code) && OnTheWay(s0, code, s) && HasPosted(s0, code, s) && Inv(s)
    requires Enabled(s, step) && !step.Deliver?
    ensures OnTheWay(s0, code, Next(s, step)) && HasPosted(s0, code, Next(s, step))
  {
    hide Told, StatusAt, ToldAt, Reported, StatusInv, HandleNext, MainNext, Leads;
    OnlyTwoMove(s0, s, step);
    PostedIsKept(s0, code, s, step);
    if step.Handle? {
      HandlerStaysOnTheWay(s0, code, s);
    } else {
      MainStaysOnTheWay(s0, code, s);
    }
  }

  lemma WayStarts(s: State, code: int)
    requires Resting(s) && Inv(s) && DeliverEnabled(s, code) && !Ends(code)
    ensures OnTheWay(s, code, DeliverNext(s, code)) && HasPosted(s, code, DeliverNext(s, code))
  {
  }

  /** A control that does not end the service, sent to a service at rest: in whatever order the threads go on, when
      they rest again the manager has been told exactly the statuses of `Told`, the status is the last of them,
      and exactly the event and the callback of the control have been handled. INTERROGATE, and a control that is not
      known, is answered with the status and does nothing else. */
  lemma ControlAnswered(s: State, code: int, steps: seq<Step>)
    requires Inv(s) && AtRest(s) && s.boot.service.Handling? && DeliverEnabled(s, code) && !Ends(code)
    requires Undisturbed(DeliverNext(s, code), steps) && AtRest(Reached(DeliverNext(s, code), steps))
    ensures var end := Reached(DeliverNext(s, code), steps);
            && end.reports == s.reports + Told(code, s.status)
            && end.status == StatusBehind(code, s.status)
            && end.history.callbacks == s.history.callbacks + Leads(code)
            && end.history.posted == end.history.returned == s.history.posted + EventsOf(code)
            && end.boot == s.boot
  {
    hide Told, Leads;
    var end := Reached(DeliverNext(s, code), steps);
    RestIsResting(s);
    WayStarts(s, code);
    StepKeeps(s, Deliver(code));
    WayIsKept(s, code, DeliverNext(s, code), steps);
    RestIsComplete(end);
    AllReported(code, s.status);
  }

  lemma AllReported(code: int, now: Status)
    ensures Reported(Idle, code, now) == Told(code, now)
  {
  }

  // A control that ends the service

  /** The status between a control that ends the service and its end. */
  function Ending(code: int, now: Status): Status { if code == STOP then StopPending else now }

  function Before(code: int): seq<Status> { if code == STOP then [StopPending] else [] }

  /** The reports from a certain point on are those of a call that has returned, or not, and of the main thread, if it
      has set and reported the last status. */
  predicate LastReports(reports: seq<Status>, base: seq<Status>, now: Status, returned: bool, stopped: bool) {
    if !returned then reports == if stopped then base + [Stopped] else base
    else if stopped then
      reports == base + [Stopped] || reports == base + [now, Stopped] || reports == base + [Stopped, Stopped]
    else reports == base || reports == base + [now] || reports == base + [Stopped]
  }

  /** `s` is on the way of STOP or SHUTDOWN, sent in `s0`. */
  predicate OnTheEnd(s0: State, code: int, s: State) {
    var c, m := s.control.stage, s.main.stage;
    var now, base := Ending(code, s0.status), s0.reports + Before(code);
    && s.boot.dispatcher == s0.boot.dispatcher && s.boot.service == s0.boot.service && s.startup.stage.Returned?
    && s.history.ending && s0.status != Stopped && AppReady(m)
    && (!c.Idle? ==> s.control.code == code)
    && s.history.callbacks == s0.history.callbacks + (if Handled(s) then [OnStop] else [])
    && if c.Locking? || c.Entered? || c.PendingWritten? then
         m.Loop? && s.reports == s0.reports && s.status == if c.PendingWritten? then now else s0.status
       else
         && s.status == (if StopIsWritten(m) then Stopped else now)
         && LastReports(s.reports, base, now, c.Idle?, StopIsWritten(m) && !m.StoppedWritten?)
         && (c.Idle? && !StopIsWritten(m) ==> s.reports == base + [now])
  }

  lemma LastReportsNext(base: seq<Status>, now: Status)
    ensures base + [now] + [Stopped] == base + [now, Stopped]
    ensures base + [Stopped] + [Stopped] == base + [Stopped, Stopped]
  {
  }

  lemma HandlerStaysOnTheEnd(s0: State, code: int, s: State)
    requires (code == STOP || code == SHUTDOWN) && OnTheEnd(s0, code, s) && Inv(s) && HandleEnabled(s, Control)
    ensures OnTheEnd(s0, code, HandleNext(s, Control))
  {
    hide StatusInv, CommandInv;
    LastReportsNext(s0.reports + Before(code), Ending(code, s0.status));
    assert s0.reports + [] == s0.reports;
  }

  lemma MainStaysOnTheEnd(s0: State, code: int, s: State)
    requires (code == STOP || code == SHUTDOWN) && OnTheEnd(s0, code, s) && Inv(s) && MainEnabled(s, true)
    requires !LeftTheLoop(s.main.stage) && !s.main.stage.Callback? && !s.main.stage.Loop?
    ensures OnTheEnd(s0, code, MainNext(s, true))
  {
    hide StatusInv, BootInv, CommandInv, LastReports;
  }

  lemma MainInLoop(s0: State, code: int, s: State)
    requires (code == STOP || code == SHUTDOWN) && OnTheEnd(s0, code, s) && Inv(s) && MainEnabled(s, true)
    requires s.main.stage.Loop?
    ensures OnTheEnd(s0, code, MainNext(s, true))
  {
    hide StatusInv, BootInv, CommandInv, LastReports;
  }

  lemma MainCallsStop(s0: State, code: int, s: State)
    requires (code == STOP || code == SHUTDOWN) && OnTheEnd(s0, code, s) && Inv(s) && s.main.stage.Callback?
    ensures OnTheEnd(s0, code, MainNext(s, true))
  {
    hide StatusInv, BootInv, CommandInv, LastReports;
  }

  lemma MainEnds(s0: State, code: int, s: State)
    requires (code == STOP || code == SHUTDOWN) && OnTheEnd(s0, code, s) && Inv(s) && MainEnabled(s, true)
    requires LeftTheLoop(s.main.stage)
    ensures OnTheEnd(s0, code, MainNext(s, true))
  {
    hide StatusInv, BootInv, CommandInv;
    LastReportsNext(s0.reports + Before(code), Ending(code, s0.status));
  }

  lemma OneStepOnTheEnd(s0: State, code: int, s: State, step: Step)
    requires Resting(s0) && (code == STOP || code == SHUTDOWN)
    requires OnTheEnd(s0, code, s) && HasPosted(s0, code, s) && Inv(s)
    requires Enabled(s, step) && !step.Deliver?
    ensures OnTheEnd(s0, code, Next(s, step)) && HasPosted(s0, code, Next(s, step))
  {
    hide LastReports, StatusInv, HandleNext, MainNext;
    OnlyTwoMove(s0, s, step);
    PostedIsKept(s0, code, s, step);
    if step.Handle? {
      HandlerStaysOnTheEnd(s0, code, s);
    } else if LeftTheLoop(s.main.stage) {
      MainEnds(s0, code, s);
    } else if s.main.stage.Callback? {
      MainCallsStop(s0, code, s);
    } else if s.main.stage.Loop? {
      MainInLoop(s0, code, s);
    } else {
      MainStaysOnTheEnd(s0, code, s);
    }
  }

  lemma {:induction false} EndIsKept(s0: State, code: int, s: State, steps: seq<Step>)
    requires Resting(s0) && (code == STOP || code == SHUTDOWN) && OnTheEnd(s0, code, s)
    requires HasPosted(s0, code, s) && Inv(s) && Undisturbed(s, steps)
    ensures OnTheEnd(s0, code, Reached(s, steps)) && HasPosted(s0, code, Reached(s, steps)) && Inv(Reached(s, steps))
    decreases |steps|
  {
    hide OnTheEnd, HasPosted, Inv, Next, Enabled, HandleNext, MainNext, Resting, MainEnabled, HandleEnabled;
    if steps != [] {
      OneStepOnTheEnd(s0, code, s, steps[0]);
      StepKeeps(s, steps[0]);
      EndIsKept(s0, code, Next(s, steps[0]), steps[1..]);
    }
  }

  lemma EndStarts(s: State, code: int)
    requires Resting(s) && Inv(s) && DeliverEnabled(s, code) && (code == STOP || code == SHUTDOWN)
    ensures OnTheEnd(s, code, DeliverNext(s, code)) && HasPosted(s, code, DeliverNext(s, code))
  {
  }

  /** STOP or SHUTDOWN sent to a service at rest: when the threads rest again the service has ended and `stop` was
      called once. STOP is reported as pending first, SHUTDOWN is not; then STOPPED is reported, and the call of handler
      reports the status it finds, the one before the end or STOPPED once more, or none when it has found
      the service stopped. */
  lemma EndAnswered(s: State, code: int, steps: seq<Step>)
    requires Inv(s) && AtRest(s) && s.boot.service.Handling?
    requires DeliverEnabled(s, code) && (code == STOP || code == SHUTDOWN)
    requires Undisturbed(DeliverNext(s, code), steps) && AtRest(Reached(DeliverNext(s, code), steps))
    ensures var end := Reached(DeliverNext(s, code), steps);
            var base := s.reports + if code == STOP then [StopPending] else [];
            var now := if code == STOP then StopPending else s.status;
            && end.main.stage.Finished? && end.status == Stopped
            && (|| end.reports == base + [Stopped] || end.reports == base + [now, Stopped]
                || end.reports == base + [Stopped, Stopped])
            && end.history.callbacks == s.history.callbacks + [OnStop]
            && end.history.posted == end.history.returned == s.history.posted + [STOP]
  {
    var end := Reached(DeliverNext(s, code), steps);
    RestIsResting(s);
    EndStarts(s, code);
    StepKeeps(s, Deliver(code));
    EndIsKept(s, code, DeliverNext(s, code), steps);
    RestIsComplete(end);
  }

  // The start-up

  /** The first statuses of a service, and how many of them the start-up call has reported. */
  const STARTED := [StartPending, Running, Running]

  function StartedAt(stage: Stage): nat {
    match stage
    case Idle => 0 case Locking => 0 case Entered => 0 case PendingWritten => 0
    case Unlocking => 2 case Checking => 2 case Reporting => 2
    case Returned => 3
    case _ => 1
  }

  predicate OnTheStart(s: State) {
    var u := s.startup.stage;
    && s.control.stage.Idle? && !s.main.quit && s.reports == STARTED[..StartedAt(u)]
    && s.status == (if u.Idle? || u.Locking? || u.Entered? then Stopped
                    else if StartedAt(u) >= 2 || u.FinalWritten? then Running else StartPending)
    && s.history.callbacks == if IsWoken(u) || u.Returned? || s.main.stage.LockToWake? || s.main.stage.WakeAll?
                              then [OnStart] else []
  }

  lemma StartReportsNext(s: State)
    requires OnTheStart(s) && BootInv(s) && HandleEnabled(s, Startup)
    ensures OnTheStart(HandleNext(s, Startup))
  {
    assert STARTED[..1] == [StartPending] && STARTED[..2] == [StartPending] + [Running];
    assert STARTED[..3] == STARTED[..2] + [Running];
  }

  lemma OneStepOnTheStart(s: State, step: Step)
    requires OnTheStart(s) && Inv(s) && Enabled(s, step) && !step.Deliver?
    ensures OnTheStart(Next(s, step))
  {
    hide StatusInv, CommandInv;
    match step
    case Handle(Startup) => StartReportsNext(s);
    case _ =>
  }

  lemma {:induction false} StartIsKept(s: State, steps: seq<Step>)
    requires OnTheStart(s) && Inv(s) && Undisturbed(s, steps)
    ensures OnTheStart(Reached(s, steps)) && Inv(Reached(s, steps))
    decreases |steps|
  {
    hide OnTheStart, Inv, Next, Enabled;
    if steps != [] {
      OneStepOnTheStart(s, steps[0]);
      StepKeeps(s, steps[0]);
      StartIsKept(Next(s, steps[0]), steps[1..]);
    }
  }

  /** The start-up of a service that is sent no control: when the threads rest and handler was called, START_PENDING and
      RUNNING have been reported, RUNNING again at the return of the call, and `start` was called once;
      when it was not called, nothing was reported and no callback has run. */
  lemma StartAnswered(argv: seq<string>, steps: seq<Step>)
    requires Undisturbed(Initial(argv), steps) && AtRest(Reached(Initial(argv), steps))
    ensures var end := Reached(Initial(argv), steps);
            if end.boot.service.Handling?
            then
              && end.reports == [StartPending, Running, Running] && end.status == Running
              && end.history.callbacks == [OnStart]
            else end.reports == [] && end.status == Stopped && end.history.callbacks == []
  {
    hide Inv, OnTheStart, AtRest, Reached, Undisturbed;
    InitialInv(argv);
    StartStarts(argv);
    StartIsKept(Initial(argv), steps);
    StartEnds(Reached(Initial(argv), steps));
  }

  lemma StartStarts(argv: seq<string>)
    ensures OnTheStart(Initial(argv))
  {
    assert STARTED[..0] == [];
  }

  lemma StartEnds(s: State)
    requires OnTheStart(s) && Inv(s) && AtRest(s)
    ensures if s.boot.service.Handling?
            then s.reports == STARTED && s.status == Running && s.history.callbacks == [OnStart]
            else s.reports == [] && s.status == Stopped && s.history.callbacks == []
  {
    hide StatusInv, CommandInv;
    RestIsComplete(s);
    assert STARTED[..3] == STARTED;
  }

  /** The main thread gives up exactly when it gets no semaphore in time, when the dispatcher has failed,
      or when there is no application. */
  lemma StartGivesUp(s: State, succeeds: bool)
    requires Inv(s) && MainEnabled(s, succeeds)
    ensures MainNext(s, succeeds).main.stage.GaveUp? <==>
              || ((s.main.stage.AwaitStart? || s.main.stage.CreateApp?) && !succeeds)
              || (s.main.stage.CheckDispatcher? && !s.boot.dispatcher.Starting? && !s.boot.dispatcher.Connected?
                  && !s.boot.dispatcher.CallFailed?)
  {
  }

  /** A start that was given up has reported nothing, and handler is not called. */
  lemma GaveUpIsSilent(argv: seq<string>, steps: seq<Step>)
    requires IsRun(argv, steps) && StateAfter(argv, steps).main.stage.GaveUp?
    ensures var s := StateAfter(argv, steps);
            s.reports == [] && s.startup.stage.Idle? && s.control.stage.Idle? && !s.boot.controllerHandler
  {
    RunKeeps(argv, steps);
  }

  /** A dispatcher that connects stays; one that fails sets `success` to false, notes whether the program was started
      from a console, and only then releases the first semaphore, once. */
  lemma DispatcherRuns(b: Boot, console: bool, c: bool, d: bool)
    requires b.dispatcher.Starting? && b.success
    ensures var connected := DispatcherNext(b, true);
            connected == b.(dispatcher := Connected) && !DispatcherEnabled(connected)
    ensures var failed := DispatcherNext(DispatcherNext(DispatcherNext(DispatcherNext(b, false), c), console), d);
            && failed == b.(dispatcher := Over, success := false, console := console, sem1 := b.sem1 + 1)
            && !DispatcherEnabled(failed)
  {
  }

  /** Without a registration `serviceMain` ends, and handler is not called. */
  lemma UnregisteredEnds(s: State)
    requires Inv(s) && s.boot.service.Registering?
    ensures var s' := ServiceNext(s, false);
            s' == s.(boot := s.boot.(service := s'.boot.service)) && !ServiceEnabled(s'.boot)
            && s'.startup.stage.Idle? && s'.control.stage.Idle? && s'.reports == []
            && forall code :: !Deliverable(s', code)
  {
  }

  // Callbacks over whole runs

  function Callbacks(events: seq<int>): seq<Callback> {
    if events == [] then [] else Callbacks(events[..|events| - 1]) + CallbackOf(events[|events| - 1])
  }

  lemma StepCallsBack(s: State, step: Step)
    requires s.history.callbacks == Callbacks(s.history.returned)
    ensures Next(s, step).history.callbacks == Callbacks(Next(s, step).history.returned)
  {
    hide CallbackOf;
    assert (s.history.returned + [s.main.code])[..|s.history.returned|] == s.history.returned;
  }

  /** Over every run the callbacks are those of the events handled, in order. */
  lemma {:induction false} RunCallsBack(argv: seq<string>, steps: seq<Step>)
    ensures var h := StateAfter(argv, steps).history; h.callbacks == Callbacks(h.returned)
  {
    if steps != [] {
      RunCallsBack(argv, steps[..|steps| - 1]);
      StepCallsBack(StateAfter(argv, steps[..|steps| - 1]), steps[|steps| - 1]);
    }
  }
}
