/** How much of the service manager's rule the lock-step of handler needs: controls that post an event may come
    as soon as the wake of the start-up call can no longer be overtaken, and not before. */
module WinBoundary {
  import opened Text
  import opened WinService
  import opened WinInvariants
  import opened WinRuns

  /** The main thread has woken the start-up call, or holds the mutex to do so. */
  predicate BehindWake(s: State) {
    PastWake(s.startup.stage) || s.main.stage.WakeAll?
  }

  /** Steps under the weaker rule: a control that posts an event may come behind the wake of the start-up call,
      while the start is still reported as pending, and after STOP or SHUTDOWN. */
  predicate LateEnabled(s: State, step: Step) {
    if step.Deliver? then Deliverable(s, step.code) && (Posts(step.code) ==> BehindWake(s)) else Enabled(s, step)
  }

  predicate IsLateRun(argv: seq<string>, steps: seq<Step>) {
    || steps == []
    || (var front := steps[..|steps| - 1];
        IsLateRun(argv, front) && LateEnabled(StateAfter(argv, front), steps[|steps| - 1]))
  }

  predicate LateInv(s: State) {
    MutexInv(s) && BootInv(s) && EventInv(s) && OrderInv(s)
  }

  /** Every call of handler that has left its wait was woken by the callback of its own event. */
  predicate LockStep(s: State) {
    forall who: Who ::
      var c := CallOf(s, who);
      IsWoken(c.stage) && Posts(c.code) ==> Served(s, c)
  }

  // The weaker rule suffices

  lemma DispatcherKeepsLate(s: State, connects: bool)
    requires LateInv(s) && DispatcherEnabled(s.boot)
    ensures LateInv(Next(s, Dispatcher(connects)))
  {
    DispatcherKeepsBoot(s, connects);
  }

  lemma ServiceKeepsLate(s: State, registers: bool)
    requires LateInv(s) && ServiceEnabled(s.boot)
    ensures LateInv(ServiceNext(s, registers))
  {
    ServiceKeepsBoot(s, registers);
    ServiceKeepsEvents(s, registers);
  }

  lemma BootKeepsLate(s: State, succeeds: bool)
    requires LateInv(s) && MainEnabled(s, succeeds) && Booting(s.main.stage)
    ensures LateInv(BootNext(s, succeeds))
  {
    BootKeepsBoot(s, succeeds);
  }

  lemma LoopKeepsOrder(s: State)
    requires LateInv(s) && MainEnabled(s, true) && !Booting(s.main.stage)
    ensures OrderInv(LoopNext(s))
  {
  }

  lemma LoopKeepsLate(s: State)
    requires LateInv(s) && MainEnabled(s, true) && !Booting(s.main.stage)
    ensures LateInv(LoopNext(s))
  {
    LoopKeepsMutex(s);
    LoopKeepsBoot(s);
    if s.main.stage.WakeAll? { LoopKeepsEventsAtWake(s); } else { LoopKeepsEvents(s); }
    LoopKeepsOrder(s);
  }

  lemma StartupKeepsOrder(s: State)
    requires LateInv(s) && HandleEnabled(s, Startup)
    ensures OrderInv(HandleNext(s, Startup))
  {
  }

  lemma ControlKeepsOrder(s: State)
    requires LateInv(s) && HandleEnabled(s, Control)
    ensures OrderInv(HandleNext(s, Control))
  {
  }

  lemma HandleKeepsLate(s: State, who: Who)
    requires LateInv(s) && HandleEnabled(s, who)
    ensures LateInv(HandleNext(s, who))
  {
    match who
    case Startup =>
      StartupKeepsMutex(s);
      StartupKeepsBoot(s);
      StartupKeepsOrder(s);
      if IsEarly(s.startup.stage) { StartupKeepsEventsEarly(s); } else { StartupKeepsEventsLate(s); }
    case Control =>
      ControlKeepsMutex(s);
      ControlKeepsBoot(s);
      ControlKeepsOrder(s);
      if IsEarly(s.control.stage) { ControlKeepsEventsEarly(s); } else { ControlKeepsEventsLate(s); }
  }

  lemma LateStepKeeps(s: State, step: Step)
    requires LateInv(s) && LateEnabled(s, step)
    ensures LateInv(Next(s, step))
  {
    match step
    case Dispatcher(connects) => DispatcherKeepsLate(s, connects);
    case Service(registers) => ServiceKeepsLate(s, registers);
    case MainStep(succeeds) => if Booting(s.main.stage) { BootKeepsLate(s, succeeds); } else { LoopKeepsLate(s); }
    case Handle(who) => HandleKeepsLate(s, who);
    case Deliver(code) =>
      DeliverKeepsBoot(s, code);
      DeliverKeepsEvents(s, code);
  }

  lemma {:induction false} LateRunKeeps(argv: seq<string>, steps: seq<Step>)
    requires IsLateRun(argv, steps)
    ensures LateInv(StateAfter(argv, steps))
  {
    if steps == [] {
      InitialInv(argv);
      ControlsAreOrdered(Initial(argv));
    } else {
      LateRunKeeps(argv, steps[..|steps| - 1]);
      LateStepKeeps(StateAfter(argv, steps[..|steps| - 1]), steps[|steps| - 1]);
    }
  }

  /** What the service manager accepts comes behind the wake of the start-up call. */
  lemma AcceptsBehindWake(s: State)
    requires Inv(s) && Accepts(s)
    ensures PastWake(s.startup.stage)
  {
  }

  /** Every run is a run under the weaker rule. */
  lemma {:induction false} RunIsLate(argv: seq<string>, steps: seq<Step>)
    requires IsRun(argv, steps)
    ensures IsLateRun(argv, steps)
  {
    if steps != [] {
      var front := steps[..|steps| - 1];
      RunIsLate(argv, front);
      RunKeeps(argv, front);
      if Accepts(StateAfter(argv, front)) {
        AcceptsBehindWake(StateAfter(argv, front));
      }
    }
  }

  /** Under the weaker rule, too, the lock-step holds after every run. */
  lemma LateRunInLockStep(argv: seq<string>, steps: seq<Step>)
    requires IsLateRun(argv, steps)
    ensures LockStep(StateAfter(argv, steps))
  {
    LateRunKeeps(argv, steps);
  }

  // Any weaker rule does not

  /** Steps taken one after the other from `s`, controls among them as the weaker rule allows. */
  predicate Continues(s: State, steps: seq<Step>)
    decreases |steps|
  {
    steps == [] || (LateEnabled(s, steps[0]) && Continues(Next(s, steps[0]), steps[1..]))
  }

  lemma {:induction false} ContinuesKeeps(s: State, steps: seq<Step>)
    requires LateInv(s) && Continues(s, steps)
    ensures LateInv(Reached(s, steps))
    decreases |steps|
  {
    if steps != [] {
      LateStepKeeps(s, steps[0]);
      ContinuesKeeps(Next(s, steps[0]), steps[1..]);
    }
  }

  /** The lock-step can be lost. */
  ghost predicate CanBreak(s: State) {
    exists steps :: Continues(s, steps) && !LockStep(Reached(s, steps))
  }

  lemma CanBreakBefore(s: State, step: Step)
    requires LateEnabled(s, step) && CanBreak(Next(s, step))
    ensures CanBreak(s)
  {
    var steps :| Continues(Next(s, step), steps) && !LockStep(Reached(Next(s, step), steps));
    var all := [step] + steps;
    assert all[1..] == steps;
    assert Continues(s, all) && Reached(s, all) == Reached(Next(s, step), steps);
  }

  predicate Early(c: Call) { IsEarly(c.stage) || Outstanding(c.stage) }

  /** The events under way when the start-up call has posted its own first. */
  function Behind(c: Call): seq<int> {
    if Outstanding(c.stage) then [EventCode(c.code)] else []
  }

  /** A control that posts an event runs into the start-up: neither call is woken, the start-up comes first,
      and the control waits for the mutex until then. */
  predicate Overtakes(s: State) {
    var u, c, m := s.startup, s.control, s.main.stage;
    && (if s.boot.service.Calling? then u.stage.Idle? else s.boot.service.Handling? && Early(u))
    && u.code == STARTUP && Early(c) && Posts(c.code) && 0 <= c.code <= 255
    && (!c.stage.Locking? ==> u.stage.Waiting?)
    && (m.Loop? || m.UnlockAfterWake? || (AtEvent(m) && s.main.code == STARTUP)) && !s.main.quit
    && s.queue == (if Outstanding(u.stage) && !AtEvent(m) then [STARTUP] else []) + Behind(c)
    && (AtEvent(m) ==> Outstanding(u.stage))
    && s.history.posted == s.history.returned + (if m.Callback? then [s.main.code] else []) + s.queue
    && (Outstanding(c.stage) ==> c.ticket == |s.history.posted| - 1)
    && (m.WakeAll? ==> c.stage.Waiting?)
  }

  /** The next step on the way to the wake: the start-up call, then the control, then the main thread. */
  function Way(s: State): Step
    requires Overtakes(s)
  {
    if s.main.stage.UnlockAfterWake? then MainStep(true)
    else if s.boot.service.Calling? then Service(true)
    else if !s.startup.stage.Waiting? then Handle(Startup)
    else if !s.control.stage.Waiting? then Handle(Control)
    else MainStep(true)
  }

  function Distance(s: State): nat {
    CallRank(s.startup.stage) + CallRank(s.control.stage) + MainRank(s.main.stage) + 5 * |s.queue|
    + ServiceRank(s.boot.service)
  }

  lemma WayIsOpen(s: State)
    requires MutexInv(s) && Overtakes(s)
    ensures Enabled(s, Way(s)) && !Way(s).Deliver?
  {
  }

  lemma WayKeepsMutex(s: State)
    requires MutexInv(s) && Overtakes(s) && Enabled(s, Way(s))
    ensures MutexInv(Next(s, Way(s)))
  {
    match Way(s)
    case MainStep(_) => LoopKeepsMutex(s);
    case Handle(Startup) => StartupKeepsMutex(s);
    case Handle(Control) => ControlKeepsMutex(s);
    case _ =>
  }

  lemma StartupGoesOn(s: State)
    requires MutexInv(s) && Overtakes(s) && Way(s) == Handle(Startup) && HandleEnabled(s, Startup)
    ensures Overtakes(HandleNext(s, Startup)) && Distance(HandleNext(s, Startup)) < Distance(s)
  {
  }

  lemma ControlGoesOn(s: State)
    requires MutexInv(s) && Overtakes(s) && Way(s) == Handle(Control) && HandleEnabled(s, Control)
    ensures Overtakes(HandleNext(s, Control)) && Distance(HandleNext(s, Control)) < Distance(s)
  {
  }

  lemma MainTakesStartup(s: State)
    requires Overtakes(s) && Way(s) == MainStep(true) && MainEnabled(s, true) && s.main.stage.Loop?
    ensures Overtakes(MainNext(s, true)) && Distance(MainNext(s, true)) < Distance(s)
  {
    assert s.queue == [STARTUP] + Behind(s.control);
  }

  lemma MainGoesOn(s: State)
    requires Overtakes(s) && Way(s) == MainStep(true) && MainEnabled(s, true)
    requires !s.main.stage.Loop? && !s.main.stage.WakeAll?
    ensures Overtakes(MainNext(s, true)) && Distance(MainNext(s, true)) < Distance(s)
  {
  }

  lemma ServiceGoesOn(s: State)
    requires Overtakes(s) && Way(s) == Service(true)
    ensures Overtakes(ServiceNext(s, true)) && Distance(ServiceNext(s, true)) < Distance(s)
  {
  }

  /** The wake for the start-up also wakes the control, its event still in the queue. */
  lemma WakeBreaks(s: State)
    requires Overtakes(s) && s.main.stage.WakeAll?
    ensures !LockStep(LoopNext(s))
  {
    var c := LoopNext(s).control;
    assert CallOf(LoopNext(s), Control) == c;
    assert IsWoken(c.stage) && Posts(c.code) && !Served(LoopNext(s), c);
  }

  lemma {:induction false} OvertakingBreaks(s: State)
    requires MutexInv(s) && Overtakes(s)
    ensures CanBreak(s)
    decreases Distance(s)
  {
    var step := Way(s);
    WayIsOpen(s);
    WayKeepsMutex(s);
    if s.main.stage.WakeAll? {
      WakeBreaks(s);
      assert Continues(Next(s, step), []) && Reached(Next(s, step), []) == LoopNext(s);
    } else {
      match step {
        case MainStep(_) => if s.main.stage.Loop? { MainTakesStartup(s); } else { MainGoesOn(s); }
        case Service(_) => ServiceGoesOn(s);
        case Handle(Startup) => StartupGoesOn(s);
        case Handle(Control) => ControlGoesOn(s);
        case _ =>
      }
      OvertakingBreaks(Next(s, step));
    }
    CanBreakBefore(s, step);
  }

  lemma DeliveredTooEarly(s: State, code: int)
    requires LateInv(s) && Deliverable(s, code) && Posts(code) && !BehindWake(s)
    ensures MutexInv(DeliverNext(s, code)) && Overtakes(DeliverNext(s, code))
  {
  }

  lemma KeptCannotBreak(s: State)
    requires LateInv(s)
    ensures !CanBreak(s)
  {
    forall steps | Continues(s, steps) ensures LockStep(Reached(s, steps)) {
      ContinuesKeeps(s, steps);
    }
  }

  /** The boundary of the rule: sending a control that posts an event keeps the lock-step, whatever follows,
      if and only if the start-up call is woken or the main thread holds the mutex to wake it. */
  lemma BoundaryIsExact(argv: seq<string>, steps: seq<Step>, code: int)
    requires IsLateRun(argv, steps) && Deliverable(StateAfter(argv, steps), code) && Posts(code)
    ensures var s := StateAfter(argv, steps); !CanBreak(DeliverNext(s, code)) <==> BehindWake(s)
  {
    LateRunKeeps(argv, steps);
    var s := StateAfter(argv, steps);
    if BehindWake(s) {
      LateStepKeeps(s, Deliver(code));
      KeptCannotBreak(DeliverNext(s, code));
    } else {
      DeliveredTooEarly(s, code);
      OvertakingBreaks(DeliverNext(s, code));
    }
  }

  // A run into the gap

  lemma GoOn(argv: seq<string>, steps: seq<Step>, step: Step) returns (more: seq<Step>)
    requires IsRun(argv, steps) && Enabled(StateAfter(argv, steps), step)
    ensures IsRun(argv, more) && StateAfter(argv, more) == Next(StateAfter(argv, steps), step)
  {
    more := steps + [step];
    assert more[..|steps|] == steps;
  }

  /** A service given one argument, its `serviceMain` waiting for the second semaphore. */
  function Announced(name: string): State {
    Initial([name]).(boot := Boot(Connected, true, false, Acquiring, [name], [name], 0, [], 1, 0, false))
  }

  lemma Announces(name: string) returns (steps: seq<Step>)
    ensures IsRun([name], steps) && StateAfter([name], steps) == Announced(name)
  {
    steps := GoOn([name], [], Dispatcher(true));
    steps := GoOn([name], steps, Service(true));
    steps := GoOn([name], steps, Service(true));
    steps := GoOn([name], steps, Service(true));
    steps := GoOn([name], steps, Service(true));
  }

  /** The same service, its main thread in the event loop. */
  function Created(name: string): State {
    Announced(name).(main := Main(Loop, 0, false),
                     boot := Boot(Connected, true, false, Acquiring, [name], [name], 1, [name], 0, 1, true))
  }

  lemma Creates(name: string) returns (steps: seq<Step>)
    ensures IsRun([name], steps) && StateAfter([name], steps) == Created(name)
  {
    steps := Announces(name);
    steps := GoOn([name], steps, MainStep(true));
    steps := GoOn([name], steps, MainStep(true));
    steps := GoOn([name], steps, MainStep(true));
    steps := GoOn([name], steps, MainStep(true));
    steps := GoOn([name], steps, MainStep(true));
    steps := GoOn([name], steps, MainStep(true));
    steps := GoOn([name], steps, MainStep(true));
    steps := GoOn([name], steps, MainStep(true));
  }

  /** The same service, `handler` called for the start-up. */
  function Called(name: string): State {
    Created(name).(startup := Call(Locking, STARTUP, 0),
                   boot := Boot(Connected, true, false, Handling, [name], [name], 1, [name], 0, 0, true))
  }

  lemma Calls(name: string) returns (steps: seq<Step>)
    ensures IsRun([name], steps) && StateAfter([name], steps) == Called(name)
  {
    steps := Creates(name);
    steps := GoOn([name], steps, Service(true));
    steps := GoOn([name], steps, Service(true));
    steps := GoOn([name], steps, Service(true));
  }

  /** The same service, about to post the event of the start-up. */
  function Asked(name: string): State {
    Called(name).(startup := Call(Posting, STARTUP, 0), mutex := HandlerThread(Startup),
                  status := StartPending, reports := [StartPending])
  }

  lemma Asks(name: string) returns (steps: seq<Step>)
    ensures IsRun([name], steps) && StateAfter([name], steps) == Asked(name)
  {
    steps := Calls(name);
    steps := GoOn([name], steps, Handle(Startup));
    steps := GoOn([name], steps, Handle(Startup));
    steps := GoOn([name], steps, Handle(Startup));
  }

  /** The same service, in the callback of the start-up. */
  function Starts(name: string): State {
    Called(name).(main := Main(Callback, STARTUP, false), startup := Call(Waiting, STARTUP, 0),
                  status := StartPending, reports := [StartPending],
                  history := History([STARTUP], [], [], [], [], false))
  }

  lemma RunsIntoStart(name: string) returns (steps: seq<Step>)
    ensures IsRun([name], steps) && StateAfter([name], steps) == Starts(name)
  {
    steps := Asks(name);
    steps := GoOn([name], steps, Handle(Startup));
    steps := GoOn([name], steps, Handle(Startup));
    steps := GoOn([name], steps, MainStep(true));
  }

  /** The call of handler for a control runs from its start to its wait. */
  function UpToWait(s: State): State {
    var entered := HandleNext(HandleNext(s, Control), Control);
    var posting := if entered.control.stage.PendingWritten? then HandleNext(entered, Control) else entered;
    HandleNext(HandleNext(posting, Control), Control)
  }

  /** The main thread finishes the event it is at. */
  function FinishEvent(s: State): State { LoopNext(LoopNext(LoopNext(s))) }

  lemma WaitsBehindStartup(s: State, code: int)
    requires Inv(s) && s.startup.stage.Waiting? && s.main.stage.Callback? && Deliverable(s, code) && Posts(code)
    ensures var waiting := UpToWait(DeliverNext(s, code));
            && waiting.control == Call(Waiting, code, |s.history.posted|) && waiting.queue == [EventCode(code)]
            && waiting.main == s.main && waiting.startup == s.startup && waiting.history.returned == s.history.returned
  {
    var sent := DeliverNext(s, code);
    assert s.queue == [] && [] + [EventCode(code)] == [EventCode(code)];
  }

  /** A control that posts an event, sent while the callback of the start-up is running, is woken by that callback,
      with its own event still in the queue. */
  lemma ControlDuringStartupIsWokenEarly(s: State, code: int)
    requires Inv(s) && s.startup.stage.Waiting? && s.main.stage.Callback? && Deliverable(s, code) && Posts(code)
    ensures var end := FinishEvent(UpToWait(DeliverNext(s, code)));
            IsWoken(end.control.stage) && !Served(end, end.control) && end.queue == [EventCode(code)]
  {
    WaitsBehindStartup(s, code);
  }

  /** Such a run: an undisturbed start, in which any control that posts an event is woken early. */
  lemma RunIntoTheGap(name: string, code: int) returns (steps: seq<Step>)
    requires 0 <= code <= 255 && Posts(code)
    ensures IsRun([name], steps) && StateAfter([name], steps) == Starts(name)
    ensures Deliverable(Starts(name), code) && CanBreak(DeliverNext(Starts(name), code))
    ensures var end := FinishEvent(UpToWait(DeliverNext(Starts(name), code)));
            IsWoken(end.control.stage) && !Served(end, end.control) && end.queue == [EventCode(code)]
  {
    steps := RunsIntoStart(name);
    RunKeeps([name], steps);
    RunIsLate([name], steps);
    BoundaryIsExact([name], steps, code);
    ControlDuringStartupIsWokenEarly(Starts(name), code);
  }
}
