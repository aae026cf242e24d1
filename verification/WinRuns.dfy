/** What every run of the Windows service keeps, step by step and over its whole length. */
module WinRuns {
  import opened Text
  import opened WinService
  import opened WinInvariants

  lemma DispatcherKeeps(s: State, connects: bool)
    requires Inv(s) && DispatcherEnabled(s.boot)
    ensures Inv(Next(s, Dispatcher(connects)))
  {
    DispatcherKeepsBoot(s, connects);
    DispatcherKeepsRest(s, connects);
  }

  lemma ServiceKeeps(s: State, registers: bool)
    requires Inv(s) && ServiceEnabled(s.boot)
    ensures Inv(ServiceNext(s, registers))
  {
    ServiceKeepsBoot(s, registers);
    ServiceKeepsEvents(s, registers);
    ServiceKeepsCommands(s, registers);
    ServiceKeepsControls(s, registers);
  }

  lemma MainKeeps(s: State, succeeds: bool)
    requires Inv(s) && MainEnabled(s, succeeds)
    ensures Inv(MainNext(s, succeeds))
  {
    ControlsAreOrdered(s);
    if Booting(s.main.stage) {
      BootKeepsBoot(s, succeeds);
      BootKeepsRest(s, succeeds);
    } else {
      LoopKeepsMutex(s);
      LoopKeepsBoot(s);
      if s.main.stage.WakeAll? {
        LoopKeepsEventsAtWake(s);
      } else {
        LoopKeepsEvents(s);
      }
      if s.main.stage.Callback? {
        LoopKeepsControlsAtCallback(s);
      } else if s.main.stage.Loop? {
        LoopKeepsControlsAtLoop(s);
      } else {
        LoopKeepsControls(s);
      }
      if LeftTheLoop(s.main.stage) {
        LoopKeepsLastStatus(s);
      } else {
        LoopKeepsStatus(s);
      }
      LoopKeepsCommands(s);
    }
  }

  lemma HandleKeeps(s: State, who: Who)
    requires Inv(s) && HandleEnabled(s, who)
    ensures Inv(HandleNext(s, who))
  {
    ControlsAreOrdered(s);
    match who {
      case Startup =>
        StartupKeepsMutex(s);
        StartupKeepsBoot(s);
        if IsEarly(s.startup.stage) {
          StartupKeepsEventsEarly(s);
          StartupKeepsControlsEarly(s);
          StartupKeepsStatusEarly(s);
        } else {
          StartupKeepsEventsLate(s);
          StartupKeepsControlsLate(s);
          if IsEnding(s.startup.stage) {
            StartupKeepsStatusAtEnd(s);
          } else {
            StartupKeepsStatusLate(s);
          }
        }
        StartupKeepsCommands(s);
      case Control =>
        ControlKeepsMutex(s);
        ControlKeepsBoot(s);
        if IsEarly(s.control.stage) {
          ControlKeepsEventsEarly(s);
          ControlKeepsControlsEarly(s);
          ControlKeepsStatusEarly(s);
        } else {
          ControlKeepsEventsLate(s);
          ControlKeepsControlsLate(s);
          if IsEnding(s.control.stage) {
            ControlKeepsStatusAtEnd(s);
          } else {
            ControlKeepsStatusLate(s);
          }
        }
        ControlKeepsCommands(s);
    }
  }

  lemma StepKeeps(s: State, step: Step)
    requires Inv(s) && Enabled(s, step)
    ensures Inv(Next(s, step))
  {
    match step
    case Dispatcher(connects) => DispatcherKeeps(s, connects);
    case Service(registers) => ServiceKeeps(s, registers);
    case MainStep(succeeds) => MainKeeps(s, succeeds);
    case Handle(who) => HandleKeeps(s, who);
    case Deliver(code) =>
      DeliverKeepsBoot(s, code);
      DeliverKeepsEvents(s, code);
      DeliverKeepsCommands(s, code);
      DeliverKeepsControls(s, code);
  }

  /** The invariant holds after every run. */
  lemma {:induction false} RunKeeps(argv: seq<string>, steps: seq<Step>)
    requires IsRun(argv, steps)
    ensures Inv(StateAfter(argv, steps))
  {
    if steps == [] {
      InitialInv(argv);
    } else {
      RunKeeps(argv, steps[..|steps| - 1]);
      StepKeeps(StateAfter(argv, steps[..|steps| - 1]), steps[|steps| - 1]);
    }
  }

  // Lock-step between handler and the main thread

  /** No wake-up is lost: while a call of handler waits, its own event is in the queue, or the main thread
      has taken it and is still before its wake. */
  lemma NoLostWakeUp(argv: seq<string>, steps: seq<Step>, who: Who)
    requires IsRun(argv, steps)
    ensures var s := StateAfter(argv, steps);
            var c := CallOf(s, who);
            c.stage.Waiting? ==>
              if s.queue == [] then AtEvent(s.main.stage) && s.main.code == EventCode(c.code)
              else s.queue == [EventCode(c.code)] && !AtEvent(s.main.stage)
  {
    RunKeeps(argv, steps);
  }

  /** A call of handler leaves its wait only when the callback for its own event has returned. */
  lemma WokenByOwnCallback(argv: seq<string>, steps: seq<Step>, who: Who)
    requires IsRun(argv, steps)
    ensures var s := StateAfter(argv, steps);
            var c := CallOf(s, who);
            IsWoken(c.stage) && Posts(c.code) ==>
              && c.ticket < |s.history.returned| <= |s.history.posted|
              && s.history.returned[c.ticket] == s.history.posted[c.ticket] == EventCode(c.code)
  {
    RunKeeps(argv, steps);
    var s := StateAfter(argv, steps);
    assert s.history.returned <= s.history.posted;
  }

  // Start-up

  /** The application is created with the complete arguments; nothing is posted before the receiver of events exists;
      a failed dispatcher releases the first semaphore only when `success` is false, and then `start()` gives up. */
  lemma StartHandshake(argv: seq<string>, steps: seq<Step>)
    requires IsRun(argv, steps)
    ensures var s := StateAfter(argv, steps);
            && s.boot.mainArgs <= argv
            && (PastArgs(s.main.stage) ==> s.boot.mainArgs == argv)
            && (s.startup.stage.Posting? || s.control.stage.Posting? ==> s.boot.controllerHandler)
            && (s.boot.dispatcher.Over? ==> !s.boot.success && !PastCheck(s.main.stage))
            && (PastCheck(s.main.stage) ==> s.boot.success && s.boot.serviceArgs == argv)
  {
    RunKeeps(argv, steps);
    RunAccepts(argv, steps);
  }

  // Statuses

  /** A report without its repeats. */
  function Squeezed(reports: seq<Status>): (r: seq<Status>)
    ensures r == [] <==> reports == []
    ensures r != [] ==> r[|r| - 1] == reports[|reports| - 1] && r[0] == reports[0]
  {
    if reports == [] then []
    else
      var front, last := Squeezed(reports[..|reports| - 1]), reports[|reports| - 1];
      if front != [] && front[|front| - 1] == last then front else front + [last]
  }

  /** A service running or paused: pauses and continuations in any order, then the end. */
  predicate IsService(r: seq<Status>)
    decreases |r|
  {
    || r == [Stopped]
    || r == [StopPending, Stopped]
    || (|r| >= 2 && IsService(r[2..])
        && ((r[0] == PausePending && r[1] == Paused) || (r[0] == ContinuePending && r[1] == Running)))
  }

  /** The statuses of a complete life of the service. */
  predicate IsLife(r: seq<Status>) {
    |r| >= 2 && r[0] == StartPending && r[1] == Running && IsService(r[2..])
  }

  predicate IsLegal(r: seq<Status>) {
    forall i | 0 < i < |r| :: Legal(r[i - 1], r[i])
  }

  lemma {:induction false} SqueezedIsLegal(reports: seq<Status>)
    requires IsPath(reports)
    ensures IsLegal(Squeezed(reports))
  {
    if reports != [] {
      var front := reports[..|reports| - 1];
      SqueezedIsLegal(front);
    }
  }

  lemma LegalTail(r: seq<Status>, k: nat)
    requires IsLegal(r) && k <= |r|
    ensures IsLegal(r[k..])
  {
    forall i | 0 < i < |r| - k ensures Legal(r[k..][i - 1], r[k..][i]) {
      assert Legal(r[k + i - 1], r[k + i]);
    }
  }

  lemma {:induction false} LegalIsService(r: seq<Status>)
    requires |r| >= 2 && IsLegal(r) && (r[0].Running? || r[0].Paused?) && r[|r| - 1].Stopped?
    ensures IsService(r[1..])
    decreases |r|
  {
    if |r| == 2 {
      assert r[1..] == [Stopped];
    } else {
      assert Legal(r[0], r[1]) && Legal(r[1], r[2]);
      var rest := r[2..];
      if |r| == 3 {
        assert r[1..] == [r[1], r[2]];
      } else {
        assert Legal(r[2], r[3]);
        LegalTail(r, 2);
        LegalIsService(rest);
        assert r[1..][2..] == rest[1..];
      }
    }
  }

  /** Over every complete run the statuses reported are, up to repeats, those of a life of the service. */
  lemma StatusLanguage(argv: seq<string>, steps: seq<Step>)
    requires IsRun(argv, steps) && StateAfter(argv, steps).main.stage.Finished?
    ensures IsLife(Squeezed(StateAfter(argv, steps).reports))
  {
    RunKeeps(argv, steps);
    var s := StateAfter(argv, steps);
    var r := Squeezed(s.reports);
    SqueezedIsLegal(s.reports);
    assert Legal(r[0], r[1]);
    var rest := r[1..];
    LegalTail(r, 1);
    LegalIsService(rest);
    assert rest[1..] == r[2..];
  }

  /** At any point of any run the reports so far follow the legal changes, starting with the pending start. */
  lemma ReportsAreLegal(argv: seq<string>, steps: seq<Step>)
    requires IsRun(argv, steps)
    ensures var r := Squeezed(StateAfter(argv, steps).reports);
            IsLegal(r) && (r != [] ==> r[0].StartPending?)
  {
    RunKeeps(argv, steps);
    SqueezedIsLegal(StateAfter(argv, steps).reports);
  }

  /** The status of a call of handler that waits for its callback. */
  predicate WaitsIn(code: int, status: Status) {
    if code == STARTUP then status.StartPending?
    else if code == STOP then status.StopPending?
    else if code == PAUSE then status.PausePending?
    else if code == CONTINUE then status.ContinuePending?
    else IsUser(code) ==> status.Running? || status.Paused?
  }

  lemma WaitingStatus(s: State, who: Who)
    requires BootInv(s) && EventInv(s) && ControlInv(s) && StatusInv(s) && CallOf(s, who).stage.Waiting?
    ensures s.reports != [] && s.reports[|s.reports| - 1] == s.status && WaitsIn(CallOf(s, who).code, s.status)
  {
    if who.Control? {
      assert !LeftTheLoop(s.main.stage) && Settled(s.startup.stage);
    }
  }

  lemma FinalStatusIs(s: State)
    requires BootInv(s) && ControlInv(s) && StatusInv(s) && s.control.stage.FinalWritten?
    ensures FinalStatus(s.control.code) == Some(s.status)
  {
    assert !LeftTheLoop(s.main.stage) && Settled(s.startup.stage);
  }

  /** While a call of handler waits, the manager has been told the pending status of its control,
      or, for a user command, that the service is running or paused. */
  lemma ToldWhileWaiting(argv: seq<string>, steps: seq<Step>, who: Who)
    requires IsRun(argv, steps) && CallOf(StateAfter(argv, steps), who).stage.Waiting?
    ensures var s := StateAfter(argv, steps);
            s.reports != [] && s.reports[|s.reports| - 1] == s.status && WaitsIn(CallOf(s, who).code, s.status)
  {
    RunKeeps(argv, steps);
    WaitingStatus(StateAfter(argv, steps), who);
  }

  /** The status that the call for a control sets behind its wait: paused for PAUSE, running for CONTINUE. */
  lemma SetAfterWait(argv: seq<string>, steps: seq<Step>)
    requires IsRun(argv, steps) && StateAfter(argv, steps).control.stage.FinalWritten?
    ensures var s := StateAfter(argv, steps);
            (s.control.code == PAUSE && s.status == Paused) || (s.control.code == CONTINUE && s.status == Running)
  {
    RunKeeps(argv, steps);
    FinalStatusIs(StateAfter(argv, steps));
  }

  /** After the first report of STOPPED only STOPPED is reported, the unlocked reports included. */
  lemma {:induction false} StoppedIsLast(argv: seq<string>, steps: seq<Step>, i: nat, j: nat)
    requires IsRun(argv, steps)
    requires i <= j < |StateAfter(argv, steps).reports| && StateAfter(argv, steps).reports[i].Stopped?
    ensures StateAfter(argv, steps).reports[j].Stopped?
    decreases j - i
  {
    RunKeeps(argv, steps);
    if i < j {
      StoppedIsLast(argv, steps, i, j - 1);
    }
  }

  // User commands

  /** The user commands sent over a run: those of the user controls delivered. */
  function Sent(steps: seq<Step>): seq<int> {
    if steps == [] then [] else Sent(steps[..|steps| - 1]) + SentBy(steps[|steps| - 1])
  }

  function SentBy(step: Step): seq<int> {
    if step.Deliver? && IsUser(step.code) then [step.code - 128] else []
  }

  lemma NextAccepts(s: State, step: Step)
    ensures Next(s, step).history.accepted == s.history.accepted + SentBy(step)
    ensures Next(s, step).boot.argv == s.boot.argv
  {
    match step
    case Dispatcher(connects) =>
    case Service(registers) =>
    case MainStep(succeeds) =>
    case Handle(who) => match who { case Startup => case Control => }
    case Deliver(code) =>
  }

  lemma {:induction false} RunAccepts(argv: seq<string>, steps: seq<Step>)
    ensures StateAfter(argv, steps).history.accepted == Sent(steps) && StateAfter(argv, steps).boot.argv == argv
  {
    if steps != [] {
      var front := steps[..|steps| - 1];
      RunAccepts(argv, front);
      NextAccepts(StateAfter(argv, front), steps[|steps| - 1]);
    }
  }

  /** The commands passed to `processCommand` are those sent, in order, but for one still under way;
      when no control is under way they are exactly those sent. */
  lemma CommandsInOrder(argv: seq<string>, steps: seq<Step>)
    requires IsRun(argv, steps)
    ensures var s := StateAfter(argv, steps);
            && s.history.processed <= Sent(steps) && |Sent(steps)| <= |s.history.processed| + 1
            && (!InHandler(s.control.stage) ==> s.history.processed == Sent(steps))
  {
    RunKeeps(argv, steps);
    RunAccepts(argv, steps);
  }

  /** A command that `sendCommand` sends is a user control and comes back as the same code;
      it sends exactly 0 to 127, to a running service. */
  lemma CommandControlIsUser(code: int, running: bool)
    ensures CommandControl(code, running).Some? <==> 0 <= code <= 127 && running
    ensures match CommandControl(code, running)
            case Some(control) =>
              IsUser(control) && control - 128 == code
              && Posts(control) && EventCode(control) == control && control != STARTUP && !Ends(control)
            case None => true
  {
  }

  // Every request completes

  function CallRank(stage: Stage): nat {
    match stage
    case Idle => 0 case Returned => 0
    case Reporting => 1 case Checking => 2 case Unlocking => 3 case FinalWritten => 4 case Relocked => 5
    case Woken => 6 case Waiting => 7 case Posted => 8
    case Posting => 14 case PendingWritten => 15 case Entered => 16 case Locking => 17
  }

  function MainRank(stage: MainStage): nat {
    match stage
    case GaveUp => 0 case Finished => 0
    case DeleteHandler => 1 case StoppedWritten => 2 case LeftLoop => 3
    case Loop => 4 case UnlockAfterWake => 5 case WakeAll => 6 case LockToWake => 7 case Callback => 8
    case ReleaseServiceMain => 9 case CreateHandler => 10 case CreateApp => 11 case ReadArgs => 12
    case CountArgs => 13 case CheckDispatcher => 14 case AwaitStart => 15
  }

  function ServiceRank(service: ServiceStage): nat {
    match service
    case Gone => 0 case Handling => 0
    case Calling => 18 case Registering => 19 case Acquiring => 20 case Releasing => 21
    case Appending => 22 case NotStarted => 23
  }

  function DispatcherRank(dispatcher: DispatcherStage): nat {
    match dispatcher
    case Connected => 0 case Over => 0
    case Announcing => 1 case FailureWritten => 2 case CallFailed => 3 case Starting => 4
  }

  /** The work still to do before all threads rest. */
  function Work(s: State): int {
    CallRank(s.startup.stage) + CallRank(s.control.stage) + MainRank(s.main.stage) + 5 * |s.queue|
    + ServiceRank(s.boot.service) + DispatcherRank(s.boot.dispatcher)
    + (|s.boot.argv| - |s.boot.serviceArgs|) + (|s.boot.argv| - |s.boot.mainArgs|)
  }

  lemma DispatcherWorks(s: State, connects: bool)
    requires DispatcherEnabled(s.boot)
    ensures Work(Next(s, Dispatcher(connects))) < Work(s)
  {
  }

  lemma ServiceWorks(s: State, registers: bool)
    requires BootInv(s) && ServiceEnabled(s.boot)
    ensures Work(ServiceNext(s, registers)) < Work(s)
  {
  }

  lemma BootWorks(s: State, succeeds: bool)
    requires MainEnabled(s, succeeds) && Booting(s.main.stage)
    ensures Work(BootNext(s, succeeds)) < Work(s)
  {
  }

  lemma LoopWorks(s: State)
    requires MainEnabled(s, true) && !Booting(s.main.stage)
    ensures Work(LoopNext(s)) < Work(s)
  {
  }

  lemma HandleWorks(s: State, who: Who)
    requires HandleEnabled(s, who)
    ensures Work(HandleNext(s, who)) < Work(s)
  {
    match who
    case Startup => match s.startup.stage { case Posting => case _ => }
    case Control => match s.control.stage { case Posting => case _ => }
  }

  /** Every step but the sending of a control lessens the work. */
  lemma StepWorks(s: State, step: Step)
    requires Inv(s) && Enabled(s, step) && !step.Deliver?
    ensures Work(Next(s, step)) < Work(s)
  {
    match step
    case Dispatcher(connects) => DispatcherWorks(s, connects);
    case Service(registers) => ServiceWorks(s, registers);
    case MainStep(succeeds) => if Booting(s.main.stage) { BootWorks(s, succeeds); } else { LoopWorks(s); }
    case Handle(who) => HandleWorks(s, who);
  }

  /** As long as a call of handler is under way, some thread can take a step. */
  lemma SomeStep(s: State, who: Who) returns (step: Step)
    requires Inv(s) && InHandler(CallOf(s, who).stage)
    ensures Enabled(s, step) && !step.Deliver?
  {
    if s.mutex.HandlerThread? {
      return Handle(s.mutex.who);
    }
    if s.mutex.MainThread? || CallOf(s, who).stage.Waiting? {
      return MainStep(true);
    }
    return Handle(who);
  }

  /** Steps taken one after the other from `s`, no control being sent. */
  predicate Undisturbed(s: State, steps: seq<Step>)
    decreases |steps|
  {
    steps == [] || (!steps[0].Deliver? && Enabled(s, steps[0]) && Undisturbed(Next(s, steps[0]), steps[1..]))
  }

  function Reached(s: State, steps: seq<Step>): State
    decreases |steps|
  {
    if steps == [] then s else Reached(Next(s, steps[0]), steps[1..])
  }

  /** Nothing happens any more unless a further control is sent. */
  ghost predicate AtRest(s: State) {
    forall step | Enabled(s, step) :: step.Deliver?
  }

  /** At rest no call of handler is left unfinished, and a service that was told to end has ended and reported so. */
  lemma RestIsComplete(s: State)
    requires Inv(s) && AtRest(s)
    ensures !InHandler(s.startup.stage) && !InHandler(s.control.stage)
    ensures s.history.ending ==> s.main.stage.Finished? && s.reports != [] && s.reports[|s.reports| - 1].Stopped?
  {
    if InHandler(s.startup.stage) {
      var step := SomeStep(s, Startup);
    } else if InHandler(s.control.stage) {
      var step := SomeStep(s, Control);
    }
    assert !Enabled(s, MainStep(true));
  }

  /** A started service at rest in its event loop is running or paused, has reported so, and accepts every control. */
  lemma RestAccepts(s: State, code: int)
    requires Inv(s) && AtRest(s) && s.main.stage.Loop? && s.boot.service.Handling? && 0 <= code <= 255
    ensures (s.status.Running? || s.status.Paused?) && s.reports != [] && s.reports[|s.reports| - 1] == s.status
    ensures DeliverEnabled(s, code)
  {
    RestIsComplete(s);
  }

  /** Every request completes: from any reachable state, whatever the order of the steps, the threads come to rest
      after at most `Work` steps if no further control is sent. */
  lemma {:induction false} RequestsComplete(s: State, steps: seq<Step>)
    requires Inv(s) && Undisturbed(s, steps)
    ensures |steps| <= Work(s) && Inv(Reached(s, steps))
    decreases |steps|
  {
    if steps == [] {
      WorkIsNat(s);
    } else {
      StepWorks(s, steps[0]);
      StepKeeps(s, steps[0]);
      RequestsComplete(Next(s, steps[0]), steps[1..]);
    }
  }

  lemma WorkIsNat(s: State)
    requires Inv(s)
    ensures 0 <= Work(s)
  {
  }
}
