/**
 The API process from its first select to its end, as interleaved steps of the main goroutine, the
 server goroutine, the limiter's background loop, the exit timer and the one-slot channel.
 */
module Shutdown {
  import opened Options

  type Message = string

  datatype ExitError =
    | WaitTimeout
    | ServerFailed(message: Message)

  datatype Main =
    | Selecting
    | AtStop
    | AtDrain
    | Draining
    | AtForce
    | Waiting
    | Returned(wasForced: bool, exit: Option<ExitError>)
    | Fatal(message: Message)
    | Quiet

  /** The server goroutine: inside Run, about to send what Run returned, or done. */
  datatype Server =
    | Serving
    | Sending(result: Option<Message>)
    | Sent(result: Option<Message>)

  datatype State = State(
    main: Main,
    server: Server,
    channel: seq<Option<Message>>,
    httpDown: bool,
    timerFired: bool,
    forced: bool,
    hasLimiter: bool,
    stopClosed: bool,
    sweeping: bool,
    // How often the stop channel was closed, and what main received.
    stopCloses: nat,
    received: seq<Option<Message>>
  )

  const CAPACITY := 1

  function Init(hasLimiter: bool): State {
    State(Selecting, Serving, [], false, false, false, hasLimiter, false, hasLimiter, 0, [])
  }

  datatype ServerAction =
    | ListenFails(message: Message)
    | ListenStops
    | Send

  datatype MainAction =
    | ReceiveFirst
    | Signal
    | StopLimiter
    | BeginDrain
    | DrainDone
    | DrainFails
    | ForceClose
    | ReceiveExit
    | ExitTimesOut

  datatype Action =
    | ServerDoes(server: ServerAction)
    | MainDoes(main: MainAction)
    | TimerFires
    | SweeperStops

  /** Stop: the check before the close makes a second call harmless. */
  function Stop(s: State): State {
    if s.hasLimiter && !s.stopClosed then s.(stopClosed := true, stopCloses := s.stopCloses + 1) else s
  }

  function ExitOf(result: Option<Message>): Option<ExitError> {
    match result
    case None => None
    case Some(message) => Some(ServerFailed(message))
  }

  function Receive(s: State): State
    requires s.channel != []
  {
    s.(channel := s.channel[1..], received := s.received + [s.channel[0]])
  }

  /** Listening fails at any time, or stops because the HTTP server was shut down or closed. */
  function ServerStep(s: State, a: ServerAction): Option<State> {
    match a
    case ListenFails(message) =>
      if s.server.Serving? then Some(s.(server := Sending(Some(message)))) else None
    case ListenStops =>
      if s.server.Serving? && s.httpDown then Some(s.(server := Sending(None))) else None
    case Send =>
      if s.server.Sending? && |s.channel| < CAPACITY
      then Some(s.(server := Sent(s.server.result), channel := s.channel + [s.server.result]))
      else None
  }

  function MainStep(s: State, a: MainAction): Option<State> {
    match a
    case ReceiveFirst =>
      if s.main.Selecting? && s.channel != [] then
        Some(Receive(s).(main := if s.channel[0].Some? then Fatal(s.channel[0].value) else Quiet))
      else None
    case Signal => if s.main.Selecting? then Some(s.(main := AtStop)) else None
    case StopLimiter => if s.main.AtStop? then Some(Stop(s).(main := AtDrain)) else None
    case BeginDrain => if s.main.AtDrain? then Some(s.(main := Draining, httpDown := true)) else None
    case DrainDone => if s.main.Draining? then Some(s.(main := Waiting)) else None
    case DrainFails =>
      if s.main.Draining? then Some(s.(main := AtForce, forced := true)) else None
    case ForceClose => if s.main.AtForce? then Some(Stop(s).(main := Waiting, httpDown := true)) else None
    case ReceiveExit =>
      if s.main.Waiting? && s.channel != [] then
        Some(Receive(s).(main := Returned(s.forced, ExitOf(s.channel[0]))))
      else None
    case ExitTimesOut =>
      if s.main.Waiting? && s.timerFired then Some(s.(main := Returned(s.forced, Some(WaitTimeout)))) else None
  }

  /** One step, if it can be taken. */
  function Apply(s: State, a: Action): Option<State> {
    match a
    case ServerDoes(server) => ServerStep(s, server)
    case MainDoes(main) => MainStep(s, main)
    case TimerFires => if s.main.Waiting? && !s.timerFired then Some(s.(timerFired := true)) else None
    case SweeperStops => if s.sweeping && s.stopClosed then Some(s.(sweeping := false)) else None
  }

  /** The state after an interleaving, if it is one. */
  function After(start: State, actions: seq<Action>): Option<State> {
    if actions == [] then Some(start)
    else
      match After(start, actions[..|actions| - 1])
      case None => None
      case Some(s) => Apply(s, actions[|actions| - 1])
  }

  // What the channel has seen of the server goroutine's one result.
  ghost predicate OneResult(s: State) {
    match s.server
    case Sent(result) => s.received + s.channel == [result]
    case _ => s.received == [] && s.channel == []
  }

  // The stop channel is closed from Shutdown's first step on, exactly once.
  ghost predicate StopOnce(s: State) {
    && s.stopCloses == (if s.stopClosed then 1 else 0)
    && (s.stopClosed <==> s.hasLimiter && !(s.main.Selecting? || s.main.AtStop? || s.main.Fatal? || s.main.Quiet?))
    && (s.hasLimiter && !s.sweeping ==> s.stopClosed)
    && (!s.hasLimiter ==> !s.sweeping)
  }

  // Where the main goroutine is, what it has done.
  ghost predicate MainKnows(s: State) {
    && (s.httpDown <==> s.main.Draining? || s.main.AtForce? || s.main.Waiting? || s.main.Returned?)
    && (s.server.Sending? && s.server.result.None? ==> s.httpDown)
    && (s.server.Sent? && s.server.result.None? ==> s.httpDown)
    && match s.main
       case Quiet => false
       case Fatal(message) => s.received == [Some(message)]
       case Returned(_, exit) =>
         if exit == Some(WaitTimeout) then s.received == [] && s.timerFired
         else s.received != [] && exit == ExitOf(s.received[0])
       case _ => s.received == []
  }

  ghost predicate Inv(s: State) {
    OneResult(s) && StopOnce(s) && MainKnows(s)
  }

  lemma ServerKeepsInv(s: State, a: ServerAction)
    requires Inv(s) && ServerStep(s, a).Some?
    ensures Inv(ServerStep(s, a).value) && ServerStep(s, a).value.hasLimiter == s.hasLimiter
  {
  }

  lemma ReceiveTakesTheResult(s: State)
    requires Inv(s) && s.channel != [] && s.received == []
    ensures s.server == Sent(s.channel[0])
    ensures OneResult(Receive(s)) && Receive(s).received == [s.channel[0]]
  {
    assert s.received + s.channel == s.channel;
  }

  lemma MainKeepsInv(s: State, a: MainAction)
    requires Inv(s) && MainStep(s, a).Some?
    ensures Inv(MainStep(s, a).value) && MainStep(s, a).value.hasLimiter == s.hasLimiter
  {
    if a.ReceiveFirst? || a.ReceiveExit? {
      ReceiveTakesTheResult(s);
    }
  }

  lemma InvStep(s: State, a: Action)
    requires Inv(s) && Apply(s, a).Some?
    ensures Inv(Apply(s, a).value) && Apply(s, a).value.hasLimiter == s.hasLimiter
  {
    match a
    case ServerDoes(server) => ServerKeepsInv(s, server);
    case MainDoes(main) => MainKeepsInv(s, main);
    case _ =>
  }

  lemma {:induction false} InvReachable(hasLimiter: bool, actions: seq<Action>)
    requires After(Init(hasLimiter), actions).Some?
    ensures Inv(After(Init(hasLimiter), actions).value)
    ensures After(Init(hasLimiter), actions).value.hasLimiter == hasLimiter
  {
    if actions == [] {
    } else {
      var earlier := actions[..|actions| - 1];
      InvReachable(hasLimiter, earlier);
      InvStep(After(Init(hasLimiter), earlier).value, actions[|actions| - 1]);
    }
  }

  // The way main takes ------------------------------------------------------------------------------

  /** The steps of an interleaving that main took. */
  function MainsOf(actions: seq<Action>): seq<MainAction> {
    if actions == [] then []
    else
      var earlier, last := MainsOf(actions[..|actions| - 1]), actions[|actions| - 1];
      if last.MainDoes? then earlier + [last.main] else earlier
  }

  /** From the signal to the wait, with a graceful shutdown that failed or not. */
  function DrainPath(failed: bool): seq<MainAction> {
    [Signal, StopLimiter, BeginDrain] + (if failed then [DrainFails, ForceClose] else [DrainDone])
  }

  /** The only steps that lead main to where it is. */
  function PathTo(main: Main, forced: bool): seq<MainAction> {
    match main
    case Selecting => []
    case Fatal(_) => [ReceiveFirst]
    case Quiet => [ReceiveFirst]
    case AtStop => [Signal]
    case AtDrain => [Signal, StopLimiter]
    case Draining => [Signal, StopLimiter, BeginDrain]
    case AtForce => [Signal, StopLimiter, BeginDrain, DrainFails]
    case Waiting => DrainPath(forced)
    case Returned(wasForced, exit) =>
      DrainPath(wasForced) + [if exit == Some(WaitTimeout) then ExitTimesOut else ReceiveExit]
  }

  // The flag belongs to the place.
  ghost predicate FlagFits(s: State) {
    match s.main
    case AtForce => s.forced
    case Waiting => true
    case Returned(wasForced, _) => wasForced == s.forced
    case _ => !s.forced
  }

  lemma MainStepExtendsPath(s: State, a: MainAction)
    requires FlagFits(s) && MainStep(s, a).Some?
    ensures
      var s' := MainStep(s, a).value;
      FlagFits(s') && PathTo(s'.main, s'.forced) == PathTo(s.main, s.forced) + [a]
  {
  }

  lemma ServerStepKeepsPlace(s: State, a: ServerAction)
    requires ServerStep(s, a).Some?
    ensures ServerStep(s, a).value.main == s.main && ServerStep(s, a).value.forced == s.forced
  {
  }

  /** In every interleaving main takes the one path to where it stands. */
  lemma {:induction false} MainTakesItsPath(hasLimiter: bool, actions: seq<Action>)
    requires After(Init(hasLimiter), actions).Some?
    ensures
      var s := After(Init(hasLimiter), actions).value;
      FlagFits(s) && MainsOf(actions) == PathTo(s.main, s.forced)
  {
    if actions == [] {
    } else {
      var earlier, last := actions[..|actions| - 1], actions[|actions| - 1];
      MainTakesItsPath(hasLimiter, earlier);
      var s := After(Init(hasLimiter), earlier).value;
      match last
      case MainDoes(main) => MainStepExtendsPath(s, main);
      case ServerDoes(server) => ServerStepKeepsPlace(s, server);
      case _ =>
    }
  }

  lemma {:induction false} MainsOfMember(actions: seq<Action>, a: MainAction)
    ensures a in MainsOf(actions) <==> MainDoes(a) in actions
  {
    if actions == [] {
    } else {
      MainsOfMember(actions[..|actions| - 1], a);
    }
  }

  // The properties ---------------------------------------------------------------------------------

  /** The server goroutine is never stuck on its send, even when nobody waits for it any more. */
  lemma SendNeverBlocks(hasLimiter: bool, actions: seq<Action>)
    requires After(Init(hasLimiter), actions).Some?
    requires After(Init(hasLimiter), actions).value.server.Sending?
    ensures Apply(After(Init(hasLimiter), actions).value, ServerDoes(Send)).Some?
  {
    InvReachable(hasLimiter, actions);
  }

  /** What main gets is what the server returned, once at most, and no value is lost or made up. */
  lemma ReceivedWhatWasSent(hasLimiter: bool, actions: seq<Action>)
    requires After(Init(hasLimiter), actions).Some?
    ensures
      var s := After(Init(hasLimiter), actions).value;
      && |s.received| + |s.channel| == (if s.server.Sent? then 1 else 0)
      && (s.received != [] ==> s.server == Sent(s.received[0]))
  {
    InvReachable(hasLimiter, actions);
    var s := After(Init(hasLimiter), actions).value;
    if s.server.Sent? {
      assert s.received + s.channel == [s.server.result];
      assert |s.received| + |s.channel| == 1;
      if s.received != [] { assert s.received[0] == (s.received + s.channel)[0]; }
    }
  }

  /** The first select never returns quietly: without a shutdown the server only ends with an error. */
  lemma FirstSelectNeverQuiet(hasLimiter: bool, actions: seq<Action>)
    requires After(Init(hasLimiter), actions).Some?
    ensures !After(Init(hasLimiter), actions).value.main.Quiet?
  {
    InvReachable(hasLimiter, actions);
  }

  /** The flag is set exactly in the interleavings in which the graceful shutdown failed. */
  lemma ForcedIffDrainFailed(hasLimiter: bool, actions: seq<Action>)
    requires After(Init(hasLimiter), actions).Some?
    ensures
      var s := After(Init(hasLimiter), actions).value;
      && (s.forced <==> MainDoes(DrainFails) in actions)
      && (s.main.Returned? ==> (s.main.wasForced <==> MainDoes(DrainFails) in actions))
  {
    MainTakesItsPath(hasLimiter, actions);
    MainsOfMember(actions, DrainFails);
  }

  // What the server goroutine holds, by what its listener did.
  ghost predicate ResultOf(server: Server, actions: seq<Action>) {
    && (server.Serving? ==>
         ServerDoes(ListenStops) !in actions && forall m :: ServerDoes(ListenFails(m)) !in actions)
    && (!server.Serving? ==>
         && (ServerDoes(ListenStops) in actions <==> server.result == None)
         && (forall m :: ServerDoes(ListenFails(m)) in actions <==> server.result == Some(m)))
  }

  lemma MainLeavesServer(s: State, a: MainAction)
    requires MainStep(s, a).Some?
    ensures MainStep(s, a).value.server == s.server
  {
    if a.ReceiveFirst? || a.ReceiveExit? {
      assert Receive(s).server == s.server;
    }
  }

  lemma ResultOfOneMore(s: State, actions: seq<Action>, a: Action)
    requires ResultOf(s.server, actions) && Apply(s, a).Some?
    ensures ResultOf(Apply(s, a).value.server, actions + [a])
  {
    assert forall b :: b in actions + [a] <==> b in actions || b == a;
    match a
    case MainDoes(main) => MainLeavesServer(s, main);
    case _ =>
  }

  /** The server goroutine's result is what its listener ended with. */
  lemma {:induction false} ResultIsTheListeners(hasLimiter: bool, actions: seq<Action>)
    requires After(Init(hasLimiter), actions).Some?
    ensures ResultOf(After(Init(hasLimiter), actions).value.server, actions)
  {
    if actions == [] {
    } else {
      var n := |actions| - 1;
      ResultIsTheListeners(hasLimiter, actions[..n]);
      ResultOfOneMore(After(Init(hasLimiter), actions[..n]).value, actions[..n], actions[n]);
      assert actions == actions[..n] + [actions[n]];
    }
  }

  /**
   The error main ends with, exactly: a server error carries the listener's own message, and no error
   means that main received and the listener stopped in order.
   */
  lemma ExitIsTheListeners(hasLimiter: bool, actions: seq<Action>)
    requires After(Init(hasLimiter), actions).Some?
    ensures
      var main := After(Init(hasLimiter), actions).value.main;
      var received := MainDoes(ReceiveExit) in actions;
      && (main.Fatal? ==> ServerDoes(ListenFails(main.message)) in actions)
      && (main.Returned? ==>
           && (forall m :: main.exit == Some(ServerFailed(m)) <==> received && ServerDoes(ListenFails(m)) in actions)
           && (main.exit == None <==> received && ServerDoes(ListenStops) in actions)
           && (main.exit == Some(WaitTimeout) <==> MainDoes(ExitTimesOut) in actions))
  {
    InvReachable(hasLimiter, actions);
    ReceivedWhatWasSent(hasLimiter, actions);
    ResultIsTheListeners(hasLimiter, actions);
    MainTakesItsPath(hasLimiter, actions);
    MainsOfMember(actions, ReceiveExit);
    MainsOfMember(actions, ExitTimesOut);
  }

  /**
   What shutdownWebServer reports: forced exactly when the graceful shutdown failed; a timeout exactly
   when nothing was received, and then the timer fired; otherwise the server's own result.
   */
  lemma ShutdownReport(hasLimiter: bool, actions: seq<Action>)
    requires After(Init(hasLimiter), actions).Some?
    requires After(Init(hasLimiter), actions).value.main.Returned?
    ensures
      var s := After(Init(hasLimiter), actions).value;
      && (s.main.wasForced <==> MainDoes(DrainFails) in actions)
      && (s.main.exit == Some(WaitTimeout) <==> s.received == [])
      && (s.received == [] ==> s.timerFired)
      && (s.received != [] ==>
           && s.server.Sent?
           && (s.server.result == None ==> s.main.exit == None)
           && (s.server.result != None ==> s.main.exit == Some(ServerFailed(s.server.result.value))))
      && s.httpDown && s.stopClosed == hasLimiter
  {
    InvReachable(hasLimiter, actions);
    ReceivedWhatWasSent(hasLimiter, actions);
    ForcedIffDrainFailed(hasLimiter, actions);
  }

  lemma ServerLeavesStop(s: State, a: ServerAction)
    requires ServerStep(s, a).Some?
    ensures s.stopClosed ==> ServerStep(s, a).value.stopClosed
  {
  }

  lemma MainLeavesStopClosed(s: State, a: MainAction)
    requires MainStep(s, a).Some?
    ensures s.stopClosed ==> MainStep(s, a).value.stopClosed
  {
  }

  lemma StopStaysClosed(s: State, a: Action)
    requires Apply(s, a).Some?
    ensures s.stopClosed ==> Apply(s, a).value.stopClosed
  {
    match a
    case ServerDoes(server) => ServerLeavesStop(s, server);
    case MainDoes(main) => MainLeavesStopClosed(s, main);
    case _ =>
  }

  lemma {:induction false} StopNeverReopens(start: State, actions: seq<Action>, k: nat)
    requires After(start, actions).Some? && k <= |actions|
    ensures After(start, actions[..k]).Some?
    ensures After(start, actions[..k]).value.stopClosed ==> After(start, actions).value.stopClosed
  {
    if k == |actions| {
      assert actions[..k] == actions;
    } else {
      var earlier := actions[..|actions| - 1];
      StopNeverReopens(start, earlier, k);
      assert earlier[..k] == actions[..k];
      StopStaysClosed(After(start, earlier).value, actions[|actions| - 1]);
    }
  }

  /**
   The stop channel is closed once from Shutdown's first step on, forced ways included, never where no
   shutdown has begun, and it never reopens.
   */
  lemma StopClosedOnce(hasLimiter: bool, actions: seq<Action>, k: nat)
    requires After(Init(hasLimiter), actions).Some? && k <= |actions|
    ensures
      var s := After(Init(hasLimiter), actions).value;
      s.stopCloses == if hasLimiter && MainDoes(StopLimiter) in actions then 1 else 0
    ensures After(Init(hasLimiter), actions[..k]).Some?
    ensures After(Init(hasLimiter), actions[..k]).value.stopClosed ==> After(Init(hasLimiter), actions).value.stopClosed
  {
    InvReachable(hasLimiter, actions);
    MainTakesItsPath(hasLimiter, actions);
    MainsOfMember(actions, StopLimiter);
    StopNeverReopens(Init(hasLimiter), actions, k);
  }

  // Every run ends ---------------------------------------------------------------------------------

  function MainRank(main: Main): nat {
    match main
    case Selecting => 7
    case AtStop => 6
    case AtDrain => 5
    case Draining => 4
    case AtForce => 3
    case Waiting => 2
    case _ => 0
  }

  /** How many steps are left at most. */
  function Rank(s: State): nat {
    MainRank(s.main)
    + (if s.server.Serving? then 2 else if s.server.Sending? then 1 else 0)
    + (if s.timerFired then 0 else 1)
    + (if s.sweeping then 1 else 0)
  }

  lemma ServerRunsOut(s: State, a: ServerAction)
    requires ServerStep(s, a).Some?
    ensures Rank(ServerStep(s, a).value) < Rank(s)
  {
  }

  lemma MainRunsOut(s: State, a: MainAction)
    requires MainStep(s, a).Some?
    ensures Rank(MainStep(s, a).value) < Rank(s)
  {
  }

  lemma StepsRunOut(s: State, a: Action)
    requires Apply(s, a).Some?
    ensures Rank(Apply(s, a).value) < Rank(s)
  {
    match a
    case ServerDoes(server) => ServerRunsOut(s, server);
    case MainDoes(main) => MainRunsOut(s, main);
    case _ =>
  }

  /** No interleaving takes more than eleven steps. */
  lemma {:induction false} RunsAreShort(hasLimiter: bool, actions: seq<Action>)
    requires After(Init(hasLimiter), actions).Some?
    ensures |actions| + Rank(After(Init(hasLimiter), actions).value) <= 11
  {
    if actions == [] {
    } else {
      var earlier := actions[..|actions| - 1];
      RunsAreShort(hasLimiter, earlier);
      StepsRunOut(After(Init(hasLimiter), earlier).value, actions[|actions| - 1]);
    }
  }

  /** What the program cannot bring about itself: the signal, a failing listener, a failing drain. */
  predicate Environment(a: Action) {
    || a == MainDoes(Signal)
    || a == MainDoes(DrainFails)
    || (a.ServerDoes? && a.server.ListenFails?)
  }

  /** Nothing more happens unless the environment acts. */
  ghost predicate AtRest(s: State) {
    forall a :: !Environment(a) ==> Apply(s, a).None?
  }

  /**
   A shutdown always completes: once the signal was taken, the program comes to rest only after main
   returned, the server goroutine sent its result and the limiter's loop stopped. No help from the
   environment is needed.
   */
  lemma ShutdownCompletes(hasLimiter: bool, actions: seq<Action>)
    requires After(Init(hasLimiter), actions).Some?
    requires MainDoes(Signal) in actions && AtRest(After(Init(hasLimiter), actions).value)
    ensures
      var s := After(Init(hasLimiter), actions).value;
      s.main.Returned? && s.server.Sent? && !s.sweeping
  {
    InvReachable(hasLimiter, actions);
    MainTakesItsPath(hasLimiter, actions);
    MainsOfMember(actions, Signal);
    var s := After(Init(hasLimiter), actions).value;
    assert Apply(s, MainDoes(StopLimiter)).None? && Apply(s, MainDoes(BeginDrain)).None?;
    assert Apply(s, MainDoes(DrainDone)).None? && Apply(s, MainDoes(ForceClose)).None?;
    assert Apply(s, TimerFires).None? && Apply(s, MainDoes(ExitTimesOut)).None?;
    assert Apply(s, ServerDoes(ListenStops)).None? && Apply(s, ServerDoes(Send)).None?;
    assert Apply(s, SweeperStops).None?;
  }

  /**
   Before a signal the program rests only while it serves, or after the server's error ended main
   before the limiter's loop was asked to stop.
   */
  lemma RestBeforeSignal(hasLimiter: bool, actions: seq<Action>)
    requires After(Init(hasLimiter), actions).Some?
    requires MainDoes(Signal) !in actions && AtRest(After(Init(hasLimiter), actions).value)
    ensures
      var s := After(Init(hasLimiter), actions).value;
      && ((s.main.Selecting? && s.server.Serving?) || (s.main.Fatal? && s.server == Sent(Some(s.main.message))))
      && s.sweeping == hasLimiter
  {
    InvReachable(hasLimiter, actions);
    MainTakesItsPath(hasLimiter, actions);
    MainsOfMember(actions, Signal);
    ReceivedWhatWasSent(hasLimiter, actions);
    var s := After(Init(hasLimiter), actions).value;
    assert DrainPath(true)[0] == DrainPath(false)[0] == Signal;
    assert Apply(s, ServerDoes(Send)).None? && Apply(s, MainDoes(ReceiveFirst)).None?;
  }

  ghost predicate Finished(s: State) {
    forall a :: Apply(s, a).None?
  }

  /** Where not even the environment can act any more, main has ended and the result was sent. */
  lemma FinishedMeansDone(hasLimiter: bool, actions: seq<Action>)
    requires After(Init(hasLimiter), actions).Some?
    requires Finished(After(Init(hasLimiter), actions).value)
    ensures
      var s := After(Init(hasLimiter), actions).value;
      && s.server.Sent?
      && (s.main.Returned? || s.main.Fatal?)
      && (s.main.Returned? ==> !s.sweeping)
  {
    var s := After(Init(hasLimiter), actions).value;
    assert Apply(s, MainDoes(Signal)).None?;
    if MainDoes(Signal) in actions {
      ShutdownCompletes(hasLimiter, actions);
    } else {
      RestBeforeSignal(hasLimiter, actions);
    }
  }

  // Calls and runs ---------------------------------------------------------------------------------

  /** How waiting for the server goroutine ended: its result, or the timer. */
  datatype Wait =
    | Received(result: Option<Message>)
    | TimedOut

  function ExitAfter(wait: Wait): Option<ExitError> {
    match wait
    case Received(result) => ExitOf(result)
    case TimedOut => Some(WaitTimeout)
  }

  /** Main's steps from the signal to the return, given how the drain and the wait ended. */
  function CallSteps(failed: bool, wait: Wait): seq<MainAction> {
    DrainPath(failed) + [if wait.TimedOut? then ExitTimesOut else ReceiveExit]
  }

  /** Every run that returns is main's sequential call, with the report that call makes. */
  lemma ReturnedRunIsCall(hasLimiter: bool, actions: seq<Action>) returns (wait: Wait)
    requires After(Init(hasLimiter), actions).Some?
    requires After(Init(hasLimiter), actions).value.main.Returned?
    ensures
      var s := After(Init(hasLimiter), actions).value;
      && MainsOf(actions) == CallSteps(s.main.wasForced, wait)
      && s.main.exit == ExitAfter(wait)
      && s.stopCloses == (if hasLimiter then 1 else 0)
  {
    InvReachable(hasLimiter, actions);
    MainTakesItsPath(hasLimiter, actions);
    var s := After(Init(hasLimiter), actions).value;
    wait := if s.received == [] then TimedOut else Received(s.received[0]);
  }

  /** What the others do while main waits. */
  function MeanwhileSteps(wait: Wait): seq<Action> {
    match wait
    case TimedOut => [TimerFires]
    case Received(None) => [ServerDoes(ListenStops), ServerDoes(Send)]
    case Received(Some(message)) => [ServerDoes(ListenFails(message)), ServerDoes(Send)]
  }

  lemma {:induction false} AfterAppend(start: State, a: seq<Action>, b: seq<Action>)
    requires After(start, a).Some?
    ensures After(start, a + b) == After(After(start, a).value, b)
  {
    if b == [] {
      assert a + b == a;
    } else {
      var n := |b| - 1;
      assert (a + b)[..|a + b| - 1] == a + b[..n] && (a + b)[|a + b| - 1] == b[n];
      AfterAppend(start, a, b[..n]);
    }
  }

  function LastStep(wait: Wait): Action {
    MainDoes(if wait.TimedOut? then ExitTimesOut else ReceiveExit)
  }

  function DrainSteps(failed: bool): seq<Action> {
    [MainDoes(Signal), MainDoes(StopLimiter), MainDoes(BeginDrain)]
    + (if failed then [MainDoes(DrainFails), MainDoes(ForceClose)] else [MainDoes(DrainDone)])
  }

  /** One run for each call: the others act while main waits. */
  function RunOf(failed: bool, wait: Wait): seq<Action> {
    DrainSteps(failed) + (MeanwhileSteps(wait) + [LastStep(wait)])
  }

  // Taking steps one at a time.
  function Steps(s: State, actions: seq<Action>): Option<State>
    decreases |actions|
  {
    if actions == [] then Some(s)
    else
      match Apply(s, actions[0])
      case None => None
      case Some(next) => Steps(next, actions[1..])
  }

  lemma {:induction false} StepsIsAfter(s: State, actions: seq<Action>)
    requires Steps(s, actions).Some?
    ensures After(s, actions) == Steps(s, actions)
    decreases |actions|
  {
    if actions == [] {
    } else {
      var first, rest := [actions[0]], actions[1..];
      assert first[..0] == [] && actions == first + rest;
      assert After(s, first) == Apply(s, actions[0]);
      StepsIsAfter(Apply(s, actions[0]).value, rest);
      AfterAppend(s, first, rest);
    }
  }

  // Where main waits, with the server still inside Run.
  function Drained(hasLimiter: bool, failed: bool): State {
    Init(hasLimiter).(
      main := Waiting, httpDown := true, forced := failed,
      stopClosed := hasLimiter, stopCloses := if hasLimiter then 1 else 0)
  }

  lemma DrainStepsLead(hasLimiter: bool, failed: bool)
    ensures After(Init(hasLimiter), DrainSteps(failed)) == Some(Drained(hasLimiter, failed))
  {
    var s0, a := Init(hasLimiter), DrainSteps(failed);
    var s1 := s0.(main := AtStop);
    var s2 := Stop(s1).(main := AtDrain);
    var s3 := s2.(main := Draining, httpDown := true);
    assert Steps(s3, a[1..][1..][1..]) == Some(Drained(hasLimiter, failed)) by {
      if failed {
        assert a[1..][1..][1..] == [MainDoes(DrainFails), MainDoes(ForceClose)];
        assert [MainDoes(DrainFails), MainDoes(ForceClose)][1..] == [MainDoes(ForceClose)];
        assert Steps(s3.(main := AtForce, forced := true), [MainDoes(ForceClose)]) == Some(Drained(hasLimiter, failed));
      } else {
        assert a[1..][1..][1..] == [MainDoes(DrainDone)];
      }
    }
    assert Steps(s2, a[1..][1..]) == Steps(s3, a[1..][1..][1..]);
    assert Steps(s1, a[1..]) == Steps(s2, a[1..][1..]);
    StepsIsAfter(s0, a);
  }

  lemma TimeoutLeads(s: State)
    requires s.main.Waiting? && !s.timerFired
    ensures
      After(s, MeanwhileSteps(TimedOut) + [LastStep(TimedOut)]) ==
        Some(s.(timerFired := true, main := Returned(s.forced, Some(WaitTimeout))))
  {
    var a := [TimerFires, MainDoes(ExitTimesOut)];
    assert MeanwhileSteps(TimedOut) + [LastStep(TimedOut)] == a && a[1..] == [MainDoes(ExitTimesOut)];
    var s1 := s.(timerFired := true);
    assert Steps(s1, a[1..]) == Some(s1.(main := Returned(s.forced, Some(WaitTimeout))));
    StepsIsAfter(s, a);
  }

  lemma ResultLeads(s: State, result: Option<Message>)
    requires s.main.Waiting? && s.server.Serving? && s.httpDown && s.channel == [] && s.received == []
    ensures
      After(s, MeanwhileSteps(Received(result)) + [LastStep(Received(result))]) ==
        Some(s.(server := Sent(result), received := [result], main := Returned(s.forced, ExitOf(result))))
  {
    var first := if result.None? then ListenStops else ListenFails(result.value);
    var a := [ServerDoes(first), ServerDoes(Send), MainDoes(ReceiveExit)];
    assert MeanwhileSteps(Received(result)) + [LastStep(Received(result))] == a;
    assert a[1..] == [ServerDoes(Send), MainDoes(ReceiveExit)] && a[1..][1..] == [MainDoes(ReceiveExit)];
    var s1 := s.(server := Sending(result));
    var s2 := s1.(server := Sent(result), channel := [result]);
    assert s2.channel[1..] == [] && s2.received + [result] == [result];
    var s3 := s2.(channel := [], received := [result], main := Returned(s.forced, ExitOf(result)));
    assert Steps(s2, a[1..][1..]) == Some(s3);
    assert Steps(s1, a[1..]) == Steps(s2, a[1..][1..]);
    StepsIsAfter(s, a);
  }

  /** Every call main can make, however its drain and its wait end, is such a run. */
  lemma CallIsReturnedRun(hasLimiter: bool, failed: bool, wait: Wait)
    ensures
      var end := After(Init(hasLimiter), RunOf(failed, wait));
      && end.Some?
      && end.value.main == Returned(failed, ExitAfter(wait))
      && end.value.stopCloses == (if hasLimiter then 1 else 0)
  {
    DrainStepsLead(hasLimiter, failed);
    match wait {
      case TimedOut => TimeoutLeads(Drained(hasLimiter, failed));
      case Received(result) => ResultLeads(Drained(hasLimiter, failed), result);
    }
    AfterAppend(Init(hasLimiter), DrainSteps(failed), MeanwhileSteps(wait) + [LastStep(wait)]);
  }
}
