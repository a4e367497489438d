/** The terminal-slot supervisor of `WslManagerServer` as a state machine over
    values. A process handle is its process id; whether a process has exited
    is looked up in the operating system's process table, which the
    environment may change at any time (a crash). The launch outcome and the
    outcome of a kill are nondeterministic and arrive as parameters.

    The imperative class in server.dfy is proved to compute exactly these
    functions; the lemmas at the end are the promises of the supervisor. */
module Supervisor {
  import opened Wrappers
  import opened Protocol
  import Text

  datatype Handle = Handle(pid: nat)

  /** The operating system's view of the session processes: the next process
      id to hand out and the processes that have exited. */
  datatype Os = Os(nextPid: nat, exited: set<Handle>)

  /** The two dictionaries `_activeWslProcesses` and `_activeTtydProcesses`. */
  datatype Registry = Registry(wsl: map<int, Handle>, ttyd: map<int, Handle>)

  datatype State = State(reg: Registry, os: Os)

  /** A new state and the response sent for the request that produced it. */
  datatype Step = Step(state: State, resp: Response)

  /** What `Process.Start()` and the 3-second grace period turned out to be. */
  datatype LaunchOutcome =
    | StartThrew(error: string)
    | StartReturnedFalse
    | ExitedInGrace(exitCode: int, output: string, error: string)
    | AliveAfterGrace

  predicate InRange(n: int) { 1 <= n <= SlotCount }

  /** The supervisor at boot: both dictionaries empty. */
  function Boot(os: Os): (s: State)
    ensures s.os == os && s.reg.wsl.Keys == {} && s.reg.ttyd.Keys == {}
    ensures Valid(s)
  {
    State(Registry(map[], map[]), os)
  }

  /** The registry invariant: both dictionaries hold the same slots, and the
      same handle in each slot; every slot is in 1..5; every handle was
      spawned already, and no process serves two slots. */
  predicate Valid(s: State)
  {
    && s.reg.wsl.Keys == s.reg.ttyd.Keys
    && (forall n | n in s.reg.wsl :: s.reg.wsl[n] == s.reg.ttyd[n])
    && (forall n | n in s.reg.wsl :: InRange(n) && s.reg.wsl[n].pid < s.os.nextPid)
    && (forall i, j | i in s.reg.wsl && j in s.reg.wsl && i != j :: s.reg.wsl[i] != s.reg.wsl[j])
  }

  /** The registry owns every live process the supervisor spawned: a process
      that has not exited is registered in some slot. */
  predicate Owned(s: State)
  {
    forall pid: nat | pid < s.os.nextPid && Handle(pid) !in s.os.exited :: Registered(s.reg.wsl, Handle(pid))
  }

  /** Some slot of the dictionary holds handle h. */
  predicate Registered(m: map<int, Handle>, h: Handle)
  {
    exists n | n in m :: m[n] == h
  }

  /** A slot is running when both dictionaries hold a handle for it and
      neither handle has exited (Program.cs:162-168). */
  predicate Running(s: State, n: int)
  {
    && n in s.reg.wsl && s.reg.wsl[n] !in s.os.exited
    && n in s.reg.ttyd && s.reg.ttyd[n] !in s.os.exited
  }

  /** The repeat-start check of `StartTerminalAsync` consults only the WSL dictionary. */
  predicate AlreadyRunning(s: State, n: int)
  {
    n in s.reg.wsl && s.reg.wsl[n] !in s.os.exited
  }

  lemma RunningIsAlreadyRunning(s: State, n: int)
    requires Valid(s)
    ensures Running(s, n) <==> AlreadyRunning(s, n)
  {
  }

  // ---------------------------------------------------------------- status

  /** Status records for slots i..5, in order. */
  function SnapshotFrom(s: State, i: int): (ts: seq<TerminalStatus>)
    requires 1 <= i <= SlotCount + 1
    ensures |ts| == SlotCount + 1 - i
    ensures forall k | 0 <= k < |ts| :: ts[k] == TerminalStatus(i + k, Running(s, i + k), Port(i + k))
    decreases SlotCount + 1 - i
  {
    if i == SlotCount + 1 then [] else [TerminalStatus(i, Running(s, i), Port(i))] + SnapshotFrom(s, i + 1)
  }

  /** `GetTerminalStatus`: always succeeds, with five records numbered 1..5
      whose ports are derived from the number and whose running flag is
      the slot's current liveness. */
  function Status(s: State): (resp: Response)
    ensures resp.success && resp.message == "" && resp.terminals.Some?
    ensures |resp.terminals.value| == SlotCount
    ensures forall k | 0 <= k < SlotCount ::
              && resp.terminals.value[k].number == k + 1
              && resp.terminals.value[k].port == BasePort + resp.terminals.value[k].number
              && (resp.terminals.value[k].isRunning <==> Running(s, k + 1))
  {
    Response(true, "", Some(SnapshotFrom(s, 1)))
  }

  // ----------------------------------------------------------------- start

  /** The OS hands out the next process id; a process that dies within the
      grace period is in the exited set afterwards, a survivor is not. */
  function Spawn(os: Os, diesInGrace: bool): (r: (Os, Handle))
    ensures r.1 == Handle(os.nextPid) && r.0.nextPid == os.nextPid + 1
    ensures r.1 in r.0.exited <==> diesInGrace
    ensures forall h | h != r.1 :: h in r.0.exited <==> h in os.exited
  {
    var h := Handle(os.nextPid);
    (Os(os.nextPid + 1, if diesInGrace then os.exited + {h} else os.exited - {h}), h)
  }

  /** Whether a start request ends with a new handle in the registry. */
  predicate Registers(s: State, n: int, launch: LaunchOutcome)
  {
    InRange(n) && !AlreadyRunning(s, n) && launch.AliveAfterGrace?
  }

  /** `StartTerminalAsync` (Program.cs:180-301). */
  function Start(s: State, n: int, launch: LaunchOutcome): (step: Step)
    ensures step.resp.terminals.None?
    ensures !InRange(n) ==> step.state == s && step.resp == Reply(false, RangeMessage)
    ensures InRange(n) && AlreadyRunning(s, n) ==> step.state == s && step.resp == Reply(true, AlreadyRunningMessage(n))
    ensures step.resp.success <==> InRange(n) && (AlreadyRunning(s, n) || launch.AliveAfterGrace?)
    ensures InRange(n) && !AlreadyRunning(s, n) && launch.StartThrew? ==>
              step.state == s && step.resp == Reply(false, StartErrorMessage(n, launch.error))
    ensures InRange(n) && !AlreadyRunning(s, n) && launch.StartReturnedFalse? ==>
              step.state == s && step.resp == Reply(false, NotStartedMessage(n))
    ensures InRange(n) && !AlreadyRunning(s, n) && launch.ExitedInGrace? ==>
              && step.resp == Reply(false, ExitedInGraceMessage(n, launch.exitCode, launch.output, launch.error))
              && step.state.os.nextPid == s.os.nextPid + 1
              && Handle(s.os.nextPid) in step.state.os.exited
    ensures step.state.os ==
              if InRange(n) && !AlreadyRunning(s, n) && (launch.ExitedInGrace? || launch.AliveAfterGrace?)
              then Spawn(s.os, launch.ExitedInGrace?).0
              else s.os
    ensures !Registers(s, n, launch) ==> step.state.reg == s.reg
    ensures Registers(s, n, launch) ==>
              var h := Handle(s.os.nextPid);
              && step.state.reg == Registry(s.reg.wsl[n := h], s.reg.ttyd[n := h])
              && Running(step.state, n)
              && step.resp.message == StartedMessage(n)
    ensures Valid(s) ==> Valid(step.state)
    ensures Valid(s) ==> forall k | k != n :: Running(step.state, k) <==> Running(s, k)
    ensures Valid(s) && Owned(s) ==> Owned(step.state)
  {
    if !InRange(n) then Step(s, Reply(false, RangeMessage))
    else if AlreadyRunning(s, n) then Step(s, Reply(true, AlreadyRunningMessage(n)))
    else match launch
      case StartThrew(error) => Step(s, Reply(false, StartErrorMessage(n, error)))
      case StartReturnedFalse => Step(s, Reply(false, NotStartedMessage(n)))
      case ExitedInGrace(exitCode, output, error) =>
        var (os', _) := Spawn(s.os, true);
        Step(State(s.reg, os'), Reply(false, ExitedInGraceMessage(n, exitCode, output, error)))
      case AliveAfterGrace =>
        var (os', h) := Spawn(s.os, false);
        RegisterKeepsOwned(s, n);
        Step(State(Registry(s.reg.wsl[n := h], s.reg.ttyd[n := h]), os'), Reply(true, StartedMessage(n)))
  }

  /** Registering a survivor in a slot whose old process is gone keeps every
      live process owned: the survivor is registered, and no live process
      was displaced. */
  lemma RegisterKeepsOwned(s: State, n: int)
    requires !AlreadyRunning(s, n)
    ensures var (os', h) := Spawn(s.os, false);
            Owned(s) ==> Owned(State(Registry(s.reg.wsl[n := h], s.reg.ttyd[n := h]), os'))
  {
    var (os', h) := Spawn(s.os, false);
    var wsl' := s.reg.wsl[n := h];
    if Owned(s) {
      forall pid: nat | pid < os'.nextPid && Handle(pid) !in os'.exited
        ensures Registered(wsl', Handle(pid))
      {
        if Handle(pid) == h {
          assert wsl'[n] == h;
        } else {
          StillRegistered(s.reg.wsl, n, h, Handle(pid));
        }
      }
    }
  }

  /** Overwriting a slot that does not hold v keeps v registered. */
  lemma StillRegistered(m: map<int, Handle>, n: int, h: Handle, v: Handle)
    requires Registered(m, v) && (n in m ==> m[n] != v)
    ensures Registered(m[n := h], v)
  {
    var k :| k in m && m[k] == v;
    assert m[n := h][k] == v;
  }

  // ------------------------------------------------------------------ stop

  /** Whether a stop request kills a process: the TTYD dictionary holds a
      live handle for the slot and `Kill` does not throw. */
  predicate Kills(s: State, n: int, killFails: bool)
  {
    n in s.reg.ttyd && s.reg.ttyd[n] !in s.os.exited && !killFails
  }

  /** `StopTerminalAsync` (Program.cs:303-353). */
  function Stop(s: State, n: int, killFails: bool): (step: Step)
    ensures step.resp.success && step.resp.terminals.None?
    ensures step.resp.message == StoppedMessage(n) <==> Kills(s, n, killFails)
    ensures step.resp.message == NotRunningMessage(n) <==> !Kills(s, n, killFails)
    ensures n !in step.state.reg.wsl && n !in step.state.reg.ttyd && !Running(step.state, n)
    ensures step.state.reg.wsl.Keys == s.reg.wsl.Keys - {n} && step.state.reg.ttyd.Keys == s.reg.ttyd.Keys - {n}
    ensures forall k | k in step.state.reg.wsl :: step.state.reg.wsl[k] == s.reg.wsl[k]
    ensures forall k | k in step.state.reg.ttyd :: step.state.reg.ttyd[k] == s.reg.ttyd[k]
    ensures step.state.os.nextPid == s.os.nextPid
    ensures step.state.os.exited == if Kills(s, n, killFails) then s.os.exited + {s.reg.ttyd[n]} else s.os.exited
    ensures Valid(s) ==> Valid(step.state)
    ensures Valid(s) ==> forall k | k != n :: Running(step.state, k) <==> Running(s, k)
    ensures Valid(s) && !InRange(n) ==> step == Step(s, Reply(true, NotRunningMessage(n)))
    ensures Valid(s) && Owned(s) && !killFails ==> Owned(step.state)
  {
    StopMessagesDiffer(n);
    var stopped := Kills(s, n, killFails);
    var os := if stopped then Os(s.os.nextPid, s.os.exited + {s.reg.ttyd[n]}) else s.os;
    var ttyd := if n in s.reg.ttyd then s.reg.ttyd - {n} else s.reg.ttyd;
    var wsl := if n in s.reg.wsl then s.reg.wsl - {n} else s.reg.wsl;
    Step(State(Registry(wsl, ttyd), os), Reply(true, if stopped then StoppedMessage(n) else NotRunningMessage(n)))
  }

  // ---------------------------------------------------------- exit monitor

  /** The exit monitor's removal (Program.cs:274-277): both entries of the
      slot go, whatever they hold. */
  function ExitMonitor(s: State, n: int): (s': State)
    ensures s'.os == s.os
    ensures s'.reg.wsl.Keys == s.reg.wsl.Keys - {n} && s'.reg.ttyd.Keys == s.reg.ttyd.Keys - {n}
    ensures forall k | k in s'.reg.wsl :: s'.reg.wsl[k] == s.reg.wsl[k]
    ensures forall k | k in s'.reg.ttyd :: s'.reg.ttyd[k] == s.reg.ttyd[k]
    ensures !Running(s', n)
    ensures Valid(s) ==> Valid(s')
    ensures Valid(s) ==> forall k | k != n :: Running(s', k) <==> Running(s, k)
    ensures Valid(s) && Owned(s) && (n in s.reg.wsl ==> s.reg.wsl[n] in s.os.exited) ==> Owned(s')
  {
    State(Registry(s.reg.wsl - {n}, s.reg.ttyd - {n}), s.os)
  }

  /** The environment: process h terminates on its own. A handle that was
      never spawned may be named too; no slot holds it, and `Spawn` sets
      the exited state of each new process id afresh, so nothing observable
      follows from it. */
  function Crash(s: State, h: Handle): (s': State)
    ensures s'.reg == s.reg && s'.os.nextPid == s.os.nextPid && h in s'.os.exited
    ensures s'.os.exited == s.os.exited + {h}
    ensures forall n :: Running(s', n) <==> Running(s, n) && s.reg.wsl[n] != h && s.reg.ttyd[n] != h
    ensures Valid(s) ==> Valid(s')
    ensures Owned(s) ==> Owned(s')
  {
    State(s.reg, Os(s.os.nextPid, s.os.exited + {h}))
  }

  // ------------------------------------------------------------- dispatch

  datatype Action = StatusAction | StartAction | StopAction | UnknownAction

  /** The `switch` on `request.Action` (Program.cs:135-147): exact, case-sensitive matches. */
  function Route(action: string): (a: Action)
    ensures a == StatusAction <==> action == "status"
    ensures a == StartAction <==> action == "start"
    ensures a == StopAction <==> action == "stop"
  {
    if action == "status" then StatusAction
    else if action == "start" then StartAction
    else if action == "stop" then StopAction
    else UnknownAction
  }

  /** `ProcessRequestAsync`. The launch outcome is used only by a start, the
      kill outcome only by a stop. */
  function Dispatch(s: State, req: Request, launch: LaunchOutcome, killFails: bool): (step: Step)
    ensures Route(req.action) == StatusAction ==> step == Step(s, Status(s))
    ensures Route(req.action) == StartAction ==> step == Start(s, req.terminalNumber, launch)
    ensures Route(req.action) == StopAction ==> step == Stop(s, req.terminalNumber, killFails)
    ensures Route(req.action) == UnknownAction ==> step == Step(s, Reply(false, UnknownActionMessage))
    ensures step.resp.terminals.Some? <==> Route(req.action) == StatusAction
    ensures Valid(s) ==> Valid(step.state)
    ensures Valid(s) && Owned(s) && !killFails ==> Owned(step.state)
  {
    match Route(req.action)
    case StatusAction => Step(s, Status(s))
    case StartAction => Start(s, req.terminalNumber, launch)
    case StopAction => Stop(s, req.terminalNumber, killFails)
    case UnknownAction => Step(s, Reply(false, UnknownActionMessage))
  }

  // ------------------------------------------------------- the request edge

  /** What the single read from the pipe produced. */
  datatype ReadOutcome = ReadFailed | Received(byteCount: nat, text: string)

  /** What `JsonSerializer.Deserialize<WslRequest>` made of the text. */
  datatype Decoded = JsonError | NullRequest | Parsed(request: Request)

  /** What `HandleClientAsync` does with one connection before dispatch. */
  datatype Screened = NoReply | Refuse(resp: Response) | Forward(request: Request)

  /** The checks of `HandleClientAsync` (Program.cs:65-89, 96-105): a failed
      read, zero bytes or white space only get no reply; an undecodable or
      null request gets a fixed failure reply. */
  function Screen(read: ReadOutcome, decoded: Decoded): (v: Screened)
    ensures v.NoReply? <==> read.ReadFailed? || read.byteCount == 0 || Text.IsBlank(read.text)
    ensures v.Refuse? <==> !v.NoReply? && !decoded.Parsed?
    ensures v.Refuse? ==> v.resp == Reply(false, if decoded.JsonError? then InvalidJsonMessage else InvalidRequestMessage)
    ensures v.Forward? ==> decoded.Parsed? && v.request == decoded.request
  {
    if read.ReadFailed? || read.byteCount == 0 || Text.IsBlank(read.text) then NoReply
    else match decoded
      case JsonError => Refuse(Reply(false, InvalidJsonMessage))
      case NullRequest => Refuse(Reply(false, InvalidRequestMessage))
      case Parsed(req) => Forward(req)
  }

  /** One connection, end to end: the new state and the reply written back, if any. */
  datatype Exchange = Exchange(state: State, reply: Option<Response>)

  function Respond(s: State, read: ReadOutcome, decoded: Decoded, launch: LaunchOutcome, killFails: bool): (x: Exchange)
    ensures Screen(read, decoded).NoReply? ==> x == Exchange(s, None)
    ensures Screen(read, decoded).Refuse? ==> x == Exchange(s, Some(Screen(read, decoded).resp))
    ensures Screen(read, decoded).Forward? ==>
              var step := Dispatch(s, decoded.request, launch, killFails);
              x == Exchange(step.state, Some(step.resp))
    ensures Valid(s) ==> Valid(x.state)
    ensures Valid(s) && Owned(s) && !killFails ==> Owned(x.state)
  {
    match Screen(read, decoded)
    case NoReply => Exchange(s, None)
    case Refuse(resp) => Exchange(s, Some(resp))
    case Forward(req) =>
      var step := Dispatch(s, req, launch, killFails);
      Exchange(step.state, Some(step.resp))
  }

  // ------------------------------------------------------------- histories

  /** Everything that can happen to the supervisor: a client exchange, a
      session process dying, an exit monitor firing for a slot. */
  datatype Event =
    | Connection(read: ReadOutcome, decoded: Decoded, launch: LaunchOutcome, killFails: bool)
    | ProcessDies(handle: Handle)
    | MonitorFires(slot: int)

  function Apply(s: State, e: Event): State
  {
    match e
    case Connection(read, decoded, launch, killFails) => Respond(s, read, decoded, launch, killFails).state
    case ProcessDies(h) => Crash(s, h)
    case MonitorFires(n) => ExitMonitor(s, n)
  }

  /** The state after a history of events, oldest first. */
  function Run(s: State, events: seq<Event>): State
    decreases |events|
  {
    if events == [] then s else Run(Apply(s, events[0]), events[1..])
  }

  /** The registry invariant holds after every history, whatever the launch
      and kill outcomes and whenever processes die or monitors fire. */
  lemma {:induction false} RunKeepsValid(s: State, events: seq<Event>)
    requires Valid(s)
    ensures Valid(Run(s, events))
    decreases |events|
  {
    if events != [] {
      var e := events[0];
      assert Valid(Apply(s, e)) by {
        match e
        case Connection(read, decoded, launch, killFails) =>
        case ProcessDies(h) =>
        case MonitorFires(n) =>
      }
      RunKeepsValid(Apply(s, e), events[1..]);
    }
  }

  /** A history in which no kill throws and every monitor fires only once
      the process registered in its slot has exited. */
  predicate Orderly(s: State, events: seq<Event>)
    decreases |events|
  {
    events != [] ==>
      && (match events[0]
          case Connection(_, _, _, killFails) => !killFails
          case ProcessDies(_) => true
          case MonitorFires(n) => n in s.reg.wsl ==> s.reg.wsl[n] in s.os.exited)
      && Orderly(Apply(s, events[0]), events[1..])
  }

  /** In an orderly history the registry never loses a live process: every
      session process that has not exited is registered in a slot. */
  lemma {:induction false} RunKeepsOwned(s: State, events: seq<Event>)
    requires Valid(s) && Owned(s) && Orderly(s, events)
    ensures Owned(Run(s, events))
    decreases |events|
  {
    if events != [] {
      var e := events[0];
      assert Valid(Apply(s, e)) && Owned(Apply(s, e)) by {
        match e
        case Connection(read, decoded, launch, killFails) =>
        case ProcessDies(h) =>
        case MonitorFires(n) =>
      }
      RunKeepsOwned(Apply(s, e), events[1..]);
    }
  }

  /** From boot, at most one handle is ever registered per slot, every slot is
      in 1..5, and the two dictionaries agree; if the supervisor was the first
      to launch processes and the history is orderly, no live session process
      is ever left unregistered. */
  lemma BootHistoriesConsistent(os: Os, events: seq<Event>)
    ensures var s := Run(Boot(os), events);
            && s.reg.wsl.Keys == s.reg.ttyd.Keys
            && (forall n | n in s.reg.wsl :: InRange(n) && s.reg.wsl[n] == s.reg.ttyd[n])
    ensures os == Os(0, {}) && Orderly(Boot(os), events) ==> Owned(Run(Boot(os), events))
  {
    RunKeepsValid(Boot(os), events);
    if os == Os(0, {}) && Orderly(Boot(os), events) {
      RunKeepsOwned(Boot(os), events);
    }
  }

  // ------------------------------------------------------- single promises

  /** Before any start, every slot is reported stopped, with its derived port. */
  lemma BootStatusAllStopped(os: Os)
    ensures var ts := Status(Boot(os)).terminals.value;
            forall k | 0 <= k < SlotCount :: ts[k] == TerminalStatus(k + 1, false, BasePort + k + 1)
  {
  }

  /** Two starts in a row: once the first has succeeded, the second reports
      "already running" and changes nothing, so no second handle is ever
      registered for the slot. */
  lemma RepeatStartIsNoOp(s: State, n: int, first: LaunchOutcome, second: LaunchOutcome)
    requires Valid(s)
    requires Start(s, n, first).resp.success
    ensures var s1 := Start(s, n, first).state;
            Start(s1, n, second) == Step(s1, Reply(true, AlreadyRunningMessage(n)))
  {
  }

  /** A launch that dies within the grace period is reported as a failure,
      and the next status shows the slot stopped. */
  lemma FailedLaunchShowsStopped(s: State, n: int, exitCode: int, output: string, error: string)
    requires Valid(s) && InRange(n) && !AlreadyRunning(s, n)
    ensures var step := Start(s, n, ExitedInGrace(exitCode, output, error));
            && !step.resp.success
            && !Status(step.state).terminals.value[n - 1].isRunning
  {
  }

  /** A crashed session is reported stopped, before and after its monitor
      removes the slot, without any stop request. */
  lemma CrashIsDetected(s: State, n: int)
    requires Valid(s) && n in s.reg.wsl
    ensures var crashed := Crash(s, s.reg.wsl[n]);
            && !Status(crashed).terminals.value[n - 1].isRunning
            && !Status(ExitMonitor(crashed, n)).terminals.value[n - 1].isRunning
            && n !in ExitMonitor(crashed, n).reg.wsl
  {
  }

  /** Removing a slot is idempotent: a second removal by the monitor, or a
      stop of the removed slot, leaves the registry as it is. */
  lemma RemovalIsIdempotent(s: State, n: int, killFails: bool)
    ensures ExitMonitor(ExitMonitor(s, n), n) == ExitMonitor(s, n)
    ensures Stop(ExitMonitor(s, n), n, killFails) == Step(ExitMonitor(s, n), Reply(true, NotRunningMessage(n)))
    ensures ExitMonitor(Stop(s, n, killFails).state, n) == Stop(s, n, killFails).state
  {
  }

  /** A failed kill leaves a live process that no slot owns any more: the
      stop reports "was not running" and the registry forgets the process. */
  lemma FailedKillOrphans(s: State, n: int)
    requires Valid(s) && Running(s, n)
    ensures var step := Stop(s, n, true);
            && step.resp == Reply(true, NotRunningMessage(n))
            && s.reg.ttyd[n] !in step.state.os.exited
            && !Registered(step.state.reg.wsl, s.reg.ttyd[n])
  {
  }

  /** End to end: start slot 2, see it running on port 7682 with the other
      four stopped, stop it, and see all five stopped. */
  lemma StartStatusStopStatus(os: Os, killFails: bool)
    ensures var started := Start(Boot(os), 2, AliveAfterGrace);
            var ts := Status(started.state).terminals.value;
            var stopped := Stop(started.state, 2, killFails);
            var ts' := Status(stopped.state).terminals.value;
            && started.resp == Reply(true, StartedMessage(2))
            && ts[1] == TerminalStatus(2, true, 7682)
            && (forall k | 0 <= k < SlotCount && k != 1 :: !ts[k].isRunning)
            && stopped.resp.success
            && (forall k | 0 <= k < SlotCount :: !ts'[k].isRunning)
  {
  }

  /** A monitor outliving its slot: the first process of slot 1 survives a
      failed kill, a second start registers a new process in slot 1, and
      when the first process later exits its monitor removes slot 1 by
      number. The second process is still alive but no longer registered,
      so slot 1 reports stopped while its process runs on. */
  lemma StaleMonitorDropsLiveSlot()
    ensures var s0 := Boot(Os(0, {}));
            var s1 := Start(s0, 1, AliveAfterGrace).state;
            var s2 := Stop(s1, 1, true).state;
            var s3 := Start(s2, 1, AliveAfterGrace).state;
            var s4 := ExitMonitor(Crash(s3, Handle(0)), 1);
            && Running(s3, 1) && s3.reg.wsl[1] == Handle(1)
            && Handle(1) !in s4.os.exited
            && !Registered(s4.reg.wsl, Handle(1))
            && !Status(s4).terminals.value[0].isRunning
  {
  }
}
