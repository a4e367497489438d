/** `WslManagerServer` (Program.cs:10-354) as a class whose two dictionary
    fields are updated in place, beside the operating system's process table
    it launches into. Each request handler is proved to compute the matching
    function of the Supervisor module, so every promise proved there holds of
    the running server. */
module Server {
  import opened Wrappers
  import opened Protocol
  import opened Supervisor

  /** The session processes of the operating system, as this supervisor sees
      them through `System.Diagnostics.Process`. */
  class ProcessTable {
    var nextPid: nat
    var exited: set<Handle>

    constructor ()
      ensures View() == Os(0, {})
    {
      nextPid := 0;
      exited := {};
    }

    function View(): Os
      reads this
    {
      Os(nextPid, exited)
    }

    /** `Process.HasExited`. */
    function HasExited(h: Handle): bool
      reads this
    {
      h in exited
    }

    /** `Process.Start()` followed by the grace period: a new process, which
        either has died by the end of the wait or is still alive. */
    method Spawn(diesInGrace: bool) returns (h: Handle)
      modifies this
      ensures (View(), h) == Supervisor.Spawn(old(View()), diesInGrace)
    {
      h := Handle(nextPid);
      nextPid := nextPid + 1;
      if diesInGrace {
        exited := exited + {h};
      } else {
        exited := exited - {h};
      }
    }

    /** The process terminates: killed by the supervisor, or on its own. */
    method Terminate(h: Handle)
      modifies this
      ensures View() == Os(old(nextPid), old(exited) + {h})
    {
      exited := exited + {h};
    }
  }

  class WslManagerServer {
    /** `_activeWslProcesses` */
    var wsl: map<int, Handle>
    /** `_activeTtydProcesses` */
    var ttyd: map<int, Handle>
    const os: ProcessTable

    function Model(): State
      reads this, os
    {
      State(Registry(wsl, ttyd), os.View())
    }

    ghost predicate Valid()
      reads this, os
    {
      Supervisor.Valid(Model())
    }

    constructor (os: ProcessTable)
      ensures this.os == os && Model() == Boot(os.View()) && Valid()
    {
      this.os := os;
      wsl := map[];
      ttyd := map[];
    }

    /** Program.cs:156-178: five records built in a loop over the slots. */
    method GetTerminalStatus() returns (resp: Response)
      ensures resp == Status(Model())
    {
      var terminals: seq<TerminalStatus> := [];
      for i := 1 to SlotCount + 1
        invariant |terminals| == i - 1
        invariant forall k | 0 <= k < i - 1 :: terminals[k] == TerminalStatus(k + 1, Running(Model(), k + 1), Port(k + 1))
      {
        var isWslRunning := i in wsl && !os.HasExited(wsl[i]);
        var isTtydRunning := i in ttyd && !os.HasExited(ttyd[i]);
        terminals := terminals + [TerminalStatus(i, isWslRunning && isTtydRunning, BasePort + i)];
      }
      assert terminals == SnapshotFrom(Model(), 1);
      resp := Response(true, "", Some(terminals));
    }

    /** Program.cs:180-301. The launch outcome stands for what `Process.Start()`
        and the 3-second wait turn out to be. */
    method StartTerminal(n: int, launch: LaunchOutcome) returns (resp: Response)
      requires Valid()
      modifies this, os
      ensures Step(Model(), resp) == Start(old(Model()), n, launch)
      ensures Valid()
    {
      if n < 1 || n > 5 {
        return Reply(false, RangeMessage);
      }
      if n in wsl && !os.HasExited(wsl[n]) {
        return Reply(true, AlreadyRunningMessage(n));
      }
      match launch {
        case StartThrew(error) =>
          return Reply(false, StartErrorMessage(n, error));
        case StartReturnedFalse =>
          return Reply(false, NotStartedMessage(n));
        case _ =>
      }
      var process := os.Spawn(launch.ExitedInGrace?);
      if os.HasExited(process) {
        var ExitedInGrace(exitCode, output, error) := launch;
        return Reply(false, ExitedInGraceMessage(n, exitCode, output, error));
      }
      wsl := wsl[n := process];
      ttyd := ttyd[n := process];
      resp := Reply(true, StartedMessage(n));
    }

    /** Program.cs:303-353; `killFails` stands for `Kill` throwing, which the
        source catches and logs. */
    method StopTerminal(n: int, killFails: bool) returns (resp: Response)
      requires Valid()
      modifies this, os
      ensures Step(Model(), resp) == Stop(old(Model()), n, killFails)
      ensures Valid()
    {
      var processStopped := false;
      if n in ttyd {
        var process := ttyd[n];
        if !os.HasExited(process) {
          if !killFails {
            os.Terminate(process);
            processStopped := true;
          }
        }
        ttyd := ttyd - {n};
      }
      if n in wsl {
        wsl := wsl - {n};
      }
      resp := Reply(true, if processStopped then StoppedMessage(n) else NotRunningMessage(n));
    }

    /** The exit monitor's continuation (Program.cs:274-277), run whenever the
        environment reports that slot n's process has exited. */
    method OnProcessExit(n: int)
      requires Valid()
      modifies this
      ensures Model() == ExitMonitor(old(Model()), n)
      ensures Valid()
    {
      wsl := wsl - {n};
      ttyd := ttyd - {n};
    }

    /** `ProcessRequestAsync` (Program.cs:131-154). */
    method ProcessRequest(request: Request, launch: LaunchOutcome, killFails: bool) returns (resp: Response)
      requires Valid()
      modifies this, os
      ensures Step(Model(), resp) == Dispatch(old(Model()), request, launch, killFails)
      ensures Valid()
    {
      match request.action {
        case "status" =>
          resp := GetTerminalStatus();
        case "start" =>
          resp := StartTerminal(request.terminalNumber, launch);
        case "stop" =>
          resp := StopTerminal(request.terminalNumber, killFails);
        case _ =>
          resp := Reply(false, UnknownActionMessage);
      }
    }

    /** `HandleClientAsync` (Program.cs:59-111) after the read: the reply that
        is written back to the client, if any. */
    method HandleClient(read: ReadOutcome, decoded: Decoded, launch: LaunchOutcome, killFails: bool)
      returns (reply: Option<Response>)
      requires Valid()
      modifies this, os
      ensures Exchange(Model(), reply) == Respond(old(Model()), read, decoded, launch, killFails)
      ensures Valid()
    {
      var screened := Screen(read, decoded);
      match screened {
        case NoReply =>
          reply := None;
        case Refuse(resp) =>
          reply := Some(resp);
        case Forward(request) =>
          var resp := ProcessRequest(request, launch, killFails);
          reply := Some(resp);
      }
    }
  }
}
