# Terminal-slot supervisor of ClaudeCodeManager, in Dafny

This project models `WslManagerServer`, the supervisor process of
ClaudeCodeManager. The supervisor owns up to five numbered terminal slots.
Each slot is backed by a `wsl`/`ttyd` session process that serves a web
terminal on port 7680 + n. The web front end talks to it over a named pipe,
one request per connection, with three actions: `status`, `start` and `stop`.

Files:

- `wrappers.dfy` (module `Wrappers`): `Option`.
- `text.dfy` (module `Text`): decimal rendering of the integers inside the
  interpolated messages, and `string.IsNullOrWhiteSpace`.
- `protocol.dfy` (module `Protocol`): `WslRequest`, `WslResponse` and
  `TerminalStatus`, the constants 5 and 7680, and every message text.
- `registry.dfy` (module `Supervisor`): the supervisor as a state machine
  over values, with its promises as contracts and lemmas.
  - The state holds the two dictionaries `_activeWslProcesses` and
    `_activeTtydProcesses` and the operating system's view of the session
    processes: the next process id and the set of exited processes.
  - The operations are status, start, stop, the exit monitor's removal,
    the dispatcher and the checks of the request edge.
  - An `Event` history combines client exchanges, processes dying on their
    own and monitors firing, in any order.
- `server.dfy` (module `Server`): the imperative form of the same code.
  - Class `ProcessTable` stands for `System.Diagnostics.Process`: spawn,
    `HasExited`, termination.
  - Class `WslManagerServer` has the two dictionaries as `map` fields that
    its methods update in place, and builds the status list in a loop.
  - Each method is proved to end in exactly the state and the response that
    the matching `Supervisor` function gives. So everything proved about
    those functions holds of the class.

Nondeterminism is passed in as parameters:

- `LaunchOutcome` says what `Process.Start()` and the 3-second grace period
  turned out to be: `Start()` threw, `Start()` returned false, the process
  died during the wait (with its exit code and captured output), or it is
  still alive.
- `killFails` says whether `Process.Kill()` threw.
- `ReadOutcome` and `Decoded` stand for the pipe read and for the JSON
  deserializer's result.

Three behaviours of the code are easy to get wrong, and the model keeps them
as written:

- An empty read, or a request of only white space, gets no reply at all.
  It does not get a failure reply (Program.cs:67-80).
- The repeat-start check looks only at the WSL dictionary (Program.cs:187).
  Status requires both dictionaries (Program.cs:162-168). Under the
  invariant `Supervisor.Valid` the two coincide (`RunningIsAlreadyRunning`).
- A `Kill` that throws is logged and swallowed. The stop still succeeds with
  "was not running" and still removes the slot (Program.cs:316-334). The
  process it failed to kill is then owned by no slot (`FailedKillOrphans`).

## Model

| member | source | states |
|---|---|---|
| Supervisor.Boot | ClaudeCodeManager.Server/Program.cs:12-13 | At startup both dictionaries are empty and the registry invariant holds |
| Server.WslManagerServer.constructor | ClaudeCodeManager.Server/Program.cs:12-14 | A new server has two empty dictionaries over the given process table and satisfies the invariant |
| Supervisor.SnapshotFrom | ClaudeCodeManager.Server/Program.cs:160-171 | The records for slots i..5 come in slot order, one per slot; each has the slot's number, port 7680 + number and the slot's liveness |
| Supervisor.Status | ClaudeCodeManager.Server/Program.cs:156-178 | Status always succeeds; it returns exactly five records numbered 1..5 with Port == 7680 + Number; IsRunning holds iff both dictionaries hold a handle for the slot and neither has exited |
| Server.WslManagerServer.GetTerminalStatus | ClaudeCodeManager.Server/Program.cs:156-178 | The for-loop over slots 1..5 returns exactly the status response of the current registry and process table |
| Supervisor.RunningIsAlreadyRunning | ClaudeCodeManager.Server/Program.cs:187 | Under the invariant, the repeat-start check on the WSL dictionary alone agrees with the status liveness on both dictionaries |
| Supervisor.Spawn | ClaudeCodeManager.Server/Program.cs:210-237 | A launch gets the next process id; the process has exited at the end of the grace period iff it died in it, and no other process changes state |
| Server.ProcessTable.Spawn | ClaudeCodeManager.Server/Program.cs:223-237 | Launching updates the process table exactly as Supervisor.Spawn says and returns the new handle |
| Server.ProcessTable.Terminate | ClaudeCodeManager.Server/Program.cs:318-319 | After a kill or a crash the process is exited, and no other process changes |
| Supervisor.Start | ClaudeCodeManager.Server/Program.cs:180-301 | Out of range: failure with the range message, state unchanged. Already running: success "already running", nothing changes. `Start()` throwing: failure "Failed to start terminal n: error", nothing changes. `Start()` returning false: failure "Failed to start process for terminal n", nothing changes. Death in the grace period: failure with the exit code and the captured output and error, the process id is used up and the process is exited. Success iff in range and (already running or survived the grace period). Any failure leaves the registry unchanged. A survivor is the fresh handle in both dictionaries and its slot is running. The process table changes only by the one launch, and only when a launch happens. Other slots' liveness is unchanged. The invariant and ownership of live processes are preserved |
| Supervisor.RegisterKeepsOwned | ClaudeCodeManager.Server/Program.cs:266-267 | Registering a survivor in a slot whose old process is gone keeps every live process registered |
| Server.WslManagerServer.StartTerminal | ClaudeCodeManager.Server/Program.cs:180-301 | The method mutates the dictionaries and the process table into exactly Supervisor.Start's state and returns its response; it keeps the invariant |
| Supervisor.Stop | ClaudeCodeManager.Server/Program.cs:303-353 | Stop always succeeds and removes the slot, and only the slot, from both dictionaries. The message is "stopped successfully" iff a registered, not-yet-exited process was killed without an exception, and "was not running" otherwise. Only that process becomes exited. Out of range under the invariant: "was not running", nothing changes. It preserves the invariant, other slots' liveness, and ownership when the kill does not fail |
| Server.WslManagerServer.StopTerminal | ClaudeCodeManager.Server/Program.cs:303-353 | The method kills and removes in place, exactly as Supervisor.Stop says; it keeps the invariant |
| Protocol.StopMessagesDiffer | ClaudeCodeManager.Server/Program.cs:339-341 | The "stopped successfully" and "was not running" texts for the same slot differ |
| Supervisor.ExitMonitor | ClaudeCodeManager.Server/Program.cs:270-283 | The monitor removes the slot from both dictionaries and keeps the other entries and the process table. The slot is not running afterwards. Other slots' liveness and the invariant are preserved, and ownership is preserved when the slot's process had exited |
| Server.WslManagerServer.OnProcessExit | ClaudeCodeManager.Server/Program.cs:274-277 | The monitor's removal, in place, gives exactly Supervisor.ExitMonitor's state |
| Supervisor.Crash | ClaudeCodeManager.Server/Program.cs:274 | A process h that dies on its own is exited afterwards and no other process changes state. Exactly the slots holding h stop being running, and the registry is unchanged |
| Supervisor.Route | ClaudeCodeManager.Server/Program.cs:135-147 | The action selects status, start or stop on an exact match of "status", "start" or "stop"; anything else is unknown |
| Supervisor.Dispatch | ClaudeCodeManager.Server/Program.cs:131-154 | Each action goes to its operation. An unknown action gives failure "Unknown action" and no change. A terminal list is present iff the action is status. The invariant is preserved, and so is ownership when no kill fails |
| Server.WslManagerServer.ProcessRequest | ClaudeCodeManager.Server/Program.cs:131-154 | The switch over the action string ends in exactly Supervisor.Dispatch's state and response |
| Supervisor.Screen | ClaudeCodeManager.Server/Program.cs:65-105 | No reply iff the read failed, read zero bytes or read only white space. Otherwise a JSON error gives failure "Invalid JSON format", a null request gives failure "Invalid request format", and a decoded request is forwarded unchanged |
| Supervisor.Respond | ClaudeCodeManager.Server/Program.cs:59-111 | A refused or silent connection changes nothing; a forwarded request's reply and state are the dispatcher's; the invariant is preserved |
| Server.WslManagerServer.HandleClient | ClaudeCodeManager.Server/Program.cs:59-111 | The handler returns exactly the reply, if any, and the state given by Supervisor.Respond |
| Supervisor.RunKeepsValid | ClaudeCodeManager.Server/Program.cs:182-334 | After any history of requests, crashes and monitor firings, the invariant still holds: both dictionaries have the same key set and the same handle per slot, keys are in 1..5, and no process serves two slots |
| Supervisor.RunKeepsOwned | ClaudeCodeManager.Server/Program.cs:266-283 | In a history where no kill throws and monitors fire only after their slot's process exited, every live session process stays registered |
| Supervisor.BootHistoriesConsistent | ClaudeCodeManager.Server/Program.cs:12-13 | Every history from boot keeps the two dictionaries in lockstep over slots 1..5. From a fresh process table, an orderly history never leaves a live process unregistered |
| Supervisor.BootStatusAllStopped | ClaudeCodeManager.Server/Program.cs:156-177 | Before any start, all five slots are reported not running, each with port 7680 + n |
| Supervisor.RepeatStartIsNoOp | ClaudeCodeManager.Server/Program.cs:187-190 | After a successful start, a second start of the same slot reports "already running" and changes nothing, so no second handle is registered |
| Supervisor.FailedLaunchShowsStopped | ClaudeCodeManager.Server/Program.cs:237-262 | A process that dies in the grace period makes start fail, and the next status shows the slot not running |
| Supervisor.CrashIsDetected | ClaudeCodeManager.Server/Program.cs:270-283 | A crashed session is reported not running before and after its monitor removes the slot, without any stop |
| Supervisor.RemovalIsIdempotent | ClaudeCodeManager.Server/Program.cs:309-334 | A second monitor removal is a no-op. A stop after a removal reports "was not running" and changes nothing. A removal after a stop changes nothing |
| Supervisor.FailedKillOrphans | ClaudeCodeManager.Server/Program.cs:316-334 | When Kill throws on a running slot, stop still succeeds with "was not running" and deregisters the slot; the process stays alive and no slot holds it |
| Supervisor.StartStatusStopStatus | ClaudeCodeManager.Server/Program.cs:156-353 | From boot: start(2) succeeds; status shows slot 2 running on port 7682 and the other four stopped; stop(2) succeeds; status then shows all five stopped |
| Text.NatToString | ClaudeCodeManager.Server/Program.cs:189 | A natural number renders as a nonempty string of decimal digits with no leading zero (0 renders as exactly "0") whose decimal value is the number |
| Text.IntToString | ClaudeCodeManager.Server/Program.cs:189 | An integer renders as a nonempty string with a leading '-' iff it is negative and digits everywhere else, with no leading zero (0 renders as exactly "0"), and the rendering denotes the integer, so distinct slot numbers and exit codes give distinct texts |
| Text.IsBlank | ClaudeCodeManager.Server/Program.cs:76 | `string.IsNullOrWhiteSpace` on a non-null string holds iff every character is in the `char.IsWhiteSpace` set; the empty string is blank |
| Supervisor.StaleMonitorDropsLiveSlot | ClaudeCodeManager.Server/Program.cs:266-277 | After a failed kill of slot 1's first process and a second start of slot 1, the first process's exit makes its monitor remove slot 1: the second process is alive, registered in no slot, and status reports slot 1 stopped |

## Left out

- The named-pipe transport and the accept loop `StartAsync` (Program.cs:16-57) are not modelled. That covers the single-instance pipe, the 1-second backoff after an error, and the `_isRunning` flag, which nothing ever clears.
- The pipe read is abstract (Program.cs:64-73). The 1024-byte buffer and UTF-8 decoding are not modelled; `ReadOutcome` carries the byte count and the decoded text.
- JSON is abstract (Program.cs:82, 117). Deserialization is the `Decoded` parameter, and a reply is the `Response` value before serialization. A failure while writing the reply is swallowed by the source (Program.cs:125-128) and is not modelled.
- The command line and platform checks are not modelled (Program.cs:21-30, 196-221). That covers the `wsl`/`ttyd`/`tmux` argument strings; the only derived value there is the port 7680 + n, which the model keeps.
- Time is not modelled. `Task.Delay(3000)` is folded into the launch outcome parameter, and `WaitForExit(5000)` is taken to confirm the death (see `Server.ProcessTable.Terminate`).
- Text.IntToString: integers render as under the invariant culture, with '-' as the negative sign. Under a culture whose `NumberFormatInfo.NegativeSign` differs (U+2212 under ICU for sv-SE, say), a negative exit code (Program.cs:261) or a negative slot number in a stop reply (Program.cs:341) renders with that sign instead; the culture is not modelled.
- Server.ProcessTable.Terminate: a kill that does not throw is taken to terminate the process. The 5-second bounded wait may in reality return before the process has died; the model does not capture that.
- Reading standard output and error after an early exit is not modelled (Program.cs:243-251). The captured texts are opaque strings in the outcome; when the source fails to read them they are empty.
- `Process.Start()` throwing is modelled as `StartThrew` (Program.cs:293-299). No other statement in the start path is taken to throw.
- Some exception handlers are not modelled, because no modelled step can throw there. They are the outer handler of `StopTerminalAsync` (Program.cs:344-352), the handler of `ProcessRequestAsync` (Program.cs:150-153) and the generic handler of `HandleClientAsync` (Program.cs:106-110).
- The concurrency of the fire-and-forget monitor task is not modelled (Program.cs:270). The monitor is `OnProcessExit(n)`, which the environment may call at any time, and it removes by slot number as the source does.
- A monitor can outlive its slot without any race. A stop whose `Kill` throws, or whose `WaitForExit(5000)` returns before the process dies, deregisters the slot while the old process's monitor is still waiting. A later start registers a new process in the same slot, and when the old process exits its monitor removes the new registration (`StaleMonitorDropsLiveSlot`). `RunKeepsOwned` proves ownership only for histories in which no kill throws and a monitor fires only once its slot's current process has exited, which excludes this path.
- Console logging is not modelled.
- The HTTP relay `ClaudeCodeManager.Web/Controllers/TerminalController.cs` is not part of this model.
