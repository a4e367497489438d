/** The request/response contract between the web front end and the
    supervisor: `WslRequest`, `WslResponse`, `TerminalStatus`, the slot
    constants and every fixed or interpolated message text. */
module Protocol {
  import opened Wrappers
  import Text

  /** Number of terminal slots; slots are numbered 1 to SlotCount. */
  const SlotCount: int := 5

  /** Slot n serves its web terminal on port BasePort + n. */
  const BasePort: int := 7680

  datatype Request = Request(action: string, terminalNumber: int)

  datatype TerminalStatus = TerminalStatus(number: int, isRunning: bool, port: int)

  /** `terminals` is present only in a status response. */
  datatype Response = Response(success: bool, message: string, terminals: Option<seq<TerminalStatus>>)

  function Port(n: int): int { BasePort + n }

  /** A response without a terminal list. */
  function Reply(success: bool, message: string): Response { Response(success, message, None) }

  const RangeMessage: string := "Terminal number must be between 1 and 5"
  const UnknownActionMessage: string := "Unknown action"
  const InvalidRequestMessage: string := "Invalid request format"
  const InvalidJsonMessage: string := "Invalid JSON format"

  function AlreadyRunningMessage(n: int): string
  {
    "Terminal " + Text.IntToString(n) + " is already running"
  }

  function NotStartedMessage(n: int): string
  {
    "Failed to start process for terminal " + Text.IntToString(n)
  }

  function ExitedInGraceMessage(n: int, exitCode: int, output: string, error: string): string
  {
    "Terminal " + Text.IntToString(n) + " failed to start (exit code: " + Text.IntToString(exitCode)
    + "). Output: " + output + ". Error: " + error
  }

  function StartedMessage(n: int): string
  {
    "Terminal " + Text.IntToString(n) + " started successfully"
  }

  function StartErrorMessage(n: int, error: string): string
  {
    "Failed to start terminal " + Text.IntToString(n) + ": " + error
  }

  function StoppedMessage(n: int): string
  {
    "Terminal " + Text.IntToString(n) + " stopped successfully"
  }

  function NotRunningMessage(n: int): string
  {
    "Terminal " + Text.IntToString(n) + " was not running"
  }

  /** The two replies of a stop can be told apart, so a client learns from the
      message whether a live process was killed. */
  lemma StopMessagesDiffer(n: int)
    ensures StoppedMessage(n) != NotRunningMessage(n)
  {
  }
}
