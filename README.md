# Fether: parity supervisor and IPC channel, modelled in Dafny

Fether is a light Ethereum wallet built on Electron. Its main process
launches a local parity node (`runParity`) and stops it (`killParity`),
and it talks to that node over an IPC socket through an `IpcChannel` object.
This project models both pieces and proves what they guarantee.

- `ipc_channel.dfy` (module `IpcChannel`) models `IpcChannel`. `Channel` is a
  class whose fields stand for the object's state: `queued` is `_queued`;
  `connected` says whether `_socket` is set; `wire` holds the socket writes;
  `emitted` holds the 'message' events; `attempt` is the promise of the latest
  `init`. The socket's 'connect', 'data' and 'error' events become the methods
  `OnConnect`, `OnData` and `OnError`. The inbound split
  `data.split(/\r?\n/).filter(Boolean)` is the pure function `SplitLines`. It
  is built on a plain split at '\n' (`Split`, whose inverse is `Join`), then
  one '\r' is dropped from each piece that a '\n' ends, then empty pieces are
  dropped. Its lemmas give the framing round trip with `send`'s `"\r\n"`.
- `run_parity.dfy` (module `RunParity`) models `runParity.js`. External facts
  are the fields of an `Env` input: the `--no-run-parity` flag, what
  `isParityRunning()` settles to, whether the imported `parityPath` function
  is truthy (the `if (!parityPath)` guard tests the import, not a path), and what
  `fs.stat` of the log file settles to. Effects are `Event`s in a trace.
  `LaunchEffects` is the effect sequence of one `runParity` call.
  `Classify` and `CloseEffects` are the decision of the 'close' listener.
  `LastLineAfter` is the `logLastLine` bookkeeping. The `Supervisor` class
  holds the module-level state: `parity` (the owned child), one stored
  `logLastLine` per spawned child, `global.isParityRunning`, and the trace.
  Its invariant says each child is killed at most once.
- `wrappers.dfy` (module `Wrappers`) holds `Option`. It stands for
  `undefined`/`null`.

Some behaviour of the code differs from what a reader might expect:

- A partial trailing fragment of an inbound chunk is not kept for the next
  chunk. The code splits every chunk by itself, so "A\r\nB" then "C\r\n"
  emits A, B, C, not A, BC (`MessageSplitAcrossChunks`).
- Outbound messages are not delivered exactly once. The code never empties
  `_queued`, so every later connect writes the whole queue again
  (`ReconnectWritesQueueAgain`).
- A second start while a child is owned can still spawn. The code keeps no
  in-memory guard: when `isParityRunning()` does not report the first child,
  a second `runParity` spawns again and takes over `parity`, and the first
  child can no longer be killed (`SecondLaunchOrphansFirst`,
  `TwoLaunchesThenKill`, both with a probe that reports no instance).
- A missing log file is not harmless. `fsExists` is `promisify(fs.stat)`,
  which rejects when the file is missing. That case ends in the `catch`, with
  one `handleError` call and no spawn (`LaunchFailsBeforeSpawn`).
- What is kept of the output is not its last line but the whole latest
  non-empty chunk (`LastLineIsLatestNonEmpty`). If no chunk ever arrived,
  `logLastLine` is `undefined` at a non-zero close. Then
  `logLastLine.includes` throws inside the listener, and neither `app.exit`
  nor `handleError` runs. The model records this as `UncaughtTypeError`.

## Model

| member | source | states |
|---|---|---|
| `IpcChannel.Split` | packages/fether-electron/src/main/app/ipcChannel/index.js:37 | splitting at '\n' gives at least one piece |
| `IpcChannel.SplitLength` | packages/fether-electron/src/main/app/ipcChannel/index.js:37 | a split at '\n' has exactly one more piece than the string has '\n's |
| `IpcChannel.SplitPiecesNoNewline` | packages/fether-electron/src/main/app/ipcChannel/index.js:37 | no piece of a split at '\n' holds a '\n' |
| `IpcChannel.JoinSplit` | packages/fether-electron/src/main/app/ipcChannel/index.js:37 | gluing the pieces back with '\n' gives the chunk again, so splitting loses nothing |
| `IpcChannel.SplitJoin` | packages/fether-electron/src/main/app/ipcChannel/index.js:37 | splitting a '\n'-join of '\n'-free pieces gives those pieces back |
| `IpcChannel.SplitAppend` | packages/fether-electron/src/main/app/ipcChannel/index.js:37 | a '\n' between two strings separates their pieces: the pieces of a+"\n"+b are those of a followed by those of b |
| `IpcChannel.DropCR` | packages/fether-electron/src/main/app/ipcChannel/index.js:37 | the `\r?` of the pattern: a piece that ends in '\r' loses exactly that one '\r', any other piece is kept whole |
| `IpcChannel.DropSeparatorCRs` | packages/fether-electron/src/main/app/ipcChannel/index.js:37 | every piece a '\n' ends is `DropCR` of itself; the last piece, which no '\n' ends, is kept whole, and the number of pieces is unchanged |
| `IpcChannel.RegexSplit` | packages/fether-electron/src/main/app/ipcChannel/index.js:37 | `split(/\r?\n/)` gives one piece per '\n'-piece, and none of them holds a '\n' |
| `IpcChannel.NonEmpty` | packages/fether-electron/src/main/app/ipcChannel/index.js:37 | `filter(Boolean)` keeps only non-empty strings, each taken from its input |
| `IpcChannel.SplitLines` | packages/fether-electron/src/main/app/ipcChannel/index.js:37 | no message split from a chunk is empty or holds a '\n' |
| `IpcChannel.SplitLinesNoNewline` | packages/fether-electron/src/main/app/ipcChannel/index.js:37 | a chunk without '\n' yields itself as one message, or nothing when empty |
| `IpcChannel.SplitLinesAppend` | packages/fether-electron/src/main/app/ipcChannel/index.js:37 | a "\r\n" inside a chunk ends a message: the messages of a+"\r\n"+b are those of a followed by those of b |
| `IpcChannel.Framed` | packages/fether-electron/src/main/app/ipcChannel/index.js:50 | a connected send of each message writes exactly that message followed by "\r\n", one write per message, in order |
| `IpcChannel.FrameRoundTrip` | packages/fether-electron/src/main/app/ipcChannel/index.js:37-50 | framed messages that arrive as one chunk yield exactly the non-empty ones among them, in order |
| `IpcChannel.FrameRoundTripExact` | packages/fether-electron/src/main/app/ipcChannel/index.js:37-50 | framing m1..mk (non-empty, without '\n') and splitting the single chunk gives back exactly m1..mk |
| `IpcChannel.TwoMessagesInOneChunk` | packages/fether-electron/src/main/app/ipcChannel/index.js:36-40 | the writes of A and B, arriving together as the chunk "A\r\nB\r\n", yield A then B |
| `IpcChannel.UnterminatedTailIsEmitted` | packages/fether-electron/src/main/app/ipcChannel/index.js:36-40 | a chunk "A\r\nB" yields A and B, so an unterminated tail is emitted as a message of its own |
| `IpcChannel.Channel.constructor` | packages/fether-electron/src/main/app/ipcChannel/index.js:22-23 | a new channel has an empty queue and no socket, and has written and emitted nothing |
| `IpcChannel.Channel.Init` | packages/fether-electron/src/main/app/ipcChannel/index.js:25-27 | `init` starts a pending attempt and changes nothing else |
| `IpcChannel.Channel.Send` | packages/fether-electron/src/main/app/ipcChannel/index.js:49-52 | with a socket, `send` writes exactly message+"\r\n" and leaves the queue unchanged; without one, it appends the message to the queue and writes nothing |
| `IpcChannel.Channel.SendQueued` | packages/fether-electron/src/main/app/ipcChannel/index.js:54-56 | with a socket, every queued message is written framed, in queue order, and the queue is left as it was; without one, the queue would be queued a second time |
| `IpcChannel.Channel.OnConnect` | packages/fether-electron/src/main/app/ipcChannel/index.js:28-33 | connect sets the socket, writes every queued message framed and in enqueue order, keeps the queue, then resolves a pending `init` to true |
| `IpcChannel.Channel.OnData` | packages/fether-electron/src/main/app/ipcChannel/index.js:34-41 | a chunk emits exactly its own `SplitLines` pieces, in order, after what was emitted before, and changes nothing else |
| `IpcChannel.Channel.EmitEach` | packages/fether-electron/src/main/app/ipcChannel/index.js:38-40 | the `forEach` emits every given message once, in order, after what was emitted before, and changes nothing else |
| `IpcChannel.Channel.OnError` | packages/fether-electron/src/main/app/ipcChannel/index.js:42-45 | an error rejects a pending `init` and leaves the socket, the queue and the writes unchanged |
| `IpcChannel.QueueThenConnect` | packages/fether-electron/src/main/app/ipcChannel/index.js:28-56 | N messages sent before connect are written on connect, framed and in order, and `init` resolves to true; the queue still holds them |
| `IpcChannel.FailThenReconnect` | packages/fether-electron/src/main/app/ipcChannel/index.js:25-56 | a failed connect rejects `init` and keeps the queued message unwritten; a later successful `init` writes it |
| `IpcChannel.ReconnectWritesQueueAgain` | packages/fether-electron/src/main/app/ipcChannel/index.js:54-56 | since the queue is never emptied, a second connect writes the queued message a second time |
| `IpcChannel.ErrorAfterConnect` | packages/fether-electron/src/main/app/ipcChannel/index.js:26-45 | an error after the connect leaves `init` resolved to true and the socket set |
| `IpcChannel.MessageSplitAcrossChunks` | packages/fether-electron/src/main/app/ipcChannel/index.js:34-41 | "A\r\nB" then "C\r\n" emits A, B, C and not A, BC: no state survives between data events |
| `RunParity.LaunchEffects` | electron/operations/runParity.js:33-135 | one `runParity` call never kills the child and never exits the app |
| `RunParity.LaunchSkipped` | electron/operations/runParity.js:36-47 | with `--no-run-parity` nothing happens at all; with an instance already running, only the probe happens: no spawn, no log file, no notification |
| `RunParity.LaunchFailsBeforeSpawn` | electron/operations/runParity.js:41-135 | a rejected probe, a falsy `parityPath` import or a failing log `stat` reports exactly one error, as the last effect, with no spawn of any child, no notification and no unlink or open of the log; the exact effect sequence is given for each of the three cases |
| `RunParity.LaunchSpawns` | electron/operations/runParity.js:58-130 | on the path that spawns, nothing is reported; the log is checked, unlinked and opened before the spawn; the 'parity-running' notification comes right after the spawn, last |
| `RunParity.NextLastLine` | electron/operations/runParity.js:89-92 | a non-empty chunk replaces the stored `logLastLine`; an empty one leaves it as it was |
| `RunParity.LastLineAfter` | electron/operations/runParity.js:89-92 | after a sequence of chunks the stored value is the one from before or one of the non-empty chunks |
| `RunParity.LastLineAllEmpty` | electron/operations/runParity.js:89-96 | if every chunk was empty, the stored `logLastLine` is unchanged |
| `RunParity.LastLineIsLatestNonEmpty` | electron/operations/runParity.js:89-96 | the stored `logLastLine` is the latest non-empty chunk, from either stream |
| `RunParity.Contains` | electron/operations/runParity.js:110 | `s.includes(sub)`: the empty string is included in every string, and a string is included only in strings at least as long |
| `RunParity.ContainsIffOccurs` | electron/operations/runParity.js:110 | `includes` holds exactly when the substring occurs at some index |
| `RunParity.IsCatchable` | electron/operations/runParity.js:110 | `catchableErrors.some(...)` holds exactly when the chunk includes the port-in-use message or the lock-file message; a catchable chunk is at least 26 characters long |
| `RunParity.CatchableAnywhere` | electron/operations/runParity.js:27-110 | a chunk that holds either catchable message anywhere counts as catchable |
| `RunParity.Classify` | electron/operations/runParity.js:101-126 | a close is Clean iff the exit code is 0; DuplicateInstance iff it is not 0 and the stored chunk contains a catchable message; NoOutput iff it is not 0 and no chunk was stored; Fatal, with that code and signal, otherwise |
| `RunParity.CloseEffects` | electron/operations/runParity.js:101-126 | exit code 0 does nothing, whatever the chunk; a catchable chunk does nothing; a fatal close gives `app.exit(1)` iff `parityArgv` has a key, and otherwise exactly one `handleError` with the exit message; with no stored chunk the listener throws |
| `RunParity.NatToDecimal` | electron/operations/runParity.js:122 | the exit code in the message is a non-empty string of decimal digits with no leading zero (the shortest numeral) |
| `RunParity.DecimalRoundTrip` | electron/operations/runParity.js:122 | the digits in the message give back the exit code |
| `RunParity.ShowCode` | electron/operations/runParity.js:122 | `${exitCode}` renders `null` as "null", a non-negative code as decimal digits without a leading zero that read back as the code, and a negative one as "-" followed by such digits that read back as its magnitude |
| `RunParity.ShowSignal` | electron/operations/runParity.js:122 | `${signal}` renders `null` as "null" and a signal name as itself |
| `RunParity.ExitMessage` | electron/operations/runParity.js:122 | the fatal message is "Exit code ", then the rendered code, then ", with signal ", then the rendered signal, then "."; each part sits at the position its predecessors fix |
| `RunParity.LockFileExitIsIgnored` | electron/operations/runParity.js:27-115 | a non-zero exit whose stored chunk holds "IO error: While lock file:" anywhere reports nothing and does not exit, with or without arguments |
| `RunParity.Supervisor.constructor` | electron/operations/runParity.js:22 | no child is owned at the start, the global flag is unset, and nothing has happened yet |
| `RunParity.Supervisor.RunParity` | electron/operations/runParity.js:33-135 | the trace grows by `LaunchEffects`; on the spawning path a new child is added, becomes `parity` with no stored output, and the global running flag is set; on every other path the state is unchanged |
| `RunParity.Supervisor.OnChildData` | electron/operations/runParity.js:89-96 | a non-empty chunk replaces that child's stored output, an empty one leaves it; nothing else changes |
| `RunParity.Supervisor.OnChildError` | electron/operations/runParity.js:98-100 | a child 'error' reports exactly one error and changes nothing else |
| `RunParity.Supervisor.OnChildClose` | electron/operations/runParity.js:101-126 | a close appends the `CloseEffects` of that child's stored output; `parity` and the global flag stay as they were |
| `RunParity.Supervisor.KillParity` | electron/operations/runParity.js:137-143 | an owned child is killed once and the handle is cleared; with no owned child nothing happens; the invariant keeps every child killed at most once |
| `RunParity.TwoLaunchesThenKill` | electron/operations/runParity.js:33-143 | two spawning launches followed by one kill: child 0 is spawned at position 5, child 1 at position 12, and the only child ever killed is child 1, last |
| `RunParity.SecondLaunchOrphansFirst` | electron/operations/runParity.js:22-143 | two launches followed by two `killParity` calls leave exactly the trace of two launches and one kill of child 1 (the second call does nothing), and no owned child |
| `RunParity.CloseAfterOutput` | electron/operations/runParity.js:74-126 | after any sequence of chunks, the close listener sees the latest non-empty chunk, or nothing if all were empty, and acts as `CloseEffects` says |

## Left out

- A `parityPath()` that returns no path yet passes the `if (!parityPath)` guard,
  which tests only the imported function. That case is not modelled: it would
  go on to chmod (failure swallowed), stat, unlink and open the log, and end
  in a throw from `spawn`, which the line on `spawn` throws below also leaves out.
- Sockets, EventEmitter mechanics, Promise plumbing and the pino logger are
  not modelled. Events become method calls, and the promise becomes the
  `attempt` field with settle-once behaviour.
- Events of a socket created by an earlier `init` call are not told apart
  from the latest one. `connected` stands for `_socket` being set by any of
  them, and `attempt` is the promise of the latest call.
- Buffer to string UTF-8 decoding is left out. Chunks are strings of
  characters. A chunk counts as non-empty when its string is non-empty.
- The order of asynchronous callbacks is left out: stdout against stderr,
  close racing kill, awaits inside `runParity`. Every callback and every
  `runParity` call is one atomic step.
- The real `spawn`, `chmod`, `stat`, `unlink`, `createWriteStream`, stream
  piping and `debug` logging are left out. Their outcomes are `Env` inputs,
  or they are recorded as events (chmod and unlink are recorded as attempts,
  since their failures are swallowed).
- `isParityRunning`, `handleError`, `doesParityExist` and the `cli` module
  are not part of this model. Their results are inputs. `cli.runParity ===
  false` is a boolean flag, and `parityArgv` is a sequence whose key count is
  its length.
- What Electron does with the uncaught TypeError of the 'close' listener is
  left out. It is only recorded as `UncaughtTypeError`.
- A synchronous throw from `spawn`, or a throw between the spawn and the
  notification, is not modelled. The code reports spawn failures through the
  child's 'error' event (`OnChildError`).
- The log file's contents are not modelled, only the stored `logLastLine`.
