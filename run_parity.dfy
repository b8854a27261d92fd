/**
 * The parity supervisor of the Electron main process: one launch attempt of
 * the parity node (`runParity`), the bookkeeping of its output, the
 * classification of its exit, and `killParity`.
 *
 * Spawning, the file system, `app` and `webContents` are not modelled; the
 * facts they report become the inputs of an `Env`, and what the code does to
 * them is recorded, in order, as `Event`s in a trace.
 */
module RunParity {
  import opened Wrappers

  /** The context string every `handleError` call passes. */
  const RunContext: string := "An error occured while running parity."

  /** The error thrown when the imported `parityPath` function is falsy. */
  const PathUnsetMessage: string := "Attempting to run Parity before parityPath is set."

  /** Output of parity that means another instance already owns the port or the database lock. */
  const CatchableErrors: seq<string> := [
    "is already in use, make sure that another instance of an Ethereum client is not running or change the address using the --ws-port and --ws-interface options.",
    "IO error: While lock file:"
  ]

  // ---------------------------------------------------------------------------
  // External facts and effects
  // ---------------------------------------------------------------------------

  /** What `isParityRunning()` settles to: no instance, an instance with its pid, or a rejection. */
  datatype Liveness = NotRunning | Running(pid: nat) | ProbeFailed(error: string)

  /** What `fs.stat` on the log file settles to; it rejects when the file is missing. */
  datatype StatResult = StatOk | StatFailed(error: string)

  /**
   * The facts one `runParity` call depends on; `pathSet` is the truthiness of
   * the imported `parityPath` function itself, which is what `if (!parityPath)` tests.
   */
  datatype Env = Env(runFlag: bool, liveness: Liveness, pathSet: bool, logStat: StatResult)

  /** What the supervisor does to the world, in order. */
  datatype Event =
    | ProbedLiveness                                  // isParityRunning() is asked
    | Chmod                                           // chmod 755 of the binary; failures ignored
    | StatLog                                         // fs.stat of the log file
    | UnlinkLog                                       // unlink of the old log file; failures ignored
    | OpenLog                                         // the log file is opened for appending
    | Spawned(child: nat, args: seq<string>)          // spawn(parityPath(), parityArgv)
    | NotifiedRunning                                 // webContents.send('parity-running', true)
    | ErrorReported(message: string, context: string) // handleError(err, context)
    | AppExit(code: int)                              // app.exit(code)
    | UncaughtTypeError                               // a TypeError escapes the 'close' listener
    | Killed(child: nat)                              // parity.kill()

  /** The number of `handleError` calls a trace records. */
  function ErrorCount(t: seq<Event>): nat
  {
    if t == [] then 0 else (if t[0].ErrorReported? then 1 else 0) + ErrorCount(t[1..])
  }

  lemma {:induction false} ErrorCountAppend(t: seq<Event>, u: seq<Event>)
    ensures ErrorCount(t + u) == ErrorCount(t) + ErrorCount(u)
    decreases |t|
  {
    if t == [] {
      assert t + u == u;
    } else {
      assert (t + u)[1..] == t[1..] + u;
      ErrorCountAppend(t[1..], u);
    }
  }

  lemma {:induction false} ErrorCountZero(t: seq<Event>)
    requires forall i :: 0 <= i < |t| ==> !t[i].ErrorReported?
    ensures ErrorCount(t) == 0
    decreases |t|
  {
    if t != [] {
      ErrorCountZero(t[1..]);
    }
  }

  /** The children a trace kills, in order. */
  function Kills(t: seq<Event>): seq<nat>
  {
    if t == [] then [] else (if t[0].Killed? then [t[0].child] else []) + Kills(t[1..])
  }

  lemma {:induction false} KillsAppend(t: seq<Event>, u: seq<Event>)
    ensures Kills(t + u) == Kills(t) + Kills(u)
    decreases |t|
  {
    if t == [] {
      assert t + u == u;
    } else {
      var head := if t[0].Killed? then [t[0].child] else [];
      assert (t + u)[0] == t[0];
      assert (t + u)[1..] == t[1..] + u;
      KillsAppend(t[1..], u);
      assert Kills(t + u) == head + (Kills(t[1..]) + Kills(u));
      assert Kills(t) == head + Kills(t[1..]);
    }
  }

  lemma {:induction false} KillsNone(u: seq<Event>)
    requires forall i :: 0 <= i < |u| ==> !u[i].Killed?
    ensures Kills(u) == []
    decreases |u|
  {
    if u != [] {
      KillsNone(u[1..]);
    }
  }

  // ---------------------------------------------------------------------------
  // One launch attempt
  // ---------------------------------------------------------------------------

  /** Whether `runParity` gets as far as spawning. */
  predicate Spawns(env: Env)
  {
    env.runFlag && env.liveness.NotRunning? && env.pathSet && env.logStat.StatOk?
  }

  /** Whether `runParity` throws before spawning and lands in its `catch`. */
  predicate FailsBeforeSpawn(env: Env)
  {
    env.runFlag && !env.liveness.Running? && !Spawns(env)
  }

  /** The effects of `runParity` in `env`, when the next child to spawn is numbered `child`; it never kills or exits the app. */
  function LaunchEffects(env: Env, child: nat, argv: seq<string>): (r: seq<Event>)
    ensures forall i :: 0 <= i < |r| ==> !r[i].Killed? && !r[i].AppExit?
  {
    if !env.runFlag then []
    else
      match env.liveness
      case ProbeFailed(e) => [ProbedLiveness, ErrorReported(e, RunContext)]
      case Running(_) => [ProbedLiveness]
      case NotRunning =>
        if !env.pathSet then [ProbedLiveness, ErrorReported(PathUnsetMessage, RunContext)]
        else
          match env.logStat
          case StatFailed(e) => [ProbedLiveness, Chmod, StatLog, ErrorReported(e, RunContext)]
          case StatOk => [ProbedLiveness, Chmod, StatLog, UnlinkLog, OpenLog, Spawned(child, argv), NotifiedRunning]
  }

  /**
   * With `--no-run-parity` nothing happens at all; when another instance is
   * running, it is only probed for: no spawn, no log file, no notification.
   */
  lemma LaunchSkipped(env: Env, child: nat, argv: seq<string>)
    requires !env.runFlag || env.liveness.Running?
    ensures !env.runFlag ==> LaunchEffects(env, child, argv) == []
    ensures env.runFlag ==> LaunchEffects(env, child, argv) == [ProbedLiveness]
  {
  }

  /**
   * A failure before the spawn (a rejected probe, a falsy `parityPath` import, or a
   * failing `stat` of the log file) is reported exactly once, as the last
   * effect; nothing is spawned or notified and the log is neither unlinked nor
   * opened.
   */
  lemma {:induction false} LaunchFailsBeforeSpawn(env: Env, child: nat, argv: seq<string>)
    requires FailsBeforeSpawn(env)
    ensures var r := LaunchEffects(env, child, argv);
      ErrorCount(r) == 1 && r[|r| - 1].ErrorReported? &&
      forall i :: 0 <= i < |r| ==> !r[i].Spawned? && !r[i].NotifiedRunning? && !r[i].UnlinkLog? && !r[i].OpenLog?
    ensures env.liveness.ProbeFailed? ==>
      LaunchEffects(env, child, argv) == [ProbedLiveness, ErrorReported(env.liveness.error, RunContext)]
    ensures env.liveness.NotRunning? && !env.pathSet ==>
      LaunchEffects(env, child, argv) == [ProbedLiveness, ErrorReported(PathUnsetMessage, RunContext)]
    ensures env.liveness.NotRunning? && env.pathSet ==>
      LaunchEffects(env, child, argv) == [ProbedLiveness, Chmod, StatLog, ErrorReported(env.logStat.error, RunContext)]
  {
    var r := LaunchEffects(env, child, argv);
    var pre, e;
    if env.liveness.ProbeFailed? {
      pre, e := [ProbedLiveness], env.liveness.error;
    } else if !env.pathSet {
      pre, e := [ProbedLiveness], PathUnsetMessage;
    } else {
      pre, e := [ProbedLiveness, Chmod, StatLog], env.logStat.error;
    }
    assert r == pre + [ErrorReported(e, RunContext)];
    ErrorCountZero(pre);
    ErrorCountAppend(pre, [ErrorReported(e, RunContext)]);
  }

  /**
   * On the path that spawns, the log is checked, unlinked and opened first,
   * nothing is reported, and the notification comes right after the spawn, last.
   */
  lemma {:induction false} LaunchSpawns(env: Env, child: nat, argv: seq<string>)
    requires Spawns(env)
    ensures var r := LaunchEffects(env, child, argv);
      ErrorCount(r) == 0 && |r| >= 2 &&
      r[|r| - 2] == Spawned(child, argv) && r[|r| - 1] == NotifiedRunning &&
      StatLog in r[..|r| - 2] && UnlinkLog in r[..|r| - 2] && OpenLog in r[..|r| - 2]
  {
    var r := LaunchEffects(env, child, argv);
    assert r == [ProbedLiveness, Chmod, StatLog, UnlinkLog, OpenLog, Spawned(child, argv), NotifiedRunning];
    assert r[..|r| - 2] == [ProbedLiveness, Chmod, StatLog, UnlinkLog, OpenLog];
    ErrorCountZero(r);
  }

  // ---------------------------------------------------------------------------
  // Output bookkeeping: the `data` callback of stdout and stderr
  // ---------------------------------------------------------------------------

  /** `logLastLine` after one chunk: a non-empty chunk replaces it, an empty one leaves it. */
  function NextLastLine(last: Option<string>, chunk: string): (r: Option<string>)
    ensures chunk != [] ==> r == Some(chunk)
    ensures chunk == [] ==> r == last
  {
    if |chunk| > 0 then Some(chunk) else last
  }

  /** `logLastLine` after the chunks `chunks`, in arrival order, starting from `last`. */
  function LastLineAfter(last: Option<string>, chunks: seq<string>): (r: Option<string>)
    ensures r == last || exists i :: 0 <= i < |chunks| && chunks[i] != [] && r == Some(chunks[i])
    decreases |chunks|
  {
    if chunks == [] then last
    else
      var init := chunks[..|chunks| - 1];
      assert forall i :: 0 <= i < |init| ==> init[i] == chunks[i];
      NextLastLine(LastLineAfter(last, init), chunks[|chunks| - 1])
  }

  /** When every chunk was empty, the stored value is what it was before. */
  lemma {:induction false} LastLineAllEmpty(prev: Option<string>, chunks: seq<string>)
    requires forall i :: 0 <= i < |chunks| ==> chunks[i] == []
    ensures LastLineAfter(prev, chunks) == prev
    decreases |chunks|
  {
    if chunks != [] {
      var init := chunks[..|chunks| - 1];
      assert forall i :: 0 <= i < |init| ==> init[i] == chunks[i];
      LastLineAllEmpty(prev, init);
    }
  }

  /** The stored value is the latest non-empty chunk, from either stream. */
  lemma {:induction false} LastLineIsLatestNonEmpty(prev: Option<string>, chunks: seq<string>, i: nat)
    requires i < |chunks| && chunks[i] != []
    requires forall j :: i < j < |chunks| ==> chunks[j] == []
    ensures LastLineAfter(prev, chunks) == Some(chunks[i])
    decreases |chunks|
  {
    var n := |chunks|;
    if i < n - 1 {
      var init := chunks[..n - 1];
      assert init[i] == chunks[i];
      assert forall j :: i < j < |init| ==> init[j] == chunks[j];
      LastLineIsLatestNonEmpty(prev, init, i);
      assert chunks[n - 1] == [];
    }
  }

  // ---------------------------------------------------------------------------
  // Exit classification: the `close` listener
  // ---------------------------------------------------------------------------

  /** JavaScript's `s.includes(sub)`. */
  function Contains(s: string, sub: string): (r: bool)
    ensures sub == [] ==> r
    ensures r ==> |sub| <= |s|
    decreases |s|
  {
    sub <= s || (s != [] && Contains(s[1..], sub))
  }

  /** `sub` occurs in `s` starting at index `i`. */
  predicate OccursAt(s: string, sub: string, i: int)
  {
    0 <= i && i + |sub| <= |s| && s[i..i + |sub|] == sub
  }

  /** An occurrence at some index means `includes`. */
  lemma {:induction false} OccursContains(s: string, sub: string, i: int)
    requires OccursAt(s, sub, i)
    ensures Contains(s, sub)
    decreases |s|
  {
    if i == 0 {
      assert s[..|sub|] == sub;
    } else {
      assert s[1..][i - 1..i - 1 + |sub|] == s[i..i + |sub|];
      OccursContains(s[1..], sub, i - 1);
    }
  }

  /** `includes` means an occurrence at some index. */
  lemma {:induction false} ContainsOccurs(s: string, sub: string) returns (i: int)
    requires Contains(s, sub)
    ensures OccursAt(s, sub, i)
    decreases |s|
  {
    if sub <= s {
      i := 0;
      assert s[0..|sub|] == sub;
    } else {
      var k := ContainsOccurs(s[1..], sub);
      assert s[k + 1..k + 1 + |sub|] == s[1..][k..k + |sub|];
      i := k + 1;
    }
  }

  /** `s.includes(sub)` holds exactly when `sub` occurs in `s` at some index. */
  lemma ContainsIffOccurs(s: string, sub: string)
    ensures Contains(s, sub) <==> exists i :: OccursAt(s, sub, i)
  {
    if Contains(s, sub) {
      var i := ContainsOccurs(s, sub);
    }
    if i :| OccursAt(s, sub, i) {
      OccursContains(s, sub, i);
    }
  }

  /** `catchableErrors.some(error => line.includes(error))`. */
  function IsCatchable(line: string): (r: bool)
    ensures r <==> Contains(line, CatchableErrors[0]) || Contains(line, CatchableErrors[1])
    ensures r ==> |line| >= |CatchableErrors[1]| == 26
  {
    exists k :: 0 <= k < |CatchableErrors| && Contains(line, CatchableErrors[k])
  }

  /** A catchable error is recognised wherever it stands in the chunk. */
  lemma CatchableAnywhere(before: string, k: nat, after: string)
    requires k < |CatchableErrors|
    ensures IsCatchable(before + CatchableErrors[k] + after)
  {
    var s := before + CatchableErrors[k] + after;
    assert s[|before|..|before| + |CatchableErrors[k]|] == CatchableErrors[k];
    OccursContains(s, CatchableErrors[k], |before|);
  }

  /** How a close of the child is read. */
  datatype ExitClass =
    | Clean                                                 // exit code 0
    | DuplicateInstance                                     // a catchable error in the stored chunk
    | Fatal(exitCode: Option<int>, signal: Option<string>)  // anything else
    | NoOutput                                              // nothing stored: `undefined.includes` throws

  /** The decision of the `close` listener, from the exit code (None for null), the signal and the stored chunk. */
  function Classify(exitCode: Option<int>, signal: Option<string>, lastLine: Option<string>): (c: ExitClass)
    ensures c.Clean? <==> exitCode == Some(0)
    ensures c.DuplicateInstance? <==> exitCode != Some(0) && lastLine.Some? && IsCatchable(lastLine.value)
    ensures c.NoOutput? <==> exitCode != Some(0) && lastLine.None?
    ensures c.Fatal? <==> exitCode != Some(0) && lastLine.Some? && !IsCatchable(lastLine.value)
    ensures c.Fatal? ==> c.exitCode == exitCode && c.signal == signal
  {
    if exitCode == Some(0) then Clean
    else if lastLine.None? then NoOutput
    else if IsCatchable(lastLine.value) then DuplicateInstance
    else Fatal(exitCode, signal)
  }

  /** The effects of the `close` listener; `argv` is `parityArgv`, whose key count is its length. */
  function CloseEffects(exitCode: Option<int>, signal: Option<string>, lastLine: Option<string>, argv: seq<string>)
    : (r: seq<Event>)
    ensures exitCode == Some(0) ==> r == []
    ensures lastLine.Some? && IsCatchable(lastLine.value) ==> r == []
    ensures Classify(exitCode, signal, lastLine).Fatal? ==> (r == [AppExit(1)] <==> |argv| > 0)
    ensures Classify(exitCode, signal, lastLine).Fatal? && |argv| == 0 ==>
      r == [ErrorReported(ExitMessage(exitCode, signal), RunContext)]
    ensures exitCode != Some(0) && lastLine.None? ==> r == [UncaughtTypeError]
    ensures |r| <= 1 && forall i :: 0 <= i < |r| ==> !r[i].Killed?
  {
    match Classify(exitCode, signal, lastLine)
    case Clean => []
    case DuplicateInstance => []
    case NoOutput => [UncaughtTypeError]
    case Fatal(code, sig) =>
      if |argv| > 0 then [AppExit(1)]
      else [ErrorReported(ExitMessage(code, sig), RunContext)]
  }

  /** The character of a decimal digit. */
  function DigitChar(d: nat): (c: char)
    requires d < 10
    ensures '0' <= c <= '9' && c as int - '0' as int == d
  {
    ('0' as int + d) as char
  }

  /** A shortest decimal numeral: digits only, and no leading zero unless it is "0". */
  predicate IsNumeral(s: string)
  {
    |s| >= 1 && (forall i :: 0 <= i < |s| ==> '0' <= s[i] <= '9') && (|s| == 1 || s[0] != '0')
  }

  /** The decimal numeral of `n`, as a template literal renders it. */
  function NatToDecimal(n: nat): (s: string)
    ensures IsNumeral(s)
    ensures n < 10 ==> |s| == 1
    ensures n >= 10 ==> |s| >= 2
    decreases n
  {
    if n < 10 then [DigitChar(n)] else NatToDecimal(n / 10) + [DigitChar(n % 10)]
  }

  /** The value of a decimal numeral. */
  function DecimalValue(s: string): nat
    requires forall i :: 0 <= i < |s| ==> '0' <= s[i] <= '9'
  {
    if s == [] then 0 else DecimalValue(s[..|s| - 1]) * 10 + (s[|s| - 1] as int - '0' as int)
  }

  /** The numeral in the message gives back the exit code. */
  lemma {:induction false} DecimalRoundTrip(n: nat)
    ensures DecimalValue(NatToDecimal(n)) == n
    decreases n
  {
    if n >= 10 {
      DecimalRoundTrip(n / 10);
      var s := NatToDecimal(n);
      assert s[..|s| - 1] == NatToDecimal(n / 10);
    }
  }

  /** `${exitCode}`: the number, or "null". */
  function ShowCode(code: Option<int>): (r: string)
    ensures code.None? ==> r == "null"
    ensures code.Some? && code.value >= 0 ==> IsNumeral(r) && DecimalValue(r) == code.value
    ensures code.Some? && code.value < 0 ==>
      |r| >= 2 && r[0] == '-' && IsNumeral(r[1..]) && DecimalValue(r[1..]) == -code.value
  {
    match code
    case None => "null"
    case Some(n) =>
      var magnitude: nat := if n < 0 then -n else n;
      var digits := NatToDecimal(magnitude);
      DecimalRoundTrip(magnitude);
      assert ("-" + digits)[1..] == digits;
      if n < 0 then "-" + digits else digits
  }

  /** `${signal}`: the signal name, or "null". */
  function ShowSignal(signal: Option<string>): (r: string)
    ensures signal.None? ==> r == "null"
    ensures signal.Some? ==> r == signal.value
  {
    match signal
    case None => "null"
    case Some(s) => s
  }

  /** The fixed parts of the message of a fatal exit. */
  const CodePrefix: string := "Exit code "
  const SignalPrefix: string := ", with signal "

  /**
   * The message of the error reported for a fatal exit: "Exit code ", the
   * rendered code, ", with signal ", the rendered signal and a final ".".
   */
  function ExitMessage(code: Option<int>, signal: Option<string>): (r: string)
    ensures var c, g := ShowCode(code), ShowSignal(signal);
      var k := |CodePrefix| + |c|;
      |r| == k + |SignalPrefix| + |g| + 1 &&
      r[..|CodePrefix|] == CodePrefix && r[|CodePrefix|..k] == c &&
      r[k..k + |SignalPrefix|] == SignalPrefix && r[k + |SignalPrefix|..|r| - 1] == g && r[|r| - 1..] == "."
  {
    var c, g := ShowCode(code), ShowSignal(signal);
    ConcatParts(CodePrefix, c, SignalPrefix, g, ".");
    CodePrefix + c + SignalPrefix + g + "."
  }

  /** Where each of five concatenated strings sits in the result. */
  lemma ConcatParts(a: string, b: string, c: string, d: string, e: string)
    ensures var r, k := a + b + c + d + e, |a| + |b|;
      |r| == k + |c| + |d| + |e| &&
      r[..|a|] == a && r[|a|..k] == b && r[k..k + |c|] == c && r[k + |c|..k + |c| + |d|] == d &&
      r[k + |c| + |d|..] == e
  {
    var r, k := a + b + c + d + e, |a| + |b|;
    assert r == (a + b) + (c + (d + e));
    assert (a + b)[..|a|] == a && (a + b)[|a|..] == b;
    assert (c + (d + e))[..|c|] == c && (c + (d + e))[|c|..] == d + e;
    assert (d + e)[..|d|] == d && (d + e)[|d|..] == e;
  }

  /**
   * A nonzero exit whose stored chunk reports the database lock of another
   * instance, anywhere in the chunk, is ignored: no error, no exit.
   */
  lemma LockFileExitIsIgnored(code: int, signal: Option<string>, before: string, after: string, argv: seq<string>)
    requires code != 0
    ensures CloseEffects(Some(code), signal, Some(before + CatchableErrors[1] + after), argv) == []
  {
    var line := before + CatchableErrors[1] + after;
    CatchableAnywhere(before, 1, after);
    assert IsCatchable(line);
  }

  // ---------------------------------------------------------------------------
  // The supervisor's state
  // ---------------------------------------------------------------------------

  class Supervisor {
    /** `parityArgv`: the arguments every spawn passes. */
    const argv: seq<string>
    /** The module-level `parity`: the number of the owned child, if any. */
    var parity: Option<nat>
    /** For each child spawned so far, in spawn order, the `logLastLine` of its launch (None: undefined). */
    var children: seq<Option<string>>
    /** `global.isParityRunning`. */
    var globalRunning: bool
    /** Every effect so far, in order. */
    var trace: seq<Event>

    /** The owned child is the latest one and is not killed yet; every child is killed at most once. */
    ghost predicate Valid()
      reads this
    {
      var k := Kills(trace);
      (parity.Some? ==> parity.value == |children| - 1 && parity.value !in k) &&
      (forall i :: 0 <= i < |k| ==> k[i] < |children|) &&
      (forall i, j :: 0 <= i < j < |k| ==> k[i] != k[j])
    }

    constructor (argv: seq<string>)
      ensures Valid()
      ensures this.argv == argv && parity == None && children == [] && !globalRunning && trace == []
    {
      this.argv := argv;
      parity, children, globalRunning, trace := None, [], false, [];
    }

    /** Appends effects that kill no child. */
    method Record(effects: seq<Event>)
      requires Valid()
      requires forall i :: 0 <= i < |effects| ==> !effects[i].Killed?
      modifies this
      ensures Valid()
      ensures trace == old(trace) + effects
      ensures parity == old(parity) && children == old(children) && globalRunning == old(globalRunning)
    {
      KillsAppend(trace, effects);
      KillsNone(effects);
      trace := trace + effects;
    }

    /**
     * `runParity(mainWindow)`, its awaits taken as atomic steps: the checks in
     * order, then the spawn of a new child that becomes the owned one (a
     * child owned before is no longer reachable from `parity`), then the
     * notification and the global flag.
     */
    method RunParity(env: Env)
      requires Valid()
      modifies this
      ensures Valid()
      ensures trace == old(trace) + LaunchEffects(env, |old(children)|, argv)
      ensures Spawns(env) ==>
        parity == Some(|old(children)|) && children == old(children) + [None] && globalRunning
      ensures !Spawns(env) ==>
        parity == old(parity) && children == old(children) && globalRunning == old(globalRunning)
    {
      if !env.runFlag {
        return;
      }
      match env.liveness {
        case ProbeFailed(e) =>
          Record([ProbedLiveness, ErrorReported(e, RunContext)]);
          return;
        case Running(_) =>
          Record([ProbedLiveness]);
          return;
        case NotRunning =>
      }
      if !env.pathSet {
        Record([ProbedLiveness, ErrorReported(PathUnsetMessage, RunContext)]);
        return;
      }
      if env.logStat.StatFailed? {
        Record([ProbedLiveness, Chmod, StatLog, ErrorReported(env.logStat.error, RunContext)]);
        return;
      }
      var child := |children|;
      children := children + [None];
      parity := Some(child);
      globalRunning := true;
      Record([ProbedLiveness, Chmod, StatLog, UnlinkLog, OpenLog, Spawned(child, argv), NotifiedRunning]);
    }

    /** The `data` callback of child `child`'s stdout or stderr. */
    method OnChildData(child: nat, chunk: string)
      requires Valid() && child < |children|
      modifies this
      ensures Valid()
      ensures children == old(children)[child := NextLastLine(old(children)[child], chunk)]
      ensures parity == old(parity) && trace == old(trace) && globalRunning == old(globalRunning)
    {
      if |chunk| > 0 {
        children := children[child := Some(chunk)];
      }
    }

    /** The `error` listener of child `child`. */
    method OnChildError(child: nat, err: string)
      requires Valid() && child < |children|
      modifies this
      ensures Valid()
      ensures trace == old(trace) + [ErrorReported(err, RunContext)]
      ensures parity == old(parity) && children == old(children) && globalRunning == old(globalRunning)
    {
      Record([ErrorReported(err, RunContext)]);
    }

    /** The `close` listener of child `child`; it neither clears `parity` nor the global flag. */
    method OnChildClose(child: nat, exitCode: Option<int>, signal: Option<string>)
      requires Valid() && child < |children|
      modifies this
      ensures Valid()
      ensures trace == old(trace) + CloseEffects(exitCode, signal, old(children)[child], argv)
      ensures parity == old(parity) && children == old(children) && globalRunning == old(globalRunning)
    {
      Record(CloseEffects(exitCode, signal, children[child], argv));
    }

    /** `killParity()`: kills the owned child, if any, and clears the handle. */
    method KillParity()
      requires Valid()
      modifies this
      ensures Valid()
      ensures parity == None
      ensures trace == old(trace) + (if old(parity).Some? then [Killed(old(parity).value)] else [])
      ensures children == old(children) && globalRunning == old(globalRunning)
    {
      if parity.Some? {
        KillsAppend(trace, [Killed(parity.value)]);
        assert Kills([Killed(parity.value)]) == [parity.value];
        trace := trace + [Killed(parity.value)];
        parity := None;
      }
    }
  }

  // ---------------------------------------------------------------------------
  // Scenarios
  // ---------------------------------------------------------------------------

  /** The facts under which `runParity` spawns. */
  const LaunchableEnv: Env := Env(true, NotRunning, true, StatOk)

  /**
   * The trace of two full launches followed by one kill of child 1: child 0
   * is spawned first, child 1 second, and only child 1 is ever killed.
   */
  lemma {:induction false} TwoLaunchesThenKill(argv: seq<string>)
    ensures var t := LaunchEffects(LaunchableEnv, 0, argv) + LaunchEffects(LaunchableEnv, 1, argv) + [Killed(1)];
      |t| == 15 && t[5] == Spawned(0, argv) && t[12] == Spawned(1, argv) && Kills(t) == [1] &&
      t[|t| - 1] == Killed(1) && t[|t| - 2] == NotifiedRunning
  {
    var first, second := LaunchEffects(LaunchableEnv, 0, argv), LaunchEffects(LaunchableEnv, 1, argv);
    KillsNone(first);
    KillsNone(second);
    KillsAppend(first, second);
    KillsAppend(first + second, [Killed(1)]);
  }

  /**
   * No re-entrancy guard: a second `runParity` spawns a second child and
   * takes over `parity`, so `killParity` stops only the second; calling it
   * again does nothing.
   */
  method SecondLaunchOrphansFirst(argv: seq<string>) returns (t: seq<Event>, owned: Option<nat>)
    ensures t == LaunchEffects(LaunchableEnv, 0, argv) + LaunchEffects(LaunchableEnv, 1, argv) + [Killed(1)]
    ensures owned == None
  {
    var s := new Supervisor(argv);
    s.RunParity(LaunchableEnv);
    s.RunParity(LaunchableEnv);
    s.KillParity();
    s.KillParity();
    t, owned := s.trace, s.parity;
  }

  /**
   * Output arrives as chunks, then the child closes: the `close` listener
   * sees the latest non-empty chunk, or nothing if every chunk was empty.
   */
  method CloseAfterOutput(argv: seq<string>, chunks: seq<string>, exitCode: Option<int>, signal: Option<string>)
    returns (last: Option<string>, effects: seq<Event>)
    ensures last == LastLineAfter(None, chunks)
    ensures (forall i :: 0 <= i < |chunks| ==> chunks[i] == []) ==> last == None
    ensures forall i :: 0 <= i < |chunks| && chunks[i] != [] && (forall j :: i < j < |chunks| ==> chunks[j] == []) ==>
      last == Some(chunks[i])
    ensures effects == CloseEffects(exitCode, signal, last, argv)
  {
    var s := new Supervisor(argv);
    s.RunParity(LaunchableEnv);
    var i := 0;
    while i < |chunks|
      invariant 0 <= i <= |chunks| && s.Valid() && s.argv == argv
      invariant s.children == [LastLineAfter(None, chunks[..i])]
    {
      assert chunks[..i + 1][..i] == chunks[..i];
      s.OnChildData(0, chunks[i]);
      i := i + 1;
    }
    assert chunks[..i] == chunks;
    last := s.children[0];
    if forall k :: 0 <= k < |chunks| ==> chunks[k] == [] {
      LastLineAllEmpty(None, chunks);
    }
    forall k | 0 <= k < |chunks| && chunks[k] != [] && (forall j :: k < j < |chunks| ==> chunks[j] == [])
      ensures last == Some(chunks[k])
    {
      LastLineIsLatestNonEmpty(None, chunks, k);
    }
    var before := s.trace;
    s.OnChildClose(0, exitCode, signal);
    effects := s.trace[|before|..];
  }
}
