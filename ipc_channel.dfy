/**
 * The IPC channel of the Electron main process: a client of the node's IPC
 * socket that frames outbound messages with "\r\n", queues them while no
 * socket is set, and turns every inbound chunk into 'message' events.
 *
 * The socket, the EventEmitter and the Promise returned by `init` become plain
 * state: `connected` stands for `_socket` being set, `wire` records the
 * socket writes, `emitted` the 'message' events and `attempt` the promise.
 */
module IpcChannel {

  /** Appended to every outbound message. */
  const Delimiter: string := "\r\n"

  // ---------------------------------------------------------------------------
  // Inbound demultiplexing: `data.split(/\r?\n/).filter(Boolean)`
  // ---------------------------------------------------------------------------

  /** The pieces of `s` between its '\n' characters, in order: there is always one more piece than there are '\n's. */
  function Split(s: string): (r: seq<string>)
    ensures |r| >= 1
    decreases |s|
  {
    if s == [] then [[]]
    else
      var rest := Split(s[1..]);
      if s[0] == '\n' then [[]] + rest
      else [[s[0]] + rest[0]] + rest[1..]
  }

  /** The inverse of Split: the pieces glued back together with '\n'. */
  function Join(ps: seq<string>): string
    requires |ps| >= 1
  {
    if |ps| == 1 then ps[0] else ps[0] + "\n" + Join(ps[1..])
  }

  /** The number of '\n' characters in `s`. */
  function NewlineCount(s: string): nat
    decreases |s|
  {
    if s == [] then 0 else (if s[0] == '\n' then 1 else 0) + NewlineCount(s[1..])
  }

  /** There is one more piece than there are '\n's. */
  lemma {:induction false} SplitLength(s: string)
    ensures |Split(s)| == NewlineCount(s) + 1
    decreases |s|
  {
    if s != [] {
      SplitLength(s[1..]);
    }
  }

  /** No piece of a split holds a '\n'. */
  lemma {:induction false} SplitPiecesNoNewline(s: string)
    ensures forall i :: 0 <= i < |Split(s)| ==> '\n' !in Split(s)[i]
    decreases |s|
  {
    if s != [] {
      SplitPiecesNoNewline(s[1..]);
      var rest := Split(s[1..]);
      if s[0] != '\n' {
        assert '\n' !in [s[0]] + rest[0];
      }
    }
  }

  /** Splitting loses nothing: gluing the pieces back gives the input. */
  lemma {:induction false} JoinSplit(s: string)
    ensures Join(Split(s)) == s
    decreases |s|
  {
    if s != [] {
      var rest := Split(s[1..]);
      JoinSplit(s[1..]);
      if s[0] == '\n' {
        assert ([[]] + rest)[1..] == rest;
        assert s == "\n" + s[1..];
      } else if |rest| == 1 {
        assert s == [s[0]] + s[1..];
      } else {
        assert ([[s[0]] + rest[0]] + rest[1..])[1..] == rest[1..];
        assert s == [s[0]] + s[1..];
      }
    }
  }

  /** A '\n'-free string is a single piece. */
  lemma {:induction false} SplitNoNewline(a: string)
    requires '\n' !in a
    ensures Split(a) == [a]
    decreases |a|
  {
    if a != [] {
      SplitNoNewline(a[1..]);
      assert a == [a[0]] + a[1..];
    }
  }

  /** Split of a string that starts with `x`, in terms of the split of the rest. */
  lemma SplitCons(x: char, s: string)
    ensures x == '\n' ==> Split([x] + s) == [[]] + Split(s)
    ensures x != '\n' ==> Split([x] + s) == [[x] + Split(s)[0]] + Split(s)[1..]
  {
    assert ([x] + s)[0] == x && ([x] + s)[1..] == s;
  }

  /** A '\n' between two strings separates their pieces. */
  lemma {:induction false} SplitAppend(a: string, b: string)
    ensures Split(a + "\n" + b) == Split(a) + Split(b)
    decreases |a|
  {
    if a == [] {
      assert a + "\n" + b == ['\n'] + b;
      SplitCons('\n', b);
    } else {
      var x, a' := a[0], a[1..];
      assert a == [x] + a' && a + "\n" + b == [x] + (a' + "\n" + b);
      SplitAppend(a', b);
      SplitCons(x, a');
      SplitCons(x, a' + "\n" + b);
      var A', B := Split(a'), Split(b);
      if x != '\n' {
        assert (A' + B)[0] == A'[0] && (A' + B)[1..] == A'[1..] + B;
      }
    }
  }

  /** Splitting undoes joining whenever no piece holds a '\n'. */
  lemma {:induction false} SplitJoin(ps: seq<string>)
    requires |ps| >= 1
    requires forall i :: 0 <= i < |ps| ==> '\n' !in ps[i]
    ensures Split(Join(ps)) == ps
    decreases |ps|
  {
    SplitNoNewline(ps[0]);
    if |ps| > 1 {
      SplitJoin(ps[1..]);
      SplitAppend(ps[0], Join(ps[1..]));
      assert ps == [ps[0]] + ps[1..];
    }
  }

  /** A character at the end of a joined string belongs to its last piece. */
  lemma {:induction false} JoinSnoc(ps: seq<string>, c: char)
    requires |ps| >= 1
    ensures Join(ps) + [c] == Join(ps[..|ps| - 1] + [ps[|ps| - 1] + [c]])
    decreases |ps|
  {
    var n := |ps|;
    var qs := ps[..n - 1] + [ps[n - 1] + [c]];
    if n > 1 {
      JoinSnoc(ps[1..], c);
      assert qs[0] == ps[0];
      assert qs[1..] == ps[1..][..n - 2] + [ps[1..][n - 2] + [c]];
      assert Join(ps) + [c] == ps[0] + "\n" + (Join(ps[1..]) + [c]);
    }
  }

  /** A character other than '\n' at the end extends the last piece. */
  lemma SplitSnoc(a: string, c: char)
    requires c != '\n'
    ensures var n := |Split(a)|;
      Split(a + [c]) == Split(a)[..n - 1] + [Split(a)[n - 1] + [c]]
  {
    var A := Split(a);
    var n := |A|;
    JoinSplit(a);
    JoinSnoc(A, c);
    var B := A[..n - 1] + [A[n - 1] + [c]];
    SplitPiecesNoNewline(a);
    assert forall i :: 0 <= i < n - 1 ==> B[i] == A[i];
    assert '\n' !in B[n - 1];
    SplitJoin(B);
  }

  /** Drops one '\r' at the end of a piece: it belonged to a "\r\n" separator. */
  function DropCR(p: string): (r: string)
    ensures r <= p
    ensures |p| > 0 && p[|p| - 1] == '\r' ==> p == r + "\r"
    ensures !(|p| > 0 && p[|p| - 1] == '\r') ==> r == p
  {
    if |p| > 0 && p[|p| - 1] == '\r' then p[..|p| - 1] else p
  }

  /** DropCR applied to every piece. */
  function DropCRs(ps: seq<string>): (r: seq<string>)
    ensures |r| == |ps|
    ensures forall i :: 0 <= i < |ps| ==> r[i] == DropCR(ps[i])
  {
    if ps == [] then [] else [DropCR(ps[0])] + DropCRs(ps[1..])
  }

  /**
   * `s.split(/\r?\n/)`: the regular expression matches every '\n' together
   * with one '\r' directly before it, so each piece that a '\n' ends loses one
   * trailing '\r'; the last piece, which no '\n' ends, keeps it.
   */
  function RegexSplit(s: string): (r: seq<string>)
    ensures |r| == |Split(s)|
    ensures forall i :: 0 <= i < |r| ==> '\n' !in r[i]
  {
    var raw := Split(s);
    SplitPiecesNoNewline(s);
    var r := DropSeparatorCRs(raw);
    assert forall i :: 0 <= i < |raw| - 1 ==> r[i] <= raw[i];
    r
  }

  /** DropCR on every piece but the last. */
  function DropSeparatorCRs(raw: seq<string>): (r: seq<string>)
    requires |raw| >= 1
    ensures |r| == |raw| && r[|r| - 1] == raw[|raw| - 1]
    ensures forall i :: 0 <= i < |raw| - 1 ==> r[i] == DropCR(raw[i])
  {
    DropCRs(raw[..|raw| - 1]) + [raw[|raw| - 1]]
  }

  /** `.filter(Boolean)` on strings: keeps the non-empty ones, in order. */
  function NonEmpty(ps: seq<string>): (r: seq<string>)
    ensures |r| <= |ps|
    ensures forall i :: 0 <= i < |r| ==> r[i] != [] && r[i] in ps
  {
    if ps == [] then []
    else (if ps[0] == [] then [] else [ps[0]]) + NonEmpty(ps[1..])
  }

  lemma {:induction false} NonEmptyAppend(xs: seq<string>, ys: seq<string>)
    ensures NonEmpty(xs + ys) == NonEmpty(xs) + NonEmpty(ys)
    decreases |xs|
  {
    if xs != [] {
      assert (xs + ys)[1..] == xs[1..] + ys;
      NonEmptyAppend(xs[1..], ys);
    } else {
      assert xs + ys == ys;
    }
  }

  /** Filtering changes nothing when there is no empty string to drop. */
  lemma {:induction false} NonEmptyOfNonEmpty(ps: seq<string>)
    requires forall i :: 0 <= i < |ps| ==> ps[i] != []
    ensures NonEmpty(ps) == ps
    decreases |ps|
  {
    if ps != [] {
      NonEmptyOfNonEmpty(ps[1..]);
      assert ps == [ps[0]] + ps[1..];
    }
  }

  /** A message: non-empty and free of '\n'. */
  predicate IsMessage(m: string)
  {
    m != [] && '\n' !in m
  }

  /** The 'message' payloads one inbound chunk yields: `data.split(/\r?\n/).filter(Boolean)`. */
  function SplitLines(data: string): (r: seq<string>)
    ensures forall i :: 0 <= i < |r| ==> IsMessage(r[i])
  {
    NonEmpty(RegexSplit(data))
  }

  /** A chunk without '\n' is one message, or none if it is empty. */
  lemma SplitLinesNoNewline(m: string)
    requires '\n' !in m
    ensures SplitLines(m) == if m == [] then [] else [m]
  {
    SplitNoNewline(m);
    assert RegexSplit(m) == [m];
  }

  lemma {:induction false} DropCRsAppend(xs: seq<string>, ys: seq<string>)
    ensures DropCRs(xs + ys) == DropCRs(xs) + DropCRs(ys)
  {
  }

  /** The raw pieces around a "\r\n": the '\r' goes to the last piece on the left. */
  lemma SplitAroundDelimiter(a: string, b: string)
    ensures var A := Split(a);
      Split(a + Delimiter + b) == A[..|A| - 1] + [A[|A| - 1] + "\r"] + Split(b)
  {
    assert a + Delimiter + b == (a + ['\r']) + "\n" + b;
    SplitAppend(a + ['\r'], b);
    SplitSnoc(a, '\r');
  }

  /** Pieces `xs` followed by pieces `ys` each lose the '\r' that ends them, except the last of `ys`. */
  lemma DropSeparatorCRsAppend(xs: seq<string>, ys: seq<string>)
    requires |ys| >= 1
    ensures DropSeparatorCRs(xs + ys) == DropCRs(xs) + DropSeparatorCRs(ys)
  {
    var r := xs + ys;
    assert r[..|r| - 1] == xs + ys[..|ys| - 1];
    DropCRsAppend(xs, ys[..|ys| - 1]);
  }

  /** At the regular-expression level, a "\r\n" separates the pieces of the two sides. */
  lemma RegexSplitAppend(a: string, b: string)
    ensures RegexSplit(a + Delimiter + b) == RegexSplit(a) + RegexSplit(b)
  {
    var A, B := Split(a), Split(b);
    var n := |A|;
    SplitAroundDelimiter(a, b);
    var lastA := A[n - 1] + "\r";
    var front := A[..n - 1] + [lastA];
    assert Split(a + Delimiter + b) == front + B;
    DropSeparatorCRsAppend(front, B);
    DropCRsAppend(A[..n - 1], [lastA]);
    assert DropCR(lastA) == A[n - 1];
    assert DropCRs(front) == DropSeparatorCRs(A);
  }

  /** A "\r\n" inside a chunk ends a message: the chunk's messages are those of the two sides, in order. */
  lemma SplitLinesAppend(a: string, b: string)
    ensures SplitLines(a + Delimiter + b) == SplitLines(a) + SplitLines(b)
  {
    RegexSplitAppend(a, b);
    NonEmptyAppend(RegexSplit(a), RegexSplit(b));
  }

  // ---------------------------------------------------------------------------
  // Outbound framing
  // ---------------------------------------------------------------------------

  /** The socket writes that sending `ms` on a connected channel makes, one per message. */
  function Framed(ms: seq<string>): (ws: seq<string>)
    ensures |ws| == |ms|
    ensures forall i :: 0 <= i < |ms| ==> ws[i] == ms[i] + Delimiter
  {
    if ms == [] then [] else [ms[0] + Delimiter] + Framed(ms[1..])
  }

  /** The bytes a sequence of writes puts on the stream. */
  function Flatten(ws: seq<string>): string
  {
    if ws == [] then [] else ws[0] + Flatten(ws[1..])
  }

  /**
   * Framing round trip: when the framed stream of `ms` arrives as one chunk,
   * the channel emits exactly the non-empty messages of `ms`, in order.
   */
  lemma {:induction false} FrameRoundTrip(ms: seq<string>)
    requires forall i :: 0 <= i < |ms| ==> '\n' !in ms[i]
    ensures SplitLines(Flatten(Framed(ms))) == NonEmpty(ms)
    decreases |ms|
  {
    if ms == [] {
      SplitLinesNoNewline([]);
    } else {
      var rest := Flatten(Framed(ms[1..]));
      assert Framed(ms)[1..] == Framed(ms[1..]);
      assert Flatten(Framed(ms)) == ms[0] + Delimiter + rest;
      SplitLinesAppend(ms[0], rest);
      SplitLinesNoNewline(ms[0]);
      FrameRoundTrip(ms[1..]);
    }
  }

  /** With non-empty messages free of '\n', the round trip is exact. */
  lemma FrameRoundTripExact(ms: seq<string>)
    requires forall i :: 0 <= i < |ms| ==> ms[i] != [] && '\n' !in ms[i]
    ensures SplitLines(Flatten(Framed(ms))) == ms
  {
    FrameRoundTrip(ms);
    NonEmptyOfNonEmpty(ms);
  }

  /** The framed string for one write ends with the delimiter. */
  predicate EndsWithDelimiter(w: string)
  {
    |w| >= |Delimiter| && w[|w| - |Delimiter|..] == Delimiter
  }

  // ---------------------------------------------------------------------------
  // The channel object
  // ---------------------------------------------------------------------------

  /** The promise returned by the latest `init` call; Idle before any call. */
  datatype InitState = Idle | Pending | Resolved(value: bool) | Rejected(reason: string)

  class Channel {
    /** `_queued`: the messages sent while no socket was set, in the order sent. */
    var queued: seq<string>
    /** Whether `_socket` is set. */
    var connected: bool
    /** Every write made on the socket, in order. */
    var wire: seq<string>
    /** Every 'message' event emitted, in order. */
    var emitted: seq<string>
    /** The state of the promise of the latest `init` call. */
    var attempt: InitState

    /** Every write is a framed message, and no emitted message is empty or holds a '\n'. */
    ghost predicate Valid()
      reads this
    {
      (forall i :: 0 <= i < |wire| ==> EndsWithDelimiter(wire[i])) &&
      (forall i :: 0 <= i < |emitted| ==> IsMessage(emitted[i]))
    }

    constructor ()
      ensures Valid()
      ensures queued == [] && !connected && wire == [] && emitted == [] && attempt == Idle
    {
      queued, connected, wire, emitted, attempt := [], false, [], [], Idle;
    }

    /** `init(path)`: opens a new connection attempt; nothing happens until its socket reports. */
    method Init()
      requires Valid()
      modifies this
      ensures Valid()
      ensures attempt == Pending
      ensures queued == old(queued) && connected == old(connected)
      ensures wire == old(wire) && emitted == old(emitted)
    {
      attempt := Pending;
    }

    /** `send(message)`: written at once, framed, when a socket is set; queued otherwise. */
    method Send(message: string)
      requires Valid()
      modifies this
      ensures Valid()
      ensures connected == old(connected) && emitted == old(emitted) && attempt == old(attempt)
      ensures old(connected) ==> wire == old(wire) + [message + Delimiter] && queued == old(queued)
      ensures !old(connected) ==> queued == old(queued) + [message] && wire == old(wire)
    {
      if connected {
        wire := wire + [message + Delimiter];
      } else {
        queued := queued + [message];
      }
    }

    /**
     * `_sendQueued()`: `send` for every message queued when it starts, in
     * order (`forEach` does not visit what is pushed while it runs). Nothing
     * is removed from the queue. Without a socket every message would be
     * queued a second time; `IpcChannel` only calls it once a socket is set.
     */
    method SendQueued()
      requires Valid()
      modifies this
      ensures Valid()
      ensures connected == old(connected) && emitted == old(emitted) && attempt == old(attempt)
      ensures connected ==> queued == old(queued) && wire == old(wire) + Framed(old(queued))
      ensures !connected ==> queued == old(queued) + old(queued) && wire == old(wire)
    {
      ghost var q0 := queued;
      ghost var w0 := wire;
      var n := |queued|;
      var i := 0;
      while i < n
        invariant 0 <= i <= n && Valid()
        invariant connected == old(connected) && emitted == old(emitted) && attempt == old(attempt)
        invariant connected ==> queued == q0 && wire == w0 + Framed(q0[..i])
        invariant !connected ==> queued == q0 + q0[..i] && wire == w0
      {
        assert queued[i] == q0[i];
        assert q0[..i + 1] == q0[..i] + [q0[i]];
        Send(queued[i]);
        i := i + 1;
      }
      assert q0[..n] == q0;
    }

    /** The socket's 'connect' event: the socket is set, the queue is flushed, and `init` resolves to true. */
    method OnConnect()
      requires Valid()
      modifies this
      ensures Valid()
      ensures connected
      ensures queued == old(queued) && emitted == old(emitted)
      ensures wire == old(wire) + Framed(old(queued))
      ensures attempt == if old(attempt) == Pending then Resolved(true) else old(attempt)
    {
      connected := true;
      SendQueued();
      if attempt == Pending {
        attempt := Resolved(true);
      }
    }

    /** The socket's 'data' event: one 'message' event per piece of this chunk alone, in order. */
    method OnData(chunk: string)
      requires Valid()
      modifies this
      ensures Valid()
      ensures emitted == old(emitted) + SplitLines(chunk)
      ensures queued == old(queued) && connected == old(connected)
      ensures wire == old(wire) && attempt == old(attempt)
    {
      EmitEach(SplitLines(chunk));
    }

    /** The `forEach` over the pieces: one 'message' event each, in order. */
    method EmitEach(messages: seq<string>)
      requires Valid()
      requires forall j :: 0 <= j < |messages| ==> IsMessage(messages[j])
      modifies this
      ensures Valid()
      ensures emitted == old(emitted) + messages
      ensures queued == old(queued) && connected == old(connected)
      ensures wire == old(wire) && attempt == old(attempt)
    {
      var i := 0;
      while i < |messages|
        invariant 0 <= i <= |messages| && Valid()
        invariant emitted == old(emitted) + messages[..i]
        invariant queued == old(queued) && connected == old(connected)
        invariant wire == old(wire) && attempt == old(attempt)
      {
        assert messages[..i + 1] == messages[..i] + [messages[i]];
        emitted := emitted + [messages[i]];
        i := i + 1;
      }
      assert messages[..i] == messages;
    }

    /** The socket's 'error' event: `init` rejects if still pending; the socket and the queue stay as they are. */
    method OnError(err: string)
      requires Valid()
      modifies this
      ensures Valid()
      ensures attempt == if old(attempt) == Pending then Rejected(err) else old(attempt)
      ensures queued == old(queued) && connected == old(connected)
      ensures wire == old(wire) && emitted == old(emitted)
    {
      if attempt == Pending {
        attempt := Rejected(err);
      }
    }
  }

  // ---------------------------------------------------------------------------
  // Scenarios: what a caller of the channel observes
  // ---------------------------------------------------------------------------

  /** Messages sent before the socket connects are written on connect, once each, in order; `init` resolves to true. */
  method QueueThenConnect(msgs: seq<string>) returns (written: seq<string>, kept: seq<string>, result: InitState)
    ensures written == Framed(msgs)
    ensures kept == msgs
    ensures result == Resolved(true)
  {
    var ch := new Channel();
    ch.Init();
    var i := 0;
    while i < |msgs|
      invariant 0 <= i <= |msgs| && ch.Valid()
      invariant ch.queued == msgs[..i] && ch.wire == [] && !ch.connected && ch.attempt == Pending
    {
      assert msgs[..i + 1] == msgs[..i] + [msgs[i]];
      ch.Send(msgs[i]);
      i := i + 1;
    }
    assert msgs[..i] == msgs;
    ch.OnConnect();
    written, kept, result := ch.wire, ch.queued, ch.attempt;
  }

  /**
   * A failed connection rejects `init` and keeps the queued message; a later
   * successful `init` writes it.
   */
  method FailThenReconnect(m: string, err: string)
    returns (rejected: InitState, keptAfterError: seq<string>, writtenAfterError: seq<string>, written: seq<string>)
    ensures rejected == Rejected(err)
    ensures keptAfterError == [m] && writtenAfterError == []
    ensures written == [m + Delimiter]
  {
    var ch := new Channel();
    ch.Send(m);
    ch.Init();
    ch.OnError(err);
    rejected, keptAfterError, writtenAfterError := ch.attempt, ch.queued, ch.wire;
    ch.Init();
    ch.OnConnect();
    written := ch.wire;
  }

  /** The queue is never emptied, so a second connect writes every queued message again. */
  method ReconnectWritesQueueAgain(m: string) returns (written: seq<string>)
    ensures written == [m + Delimiter, m + Delimiter]
  {
    var ch := new Channel();
    ch.Send(m);
    ch.Init();
    ch.OnConnect();
    ch.Init();
    ch.OnConnect();
    written := ch.wire;
  }

  /** A connection error after the connect leaves `init` resolved: a settled promise stays settled. */
  method ErrorAfterConnect(err: string) returns (result: InitState, stillConnected: bool)
    ensures result == Resolved(true) && stillConnected
  {
    var ch := new Channel();
    ch.Init();
    ch.OnConnect();
    ch.OnError(err);
    result, stillConnected := ch.attempt, ch.connected;
  }

  /** One chunk holding two framed writes, such as "A\r\nB\r\n", yields both messages, in order. */
  lemma TwoMessagesInOneChunk(a: string, b: string)
    requires IsMessage(a) && IsMessage(b)
    ensures Flatten(Framed([a, b])) == a + Delimiter + (b + Delimiter)
    ensures SplitLines(Flatten(Framed([a, b]))) == [a, b]
  {
    FrameRoundTripExact([a, b]);
    var fs := Framed([a, b]);
    assert fs[1..] == [b + Delimiter];
    assert Flatten(fs[1..]) == b + Delimiter + Flatten([]);
  }

  /**
   * A chunk that ends inside a message, such as "A\r\nB", yields its
   * unterminated tail as a message of its own.
   */
  lemma UnterminatedTailIsEmitted(a: string, b: string)
    requires IsMessage(a) && IsMessage(b)
    ensures SplitLines(a + Delimiter + b) == [a, b]
  {
    SplitLinesAppend(a, b);
    SplitLinesNoNewline(a);
    SplitLinesNoNewline(b);
  }

  /**
   * Nothing is carried from one chunk to the next: "A\r\nB" followed by
   * "C\r\n" emits A, B and C, not A and BC.
   */
  method MessageSplitAcrossChunks(a: string, b: string, c: string) returns (emitted: seq<string>)
    requires IsMessage(a) && IsMessage(b) && IsMessage(c)
    ensures emitted == [a, b, c]
    ensures emitted != [a, b + c]
  {
    var ch := new Channel();
    UnterminatedTailIsEmitted(a, b);
    FrameRoundTripExact([c]);
    assert Flatten(Framed([c])) == c + Delimiter;
    ch.OnData(a + Delimiter + b);
    assert ch.emitted == [a, b];
    ch.OnData(c + Delimiter);
    emitted := ch.emitted;
    assert |emitted| == 3;
  }
}
