/**
 * The session fields of SerialTermite (Termite.py) as a value, and the effect
 * of each operation on them as a function: send_data, process_received_data,
 * the read_from_port loop, connect and disconnect. The serial port is reduced
 * to an open flag and the list of byte strings written to it; the output
 * widget to the list of texts appended to it.
 */
module Session {
  import opened Wrappers
  import opened Input
  import opened Hex
  import opened Command

  /** A text appended to the output widget, plain or with the red tag. */
  datatype Notice = Plain(text: string) | Red(text: string)

  /** The outcome of one `serial_port.read` in the reader loop. */
  datatype ReadResult = Bytes(data: seq<Byte>) | ReadFault(message: string)

  /**
   * Why `connect` failed: the port could not be opened (or the baud rate
   * did not parse), or it was opened and resetting its buffers raised.
   */
  datatype OpenFault = OpenFailed(message: string) | ResetFailed(message: string)

  datatype State = State(
    portOpen: bool,
    alive: bool,
    reading: bool,          // the reader thread started by connect is still running
    pending: bool,
    command: string,
    buffer: string,
    expected: Option<nat>,  // None until the first send assigns `expected_length`
    written: seq<seq<Byte>>,
    shown: seq<Notice>)

  /** The fields `__init__` sets. */
  const Initial: State := State(false, false, false, false, "", "", None, [], [])

  /**
   * With no command outstanding the session is empty; with one, the command
   * is the hex text of the last bytes written, its hint is stored, and the
   * buffer holds whole lower-case digit pairs. A running reader implies a
   * live connection, and a live connection an open port.
   */
  predicate Inv(s: State) {
    (s.reading ==> s.alive) && (s.alive ==> s.portOpen) &&
    IsLowerHexText(s.buffer) &&
    if s.pending then
      s.expected == Some(ExpectedLength(s.command)) &&
      |s.written| > 0 && Carries(s.written[|s.written| - 1], s.command)
    else
      s.buffer == "" && s.command == "" && s.expected == None
  }

  function SendErrorLine(message: string): (line: string) {
    "\nError: " + message + "\n"
  }

  function ReadErrorLine(message: string): (line: string) {
    "\nRead error: " + message + "\n"
  }

  /** Whether send_data reaches the write and the write does not raise. */
  predicate Sends(s: State, input: string, writeFault: Option<string>) {
    input != "" && s.portOpen && Prepare(input).Ok? && writeFault.None?
  }

  /**
   * send_data with `input` in the entry field; `writeFault` is the exception
   * the port's write or flush raises, if it raises one. The buffer is only
   * emptied when a command was outstanding.
   */
  function Send(s: State, input: string, writeFault: Option<string>): (t: State) {
    if input == "" then s
    else if !s.portOpen then s.(shown := s.shown + [Red("Not connected.\n")])
    else match Prepare(input)
      case Err(e) => s.(shown := s.shown + [Red(SendErrorLine(Message(e)))])
      case Ok(out) =>
        if writeFault.Some? then s.(shown := s.shown + [Red(SendErrorLine(writeFault.value))])
        else
          var closed := if s.pending then [Plain(s.buffer + "\n")] else [];
          s.(written := s.written + [out.wire],
             pending := true, command := out.command,
             buffer := if s.pending then "" else s.buffer,
             expected := Some(out.expected),
             shown := s.shown + closed + [Plain(out.command + " -> ")])
  }

  /** process_received_data: a non-empty batch extends the buffer while a command is outstanding. */
  function Receive(s: State, data: seq<Byte>): (t: State) {
    if |data| > 0 && s.pending then s.(buffer := s.buffer + Frame(data)) else s
  }

  /**
   * The reader thread's loop over the outcomes of its successive reads: it
   * reads while the thread runs and the port is alive and open; a failing
   * read is reported and ends the thread.
   */
  function ReadLoop(s: State, outcomes: seq<ReadResult>): (t: State)
    decreases |outcomes|
  {
    if outcomes == [] || !(s.reading && s.alive && s.portOpen) then s
    else match outcomes[0]
      case ReadFault(m) => s.(reading := false, shown := s.shown + [Plain(ReadErrorLine(m))])
      case Bytes(d) => ReadLoop(Receive(s, d), outcomes[1..])
  }

  /**
   * disconnect: the port is closed and the reader thread, seeing `alive`
   * false, ends; the session fields are left alone.
   */
  function Disconnect(s: State): (t: State) {
    s.(alive := false, reading := false, portOpen := false,
       shown := s.shown + [Red("Disconnected.\n")])
  }

  /**
   * connect: an open port is disconnected; with no port selected nothing
   * happens (a dialog only). Otherwise the port at `baud` is opened and the
   * reader thread started, unless pyserial raises: before the port is open
   * nothing changes, while a failing buffer reset leaves the port open with
   * no reader. Either fault is shown in red.
   */
  function Connect(s: State, port: string, baud: string, openFault: Option<OpenFault>): (t: State) {
    if s.portOpen then Disconnect(s)
    else if port == "" then s
    else match openFault
      case Some(OpenFailed(m)) =>
        s.(shown := s.shown + [Red("Connection error: " + m + "\n")])
      case Some(ResetFailed(m)) =>
        s.(portOpen := true, shown := s.shown + [Red("Connection error: " + m + "\n")])
      case None =>
        s.(portOpen := true, alive := true, reading := true,
           shown := s.shown + [Plain("Connected to " + port + " @ " + baud + " bps\n")])
  }

  /** The bytes of all reads before the first failing one, in order. */
  function Delivered(outcomes: seq<ReadResult>): (data: seq<Byte>) {
    if outcomes == [] then []
    else match outcomes[0]
      case ReadFault(_) => []
      case Bytes(d) => d + Delivered(outcomes[1..])
  }

  /** The message of the first failing read, if any. */
  function FirstFault(outcomes: seq<ReadResult>): (fault: Option<string>) {
    if outcomes == [] then None
    else match outcomes[0]
      case ReadFault(m) => Some(m)
      case Bytes(_) => FirstFault(outcomes[1..])
  }

  lemma InitialInv()
    ensures Inv(Initial)
  {
  }

  /** Every send keeps the invariant. */
  lemma SendInv(s: State, input: string, writeFault: Option<string>)
    requires Inv(s)
    ensures Inv(Send(s, input, writeFault))
  {
    if Sends(s, input, writeFault) {
      var out := Prepare(input).value;
      PreparedWire(input);
      SendCommits(s, input, out);
    } else {
      SendFailureKeepsSession(s, input, writeFault);
    }
  }

  /** The state after a successful send, in terms of what Prepare made. */
  lemma SendCommits(s: State, input: string, out: Outgoing)
    requires Sends(s, input, None) && Prepare(input) == Ok(out)
    ensures Send(s, input, None) == s.(written := s.written + [out.wire],
      pending := true, command := out.command, buffer := if s.pending then "" else s.buffer,
      expected := Some(out.expected), shown := s.shown + (if s.pending then [Plain(s.buffer + "\n")] else []) + [Plain(out.command + " -> ")])
  {
  }

  /**
   * A send that fails (nothing typed, port closed, undecodable text, write
   * error) changes nothing but the display, which gains exactly one red line
   * unless nothing was typed.
   */
  lemma SendFailureKeepsSession(s: State, input: string, writeFault: Option<string>)
    requires !Sends(s, input, writeFault)
    ensures var t := Send(s, input, writeFault);
      t.(shown := s.shown) == s &&
      (input == "" ==> t.shown == s.shown) &&
      (input != "" ==> |t.shown| == |s.shown| + 1 && t.shown[..|s.shown|] == s.shown && t.shown[|s.shown|].Red?)
  {
  }

  /**
   * A successful send writes the decoded digits and one line feed, opens a
   * session for the lower-cased cleaned text with an empty buffer, and first
   * commits the previous response line if one was outstanding.
   */
  lemma SendSuccess(s: State, input: string)
    requires Inv(s) && Sends(s, input, None)
    ensures var t := Send(s, input, None);
      var wire := t.written[|t.written| - 1];
      t.written == s.written + [wire] &&
      |wire| == |Clean(input)| / 2 + 1 && wire[|wire| - 1] == 0x0A &&
      Unhexlify(Clean(input)) == Ok(wire[..|wire| - 1]) &&
      t.pending && t.command == Lower(Clean(input)) && t.buffer == "" &&
      t.expected == Some(ExpectedLength(t.command)) &&
      t.shown == s.shown + (if s.pending then [Plain(s.buffer + "\n")] else []) + [Plain(t.command + " -> ")]
  {
    var out := Prepare(input).value;
    PreparedWire(input);
    SendCommits(s, input, out);
    var t := Send(s, input, None);
    assert t.written[|t.written| - 1] == out.wire;
    assert t.buffer == "" by {
      if !s.pending { assert s.buffer == ""; }
    }
  }

  /** Receiving keeps the invariant. */
  lemma ReceiveInv(s: State, data: seq<Byte>)
    requires Inv(s)
    ensures Inv(Receive(s, data))
  {
    if |data| > 0 && s.pending {
      LowerHexConcat(s.buffer, Frame(data));
    }
  }

  lemma LowerHexConcat(a: string, b: string)
    requires IsLowerHexText(a) && IsLowerHexText(b)
    ensures IsLowerHexText(a + b)
  {
    assert forall i :: |a| <= i < |a + b| ==> (a + b)[i] == b[i - |a|];
  }

  /**
   * A batch received while a command is outstanding grows the buffer by two
   * lower-case digits per byte, and decoding the growth gives the batch back;
   * otherwise the buffer stays as it was.
   */
  lemma ReceiveAppends(s: State, data: seq<Byte>)
    ensures var t := Receive(s, data);
      t.(buffer := s.buffer) == s &&
      (s.pending ==>
        |t.buffer| == |s.buffer| + 2 * |data| && t.buffer[..|s.buffer|] == s.buffer &&
        IsLowerHexText(t.buffer[|s.buffer|..]) && Unhexlify(t.buffer[|s.buffer|..]) == Ok(data)) &&
      (!s.pending ==> t == s)
  {
    var t := Receive(s, data);
    if s.pending {
      assert t.buffer == s.buffer + Frame(data) by {
        if data == [] { assert s.buffer + Frame(data) == s.buffer; }
      }
      assert t.buffer[|s.buffer|..] == Frame(data);
      UnhexlifyFrame(data);
    }
  }

  /** Two batches leave the same state as the one batch they make together. */
  lemma ReceiveChunks(s: State, b1: seq<Byte>, b2: seq<Byte>)
    ensures Receive(Receive(s, b1), b2) == Receive(s, b1 + b2)
  {
    if s.pending {
      FrameConcat(b1, b2);
      if b1 == [] {
        assert b1 + b2 == b2;
      } else if b2 == [] {
        assert b1 + b2 == b1;
      } else {
        assert (s.buffer + Frame(b1)) + Frame(b2) == s.buffer + (Frame(b1) + Frame(b2));
      }
    }
  }

  /**
   * While the reader runs on a live, open port it appends the hex text of
   * everything read before the first failure (if a command is outstanding),
   * reports that failure once and ends there; otherwise it does nothing.
   */
  lemma {:induction false} ReadLoopDelivers(s: State, outcomes: seq<ReadResult>)
    ensures var t := ReadLoop(s, outcomes);
      t.(buffer := s.buffer, shown := s.shown, reading := s.reading) == s &&
      (!(s.reading && s.alive && s.portOpen) ==> t == s) &&
      (s.reading && s.alive && s.portOpen ==>
        t.buffer == s.buffer + (if s.pending then Frame(Delivered(outcomes)) else "") &&
        t.shown == s.shown + (match FirstFault(outcomes) case None => [] case Some(m) => [Plain(ReadErrorLine(m))]) &&
        t.reading == FirstFault(outcomes).None?)
    decreases |outcomes|
  {
    if outcomes != [] && s.reading && s.alive && s.portOpen {
      match outcomes[0]
      case ReadFault(m) =>
      case Bytes(d) =>
        var rest := outcomes[1..];
        assert Delivered(outcomes) == d + Delivered(rest);
        assert FirstFault(outcomes) == FirstFault(rest);
        ReadLoopDelivers(Receive(s, d), rest);
        if s.pending {
          ReceiveThenMore(s, d, Delivered(rest));
        }
    }
  }

  /** After a failing read the reader has ended: nothing read later changes anything. */
  lemma ReadLoopStopsAtFault(s: State, outcomes: seq<ReadResult>, later: seq<ReadResult>)
    requires FirstFault(outcomes).Some?
    ensures ReadLoop(ReadLoop(s, outcomes), later) == ReadLoop(s, outcomes)
  {
    ReadLoopDelivers(s, outcomes);
  }

  /**
   * Running the reader over some reads and then over more is running it over
   * all of them: how the reads are grouped does not matter.
   */
  lemma {:induction false} ReadLoopSplits(s: State, o1: seq<ReadResult>, o2: seq<ReadResult>)
    ensures ReadLoop(s, o1 + o2) == ReadLoop(ReadLoop(s, o1), o2)
    decreases |o1|
  {
    if o1 == [] {
      assert o1 + o2 == o2;
    } else if s.reading && s.alive && s.portOpen {
      assert (o1 + o2)[0] == o1[0];
      match o1[0]
      case ReadFault(m) =>
      case Bytes(d) =>
        assert (o1 + o2)[1..] == o1[1..] + o2;
        ReadLoopSplits(Receive(s, d), o1[1..], o2);
    }
  }

  /** Receiving `d` and then the text of `more` is receiving the text of both. */
  lemma ReceiveThenMore(s: State, d: seq<Byte>, more: seq<Byte>)
    requires s.pending
    ensures Receive(s, d).buffer + Frame(more) == s.buffer + Frame(d + more)
  {
    FrameConcat(d, more);
    if d == [] {
      assert d + more == more;
    } else {
      assert (s.buffer + Frame(d)) + Frame(more) == s.buffer + (Frame(d) + Frame(more));
    }
  }

  /** Receiving batch by batch in the loop is receiving their concatenation at once. */
  lemma ReadLoopAsOneBatch(s: State, outcomes: seq<ReadResult>)
    requires s.reading && s.alive && s.portOpen && FirstFault(outcomes) == None
    ensures ReadLoop(s, outcomes) == Receive(s, Delivered(outcomes))
  {
    ReadLoopDelivers(s, outcomes);
    ReceiveAppends(s, Delivered(outcomes));
  }

  /** The reader loop keeps the invariant. */
  lemma {:induction false} ReadLoopInv(s: State, outcomes: seq<ReadResult>)
    requires Inv(s)
    ensures Inv(ReadLoop(s, outcomes))
    decreases |outcomes|
  {
    if outcomes != [] && s.reading && s.alive && s.portOpen {
      match outcomes[0]
      case ReadFault(m) =>
      case Bytes(d) =>
        ReceiveInv(s, d);
        ReadLoopInv(Receive(s, d), outcomes[1..]);
    }
  }

  /** No operation sets `pending_response` back to false. */
  lemma {:induction false} PendingStays(s: State, input: string, writeFault: Option<string>,
                                        data: seq<Byte>, outcomes: seq<ReadResult>,
                                        port: string, baud: string, openFault: Option<OpenFault>)
    requires s.pending
    ensures Send(s, input, writeFault).pending && Receive(s, data).pending
    ensures ReadLoop(s, outcomes).pending
    ensures Disconnect(s).pending && Connect(s, port, baud, openFault).pending
    decreases |outcomes|
  {
    if outcomes != [] && s.reading && s.alive && s.portOpen && outcomes[0].Bytes? {
      PendingStays(Receive(s, outcomes[0].data), input, writeFault, data, outcomes[1..], port, baud, openFault);
    }
  }

  /** disconnect and connect leave the session fields and the port log alone. */
  lemma ConnectionKeepsSession(s: State, port: string, baud: string, openFault: Option<OpenFault>)
    ensures var t := Disconnect(s);
      t.pending == s.pending && t.command == s.command && t.buffer == s.buffer &&
      t.expected == s.expected && t.written == s.written
    ensures var t := Connect(s, port, baud, openFault);
      t.pending == s.pending && t.command == s.command && t.buffer == s.buffer &&
      t.expected == s.expected && t.written == s.written
  {
  }
}
