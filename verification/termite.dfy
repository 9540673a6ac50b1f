/**
 * SerialTermite (Termite.py) as an object whose methods update its fields in
 * place. Each method is proved to move the object exactly as the matching
 * transition of module Session moves its value, and to keep Session.Inv.
 */
module Termite {
  import opened Wrappers
  import opened Input
  import opened Hex
  import opened Command
  import opened Session

  class SerialTermite {
    var portOpen: bool
    var alive: bool
    /** Whether the reader thread started by connect is still running. */
    var reading: bool
    var pendingResponse: bool
    var currentCommand: string
    var responseBuffer: string
    var expectedLength: Option<nat>
    /** Every byte string written to the serial port, oldest first. */
    var written: seq<seq<Byte>>
    /** Every text appended to the output widget, oldest first. */
    var shown: seq<Notice>

    /** The fields as one Session.State value. */
    function Model(): (s: State)
      reads this
    {
      State(portOpen, alive, reading, pendingResponse, currentCommand, responseBuffer,
            expectedLength, written, shown)
    }

    ghost predicate Valid()
      reads this
    {
      Inv(Model())
    }

    constructor ()
      ensures Model() == Initial && Valid()
    {
      portOpen, alive, reading := false, false, false;
      pendingResponse, currentCommand, responseBuffer := false, "", "";
      expectedLength := None;
      written, shown := [], [];
    }

    /** write_to_output */
    method WriteOutput(text: string)
      modifies this`shown
      ensures shown == old(shown) + [Plain(text)]
    {
      shown := shown + [Plain(text)];
    }

    /** write_red_output */
    method WriteRedOutput(text: string)
      modifies this`shown
      ensures shown == old(shown) + [Red(text)]
    {
      shown := shown + [Red(text)];
    }

    method Disconnect()
      requires Valid()
      modifies this
      ensures Model() == Session.Disconnect(old(Model())) && Valid()
    {
      alive := false;
      reading := false;  // the reader sees `alive` false and ends
      portOpen := false;
      WriteRedOutput("Disconnected.\n");
    }

    /**
     * connect with `port` and `baud` selected; `openFault` is what pyserial
     * raises, and whether it raised before or after the port was open.
     */
    method Connect(port: string, baud: string, openFault: Option<OpenFault>)
      requires Valid()
      modifies this
      ensures Model() == Session.Connect(old(Model()), port, baud, openFault) && Valid()
    {
      if portOpen {
        Disconnect();
        return;
      }
      if port == "" {
        return;
      }
      match openFault
      case Some(OpenFailed(m)) =>
        WriteRedOutput("Connection error: " + m + "\n");
      case Some(ResetFailed(m)) =>
        portOpen := true;
        WriteRedOutput("Connection error: " + m + "\n");
      case None =>
        portOpen := true;
        alive := true;
        WriteOutput("Connected to " + port + " @ " + baud + " bps\n");
        reading := true;
    }

    /**
     * send_data with `input` in the entry field; `writeFault` is what the
     * port's write or flush raises, if anything.
     */
    method SendData(input: string, writeFault: Option<string>)
      requires Valid()
      modifies this
      ensures Model() == Send(old(Model()), input, writeFault) && Valid()
    {
      ghost var before := Model();
      SendInv(before, input, writeFault);
      if input == "" {
        return;
      }
      if !portOpen {
        WriteRedOutput("Not connected.\n");
        return;
      }
      var clean := Clean(input);
      var decoded := Unhexlify(clean);
      if decoded.Err? {
        WriteRedOutput(SendErrorLine(Message(decoded.error)));
        return;
      }
      var dataToSend := decoded.value + LineEnding;
      if writeFault.Some? {
        WriteRedOutput(SendErrorLine(writeFault.value));
        return;
      }
      Transmit(dataToSend, Lower(clean));
      SendCommits(before, input, Outgoing(dataToSend, Lower(clean), ExpectedLength(Lower(clean))));
    }

    /**
     * The part of send_data after the write succeeded: the previous response
     * line is completed, `command` becomes the outstanding one and its
     * expected response length is classified.
     */
    method Transmit(dataToSend: seq<Byte>, command: string)
      modifies this
      ensures Model() == old(Model()).(written := old(written) + [dataToSend],
        pending := true, command := command,
        buffer := if old(pendingResponse) then "" else old(responseBuffer),
        expected := Some(ExpectedLength(command)),
        shown := old(shown) + (if old(pendingResponse) then [Plain(old(responseBuffer) + "\n")] else [])
                 + [Plain(command + " -> ")])
    {
      written := written + [dataToSend];
      if pendingResponse {
        WriteOutput(responseBuffer + "\n");
        responseBuffer := "";
      }
      currentCommand := command;
      WriteOutput(currentCommand + " -> ");
      pendingResponse := true;
      ClassifyCommand();
    }

    /** The response-length hint set for the current command. */
    method ClassifyCommand()
      modifies this`expectedLength
      ensures expectedLength == Some(ExpectedLength(currentCommand))
    {
      if "ff" <= currentCommand {
        expectedLength := Some(20);
      } else if "20" <= currentCommand || "30" <= currentCommand {
        expectedLength := Some(10);
      } else {
        expectedLength := Some(0);
      }
    }

    /** process_received_data: the batch as lower-case digit pairs, while a command is outstanding. */
    method ProcessReceivedData(data: seq<Byte>)
      requires Valid()
      modifies this`responseBuffer
      ensures Model() == Receive(old(Model()), data) && Valid()
    {
      ReceiveInv(Model(), data);
      if |data| > 0 && pendingResponse {
        var hex := Frame(data);
        responseBuffer := responseBuffer + hex;
      }
    }

    /**
     * read_from_port, the body of the reader thread, given the outcomes its
     * successive reads would have; it stops when they run out, when the
     * connection is no longer alive and open, or at the first failing read,
     * which ends the thread.
     */
    method ReadFromPort(outcomes: seq<ReadResult>)
      requires Valid() && reading
      modifies this
      ensures Model() == ReadLoop(old(Model()), outcomes) && Valid()
    {
      ghost var before := Model();
      ReadLoopInv(before, outcomes);
      var i := 0;
      while i < |outcomes| && alive && portOpen
        invariant 0 <= i <= |outcomes|
        invariant ReadLoop(Model(), outcomes[i..]) == ReadLoop(before, outcomes)
        invariant Valid() && reading
        decreases |outcomes| - i
      {
        match outcomes[i]
        case ReadFault(m) =>
          WriteOutput(ReadErrorLine(m));
          reading := false;
          return;
        case Bytes(data) =>
          assert outcomes[i..][1..] == outcomes[i + 1..];
          if |data| > 0 {
            ProcessReceivedData(data);
          }
          i := i + 1;
      }
    }
  }
}
