/**
 * The command path of SerialTermite.send_data (Termite.py): turning the text
 * typed into the input field into the bytes written to the port, the
 * canonical command and its response-length hint.
 */
module Command {
  import opened Wrappers
  import opened Input
  import opened Hex

  /** `self.line_ending.encode()`: the line ending is "\n". */
  const LineEnding: seq<Byte> := [0x0A]

  /**
   * The response-length hint of a lower-cased command: 20 after "ff",
   * 10 after "20" or "30", 0 otherwise. The session stores it and never reads it.
   */
  function ExpectedLength(command: string): (n: nat)
  {
    if "ff" <= command then 20
    else if "20" <= command || "30" <= command then 10
    else 0
  }

  /**
   * The hint depends only on the first byte the command puts on the wire:
   * 0xff gives 20, 0x20 and 0x30 give 10, anything else (and no byte) 0.
   */
  lemma ExpectedLengthByFirstByte(clean: string)
    requires Unhexlify(clean).Ok?
    ensures var bytes := Unhexlify(clean).value;
      ExpectedLength(Lower(clean)) ==
        if |bytes| > 0 && bytes[0] == 0xFF then 20
        else if |bytes| > 0 && (bytes[0] == 0x20 || bytes[0] == 0x30) then 10
        else 0
  {
    var bytes := Unhexlify(clean).value;
    var command := Lower(clean);
    FrameUnhexlify(clean);
    assert command == Frame(bytes);
    if |bytes| > 0 {
      FrameAt(bytes, 0);
      var p := Pair(bytes[0]);
      assert command[..2] == p;
      assert "ff" <= command <==> p == "ff";
      assert "20" <= command <==> p == "20";
      assert "30" <= command <==> p == "30";
      assert p == "ff" <==> bytes[0] == 0xFF by {
        if p == "ff" { assert DigitValue('f') == 15; }
      }
      assert p == "20" <==> bytes[0] == 0x20 by {
        if p == "20" { assert DigitValue('2') == 2 && DigitValue('0') == 0; }
      }
      assert p == "30" <==> bytes[0] == 0x30 by {
        if p == "30" { assert DigitValue('3') == 3 && DigitValue('0') == 0; }
      }
    }
  }

  /** What a successful send puts on the wire and into the session. */
  datatype Outgoing = Outgoing(wire: seq<Byte>, command: string, expected: nat)

  /** `wire` is the bytes of the hex text `command` followed by the line ending. */
  predicate Carries(wire: seq<Byte>, command: string) {
    |wire| > 0 && wire[|wire| - 1] == 0x0A && Frame(wire[..|wire| - 1]) == command
  }

  /**
   * The pure part of send_data: clean the typed text, hex-decode it, append
   * the line ending, lower-case the cleaned text into the command and
   * classify it. Fails exactly when unhexlify raises.
   */
  function Prepare(input: string): (r: Result<Outgoing, DecodeError>)
    ensures r.Ok? <==> Decodable(Clean(input))
    ensures r.Err? ==> Unhexlify(Clean(input)) == Err(r.error)
  {
    var clean := Clean(input);
    match Unhexlify(clean)
    case Err(e) => Err(e)
    case Ok(bytes) =>
      var command := Lower(clean);
      Ok(Outgoing(bytes + LineEnding, command, ExpectedLength(command)))
  }

  /**
   * What a successful preparation sends: half as many bytes as cleaned
   * digits plus the line feed; the hex text of the bytes before the line
   * feed is the command, and decoding the command gives them back.
   */
  lemma PreparedWire(input: string)
    requires Prepare(input).Ok?
    ensures var out := Prepare(input).value;
      |out.wire| == |Clean(input)| / 2 + 1 && Carries(out.wire, out.command) &&
      Unhexlify(out.command) == Ok(out.wire[..|out.wire| - 1]) &&
      out.command == Lower(Clean(input)) && out.expected == ExpectedLength(out.command)
  {
    var clean := Clean(input);
    var bytes := Unhexlify(clean).value;
    var wire := Prepare(input).value.wire;
    assert wire == bytes + LineEnding;
    assert wire[..|wire| - 1] == bytes;
    FrameUnhexlify(clean);
    UnhexlifyFrame(bytes);
  }

  /**
   * A character that is neither blank nor a hex digit, anywhere in the typed
   * text (a tab, say), makes the send fail.
   */
  lemma ForeignCharacterRejected(input: string, i: nat)
    requires i < |input| && !IsBlank(input[i]) && !IsHexDigit(input[i])
    ensures Prepare(input).Err?
  {
    KeepsInOrder(input, i);
  }

  /** Spaces between the digits are dropped and upper-case digits are lowered. */
  lemma SpacedCommand()
    ensures Prepare("AB CD") == Ok(Outgoing([0xAB, 0xCD, 0x0A], "abcd", 0))
  {
    SpacedCommandText();
    SpacedCommandDigits();
  }

  lemma SpacedCommandText()
    ensures Clean("AB CD") == "ABCD"
  {
    assert "AB CD" == "AB" + " CD";
    StripConcat("AB", " CD");
    StripUnblanked("AB");
    assert " CD"[1..] == "CD";
    StripUnblanked("CD");
    CleanIsStrip("AB CD");
  }

  lemma SpacedCommandDigits()
    ensures Decodable("ABCD") && DecodePairs("ABCD") + LineEnding == [0xAB, 0xCD, 0x0A]
    ensures Lower("ABCD") == "abcd" && ExpectedLength("abcd") == 0
  {
    var clean := "ABCD";
    assert Decodable(clean) by {
      forall i | 0 <= i < |clean| ensures IsHexDigit(clean[i]) {
        if i == 0 {} else if i == 1 {} else if i == 2 {} else {}
      }
    }
    assert DecodePairs(clean) == [0xAB, 0xCD] by {
      assert clean[2..] == "CD" && "CD"[2..] == [];
    }
    assert Lower("D") == "d" by { assert "D"[1..] == []; }
    assert Lower("CD") == "cd" by { assert "CD"[1..] == "D"; }
    assert Lower("BCD") == "bcd" by { assert "BCD"[1..] == "CD"; }
    assert clean[1..] == "BCD";
    assert "abcd"[0] == 'a' && "ff"[0] == 'f' && "20"[0] == '2' && "30"[0] == '3';
  }

  /** An odd number of digits is refused before anything is sent. */
  lemma OddLengthRejected()
    ensures Prepare("ABC") == Err(OddLength)
  {
    OddLengthText();
  }

  lemma OddLengthText()
    ensures Clean("ABC") == "ABC" && IsAscii("ABC")
  {
    var clean := "ABC";
    assert IsAscii(clean) by {
      forall i | 0 <= i < |clean| ensures clean[i] as int < 128 {
        if i == 0 {} else if i == 1 {} else {}
      }
    }
    StripUnblanked(clean);
    CleanIsStrip(clean);
  }
}
