# Python Termite: the command/response session, in Dafny

Python Termite (`Termite.py`, class `SerialTermite`) is a Tk serial terminal
for devices that speak in hex. The user types a command in hex. The terminal:

- removes spaces, line feeds and carriage returns;
- decodes the digits with `binascii.unhexlify`;
- writes the bytes followed by a line feed to the serial port;
- opens a *session* for the command: `pending_response`, `current_command`,
  `response_buffer` and `expected_length`.

A reader thread renders every batch of bytes that arrives as continuous
lower-case two-digit hex and appends it to the response buffer while a
command is outstanding. In the log of texts appended to the output widget,
the next send completes that response line before it starts its own. (What
the widget actually shows differs; see "## Left out".)

This project models that core and proves what it guarantees:

- `wrappers.dfy` (module `Wrappers`): `Option` and `Result`.
- `input.dfy` (module `Input`): the cleaning of the typed text, three
  successive `str.replace` calls. It also has a one-pass reference definition
  (`Strip`) and `str.lower`.
- `hex.dfy` (module `Hex`):
  - `Frame` renders received bytes as hex text, which is
    `"".join(f"{b:02x}" for b in data)`;
  - `Unhexlify` models `binascii.unhexlify` on a `str`, including its three
    errors and the order in which it checks for them;
  - the round trips between the two.
- `command.dfy` (module `Command`): the pure part of `send_data`. `Prepare`
  cleans, decodes, appends the line ending, lower-cases the command and
  classifies its expected response length.
- `session.dfy` (module `Session`):
  - the session fields, the port and the display as one `State` value;
  - each operation as a transition function on it: `Send`, `Receive`,
    `ReadLoop`, `Connect` and `Disconnect`;
  - the session invariant `Inv` and the lemmas about these transitions.
- `termite.dfy` (module `Termite`): class `SerialTermite`, whose fields the
  methods update in place, as in the source. Each operation method
  (`Connect`, `Disconnect`, `SendData`, `ProcessReceivedData`,
  `ReadFromPort`) is proved to move `Model()` exactly as the matching
  transition does, and to keep `Valid()` (which is `Inv(Model())`). The
  helpers `WriteOutput`, `WriteRedOutput`, `Transmit` and `ClassifyCommand`
  each state their own effect on the fields.

The serial port has two parts in the model:

- its open flag (`portOpen`);
- the list of byte strings written to it (`written`).

The reader thread is a flag, `reading`. A successful `connect` starts it. It
ends at the first failing read (`Termite.py:172-174`), or when `disconnect`
clears `alive`. Until the next successful connect nothing is read, even
though `alive` may still be true.

The display is the list of texts appended to the output widget, each either
plain or red (`shown`). Things that come from outside the program are
parameters:

- the text in the entry field;
- the exception a write raises;
- the exception `connect` meets, and whether it came before the port was
  open or from the buffer resets after it (`Termite.py:100-101`), which leave
  the port open with no reader;
- the outcomes of the reader's successive reads.

The session invariant `Inv` says that a running reader implies a live
connection, and a live connection an open port. It also says:

- With no command outstanding, the buffer and command are empty and no
  length hint is stored.
- With a command outstanding:
  - the last bytes written are that command's digits followed by a line feed;
  - the stored hint is that command's classification;
  - the buffer is always whole pairs of lower-case digits.

The code and a plain reading of the program's intent differ on three points.
The model follows the code:

- The command echoed on send is appended as plain text (`Termite.py:144`).
  Only the redraw in `process_received_data`, which is not modelled, paints
  it red.
- `disconnect` does not clear the response buffer or the pending flag. A
  response line that is still open stays in the buffer across a reconnect.
- Only the space, line feed and carriage return characters are removed from
  the typed text. Tabs and other whitespace reach `unhexlify` and make it
  fail (`Command.ForeignCharacterRejected`).

Two smaller points:

- Only a literally empty entry is ignored. An entry of blanks only cleans to
  the empty string, which decodes to no bytes. It therefore sends a single
  line feed and opens a session for the empty command.
- `expected_length` is not set by `__init__`. The model holds it as an
  `Option`, which is `None` until the first successful send.

## Model

| member | source | states |
|---|---|---|
| Input.RemoveAll | Termite.py:129 | `str.replace(c, "")` never lengthens the text and leaves no `c` in it |
| Input.CleanIsStrip | Termite.py:129 | the three replaces give exactly the characters that are not space, LF or CR, in their original order (equal to the one-pass `Strip`) |
| Input.StripUnblanked | Termite.py:129 | text with no space, LF or CR passes the cleaning unchanged |
| Input.StripConcat | Termite.py:129 | cleaning the concatenation of two pieces gives the concatenation of the cleaned pieces |
| Input.KeepsInOrder | Termite.py:129 | each character that is not blank appears in the cleaned text, at the position given by the cleaned length of the text before it |
| Input.Lower | Termite.py:143 | the ASCII model of `str.lower` keeps the length and lowers each character in place (A-Z to a-z, the rest unchanged) |
| Hex.Pair | Termite.py:179 | `f"{b:02x}"` is two lower-case digits whose value is `b` |
| Hex.Frame | Termite.py:179 | the rendering of a batch is two lower-case digits per byte |
| Hex.FrameAt | Termite.py:179 | byte `k` is rendered at positions `2k` and `2k+1` |
| Hex.FrameConcat | Termite.py:179-180 | rendering two batches one after the other gives the rendering of their concatenation |
| Hex.Unhexlify | Termite.py:132 | succeeds exactly on whole pairs of hex digits of either case, with half as many bytes; a non-ASCII character is reported first, then an odd length, then a non-hex digit |
| Hex.DecodeAt | Termite.py:132 | decoded byte `k` is the value of digits `2k` (high) and `2k+1` (low) |
| Hex.UnhexlifyFrame | Termite.py:132 | decoding the rendering of any bytes gives those bytes back |
| Hex.FrameUnhexlify | Termite.py:132 | rendering what a text decodes to gives that text back, lower-cased |
| Command.ExpectedLengthByFirstByte | Termite.py:147-153 | the stored hint is 20 when the first byte sent is 0xFF, 10 when it is 0x20 or 0x30, and 0 otherwise, including when no byte is sent |
| Command.Prepare | Termite.py:128-153 | preparing the typed text succeeds exactly when its cleaned form decodes; on failure the error is the one `unhexlify` raises on the cleaned text |
| Command.PreparedWire | Termite.py:129-153 | the bytes written are half as many as the cleaned digits, plus a final 0x0A; the command is the lower-cased cleaned text and the hex text of those bytes, and it decodes back to them; the hint is the command's classification |
| Command.ForeignCharacterRejected | Termite.py:129-132 | any character anywhere in the entry that is neither blank nor a hex digit makes the send fail |
| Command.SpacedCommand | Termite.py:129-153 | "AB CD" sends 0xAB 0xCD 0x0A with command "abcd" and hint 0 |
| Command.OddLengthRejected | Termite.py:132 | "ABC" fails with the odd-length error |
| Session.InitialInv | Termite.py:13-19 | the fields set by `__init__` satisfy the session invariant |
| Session.SendInv | Termite.py:121-164 | every send, successful or not, keeps the session invariant |
| Session.SendFailureKeepsSession | Termite.py:121-164 | when the entry is empty, the port is closed, decoding fails or the write raises, nothing is written and no session field changes; the display gains exactly one red line, or nothing for an empty entry |
| Session.SendSuccess | Termite.py:132-153 | a successful send writes one more byte string: the decoded cleaned text plus 0x0A. It sets pending, the lower-cased cleaned command, an empty buffer and that command's hint. In the appended-text log, a previously open response line is completed before the command and arrow are appended |
| Session.ReceiveInv | Termite.py:176-180 | receiving keeps the session invariant |
| Session.ReceiveAppends | Termite.py:176-180 | while a command is outstanding, a batch extends the buffer by two lower-case digits per byte and the extension decodes back to the batch; otherwise nothing changes; no other field ever changes |
| Session.ReceiveChunks | Termite.py:176-180 | two batches received one after the other leave the same state as their concatenation received at once |
| Session.ReadLoopDelivers | Termite.py:166-174 | while the reader runs on a live, open port, it appends the rendering of every byte read before the first failing read (while a command is outstanding), shows that failure once, and is still running exactly when no read failed; otherwise it does nothing |
| Session.ReadLoopStopsAtFault | Termite.py:172-174 | once a read has failed the reader has ended: later reads change nothing |
| Session.ReadLoopSplits | Termite.py:167-171 | running the reader over some reads and then over more is the same as running it over all of them at once |
| Session.ReadLoopAsOneBatch | Termite.py:166-171 | while the reader runs on a live, open port and no read fails, the reader loop has the effect of one batch made of all the bytes read |
| Session.ReadLoopInv | Termite.py:166-174 | the reader loop keeps the session invariant |
| Session.PendingStays | Termite.py:145 | once a command is outstanding, no send, receive, reader loop, connect or disconnect makes it not outstanding |
| Session.ConnectionKeepsSession | Termite.py:77-119 | connect and disconnect change neither the session fields nor the bytes written |
| Termite.SerialTermite.constructor | Termite.py:10-19 | a new terminal is in the initial state, with the port closed and no session |
| Termite.SerialTermite.WriteOutput | Termite.py:201-205 | appends one plain text to the display |
| Termite.SerialTermite.WriteRedOutput | Termite.py:207-211 | appends one red text to the display |
| Termite.SerialTermite.Disconnect | Termite.py:113-119 | the object moves as `Session.Disconnect`: the port is closed, `alive` is cleared so the reader ends, "Disconnected." is shown in red, and the invariant is kept |
| Termite.SerialTermite.Connect | Termite.py:77-111 | the object moves as `Session.Connect`: an open port is disconnected and no selected port does nothing. A fault before the port opens changes only the display (one red line); a fault in the buffer resets leaves the port open with no reader. Otherwise the port opens, the reader starts and the connection line is shown |
| Termite.SerialTermite.SendData | Termite.py:121-164 | the object moves as `Session.Send` and keeps the invariant |
| Termite.SerialTermite.Transmit | Termite.py:134-153 | after a write succeeds, one byte string is logged; if a command was outstanding its response line is completed and the buffer emptied; then the command, the pending flag and the classified hint are stored |
| Termite.SerialTermite.ClassifyCommand | Termite.py:147-153 | the hint stored is `ExpectedLength` of the current command, and nothing else changes |
| Termite.SerialTermite.ProcessReceivedData | Termite.py:176-180 | the object moves as `Session.Receive`, changing only the response buffer, and keeps the invariant |
| Termite.SerialTermite.ReadFromPort | Termite.py:166-174 | run by the reader thread, the object moves as `Session.ReadLoop` over the read outcomes (a failing read ends the thread) and keeps the invariant |

## Left out

- The Tk window is not modelled: its widgets, menus and key bindings (`Termite.py:22-70`), `clear_output` and `on_closing`. Also left out are the deletion of the entry field after a send (line 159) and the port list from `get_ports` (line 73).
- The redraw in `process_received_data` (lines 182-198) is not modelled, and it changes no session field. The display is modelled only as the sequence of appended texts, which is not what the widget shows, in three ways:
  - The response reaches the screen only through this redraw: it replaces the end of the text with the command, in red, and `" -> "` plus the whole buffer.
  - After the command echo (line 144) the text does not end in a newline. The deletion from `"end-2l linestart"` therefore also removes the line above the command line, for example the connection message, on each batch received.
  - When the next send completes the line (line 139), it appends the buffer again after the redrawn copy. The screen then reads `ff -> 01020102` where the log has `ff -> ` followed by `0102`.
- Pyserial is reduced to an open flag and a log of writes. The settings passed to `serial.Serial`, the effect of the buffer resets (only their failure is modelled), the short sleep before closing, `in_waiting` and the read timeout are not modelled. What reads return is a parameter of `ReadFromPort`.
- The reader thread runs beside the GUI thread in the source. The model treats each operation as one atomic step on a single state, so it covers sequential interleavings only.
- `response_bytes` and `waiting_for_response` (lines 155-156) are not modelled. Nothing ever reads them.
- `expected_length` is stored but never read. The model classifies it and proves the classification; nothing uses it.
- The modal dialogs of `connect` (lines 84 and 110) are not modelled.
- Session.Send: when `flush` raises after `write` succeeded, the model treats it like a failing write, so the bytes already handed to the port are not recorded.
- Termite.SerialTermite.SendData: the same simplification for a `flush` that raises after a successful `write`.
- Input.Lower: lowers only the ASCII letters A-Z. Every other character, including non-ASCII letters that `str.lower` would change, is left unchanged. Such text can never be sent, because `unhexlify` refuses non-ASCII input before the command is lowered.
- Session.Connect: the baud rate is taken as the text shown in the connection line. Parsing it with `int` is part of the open, so a failed parse is one of the faults passed as `openFault`.
