/**
 * Hexadecimal text and bytes: the rendering of received bytes
 * (`"".join(f"{b:02x}" for b in data)` in process_received_data) and the
 * decoding of a typed command (`binascii.unhexlify` in send_data).
 */
module Hex {
  import opened Wrappers
  import opened Input

  /** A Python `bytes` element. */
  type Byte = b: int | 0 <= b < 256

  /** A digit `binascii.unhexlify` accepts, in either case. */
  predicate IsHexDigit(c: char) {
    '0' <= c <= '9' || 'a' <= c <= 'f' || 'A' <= c <= 'F'
  }

  /** A digit the `x` format produces. */
  predicate IsLowerHexDigit(c: char) {
    '0' <= c <= '9' || 'a' <= c <= 'f'
  }

  /** Text `binascii.unhexlify` decodes: whole pairs of digits of either case. */
  predicate Decodable(s: string) {
    |s| % 2 == 0 && forall i :: 0 <= i < |s| ==> IsHexDigit(s[i])
  }

  /** Text made of whole lower-case digit pairs, as the framing produces. */
  predicate IsLowerHexText(s: string) {
    |s| % 2 == 0 && forall i :: 0 <= i < |s| ==> IsLowerHexDigit(s[i])
  }

  function DigitValue(c: char): (v: nat)
    requires IsHexDigit(c)
    ensures v < 16
  {
    if '0' <= c <= '9' then c as int - '0' as int
    else if 'a' <= c <= 'f' then c as int - 'a' as int + 10
    else c as int - 'A' as int + 10
  }

  /** The lower-case digit for a value below 16. */
  function Digit(n: nat): (c: char)
    requires n < 16
    ensures IsLowerHexDigit(c) && DigitValue(c) == n
  {
    if n < 10 then ('0' as int + n) as char else ('a' as int + n - 10) as char
  }

  /** `f"{b:02x}"`: two zero-padded lower-case digits whose value is `b`. */
  function Pair(b: Byte): (s: string)
    ensures |s| == 2 && IsLowerHexDigit(s[0]) && IsLowerHexDigit(s[1])
    ensures DigitValue(s[0]) * 16 + DigitValue(s[1]) == b
  {
    [Digit(b / 16), Digit(b % 16)]
  }

  /** The hex text of a received batch: one pair per byte, no separator. */
  function Frame(data: seq<Byte>): (s: string)
    ensures |s| == 2 * |data|
    ensures IsLowerHexText(s)
  {
    if data == [] then "" else Pair(data[0]) + Frame(data[1..])
  }

  /** The pair for byte `k` sits at positions `2k` and `2k+1`. */
  lemma {:induction false} FrameAt(data: seq<Byte>, k: nat)
    requires k < |data|
    ensures Frame(data)[2 * k..2 * k + 2] == Pair(data[k])
  {
    if k > 0 {
      FrameAt(data[1..], k - 1);
      assert Frame(data)[2..] == Frame(data[1..]);
    }
  }

  /** Framing is independent of how the bytes are split into batches. */
  lemma {:induction false} FrameConcat(a: seq<Byte>, b: seq<Byte>)
    ensures Frame(a + b) == Frame(a) + Frame(b)
  {
    if a == [] {
      assert a + b == b;
    } else {
      assert (a + b)[0] == a[0] && (a + b)[1..] == a[1..] + b;
      FrameConcat(a[1..], b);
    }
  }

  /** The errors `binascii.unhexlify` raises on a `str` argument. */
  datatype DecodeError = NonAscii | OddLength | NonHexDigit

  /** The text of the exception, as the error line shows it. */
  function Message(e: DecodeError): (text: string) {
    match e
    case NonAscii => "string argument should contain only ASCII characters"
    case OddLength => "Odd-length string"
    case NonHexDigit => "Non-hexadecimal digit found"
  }

  /** Decodes whole digit pairs, high digit first. */
  function DecodePairs(s: string): (r: seq<Byte>)
    requires Decodable(s)
    ensures |r| == |s| / 2
  {
    if s == [] then [] else [DigitValue(s[0]) * 16 + DigitValue(s[1])] + DecodePairs(s[2..])
  }

  /** Every character is in the ASCII range. */
  predicate IsAscii(s: string) {
    forall i :: 0 <= i < |s| ==> s[i] as int < 128
  }

  /**
   * `binascii.unhexlify(s)`: the ASCII check comes first, then the length,
   * then the digits; either case of digit is accepted.
   */
  function Unhexlify(s: string): (r: Result<seq<Byte>, DecodeError>)
    ensures r.Ok? <==> Decodable(s)
    ensures r.Ok? ==> |r.value| == |s| / 2
    ensures r == Err(OddLength) <==> IsAscii(s) && |s| % 2 == 1
    ensures r == Err(NonHexDigit) <==> IsAscii(s) && |s| % 2 == 0 && !Decodable(s)
  {
    if !IsAscii(s) then Err(NonAscii)
    else if |s| % 2 != 0 then Err(OddLength)
    else if !Decodable(s) then Err(NonHexDigit)
    else Ok(DecodePairs(s))
  }

  /** Byte `k` of the decoded text is the value of digits `2k` and `2k+1`. */
  lemma {:induction false} DecodeAt(s: string, k: nat)
    requires Decodable(s)
    requires k < |s| / 2
    ensures DecodePairs(s)[k] == DigitValue(s[2 * k]) * 16 + DigitValue(s[2 * k + 1])
  {
    if k > 0 {
      DecodeAt(s[2..], k - 1);
    }
  }

  /** Decoding the rendering of a batch gives the batch back. */
  lemma {:induction false} UnhexlifyFrame(data: seq<Byte>)
    ensures Unhexlify(Frame(data)) == Ok(data)
  {
    DecodeFrame(data);
  }

  lemma {:induction false} DecodeFrame(data: seq<Byte>)
    ensures DecodePairs(Frame(data)) == data
  {
    if data != [] {
      var f := Frame(data);
      assert f == Pair(data[0]) + Frame(data[1..]);
      assert f[2..] == Frame(data[1..]);
      DecodeFrame(data[1..]);
    }
  }

  /** Lower-casing a hex digit keeps its value. */
  lemma LowerDigit(c: char)
    requires IsHexDigit(c)
    ensures IsLowerHexDigit(LowerChar(c)) && DigitValue(LowerChar(c)) == DigitValue(c)
    ensures Digit(DigitValue(c)) == LowerChar(c)
  {
  }

  /** Rendering decoded text gives the text back, lower-cased. */
  lemma {:induction false} FrameUnhexlify(s: string)
    requires Unhexlify(s).Ok?
    ensures Frame(Unhexlify(s).value) == Lower(s)
  {
    FrameDecode(s);
  }

  lemma {:induction false} FrameDecode(s: string)
    requires Decodable(s)
    ensures Frame(DecodePairs(s)) == Lower(s)
  {
    if s != [] {
      var d := DecodePairs(s);
      var b := DigitValue(s[0]) * 16 + DigitValue(s[1]);
      assert d[0] == b && d[1..] == DecodePairs(s[2..]);
      FrameDecode(s[2..]);
      LowerDigit(s[0]);
      LowerDigit(s[1]);
      assert b / 16 == DigitValue(s[0]) && b % 16 == DigitValue(s[1]);
      assert Pair(b) == [LowerChar(s[0]), LowerChar(s[1])];
      assert Lower(s) == [LowerChar(s[0]), LowerChar(s[1])] + Lower(s[2..]);
    }
  }
}
