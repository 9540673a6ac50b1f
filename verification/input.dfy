/**
 * Normalisation of the text typed into the input field before it is
 * hex-decoded (Termite.py, send_data): removal of spaces, line feeds and
 * carriage returns, and lower-casing of the cleaned command.
 */
module Input {

  /** The three characters the input cleaning removes. */
  predicate IsBlank(c: char) {
    c == ' ' || c == '\n' || c == '\r'
  }

  /** `s.replace(c, "")`: every occurrence of `c` dropped, the rest kept. */
  function RemoveAll(s: string, c: char): (r: string)
    ensures |r| <= |s|
    ensures forall i :: 0 <= i < |r| ==> r[i] != c
  {
    if s == [] then []
    else (if s[0] == c then [] else [s[0]]) + RemoveAll(s[1..], c)
  }

  /** The cleaning expression of send_data: three successive replaces. */
  function Clean(s: string): (r: string) {
    RemoveAll(RemoveAll(RemoveAll(s, ' '), '\n'), '\r')
  }

  /**
   * Reference definition of the cleaning: one pass that keeps, in order,
   * every character that is not blank.
   */
  function Strip(s: string): (r: string)
    ensures |r| <= |s|
    ensures forall i :: 0 <= i < |r| ==> !IsBlank(r[i])
  {
    if s == [] then []
    else (if IsBlank(s[0]) then [] else [s[0]]) + Strip(s[1..])
  }

  /** The three replaces of the source remove exactly the blanks and nothing else. */
  lemma {:induction false} CleanIsStrip(s: string)
    ensures Clean(s) == Strip(s)
  {
    if s != [] {
      var x, t := s[0], s[1..];
      assert s == [x] + t;
      CleanIsStrip(t);
      var r1 := RemoveAll(t, ' ');
      if x == ' ' {
        assert RemoveAll(s, ' ') == r1;
      } else {
        assert RemoveAll(s, ' ') == [x] + r1;
        var r2 := RemoveAll(r1, '\n');
        assert ([x] + r1)[1..] == r1;
        if x == '\n' {
          assert RemoveAll([x] + r1, '\n') == r2;
        } else {
          assert RemoveAll([x] + r1, '\n') == [x] + r2;
          assert ([x] + r2)[1..] == r2;
          assert RemoveAll([x] + r2, '\r') == (if x == '\r' then [] else [x]) + RemoveAll(r2, '\r');
        }
      }
    }
  }

  /** Text without blanks comes through the cleaning unchanged. */
  lemma {:induction false} StripUnblanked(s: string)
    requires forall i :: 0 <= i < |s| ==> !IsBlank(s[i])
    ensures Strip(s) == s
  {
    if s != [] {
      StripUnblanked(s[1..]);
      assert s == [s[0]] + s[1..];
    }
  }

  /** Cleaning commutes with concatenation: pieces of input clean independently. */
  lemma {:induction false} StripConcat(a: string, b: string)
    ensures Strip(a + b) == Strip(a) + Strip(b)
  {
    if a == [] {
      assert a + b == b;
    } else {
      var head := if IsBlank(a[0]) then [] else [a[0]];
      assert (a + b)[0] == a[0] && (a + b)[1..] == a[1..] + b;
      StripConcat(a[1..], b);
      assert Strip(a + b) == head + (Strip(a[1..]) + Strip(b));
      assert Strip(a) == head + Strip(a[1..]);
      assert head + (Strip(a[1..]) + Strip(b)) == (head + Strip(a[1..])) + Strip(b);
    }
  }

  /**
   * Every character that is not blank survives the cleaning, and at the
   * position that the cleaned text before it leaves for it: the order of the
   * kept characters is the order in the input.
   */
  lemma KeepsInOrder(s: string, i: nat)
    requires i < |s| && !IsBlank(s[i])
    ensures |Strip(s[..i])| < |Clean(s)|
    ensures Clean(s)[|Strip(s[..i])|] == s[i]
  {
    CleanIsStrip(s);
    assert s == s[..i] + s[i..];
    StripConcat(s[..i], s[i..]);
    assert Strip(s[i..]) == [s[i]] + Strip(s[i + 1..]) by {
      assert s[i..][1..] == s[i + 1..];
    }
  }

  /** `str.lower()` on one character, for the ASCII range the decoder accepts. */
  function LowerChar(c: char): (d: char)
    ensures 'A' <= c <= 'Z' ==> 'a' <= d <= 'z' && d as int - 'a' as int == c as int - 'A' as int
    ensures !('A' <= c <= 'Z') ==> d == c
  {
    if 'A' <= c <= 'Z' then (c as int - 'A' as int + 'a' as int) as char else c
  }

  /** `str.lower()`: every character lowered where it stands. */
  function Lower(s: string): (r: string)
    ensures |r| == |s|
    ensures forall i :: 0 <= i < |s| ==> r[i] == LowerChar(s[i])
  {
    if s == [] then [] else [LowerChar(s[0])] + Lower(s[1..])
  }
}
