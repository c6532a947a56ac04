/** The "relaxed" body canonicalization of section 3.4.4 of RFC 6376, written line by line as the section has it. It
    shares nothing with the model of the code but the type of bytes. */
module Rfc6376Body {
  import Bytes

  type Octets = seq<Bytes.Byte>

  /** WSP of section 2.8: a space or a tab. */
  predicate IsWsp(b: Bytes.Byte) {
    b == 0x20 || b == 0x09
  }

  /** Where the first CRLF is, or the length. */
  function FindCrlf(s: Octets): (i: nat)
    ensures i <= |s|
    ensures i < |s| ==> i + 1 < |s| && s[i] == 0x0d && s[i + 1] == 0x0a
  {
    if s == [] then 0
    else if s[0] == 0x0d && |s| > 1 && s[1] == 0x0a then 0
    else 1 + FindCrlf(s[1..])
  }

  function SplitLines(s: Octets): seq<Octets>
    decreases |s|
  {
    var i := FindCrlf(s);
    if i == |s| then [s] else [s[..i]] + SplitLines(s[i + 2..])
  }

  /** Ignore all whitespace at the end of the line. */
  function TrimEnd(line: Octets): Octets {
    if line == [] then
      []
    else
      var rest := TrimEnd(line[1..]);
      if rest == [] && IsWsp(line[0]) then [] else [line[0]] + rest
  }

  /** Reduce all sequences of whitespace within the line to a single space. */
  function Reduce(line: Octets): Octets {
    if line == [] then []
    else if !IsWsp(line[0]) then [line[0]] + Reduce(line[1..])
    else if |line| > 1 && IsWsp(line[1]) then Reduce(line[1..])
    else [0x20] + Reduce(line[1..])
  }

  function ReduceLine(line: Octets): Octets {
    Reduce(TrimEnd(line))
  }

  function ReduceLines(lines: seq<Octets>): seq<Octets> {
    if lines == [] then [] else [ReduceLine(lines[0])] + ReduceLines(lines[1..])
  }

  /** Ignore all empty lines at the end of the body. */
  function DropEmptyEnd(lines: seq<Octets>): seq<Octets> {
    if lines == [] then
      []
    else
      var rest := DropEmptyEnd(lines[1..]);
      if rest == [] && lines[0] == [] then [] else [lines[0]] + rest
  }

  /** Every line that is left ends in CRLF, the last one too. */
  function JoinLines(lines: seq<Octets>): Octets {
    if lines == [] then [] else lines[0] + [0x0d, 0x0a] + JoinLines(lines[1..])
  }

  function RelaxedBody(body: Octets): Octets {
    JoinLines(DropEmptyEnd(ReduceLines(SplitLines(body))))
  }
}
