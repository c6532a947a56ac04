/** The four regular-expression replacements of the body canonicaliser, on byte strings. */
module RegexRewrites {
  import opened Bytes

  /** replace(/\r?\n/g, '\n') */
  function JsLineEnds(s: seq<Byte>): seq<Byte> {
    if s == [] then
      []
    else if s[0] == CR && |s| > 1 && s[1] == LF then
      JsLineEnds(s[1..])
    else
      [s[0]] + JsLineEnds(s[1..])
  }

  /** Whether only blanks stand between here and the next place where `$` matches under the flag m, which
      is before a CR as well as before an LF. */
  predicate AtLineEnd(s: seq<Byte>) {
    s == [] || IsEol(s[0]) || (IsWsp(s[0]) && AtLineEnd(s[1..]))
  }

  /** replace(/[ \t]*$/gm, '') */
  function TrimLines(s: seq<Byte>): seq<Byte> {
    if s == [] then
      []
    else
      (if IsWsp(s[0]) && AtLineEnd(s[1..]) then [] else [s[0]]) + TrimLines(s[1..])
  }

  /** replace(/[ \t]+/gm, ' ') */
  function SingleSpaces(s: seq<Byte>): seq<Byte> {
    if s == [] then
      []
    else if IsWsp(s[0]) then
      (if |s| > 1 && IsWsp(s[1]) then [] else [SP]) + SingleSpaces(s[1..])
    else
      [s[0]] + SingleSpaces(s[1..])
  }

  /** replace(/\n/g, '\r\n') */
  function CrlfLineEnds(s: seq<Byte>): seq<Byte> {
    if s == [] then [] else (if s[0] == LF then CRLF else [s[0]]) + CrlfLineEnds(s[1..])
  }

  /** The slow path of the canonicaliser. */
  function Rewrite(s: seq<Byte>): seq<Byte> {
    CrlfLineEnds(SingleSpaces(TrimLines(JsLineEnds(s))))
  }
}
