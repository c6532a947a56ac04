/** The LineEnds stream: every LF leaves with a CR before it, however the input was cut. */
module LineEnding {
  import opened Bytes
  import opened RegexRewrites

  /** What becomes of a byte. */
  function Piece(afterCr: bool, b: Byte): seq<Byte> {
    if b == LF && !afterCr then CRLF else [b]
  }

  /** The whole-input meaning of the stream; `afterCr` says that the byte before `s` was a CR. */
  function FixLineEnds(afterCr: bool, s: seq<Byte>): seq<Byte>
    decreases s
  {
    if s == [] then
      []
    else
      Piece(afterCr, s[0]) + FixLineEnds(s[0] == CR, s[1..])
  }

  lemma FirstByte(afterCr: bool, s: seq<Byte>, t: seq<Byte>)
    requires s != []
    ensures FixLineEnds(afterCr, s) == Piece(afterCr, s[0]) + FixLineEnds(s[0] == CR, s[1..])
    ensures FixLineEnds(afterCr, s + t) == Piece(afterCr, s[0]) + FixLineEnds(s[0] == CR, s[1..] + t)
    ensures EndsInCr(afterCr, s) == EndsInCr(s[0] == CR, s[1..])
  {
    assert (s + t)[1..] == s[1..] + t && (s + t)[0] == s[0];
  }

  lemma NoByte(afterCr: bool, t: seq<Byte>)
    ensures FixLineEnds(afterCr, [] + t) == FixLineEnds(afterCr, []) + FixLineEnds(EndsInCr(afterCr, []), t)
  {
    assert [] + t == t;
  }

  lemma {:induction false} FixLineEndsConcat(afterCr: bool, s: seq<Byte>, t: seq<Byte>)
    ensures FixLineEnds(afterCr, s + t) == FixLineEnds(afterCr, s) + FixLineEnds(EndsInCr(afterCr, s), t)
    decreases s
  {
    hide FixLineEnds, EndsInCr, Piece;
    if s == [] {
      NoByte(afterCr, t);
    } else {
      FirstByte(afterCr, s, t);
      FixLineEndsConcat(s[0] == CR, s[1..], t);
      var first, rest := Piece(afterCr, s[0]), FixLineEnds(s[0] == CR, s[1..]);
      var end := FixLineEnds(EndsInCr(afterCr, s), t);
      assert first + (rest + end) == (first + rest) + end;
    }
  }

  /** How many LF bytes lack their CR. */
  function BareLfs(afterCr: bool, s: seq<Byte>): nat
    decreases s
  {
    if s == [] then 0 else (if s[0] == LF && !afterCr then 1 else 0) + BareLfs(s[0] == CR, s[1..])
  }

  /** One byte is added for each bare LF, and nothing else changes the length. */
  lemma {:induction false} OutputLength(afterCr: bool, s: seq<Byte>)
    ensures |FixLineEnds(afterCr, s)| == |s| + BareLfs(afterCr, s)
    decreases s
  {
    if s != [] {
      OutputLength(s[0] == CR, s[1..]);
    }
  }

  lemma {:induction false} OutputLfsFollowCr(afterCr: bool, s: seq<Byte>)
    ensures LfsFollowCr(afterCr, FixLineEnds(afterCr, s))
    decreases s
  {
    if s != [] {
      var piece := Piece(afterCr, s[0]);
      OutputLfsFollowCr(s[0] == CR, s[1..]);
      assert LfsFollowCr(afterCr, piece);
      LfsFollowCrConcat(afterCr, piece, FixLineEnds(s[0] == CR, s[1..]));
    }
  }

  /** The guarantee the body canonicaliser downstream depends on. */
  lemma NoBareLfInOutput(s: seq<Byte>)
    ensures NoBareLf(FixLineEnds(false, s))
  {
    OutputLfsFollowCr(false, s);
  }

  /** The stream leaves text alone that has no bare LF. */
  lemma {:induction false} FixedPoint(afterCr: bool, s: seq<Byte>)
    requires LfsFollowCr(afterCr, s)
    ensures FixLineEnds(afterCr, s) == s
    decreases s
  {
    if s != [] {
      FixedPoint(s[0] == CR, s[1..]);
    }
  }

  lemma Idempotent(s: seq<Byte>)
    ensures FixLineEnds(false, FixLineEnds(false, s)) == FixLineEnds(false, s)
  {
    OutputLfsFollowCr(false, s);
    FixedPoint(false, FixLineEnds(false, s));
  }

  // ----- The inserted bytes -----

  /** Which bytes of the output are not from the input. */
  function Inserted(afterCr: bool, s: seq<Byte>): seq<bool>
    decreases s
  {
    if s == [] then [] else PieceMarks(afterCr, s[0]) + Inserted(s[0] == CR, s[1..])
  }

  function PieceMarks(afterCr: bool, b: Byte): seq<bool> {
    if b == LF && !afterCr then [true, false] else [false]
  }

  function Unmarked(s: seq<Byte>, marks: seq<bool>): seq<Byte>
    requires |s| == |marks|
  {
    if s == [] then [] else (if marks[0] then [] else [s[0]]) + Unmarked(s[1..], marks[1..])
  }

  lemma {:induction false} UnmarkedConcat(s: seq<Byte>, t: seq<Byte>, m: seq<bool>, n: seq<bool>)
    requires |s| == |m| && |t| == |n|
    ensures Unmarked(s + t, m + n) == Unmarked(s, m) + Unmarked(t, n)
  {
    if s == [] {
      assert s + t == t && m + n == n;
    } else {
      assert (s + t)[1..] == s[1..] + t && (m + n)[1..] == m[1..] + n;
      UnmarkedConcat(s[1..], t, m[1..], n);
    }
  }

  /** Only CRs are inserted, each before an LF. */
  ghost predicate MarksCrs(s: seq<Byte>, marks: seq<bool>)
    requires |s| == |marks|
  {
    forall i :: 0 <= i < |s| && marks[i] ==> i + 1 < |s| && s[i..i + 2] == CRLF
  }

  /** Deleting the inserted CRs gives back the input. */
  lemma {:induction false} DeletingGivesBack(afterCr: bool, s: seq<Byte>)
    ensures var output, marks := FixLineEnds(afterCr, s), Inserted(afterCr, s);
            |marks| == |output| && MarksCrs(output, marks) && Unmarked(output, marks) == s
    decreases s
  {
    hide FixLineEnds, Inserted, Unmarked, MarksCrs, Piece, PieceMarks;
    FirstMark(afterCr, s);
    if s != [] {
      DeletingGivesBack(s[0] == CR, s[1..]);
      UnmarkedPiece(afterCr, s[0]);
      var output, marks := FixLineEnds(s[0] == CR, s[1..]), Inserted(s[0] == CR, s[1..]);
      UnmarkedConcat(Piece(afterCr, s[0]), output, PieceMarks(afterCr, s[0]), marks);
      MarksConcat(Piece(afterCr, s[0]), output, PieceMarks(afterCr, s[0]), marks);
      assert [s[0]] + s[1..] == s;
    }
  }

  lemma FirstMark(afterCr: bool, s: seq<Byte>)
    ensures s == [] ==>
              FixLineEnds(afterCr, s) == [] && Inserted(afterCr, s) == [] && MarksCrs([], []) && Unmarked([], []) == []
    ensures s != [] ==>
              && FixLineEnds(afterCr, s) == Piece(afterCr, s[0]) + FixLineEnds(s[0] == CR, s[1..])
              && Inserted(afterCr, s) == PieceMarks(afterCr, s[0]) + Inserted(s[0] == CR, s[1..])
  {}

  lemma MarksConcat(s: seq<Byte>, t: seq<Byte>, m: seq<bool>, n: seq<bool>)
    requires |s| == |m| && |t| == |n| && MarksCrs(s, m) && MarksCrs(t, n)
    ensures MarksCrs(s + t, m + n)
  {
    forall i | 0 <= i < |s + t| && (m + n)[i]
      ensures i + 1 < |s + t| && (s + t)[i..i + 2] == CRLF
    {
      if i < |s| {
        assert (s + t)[i..i + 2] == s[i..i + 2];
      } else {
        assert (s + t)[i..i + 2] == t[i - |s|..i - |s| + 2];
      }
    }
  }

  lemma UnmarkedPiece(afterCr: bool, b: Byte)
    ensures |Piece(afterCr, b)| == |PieceMarks(afterCr, b)| && MarksCrs(Piece(afterCr, b), PieceMarks(afterCr, b))
    ensures Unmarked(Piece(afterCr, b), PieceMarks(afterCr, b)) == [b]
  {
    assert CRLF[1..] == [LF] && CRLF[0..2] == CRLF && [true, false][1..] == [false];
    assert Unmarked([LF], [false]) == [LF];
  }

  // How both rewritings go on from the first byte or two.

  lemma CrLfFirst(t: seq<Byte>)
    ensures FixLineEnds(false, CRLF + t) == CRLF + FixLineEnds(false, t)
    ensures JsLineEnds(CRLF + t) == [LF] + JsLineEnds(t)
  {
    assert (CRLF + t)[1..] == [LF] + t && ([LF] + t)[1..] == t;
    assert FixLineEnds(true, [LF] + t) == [LF] + FixLineEnds(false, t);
    assert FixLineEnds(false, CRLF + t) == [CR] + FixLineEnds(true, [LF] + t);
    assert JsLineEnds([LF] + t) == [LF] + JsLineEnds(t);
  }

  lemma LfFirst(t: seq<Byte>)
    ensures FixLineEnds(false, [LF] + t) == CRLF + FixLineEnds(false, t)
    ensures JsLineEnds([LF] + t) == [LF] + JsLineEnds(t)
  {
    assert ([LF] + t)[1..] == t;
  }

  lemma OtherFirst(b: Byte, t: seq<Byte>)
    requires b != LF && (b == CR ==> t == [] || t[0] != LF)
    ensures FixLineEnds(false, [b] + t) == [b] + FixLineEnds(false, t)
    ensures JsLineEnds([b] + t) == [b] + JsLineEnds(t)
  {
    assert ([b] + t)[1..] == t;
    assert b == CR && t != [] ==> FixLineEnds(true, t) == FixLineEnds(false, t);
  }

  /** The stream is the global replacement of (CR)LF by CRLF that the canonicaliser spells with two regular
      expressions, so no bytes but the missing CRs are ever added. */
  lemma {:induction false} IsTheRegexRewrite(s: seq<Byte>)
    ensures FixLineEnds(false, s) == CrlfLineEnds(JsLineEnds(s))
  {
    if s == [] {
    } else if s[0] == CR && |s| > 1 && s[1] == LF {
      var t := s[2..];
      hide FixLineEnds, JsLineEnds;
      assert s == CRLF + t;
      IsTheRegexRewrite(t);
      CrLfFirst(t);
      assert CrlfLineEnds([LF] + JsLineEnds(t)) == CRLF + CrlfLineEnds(JsLineEnds(t));
    } else {
      var b, t := s[0], s[1..];
      hide FixLineEnds, JsLineEnds;
      assert s == [b] + t;
      IsTheRegexRewrite(t);
      if b == LF {
        LfFirst(t);
      } else {
        OtherFirst(b, t);
      }
      assert ([b] + JsLineEnds(t))[1..] == JsLineEnds(t);
    }
  }

  lemma NothingToFix(afterCr: bool)
    ensures FixLineEnds(afterCr, []) == []
  {}

  /** One round of the scan: the pieces so far and the bytes from `lastPos` on make up the output. */
  lemma ScanByte(afterCr: bool, chunk: seq<Byte>, done: seq<Byte>, lastPos: nat, i: nat)
    requires lastPos <= i < |chunk|
    requires done + chunk[lastPos..i] == FixLineEnds(afterCr, chunk[..i])
    ensures var bare := chunk[i] == LF && !EndsInCr(afterCr, chunk[..i]);
            FixLineEnds(afterCr, chunk[..i + 1])
            == if bare then done + chunk[lastPos..i] + CRLF else done + chunk[lastPos..i + 1]
  {
    assert chunk[..i + 1] == chunk[..i] + [chunk[i]];
    FixLineEndsConcat(afterCr, chunk[..i], [chunk[i]]);
    assert chunk[lastPos..i + 1] == chunk[lastPos..i] + [chunk[i]];
    var last := FixLineEnds(EndsInCr(afterCr, chunk[..i]), [chunk[i]]);
    assert last == if chunk[i] == LF && !EndsInCr(afterCr, chunk[..i]) then CRLF else [chunk[i]];
    assert done + chunk[lastPos..i + 1] == done + chunk[lastPos..i] + [chunk[i]];
  }

  datatype LastByte = Unset | Byte(value: Byte)

  /** The byte loop: pieces of the chunk between the bare LFs, each of those sent as CRLF. */
  method FixChunk(lastByte: LastByte, chunk: seq<Byte>) returns (pushed: seq<Byte>, sent: nat)
    requires chunk != []
    ensures sent == |pushed|
    ensures pushed == FixLineEnds(lastByte == Byte(CR), chunk)
    ensures pushed != []
  {
    hide FixLineEnds;
    ghost var before := lastByte == Byte(CR);
    NothingToFix(before);
    var chunks: seq<seq<Byte>> := [];
    var chunklen := 0;
    var lastPos := 0;
    for i := 0 to |chunk|
      invariant lastPos <= i
      invariant chunklen == |Flatten(chunks)|
      invariant chunklen == 0 ==> lastPos == 0 && chunks == []
      invariant Flatten(chunks) + chunk[lastPos..i] == FixLineEnds(before, chunk[..i])
    {
      ghost var done := Flatten(chunks);
      ScanByte(before, chunk, done, lastPos, i);
      if chunk[i] == LF && ((i > 0 && chunk[i - 1] != CR) || (i == 0 && lastByte != Byte(CR))) {
        // prepend the missing CR
        if i > lastPos {
          FlattenAppend(chunks, chunk[lastPos..i]);
          chunks := chunks + [chunk[lastPos..i]];
          chunklen := chunklen + (i - lastPos) + 2;
        } else {
          chunklen := chunklen + 2;
        }
        FlattenAppend(chunks, CRLF);
        chunks := chunks + [CRLF];
        lastPos := i + 1;
      }
    }
    assert chunk[..|chunk|] == chunk;

    if chunklen > 0 {
      if lastPos < |chunk| {
        FlattenAppend(chunks, chunk[lastPos..]);
        chunks := chunks + [chunk[lastPos..]];
        chunklen := chunklen + (|chunk| - lastPos);
      }
      pushed, sent := BufferConcat(chunks, chunklen), chunklen;
    } else {
      pushed, sent := chunk, |chunk|;
    }
  }

  class LineEnds {
    var inByteCount: nat
    var outByteCount: nat
    var lastByte: LastByte

    ghost var input: seq<Byte>
    ghost var output: seq<Byte>

    /** Whatever the cutting was, the bytes sent on are the whole-input function of the bytes received. */
    ghost predicate Valid()
      reads this
    {
      && output == FixLineEnds(false, input)
      && inByteCount == |input|
      && outByteCount == |output|
      && lastByte == (if input == [] then Unset else Byte(input[|input| - 1]))
    }

    constructor ()
      ensures Valid() && input == [] && output == []
    {
      inByteCount, outByteCount, lastByte := 0, 0, Unset;
      input, output := [], [];
    }

    method Transform(chunk: seq<Byte>) returns (pushed: seq<Byte>)
      requires Valid()
      modifies this
      ensures Valid()
      ensures input == old(input) + chunk && output == old(output) + pushed
      ensures chunk == [] <==> pushed == []
    {
      ghost var before := EndsInCr(false, input);
      FixLineEndsConcat(false, input, chunk);
      if chunk == [] {
        assert input + chunk == input && output + [] == output;
        return [];
      }
      inByteCount := inByteCount + |chunk|;
      var sent;
      pushed, sent := FixChunk(lastByte, chunk);
      outByteCount := outByteCount + sent;
      lastByte := Byte(chunk[|chunk| - 1]);
      input, output := input + chunk, output + pushed;
    }
  }
}
