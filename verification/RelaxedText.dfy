/** What relaxing a text means, byte by byte, and that both paths of the canonicaliser do it. */
module RelaxedText {
  import opened Bytes
  import opened RegexRewrites

  /** The declarative meaning: of each run of blanks only its last byte can survive, as one space, and only
      when the byte after it is visible. All other bytes stay. */
  function Relax(s: seq<Byte>): seq<Byte> {
    if s == [] then [] else RelaxFirst(s) + Relax(s[1..])
  }

  function RelaxFirst(s: seq<Byte>): seq<Byte>
    requires s != []
  {
    if !IsWsp(s[0]) then [s[0]] else if |s| > 1 && IsVisible(s[1]) then [SP] else []
  }

  /** A text may be relaxed in parts unless the cut leaves blanks before a blank or a visible byte. */
  lemma {:induction false} RelaxConcat(s: seq<Byte>, t: seq<Byte>)
    requires s == [] || !IsWsp(s[|s| - 1]) || t == [] || IsEol(t[0])
    ensures Relax(s + t) == Relax(s) + Relax(t)
  {
    hide Relax, RelaxFirst;
    if s == [] {
      RelaxNil();
      assert s + t == t;
      assert [] + Relax(t) == Relax(t);
    } else {
      RelaxCons(s + t);
      RelaxCons(s);
      FirstOfConcat(s, t);
      RelaxConcat(s[1..], t);
      assert RelaxFirst(s) + (Relax(s[1..]) + Relax(t)) == (RelaxFirst(s) + Relax(s[1..])) + Relax(t);
    }
  }

  lemma RelaxNil()
    ensures Relax([]) == []
  {}

  lemma RelaxCons(s: seq<Byte>)
    requires s != []
    ensures Relax(s) == RelaxFirst(s) + Relax(s[1..])
  {}

  lemma FirstOfConcat(s: seq<Byte>, t: seq<Byte>)
    requires s != [] && (!IsWsp(s[|s| - 1]) || t == [] || IsEol(t[0]))
    ensures RelaxFirst(s + t) == RelaxFirst(s) && (s + t)[1..] == s[1..] + t
  {
    assert |s| > 1 ==> (s + t)[1] == s[1];
    assert |s| == 1 && t != [] ==> (s + t)[1] == t[0];
    assert |s| == 1 && t == [] ==> |s + t| == 1;
  }

  lemma {:induction false} BlanksVanish(s: seq<Byte>)
    requires forall b :: b in s ==> IsWsp(b)
    ensures Relax(s) == []
  {
    if s != [] {
      assert |s| > 1 ==> s[1] in s;
      BlanksVanish(s[1..]);
    }
  }

  lemma {:induction false} AtLineEndUnchanged(s: seq<Byte>)
    ensures AtLineEnd(JsLineEnds(s)) == AtLineEnd(s)
  {
    if s != [] {
      AtLineEndUnchanged(s[1..]);
    }
  }

  /** The rewriting of a text whose first byte is kept by the first two replacements. */
  lemma RewriteKeeps(s: seq<Byte>)
    requires s != [] && JsLineEnds(s) == [s[0]] + JsLineEnds(s[1..])
    requires !(IsWsp(s[0]) && AtLineEnd(s[1..]))
    ensures TrimLines(JsLineEnds(s)) == [s[0]] + TrimLines(JsLineEnds(s[1..]))
  {
    AtLineEndUnchanged(s[1..]);
  }

  lemma LfFirst(x: seq<Byte>)
    ensures TrimLines([LF] + x) == [LF] + TrimLines(x)
    ensures SingleSpaces([LF] + x) == [LF] + SingleSpaces(x)
    ensures CrlfLineEnds([LF] + x) == CRLF + CrlfLineEnds(x)
  {
    assert ([LF] + x)[1..] == x;
  }

  lemma CrLfToLf(s: seq<Byte>)
    requires |s| > 1 && s[0] == CR && s[1] == LF
    ensures JsLineEnds(s) == [LF] + JsLineEnds(s[2..])
  {
    assert s[1..][1..] == s[2..];
  }

  lemma RelaxCrLf(s: seq<Byte>)
    requires |s| > 1 && s[0] == CR && s[1] == LF
    ensures Relax(s) == CRLF + Relax(s[2..])
  {
    hide Relax, RelaxFirst;
    EolFirst(s);
    EolFirst(s[1..]);
    assert s[1..][1..] == s[2..];
    CrThenLf(Relax(s[2..]));
  }

  lemma EolFirst(s: seq<Byte>)
    requires s != [] && IsEol(s[0])
    ensures Relax(s) == [s[0]] + Relax(s[1..])
  {}

  lemma CrThenLf(x: seq<Byte>)
    ensures [CR] + ([LF] + x) == CRLF + x
  {}

  lemma RewriteCrLf(s: seq<Byte>)
    requires |s| > 1 && s[0] == CR && s[1] == LF
    ensures Rewrite(s) == CRLF + Rewrite(s[2..]) && Relax(s) == CRLF + Relax(s[2..])
  {
    hide Relax, JsLineEnds, TrimLines, SingleSpaces, CrlfLineEnds;
    CrLfToLf(s);
    RelaxCrLf(s);
    var u := JsLineEnds(s[2..]);
    LfFirst(u);
    LfFirst(TrimLines(u));
    LfFirst(SingleSpaces(TrimLines(u)));
  }

  /** The rewriting of a text that does not begin with a line end. */
  lemma RewriteFirst(s: seq<Byte>)
    requires s != [] && s[0] != LF && !(s[0] == CR && |s| > 1 && s[1] == LF)
    ensures Rewrite(s) == RelaxFirst(s) + Rewrite(s[1..])
  {
    var t := s[1..];
    var u := JsLineEnds(t);
    assert JsLineEnds(s) == [s[0]] + u;
    AtLineEndUnchanged(t);
    if IsWsp(s[0]) && AtLineEnd(t) {
      assert TrimLines(JsLineEnds(s)) == TrimLines(u);
      LineEndNotVisible(t);
      assert [] + Rewrite(t) == Rewrite(t);
    } else {
      RewriteKeeps(s);
      SpacesFirst(s[0], TrimLines(u));
      if IsWsp(s[0]) {
        TrimKeepsFirst(t);
      }
    }
  }

  lemma LineEndNotVisible(t: seq<Byte>)
    requires AtLineEnd(t)
    ensures t == [] || !IsVisible(t[0])
  {}

  /** Behind a blank that stays, the next byte stays too. */
  lemma TrimKeepsFirst(t: seq<Byte>)
    requires t != [] && !AtLineEnd(t)
    ensures TrimLines(JsLineEnds(t)) != [] && TrimLines(JsLineEnds(t))[0] == t[0]
  {
    AtLineEndUnchanged(t);
    AtLineEndUnchanged(t[1..]);
    assert JsLineEnds(t) == [t[0]] + JsLineEnds(t[1..]);
  }

  lemma SpacesFirst(b: Byte, v: seq<Byte>)
    requires b != LF
    ensures CrlfLineEnds(SingleSpaces([b] + v))
            == (if !IsWsp(b) then [b] else if v != [] && IsWsp(v[0]) then [] else [SP]) + CrlfLineEnds(SingleSpaces(v))
  {
    assert ([b] + v)[1..] == v;
    assert [] + SingleSpaces(v) == SingleSpaces(v);
    assert [] + CrlfLineEnds(SingleSpaces(v)) == CrlfLineEnds(SingleSpaces(v));
  }

  /** The slow path: four global replacements amount to `Relax` on text without bare LF. */
  lemma {:induction false} RewriteIsRelax(s: seq<Byte>)
    requires NoBareLf(s)
    ensures Rewrite(s) == Relax(s)
  {
    if s == [] {
    } else if s[0] == CR && |s| > 1 && s[1] == LF {
      assert s[1..][1..] == s[2..];
      assert LfsFollowCr(true, s[1..]) && LfsFollowCr(false, s[2..]);
      hide Rewrite, Relax, LfsFollowCr;
      RewriteIsRelax(s[2..]);
      RewriteCrLf(s);
    } else {
      assert LfsFollowCr(false, s[1..]);
      hide Rewrite, LfsFollowCr;
      RewriteIsRelax(s[1..]);
      RewriteFirst(s);
    }
  }

  /** The scan that decides whether a chunk can go to the hash as it is. */
  predicate TroubleAt(s: seq<Byte>, i: nat)
    requires i < |s|
  {
    || (i > 0 && s[i] == LF && s[i - 1] != CR)
    || (i > 0 && s[i] == CR && s[i - 1] == SP)
    || (i > 0 && s[i] == SP && s[i - 1] == SP)
    || s[i] == TAB
  }

  predicate NeedsRewrite(s: seq<Byte>) {
    exists i :: 0 <= i < |s| && TroubleAt(s, i)
  }

  /** The fast path: a chunk that the scan lets pass is already relaxed. */
  lemma {:induction false} UntouchedIsRelaxed(s: seq<Byte>)
    requires !NeedsRewrite(s)
    requires s == [] || !IsWsp(s[|s| - 1])
    ensures Relax(s) == s
  {
    if s != [] {
      assert !TroubleAt(s, 0) && (|s| > 1 ==> !TroubleAt(s, 1));
      forall i | 0 <= i < |s[1..]|
        ensures !TroubleAt(s[1..], i)
      {
        assert !TroubleAt(s, i + 1);
      }
      UntouchedIsRelaxed(s[1..]);
      assert s == [s[0]] + s[1..];
    }
  }
}
