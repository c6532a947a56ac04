/** What is hashed, in terms of the octets themselves. */
module HashedForm {
  import opened Bytes
  import opened LineEnding
  import opened RelaxedText
  import opened RelaxedBody

  /** Tab, LF, CR or space. */
  predicate IsSpacing(b: Byte) {
    b == 0x09 || b == 0x0a || b == 0x0d || b == 0x20
  }

  /** The other octets, in their order. */
  function WithoutSpacing(s: seq<Byte>): seq<Byte> {
    if s == [] then [] else (if IsSpacing(s[0]) then [] else [s[0]]) + WithoutSpacing(s[1..])
  }

  /** No tab, and no space before a space or at the end of a line. */
  ghost predicate IsRelaxed(s: seq<Byte>) {
    && (forall i :: 0 <= i < |s| ==> s[i] != 0x09)
    && (forall i, j :: 0 <= i && j == i + 1 && j < |s| && s[i] == 0x20 ==> s[j] != 0x20 && s[j] != 0x0d && s[j] != 0x0a)
  }

  lemma {:induction false} WithoutConcat(s: seq<Byte>, t: seq<Byte>)
    ensures WithoutSpacing(s + t) == WithoutSpacing(s) + WithoutSpacing(t)
  {
    if s == [] {
      assert s + t == t;
    } else {
      assert (s + t)[1..] == s[1..] + t;
      WithoutConcat(s[1..], t);
    }
  }

  lemma {:induction false} NothingWithout(s: seq<Byte>)
    requires forall b :: b in s ==> IsSpacing(b)
    ensures WithoutSpacing(s) == []
  {
    if s != [] {
      NothingWithout(s[1..]);
    }
  }

  lemma {:induction false} RelaxKeepsOthers(s: seq<Byte>)
    ensures WithoutSpacing(Relax(s)) == WithoutSpacing(s)
  {
    if s != [] {
      RelaxKeepsOthers(s[1..]);
      WithoutConcat(RelaxFirst(s), Relax(s[1..]));
      assert RelaxFirst(s) != [] ==> RelaxFirst(s)[1..] == [];
    }
  }

  /** A visible byte, or a line end, stays at the front. */
  lemma {:induction false} RelaxIsRelaxed(s: seq<Byte>)
    ensures IsRelaxed(Relax(s))
    ensures s != [] && s[0] != 0x09 && s[0] != 0x20 ==> Relax(s) != [] && Relax(s)[0] == s[0]
    ensures Relax(s) != [] ==> Relax(s)[|Relax(s)| - 1] != 0x20
  {
    if s != [] {
      var rest := Relax(s[1..]);
      RelaxIsRelaxed(s[1..]);
      assert Relax(s) == RelaxFirst(s) + rest;
      if RelaxFirst(s) == [] {
        assert Relax(s) == rest;
      }
    }
  }

  /** Over all bodies, no tab is hashed, and no space before another or at the end of a line; all other octets but line
      ends are hashed as they are and in their order. */
  lemma HashedOctets(body: seq<Byte>)
    ensures IsRelaxed(HashedBytes(body)) && WithoutSpacing(HashedBytes(body)) == WithoutSpacing(body)
  {
    hide Relax, WithoutSpacing, Split;
    var p := Split(body);
    SplitIsValid(body);
    RelaxIsRelaxed(p.text);
    RelaxKeepsOthers(p.text);
    WithoutConcat(p.text, p.Tail());
    TailIsSpacing(p);
    CrlfIsSpacing();
    WithoutConcat(Relax(p.text), CRLF);
    EndIsRelaxed(Relax(p.text));
    assert WithoutSpacing(body) == WithoutSpacing(p.text) + WithoutSpacing(p.Tail());
  }

  lemma EndIsRelaxed(s: seq<Byte>)
    requires IsRelaxed(s) && (s != [] ==> s[|s| - 1] != 0x20)
    ensures IsRelaxed(s + CRLF) && s + [] == s
  {}

  lemma CrlfIsSpacing()
    ensures WithoutSpacing(CRLF) == [] && WithoutSpacing([]) == [] && CRLF == [0x0d, 0x0a]
  {
    NothingWithout(CRLF);
  }

  lemma TailIsSpacing(p: Parts)
    requires p.Valid()
    ensures WithoutSpacing(p.Tail()) == []
  {
    forall b | b in p.Tail()
      ensures IsSpacing(b)
    {
      assert b in p.blanks || b in p.eols;
    }
    NothingWithout(p.Tail());
  }

  /** Every octet 10 follows an octet 13; `afterCr` says whether there is one in front. */
  ghost predicate LineEndsWhole(afterCr: bool, s: seq<Byte>) {
    && (s != [] && s[0] == 0x0a ==> afterCr)
    && (forall i, j :: 0 <= i && j == i + 1 && j < |s| && s[j] == 0x0a ==> s[i] == 0x0d)
  }

  /** Of what the line-end stream sends, that is true. */
  lemma {:induction false} SentLineEnds(afterCr: bool, s: seq<Byte>)
    ensures LineEndsWhole(afterCr, FixLineEnds(afterCr, s))
    decreases |s|
  {
    if s != [] {
      SentLineEnds(s[0] == CR, s[1..]);
      var first, rest := Piece(afterCr, s[0]), FixLineEnds(s[0] == CR, s[1..]);
      var sent := first + rest;
      forall i, j | 0 <= i && j == i + 1 && j < |sent| && sent[j] == 0x0a
        ensures sent[i] == 0x0d
      {
        if i >= |first| {
          assert rest[j - |first|] == 0x0a && rest[i - |first|] == sent[i];
        }
      }
    }
  }

  lemma {:induction false} FixKeepsOthers(afterCr: bool, s: seq<Byte>)
    ensures WithoutSpacing(FixLineEnds(afterCr, s)) == WithoutSpacing(s)
    decreases |s|
  {
    if s != [] {
      FixKeepsOthers(s[0] == CR, s[1..]);
      var first := Piece(afterCr, s[0]);
      WithoutConcat(first, FixLineEnds(s[0] == CR, s[1..]));
      WithoutConcat([s[0]], s[1..]);
      assert [s[0]] + s[1..] == s;
      if first != [s[0]] {
        NothingWithout(first);
        NothingWithout([s[0]]);
      }
    }
  }
}
