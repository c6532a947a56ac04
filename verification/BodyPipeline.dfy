/** LineEnds piped into DkimRelaxedBody, and when the bytes hashed are those that section 3.4.4 of RFC 6376 asks for. */
module BodyPipeline {
  import opened Bytes
  import opened RegexRewrites
  import opened LineEnding
  import opened RelaxedText
  import opened RelaxedBody
  import opened HashedForm
  import Rfc = Rfc6376Body

  // ----- Bodies made of lines -----

  /** CR and LF occur together only, as in section 2.3 of RFC 5322. */
  predicate IsLines(s: seq<Byte>)
    decreases |s|
  {
    || s == []
    || (s[0] == CR && |s| > 1 && s[1] == LF && IsLines(s[2..]))
    || (!IsEol(s[0]) && IsLines(s[1..]))
  }

  predicate NoBareCr(s: seq<Byte>) {
    s == [] || ((s[0] == CR ==> |s| > 1 && s[1] == LF) && NoBareCr(s[1..]))
  }

  lemma {:induction false} FixedIsLines(s: seq<Byte>)
    requires NoBareCr(s)
    ensures IsLines(FixLineEnds(false, s))
    decreases |s|
  {
    if s == [] {
    } else if s[0] == CR {
      assert s[1..][1..] == s[2..];
      FixedIsLines(s[2..]);
      var rest := FixLineEnds(false, s[2..]);
      assert FixLineEnds(false, s) == CRLF + rest;
      assert (CRLF + rest)[2..] == rest;
    } else {
      FixedIsLines(s[1..]);
      var rest := FixLineEnds(false, s[1..]);
      assert s[0] == LF ==> (CRLF + rest)[2..] == rest;
      assert ([s[0]] + rest)[1..] == rest;
    }
  }

  predicate HasVisible(s: seq<Byte>) {
    s != [] && (IsVisible(s[0]) || HasVisible(s[1..]))
  }

  /** Everything up to the last visible byte. */
  function Core(s: seq<Byte>): seq<Byte> {
    if HasVisible(s) then [s[0]] + Core(s[1..]) else []
  }

  /** Everything after the last visible byte. */
  function Ending(s: seq<Byte>): seq<Byte> {
    if HasVisible(s) then Ending(s[1..]) else s
  }

  function CountLf(s: seq<Byte>): nat {
    if s == [] then 0 else (if s[0] == LF then 1 else 0) + CountLf(s[1..])
  }

  function CrlfTimes(n: nat): seq<Byte> {
    if n == 0 then [] else CRLF + CrlfTimes(n - 1)
  }

  lemma {:induction false} CoreAndEnding(s: seq<Byte>)
    ensures s == Core(s) + Ending(s)
    ensures Core(s) != [] <==> HasVisible(s)
    ensures HasVisible(s) ==> IsVisible(Last(Core(s)))
    ensures !HasVisible(Ending(s))
  {
    if HasVisible(s) {
      CoreAndEnding(s[1..]);
      if !HasVisible(s[1..]) {
        assert Core(s[1..]) == [];
        assert Core(s) == [s[0]];
      } else {
        assert Last(Core(s)) == Last(Core(s[1..]));
      }
      assert s == [s[0]] + s[1..];
    }
  }

  lemma {:induction false} VisibleConcat(s: seq<Byte>, t: seq<Byte>)
    ensures HasVisible(s + t) <==> HasVisible(s) || HasVisible(t)
  {
    if s == [] {
      assert s + t == t;
    } else {
      assert (s + t)[1..] == s[1..] + t;
      VisibleConcat(s[1..], t);
    }
  }

  lemma CoreCons(s: seq<Byte>)
    requires s != []
    ensures Core(s) == if HasVisible(s) then [s[0]] + Core(s[1..]) else []
  {}

  lemma {:induction false} CoreConcat(s: seq<Byte>, t: seq<Byte>)
    ensures HasVisible(s + t) <==> HasVisible(s) || HasVisible(t)
    ensures Core(s + t) == if HasVisible(t) then s + Core(t) else Core(s)
  {
    hide HasVisible, Core;
    VisibleConcat(s, t);
    CoreOfNothing(s);
    CoreOfNothing(t);
    if s == [] {
      assert s + t == t;
      assert [] + Core(t) == Core(t);
    } else {
      assert (s + t)[1..] == s[1..] + t;
      CoreCons(s + t);
      CoreCons(s);
      CoreConcat(s[1..], t);
      assert [s[0]] + (s[1..] + Core(t)) == s + Core(t);
    }
  }

  lemma CoreOfNothing(s: seq<Byte>)
    ensures s == [] ==> !HasVisible(s)
    ensures !HasVisible(s) ==> Core(s) == []
  {}

  /** A relaxed text with a visible last byte keeps it. */
  lemma RelaxKeepsVisible(s: seq<Byte>)
    requires s != [] && IsVisible(Last(s))
    ensures Relax(s) != []
  {
    var init, last := s[..|s| - 1], [Last(s)];
    assert s == init + last;
    LastStays(init, Last(s));
  }

  lemma {:induction false} LastStays(s: seq<Byte>, b: Byte)
    requires IsVisible(b)
    ensures Relax(s + [b]) != []
  {
    if s == [] {
      assert s + [b] == [b];
      assert Relax([b]) == [b] + Relax([]);
    } else {
      assert (s + [b])[1..] == s[1..] + [b];
      LastStays(s[1..], b);
    }
  }

  // ----- The standard's form, byte by byte -----

  predicate NoEol(s: seq<Byte>) {
    s == [] || (!IsEol(s[0]) && NoEol(s[1..]))
  }

  lemma {:induction false} FirstLine(s: seq<Byte>)
    requires IsLines(s)
    ensures var i := Rfc.FindCrlf(s);
            NoEol(s[..i]) && (i < |s| ==> IsLines(s[i + 2..]))
    decreases |s|
  {
    var i := Rfc.FindCrlf(s);
    if s != [] && !IsEol(s[0]) {
      FirstLine(s[1..]);
      assert s[..i][1..] == s[1..][..i - 1];
      assert i < |s| ==> s[i + 2..] == s[1..][i - 1 + 2..];
    }
  }

  lemma {:induction false} ReducedLine(line: seq<Byte>)
    requires NoEol(line)
    ensures Rfc.ReduceLine(line) == Relax(line)
    ensures Rfc.TrimEnd(line) != [] ==> Rfc.TrimEnd(line)[0] == line[0]
  {
    if line != [] {
      ReducedLine(line[1..]);
      var rest := Rfc.TrimEnd(line[1..]);
      if rest == [] && IsWsp(line[0]) {
        assert |line| > 1 ==> line[1..] != [] && line[1..][0] == line[1];
      } else {
        assert ([line[0]] + rest)[1..] == rest;
      }
    }
  }

  lemma {:induction false} NoEolEnding(s: seq<Byte>)
    requires NoEol(s)
    ensures Relax(s) == Relax(Core(s))
    ensures Relax(s) == [] <==> !HasVisible(s)
  {
    CoreAndEnding(s);
    RelaxConcat(Core(s), Ending(s));
    NoEolSuffix(s);
    if HasVisible(s) {
      RelaxKeepsVisible(Core(s));
    }
  }

  lemma {:induction false} NoEolSuffix(s: seq<Byte>)
    requires NoEol(s)
    ensures Relax(Ending(s)) == []
  {
    if HasVisible(s) {
      NoEolSuffix(s[1..]);
    } else if s != [] {
      assert IsWsp(s[0]) && !HasVisible(s[1..]);
      NoEolSuffix(s[1..]);
      assert Ending(s) == s && Ending(s[1..]) == s[1..];
      assert |s| > 1 ==> s[1..][0] == s[1];
    }
  }

  /** The standard asks for the relaxed text up to the last visible byte, ended by one CRLF. */
  lemma {:induction false} StandardForm(s: seq<Byte>)
    requires IsLines(s)
    ensures Rfc.RelaxedBody(s) == if HasVisible(s) then Relax(Core(s)) + CRLF else []
    decreases |s|
  {
    hide Rfc.RelaxedBody, Rfc.FindCrlf, Relax, HasVisible, Core, IsLines, NoEol;
    var i := Rfc.FindCrlf(s);
    FirstLine(s);
    if i == |s| {
      assert s[..i] == s;
      OneLine(s);
    } else {
      assert s == s[..i] + (CRLF + s[i + 2..]);
      StandardForm(s[i + 2..]);
      LineBefore(s[..i], s[i + 2..]);
    }
  }

  lemma OneLine(s: seq<Byte>)
    requires NoEol(s) && Rfc.FindCrlf(s) == |s|
    ensures Rfc.RelaxedBody(s) == if HasVisible(s) then Relax(Core(s)) + CRLF else []
  {
    ReducedLine(s);
    NoEolEnding(s);
    var r := Rfc.ReduceLine(s);
    assert Rfc.SplitLines(s) == [s];
    assert Rfc.ReduceLines([s]) == [r];
    assert Rfc.DropEmptyEnd([r]) == if r == [] then [] else [r];
    assert Rfc.JoinLines([r]) == r + CRLF;
  }

  lemma CrlfAlone()
    ensures Relax(CRLF) == CRLF && !HasVisible(CRLF) && Core(CRLF) == []
  {
    assert CRLF[1..] == [LF] && Relax([LF]) == [LF] && !HasVisible([LF]);
  }

  lemma LineBefore(line: seq<Byte>, more: seq<Byte>)
    requires NoEol(line)
    requires Rfc.RelaxedBody(more) == if HasVisible(more) then Relax(Core(more)) + CRLF else []
    ensures var s := line + (CRLF + more);
            Rfc.RelaxedBody(s) == if HasVisible(s) then Relax(Core(s)) + CRLF else []
  {
    hide Relax, HasVisible, Core, Rfc.RelaxedBody, Rfc.ReduceLine, NoEol;
    CrlfAlone();
    ReducedLine(line);
    NoEolEnding(line);
    RestOfLines(line, more);
    CoreConcat(line, CRLF + more);
    CoreConcat(CRLF, more);
    if HasVisible(more) {
      RelaxConcat(line, CRLF + Core(more));
      RelaxConcat(CRLF, Core(more));
    }
  }

  lemma RestOfLines(line: seq<Byte>, more: seq<Byte>)
    requires NoEol(line)
    ensures var s := line + (CRLF + more);
            Rfc.RelaxedBody(s)
            == if Rfc.RelaxedBody(more) == [] && Rfc.ReduceLine(line) == [] then []
               else Rfc.ReduceLine(line) + CRLF + Rfc.RelaxedBody(more)
  {
    var s := line + (CRLF + more);
    LineFound(line, more);
    assert s[..|line|] == line && s[|line| + 2..] == more;
    var lines := Rfc.SplitLines(more);
    assert Rfc.SplitLines(s) == [line] + lines;
    assert ([line] + lines)[1..] == lines;
    var reduced := Rfc.ReduceLines(lines);
    assert Rfc.ReduceLines([line] + lines) == [Rfc.ReduceLine(line)] + reduced;
    assert ([Rfc.ReduceLine(line)] + reduced)[1..] == reduced;
    var kept := Rfc.DropEmptyEnd(reduced);
    assert ([Rfc.ReduceLine(line)] + kept)[1..] == kept;
  }

  lemma {:induction false} LineFound(line: seq<Byte>, more: seq<Byte>)
    requires NoEol(line)
    ensures Rfc.FindCrlf(line + (CRLF + more)) == |line|
  {
    if line != [] {
      assert (line + (CRLF + more))[1..] == line[1..] + (CRLF + more);
      LineFound(line[1..], more);
    } else {
      assert line + (CRLF + more) == CRLF + more;
    }
  }

  // ----- The code's form, byte by byte -----

  lemma {:induction false} LinesOfCut(s: seq<Byte>, t: seq<Byte>)
    requires IsLines(s + t) && (t == [] || t[0] != LF)
    ensures IsLines(s) && IsLines(t)
    decreases |s|
  {
    if s == [] {
      assert s + t == t;
    } else if s[0] == CR {
      assert (s + t)[1] == LF;
      assert (s + t)[2..] == s[2..] + t;
      LinesOfCut(s[2..], t);
    } else {
      assert (s + t)[1..] == s[1..] + t;
      LinesOfCut(s[1..], t);
    }
  }

  /** Of an ending, relaxing leaves the line ends. */
  lemma {:induction false} RelaxedEnding(s: seq<Byte>)
    requires IsLines(s) && !HasVisible(s)
    ensures Relax(s) == CrlfTimes(CountLf(s))
    decreases |s|
  {
    if s == [] {
    } else if s[0] == CR {
      var t := s[2..];
      assert s == CRLF + t;
      assert s[1..] == [LF] + t && ([LF] + t)[1..] == t;
      assert HasVisible(s[1..]) == HasVisible(t);
      RelaxedEnding(t);
      assert CountLf(s) == CountLf(s[1..]) == 1 + CountLf(t);
      RelaxConcat(CRLF, t);
      assert Relax(CRLF) == CRLF;
    } else {
      RelaxedEnding(s[1..]);
      assert |s| > 1 ==> s[1..][0] == s[1];
    }
  }

  lemma {:induction false} LastLineEnd(s: seq<Byte>)
    requires IsLines(s) && s != [] && IsEol(Last(s))
    ensures CountLf(s) >= 1 && |s| >= 2
    decreases |s|
  {
    if s[0] == CR {
      assert CountLf(s) == CountLf(s[1..]);
    } else {
      LastLineEnd(s[1..]);
    }
  }

  lemma {:induction false} CountLfConcat(s: seq<Byte>, t: seq<Byte>)
    ensures CountLf(s + t) == CountLf(s) + CountLf(t)
  {
    if s == [] {
      assert s + t == t;
    } else {
      assert (s + t)[1..] == s[1..] + t;
      CountLfConcat(s[1..], t);
    }
  }

  lemma {:induction false} CrlfTimesOnce(n: nat)
    ensures |CrlfTimes(n)| == 2 * n && CrlfTimes(n) + CRLF == CrlfTimes(n + 1)
  {
    if n > 0 {
      CrlfTimesOnce(n - 1);
    }
  }

  lemma {:induction false} NoVisibleLast(s: seq<Byte>)
    requires !HasVisible(s) && s != []
    ensures !IsVisible(Last(s))
  {
    if |s| > 1 {
      NoVisibleLast(s[1..]);
    }
  }

  lemma {:induction false} BlanksHaveNoLf(s: seq<Byte>)
    requires forall b :: b in s ==> IsWsp(b)
    ensures CountLf(s) == 0
  {
    if s != [] {
      assert s[0] in s;
      BlanksHaveNoLf(s[1..]);
    }
  }

  /** Of a text without visible bytes, what is before the tail ends in a line end, and the tail begins a line. */
  lemma EndingCut(w: seq<Byte>)
    requires IsLines(w) && !HasVisible(w)
    ensures var u := Split(w);
            && !HasVisible(u.text)
            && (u.text != [] ==> IsEol(Last(u.text)))
            && (u.Tail() == [] || u.Tail()[0] != LF)
            && w == u.text + u.Tail() && u.Valid()
  {
    var u := Split(w);
    SplitIsValid(w);
    hide Split;
    CoreConcat(u.text, u.Tail());
    if u.text != [] {
      NoVisibleLast(u.text);
    }
    assert u.blanks != [] ==> u.blanks[0] in u.blanks && u.Tail()[0] == u.blanks[0];
    assert u.text == [] && u.blanks == [] ==> u.Tail() == w;
  }

  /** How the line ends after the last visible byte are spread over the split. */
  lemma EndingParts(w: seq<Byte>)
    requires IsLines(w) && !HasVisible(w)
    ensures var u := Split(w);
            && IsLines(u.text) && !HasVisible(u.text)
            && CountLf(w) == CountLf(u.text) + CountLf(u.eols)
            && (u.text != [] <==> CountLf(u.text) >= 1)
            && (u.eols != [] <==> CountLf(u.eols) >= 1)
  {
    var u := Split(w);
    EndingCut(w);
    assert CountLf([]) == 0;
    assert u.eols != [] ==> Last(u.Tail()) == Last(u.eols) && Last(u.eols) in u.eols && IsEol(Last(u.eols));
    hide Split, HasVisible, IsLines, CountLf;
    LinesOfCut(u.text, u.Tail());
    CountLfConcat(u.text, u.Tail());
    CountLfConcat(u.blanks, u.eols);
    BlanksHaveNoLf(u.blanks);
    if u.text != [] {
      LastLineEnd(u.text);
    }
    if u.eols != [] {
      LastLineEnd(u.Tail());
    }
  }

  lemma SplitOfEnding(core: seq<Byte>, u: Parts)
    requires u.Valid() && (core == [] || IsVisible(Last(core)))
    ensures Split(core + u.All()) == Parts(core + u.text, u.blanks, u.eols)
  {
    var p := Parts(core + u.text, u.blanks, u.eols);
    assert p.All() == core + u.All();
    SplitUnique(p);
  }

  lemma RelaxedCoreAndLineEnds(core: seq<Byte>, text: seq<Byte>, ends: bool)
    requires core == [] || IsVisible(Last(core))
    requires IsLines(text) && !HasVisible(text)
    ensures Relax(core + text) + (if ends then CRLF else [])
            == Relax(core) + CrlfTimes(CountLf(text) + if ends then 1 else 0)
  {
    hide IsLines, HasVisible;
    RelaxConcat(core, text);
    RelaxedEnding(text);
    CrlfTimesOnce(CountLf(text));
    hide *;
    assert (Relax(core) + Relax(text)) + CRLF == Relax(core) + (Relax(text) + CRLF);
  }

  /** How many line ends the code hashes after the last visible byte. */
  function LineEndsHashed(body: seq<Byte>): nat {
    var u := Split(Ending(body));
    CountLf(u.text) + if |body| > 2 && u.eols != [] then 1 else 0
  }

  /** The code's form: the line ends before the tail, and one for a tail that has any. */
  lemma CodeForm(s: seq<Byte>)
    requires IsLines(s)
    ensures HashedBytes(s) == Relax(Core(s)) + CrlfTimes(LineEndsHashed(s))
  {
    hide Relax, HasVisible, Core, Ending, IsLines, CountLf, Split, CrlfTimes;
    var u := Split(Ending(s));
    SplitOfBody(s);
    EndingOf(s);
    CoreAndEnding(s);
    RelaxedCoreAndLineEnds(Core(s), u.text, |s| > 2 && u.eols != []);
  }

  lemma SplitOfBody(s: seq<Byte>)
    ensures Split(s).text == Core(s) + Split(Ending(s)).text
    ensures s != [] ==> (IsEol(Last(s)) <==> Split(Ending(s)).eols != [])
  {
    hide Split, Core, Ending, HasVisible;
    CoreAndEnding(s);
    SplitIsValid(Ending(s));
    SplitOfEnding(Core(s), Split(Ending(s)));
    SplitIsValid(s);
    if s != [] {
      LastOfParts(Split(s));
    }
  }

  lemma LastOfParts(p: Parts)
    requires p.Valid() && p.All() != []
    ensures IsEol(Last(p.All())) <==> p.eols != []
  {
    if p.eols != [] {
      assert Last(p.All()) == Last(p.eols) && Last(p.eols) in p.eols;
    } else if p.blanks != [] {
      assert Last(p.All()) == Last(p.blanks) && Last(p.blanks) in p.blanks;
    } else {
      assert Last(p.All()) == Last(p.text);
    }
  }

  // ----- When the two agree -----

  /** With a visible byte in the body: one line end after the last of them, or several and no blank between
      or after them. Without: no line end at all, or nothing but one. */
  predicate HasPlainEnding(body: seq<Byte>) {
    var ending := Ending(body);
    if HasVisible(body) then
      CountLf(ending) == 1 || (CountLf(ending) > 1 && Split(ending).text == [])
    else
      CountLf(ending) == 0 || body == CRLF
  }

  lemma SameLineEnds(s: seq<Byte>, n: nat)
    ensures s + CrlfTimes(n) == s + CRLF <==> n == 1
    ensures CrlfTimes(n) == [] <==> n == 0
  {
    CrlfTimesOnce(n);
    assert CrlfTimes(1) == CRLF + CrlfTimes(0) == CRLF;
    if n != 1 {
      assert |s + CrlfTimes(n)| != |s + CRLF|;
    }
  }

  lemma AgreementByCount(body: seq<Byte>)
    requires IsLines(body)
    ensures HashedBytes(body) == Rfc.RelaxedBody(body)
            <==> LineEndsHashed(body) == if HasVisible(body) then 1 else 0
  {
    assert Relax([]) == [];
    hide Relax, HasVisible, Core, IsLines, CrlfTimes, HashedBytes, LineEndsHashed, Rfc.RelaxedBody;
    StandardForm(body);
    CodeForm(body);
    CoreAndEnding(body);
    SameLineEnds(Relax(Core(body)), LineEndsHashed(body));
    assert [] + CrlfTimes(LineEndsHashed(body)) == CrlfTimes(LineEndsHashed(body));
  }

  /** For every body made of lines, the condition is exact. */
  lemma HashMeetsStandard(body: seq<Byte>)
    requires IsLines(body)
    ensures HashedBytes(body) == Rfc.RelaxedBody(body) <==> HasPlainEnding(body)
  {
    hide HasVisible, Core, Ending, IsLines, CountLf, Split, HashedBytes, Rfc.RelaxedBody;
    AgreementByCount(body);
    EndingOf(body);
    SplitOfCrlf();
  }

  lemma SplitOfCrlf()
    ensures Split(CRLF) == Parts([], [], CRLF)
  {
    SplitUnique(Parts([], [], CRLF));
    assert Parts([], [], CRLF).All() == CRLF;
  }

  lemma EndingIsLines(body: seq<Byte>)
    requires IsLines(body)
    ensures IsLines(Ending(body))
    decreases |body|
  {
    if HasVisible(body) {
      EndingIsLines(if body[0] == CR then body[2..] else body[1..]);
      assert body[0] == CR ==> body[1..][1..] == body[2..];
    }
  }

  lemma EndingOf(body: seq<Byte>)
    requires IsLines(body)
    ensures var w := Ending(body);
            var u := Split(w);
            && IsLines(u.text) && !HasVisible(u.text)
            && CountLf(w) == CountLf(u.text) + CountLf(u.eols)
            && (u.text != [] <==> CountLf(u.text) >= 1)
            && (u.eols != [] <==> CountLf(u.eols) >= 1)
            && (HasVisible(body) && u.eols != [] ==> |body| > 2)
            && (!HasVisible(body) ==> Core(body) == [] && w == body)
            && (!HasVisible(body) && u.eols != [] && |body| <= 2 ==> body == CRLF)
  {
    hide HasVisible, Core, Ending, IsLines, CountLf, Split;
    CoreAndEnding(body);
    EndingIsLines(body);
    EndingParts(Ending(body));
    LastOfEnding(Ending(body));
  }

  lemma TwoBytes(s: seq<Byte>)
    requires IsLines(s) && |s| == 2 && IsEol(s[1])
    ensures s == CRLF
  {}

  lemma LastOfEnding(w: seq<Byte>)
    requires IsLines(w) && !HasVisible(w)
    ensures Split(w).eols != [] ==> |w| >= 2 && (|w| == 2 ==> w == CRLF)
  {
    SplitIsValid(w);
    EndingParts(w);
    var u := Split(w);
    if u.eols != [] {
      LastOfParts(u);
      LastLineEnd(w);
      if |w| == 2 {
        TwoBytes(w);
      }
    }
  }

  /** Every message whose CR bytes stand before an LF: the pipe hashes what the standard asks for exactly when
      the text, its line ends put right, has a plain ending. */
  lemma PipeMeetsStandard(raw: seq<Byte>)
    requires NoBareCr(raw)
    ensures var body := FixLineEnds(false, raw);
            HashedBytes(body) == Rfc.RelaxedBody(body) <==> HasPlainEnding(body)
  {
    FixedIsLines(raw);
    HashMeetsStandard(FixLineEnds(false, raw));
  }

  // ----- The pipe -----

  /** For every input and every way of cutting it, the bytes hashed depend on the input alone: they are the input's but
      for line ends and blanks, of which no tab is left, and no space where there is one or a line end behind it. They
      are those the standard asks for exactly when the body has a plain ending. */
  method HashMessageBody(chunks: seq<seq<Byte>>) returns (hashed: seq<Byte>, stored: seq<Byte>)
    ensures var body := FixLineEnds(false, Flatten(chunks));
            && hashed == HashedBytes(body)
            && stored == (if body == [] then CRLF else body)
            && IsRelaxed(hashed) && WithoutSpacing(hashed) == WithoutSpacing(Flatten(chunks))
            && (NoBareCr(Flatten(chunks)) ==> (hashed == Rfc.RelaxedBody(body) <==> HasPlainEnding(body)))
  {
    hide FixLineEnds, HashedBytes, Rfc.RelaxedBody, HasPlainEnding, NoBareCr, NoBareLf, Tracks, Split;
    var lineEnds := new LineEnds();
    var dkim := new DkimRelaxedBody();
    stored := [];
    for i := 0 to |chunks|
      invariant lineEnds.Valid() && dkim.Valid() && fresh(lineEnds) && fresh(dkim)
      invariant lineEnds.input == Flatten(chunks[..i])
      invariant lineEnds.output == dkim.body == stored
    {
      FlattenAppend(chunks[..i], chunks[i]);
      assert chunks[..i + 1] == chunks[..i] + [chunks[i]];
      var fixed := lineEnds.Transform(chunks[i]);
      var pushed := dkim.Transform(fixed);
      stored := stored + pushed;
    }
    assert chunks[..|chunks|] == chunks;
    NoBareLfInOutput(Flatten(chunks));
    var pushed := dkim.Finish();
    hashed, stored := dkim.bodyHash, stored + pushed;
    hide *;
    HashedOctets(FixLineEnds(false, Flatten(chunks)));
    FixKeepsOthers(false, Flatten(chunks));
    if NoBareCr(Flatten(chunks)) {
      PipeMeetsStandard(Flatten(chunks));
    }
  }

  // ----- Bodies on which the pipe departs from the standard -----

  lemma DepartsWithoutFinalLineEnd(x: Byte)
    requires IsVisible(x)
    ensures HashedBytes([x]) != Rfc.RelaxedBody([x])
  {
    assert Ending([x]) == [];
    HashMeetsStandard([x]);
  }

  lemma DepartsOnTwoEmptyLines()
    ensures HashedBytes(CRLF + CRLF) != Rfc.RelaxedBody(CRLF + CRLF)
  {
    var two := CRLF + CRLF;
    assert two[2..] == CRLF && CRLF[2..] == [];
    assert IsLines(CRLF[2..]) && IsLines(two[2..]) && two[1] == LF;
    CrlfAlone();
    CoreConcat(CRLF, CRLF);
    CountLfConcat(CRLF, CRLF);
    OneLf();
    hide IsLines, HasVisible, CountLf, HashedBytes, Rfc.RelaxedBody;
    HashMeetsStandard(two);
  }

  lemma DepartsOnBlankLastLine(x: Byte)
    requires IsVisible(x)
    ensures var body := [x] + (CRLF + [SP] + CRLF);
            HashedBytes(body) != Rfc.RelaxedBody(body)
  {
    var w := CRLF + [SP] + CRLF;
    BlankLine();
    assert IsLines([x] + w) && HasVisible([x] + w) && Ending([x] + w) == w by {
      assert ([x] + w)[1..] == w;
    }
    hide IsLines, HasVisible, Ending, CountLf, Split, HashedBytes, Rfc.RelaxedBody;
    HashMeetsStandard([x] + w);
  }

  lemma BlankLine()
    ensures var w := CRLF + [SP] + CRLF;
            IsLines(w) && !HasVisible(w) && CountLf(w) == 2 && Split(w).text == CRLF
  {
    var w := CRLF + [SP] + CRLF;
    SplitUnique(Parts(CRLF, [SP], CRLF));
    assert Parts(CRLF, [SP], CRLF).All() == w;
    CountLfConcat(CRLF + [SP], CRLF);
    CountLfConcat(CRLF, [SP]);
    OneLf();
    CrlfAlone();
    CoreConcat(CRLF + [SP], CRLF);
    CoreConcat(CRLF, [SP]);
    assert !HasVisible([SP]);
    assert w[2..] == [SP] + CRLF && ([SP] + CRLF)[1..] == CRLF && CRLF[2..] == [];
    assert IsLines(CRLF) && IsLines([SP] + CRLF);
  }

  lemma OneLf()
    ensures CountLf(CRLF) == 1
  {
    assert CRLF[1..] == [LF] && CountLf([LF]) == 1;
  }
}
