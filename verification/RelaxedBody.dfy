/** The DkimRelaxedBody stream: relaxed body canonicalisation, chunk by chunk, with the end of the body held back. */
module RelaxedBody {
  import opened Bytes
  import opened RegexRewrites
  import opened RelaxedText

  // ----- The end of a text -----

  /** A text with its tail taken apart: blanks, then line-end bytes. */
  datatype Parts = Parts(text: seq<Byte>, blanks: seq<Byte>, eols: seq<Byte>) {
    function Tail(): seq<Byte> {
      blanks + eols
    }

    function All(): seq<Byte> {
      text + Tail()
    }

    /** The tail has the right shape and cannot be made longer. */
    ghost predicate Valid() {
      && (forall b :: b in blanks ==> IsWsp(b))
      && (forall b :: b in eols ==> IsEol(b))
      && (text != [] ==> !IsWsp(Last(text)) && (blanks == [] ==> !IsEol(Last(text))))
    }
  }

  function Last(s: seq<Byte>): Byte
    requires s != []
  {
    s[|s| - 1]
  }

  /** Where the line-end bytes that end at n begin. */
  function EolsBefore(s: seq<Byte>, n: nat): (e: nat)
    requires n <= |s|
    ensures e <= n
  {
    if n > 0 && IsEol(s[n - 1]) then EolsBefore(s, n - 1) else n
  }

  /** Where the blanks that end at n begin. */
  function BlanksBefore(s: seq<Byte>, n: nat): (w: nat)
    requires n <= |s|
    ensures w <= n
  {
    if n > 0 && IsWsp(s[n - 1]) then BlanksBefore(s, n - 1) else n
  }

  function Split(s: seq<Byte>): Parts {
    var e := EolsBefore(s, |s|);
    var w := BlanksBefore(s, e);
    Parts(s[..w], s[w..e], s[e..])
  }

  lemma {:induction false} EolsFound(s: seq<Byte>, n: nat)
    requires n <= |s|
    ensures var e := EolsBefore(s, n);
            (forall i :: e <= i < n ==> IsEol(s[i])) && (e > 0 ==> !IsEol(s[e - 1]))
  {
    if n > 0 && IsEol(s[n - 1]) {
      EolsFound(s, n - 1);
    }
  }

  lemma {:induction false} BlanksFound(s: seq<Byte>, n: nat)
    requires n <= |s|
    ensures var w := BlanksBefore(s, n);
            (forall i :: w <= i < n ==> IsWsp(s[i])) && (w > 0 ==> !IsWsp(s[w - 1]))
  {
    if n > 0 && IsWsp(s[n - 1]) {
      BlanksFound(s, n - 1);
    }
  }

  lemma SplitIsValid(s: seq<Byte>)
    ensures Split(s).Valid() && Split(s).All() == s
  {
    EolsFound(s, |s|);
    BlanksFound(s, EolsBefore(s, |s|));
  }

  lemma {:induction false} EolsBeforeIs(s: seq<Byte>, n: nat, e: nat)
    requires e <= n <= |s|
    requires (forall i :: e <= i < n ==> IsEol(s[i])) && (e > 0 ==> !IsEol(s[e - 1]))
    ensures EolsBefore(s, n) == e
  {
    if e < n {
      EolsBeforeIs(s, n - 1, e);
    }
  }

  lemma {:induction false} BlanksBeforeIs(s: seq<Byte>, n: nat, w: nat)
    requires w <= n <= |s|
    requires (forall i :: w <= i < n ==> IsWsp(s[i])) && (w > 0 ==> !IsWsp(s[w - 1]))
    ensures BlanksBefore(s, n) == w
  {
    if w < n {
      BlanksBeforeIs(s, n - 1, w);
    }
  }

  /** There is one way to take a text apart. */
  lemma SplitUnique(p: Parts)
    requires p.Valid()
    ensures Split(p.All()) == p
  {
    hide EolsBefore, BlanksBefore;
    var s := p.All();
    var e, w := |p.text| + |p.blanks|, |p.text|;
    assert s[e..] == p.eols && s[w..e] == p.blanks && s[..w] == p.text;
    forall i | e <= i < |s|
      ensures IsEol(s[i])
    {
      assert s[i] == p.eols[i - e];
    }
    forall i | w <= i < e
      ensures IsWsp(s[i])
    {
      assert s[i] == p.blanks[i - w];
    }
    if p.blanks != [] {
      assert s[e - 1] == Last(p.blanks);
    }
    EolsBeforeIs(s, |s|, e);
    BlanksBeforeIs(s, e, w);
  }

  /** How the tail moves when a text grows. */
  function Extend(p: Parts, c: Parts): Parts {
    if c.text != [] then Parts(p.All() + c.text, c.blanks, c.eols)
    else if c.blanks == [] then Parts(p.text, p.blanks, p.eols + c.eols)
    else if p.eols == [] then Parts(p.text, p.blanks + c.blanks, c.eols)
    else Parts(p.All(), c.blanks, c.eols)
  }

  lemma ExtendIsValid(p: Parts, c: Parts)
    requires p.Valid() && c.Valid()
    ensures Extend(p, c).Valid()
  {
    assert p.eols != [] ==> Last(p.All()) == Last(p.eols) && Last(p.eols) in p.eols;
  }

  lemma SplitConcat(p: Parts, c: Parts)
    requires p.Valid() && c.Valid()
    ensures Split(p.All() + c.All()) == Extend(p, c)
  {
    ExtendIsValid(p, c);
    assert Extend(p, c).All() == p.All() + c.All();
    SplitUnique(Extend(p, c));
  }

  // ----- One chunk -----

  /** What the backward scan of a chunk decides: the chunk only extends the remainder, or `head` is hashed after
      the old remainder and `rest` is held back in its place. */
  datatype Cut = Keep | Hash(head: seq<Byte>, rest: seq<Byte>)

  function CutChunk(remainder: seq<Byte>, chunk: seq<Byte>): Cut
    requires chunk != []
  {
    var c := Split(chunk);
    if c.text != [] then
      Hash(c.text, c.Tail())
    else if remainder == [] || (if c.blanks != [] then IsWsp(Last(remainder)) else IsEol(Last(remainder))) then
      Keep
    else
      Hash([], chunk)
  }

  /** What the hash is fed for a head. */
  function Fed(remainder: seq<Byte>, head: seq<Byte>): seq<Byte> {
    if remainder != [] || NeedsRewrite(head) then Rewrite(remainder + head) else head
  }

  datatype Progress = Progress(remainder: seq<Byte>, hashed: seq<Byte>)

  function Absorb(p: Progress, chunk: seq<Byte>): Progress
    requires chunk != []
  {
    match CutChunk(p.remainder, chunk)
    case Keep => p.(remainder := p.remainder + chunk)
    case Hash(head, rest) => Progress(rest, p.hashed + Fed(p.remainder, head))
  }

  /** The hash has all of the body but its tail; of the tail, the blanks may already have been dropped. */
  ghost predicate Tracks(b: Parts, p: Progress) {
    && b.Valid()
    && p.hashed == Relax(b.text)
    && (p.remainder == b.Tail() || (b.eols != [] && p.remainder == b.eols))
  }

  /** No place where the stream cuts separates an LF from its CR. */
  lemma CutsAreSafe(b: Parts, head: seq<Byte>)
    requires b.Valid() && NoBareLf(b.All() + head)
    ensures NoBareLf(b.Tail() + head) && NoBareLf(b.eols + head)
  {
    var rest := b.eols + head;
    assert b.All() + head == b.text + (b.blanks + rest);
    assert b.Tail() + head == b.blanks + rest;
    LfsFollowCrConcat(false, b.text, b.blanks + rest);
    LfsFollowCrConcat(EndsInCr(false, b.text), b.blanks, rest);
    LfsFollowCrConcat(false, b.blanks, rest);
    if b.blanks != [] {
      assert b.blanks[0] in b.blanks && Last(b.blanks) in b.blanks;
    }
  }

  /** The facts about the parts that relaxing them needs. */
  lemma PartsRelax(b: Parts)
    requires b.Valid()
    ensures b.text == [] || !IsWsp(Last(b.text))
    ensures b.eols == [] || IsEol(b.eols[0])
    ensures Relax(b.blanks) == []
  {
    assert b.eols != [] ==> b.eols[0] in b.eols;
    BlanksVanish(b.blanks);
  }

  /** A tail and what follows it can be relaxed on their own. */
  lemma TailRelaxesAlone(b: Parts, head: seq<Byte>)
    requires b.Valid()
    ensures Relax(b.All() + head) == Relax(b.text) + Relax(b.Tail() + head)
  {
    PartsRelax(b);
    hide Relax, Parts.Valid;
    assert b.All() + head == b.text + (b.Tail() + head);
    RelaxConcat(b.text, b.Tail() + head);
  }

  /** Blanks before a line end make no difference. */
  lemma BlanksMayGo(b: Parts, head: seq<Byte>)
    requires b.Valid() && b.eols != []
    ensures Relax(b.Tail() + head) == Relax(b.eols + head)
  {
    PartsRelax(b);
    hide Relax, Parts.Valid;
    assert b.Tail() + head == b.blanks + (b.eols + head);
    RelaxConcat(b.blanks, b.eols + head);
    assert [] + Relax(b.eols + head) == Relax(b.eols + head);
  }

  /** The held-back bytes and what follows them can be relaxed on their own. */
  lemma RemainderSuffices(b: Parts, p: Progress, head: seq<Byte>)
    requires Tracks(b, p) && NoBareLf(b.All() + head)
    ensures NoBareLf(p.remainder + head)
    ensures Relax(b.All() + head) == p.hashed + Relax(p.remainder + head)
  {
    hide Relax, NoBareLf, Parts.Valid, Parts.All, Parts.Tail;
    CutsAreSafe(b, head);
    TailRelaxesAlone(b, head);
    if p.remainder != b.Tail() {
      BlanksMayGo(b, head);
    }
  }

  /** Both paths feed the relaxed form of remainder and head. */
  lemma FedIsRelaxed(b: Parts, p: Progress, head: seq<Byte>)
    requires Tracks(b, p) && NoBareLf(b.All() + head)
    requires head == [] || !IsWsp(Last(head))
    ensures Relax(b.All() + head) == p.hashed + Fed(p.remainder, head)
  {
    RemainderSuffices(b, p, head);
    if p.remainder != [] || NeedsRewrite(head) {
      RewriteIsRelax(p.remainder + head);
    } else {
      UntouchedIsRelaxed(head);
      assert p.remainder + head == head;
    }
  }

  /** The last byte of the remainder tells how far the body's tail got. */
  lemma RemainderKind(b: Parts, p: Progress)
    requires Tracks(b, p)
    ensures p.remainder == [] <==> b.Tail() == []
    ensures p.remainder != [] ==> IsWsp(Last(p.remainder)) == (b.eols == [])
    ensures b.eols != [] ==> p.remainder != [] && IsEol(Last(p.remainder))
  {
    if b.eols != [] {
      assert Last(p.remainder) == Last(b.eols) && Last(b.eols) in b.eols;
    } else if b.blanks != [] {
      assert Last(p.remainder) == Last(b.blanks) && Last(b.blanks) in b.blanks;
    }
  }

  /** A chunk with something before its tail: that much is hashed, and the chunk's tail is the new one. */
  lemma AbsorbHead(b: Parts, p: Progress, c: Parts)
    requires Tracks(b, p) && c.Valid() && c.text != [] && NoBareLf(b.All() + c.All())
    ensures Tracks(Extend(b, c), Progress(c.Tail(), p.hashed + Fed(p.remainder, c.text)))
  {
    assert b.All() + c.All() == (b.All() + c.text) + c.Tail();
    LfsFollowCrConcat(false, b.All() + c.text, c.Tail());
    FedIsRelaxed(b, p, c.text);
    ExtendIsValid(b, c);
  }

  /** A chunk of line-end bytes after a remainder that is empty or ends in one. */
  lemma AbsorbEols(b: Parts, p: Progress, c: Parts)
    requires Tracks(b, p) && c.Valid() && c.text == [] && c.blanks == []
    requires p.remainder == [] || b.eols != []
    ensures Tracks(Extend(b, c), p.(remainder := p.remainder + c.Tail()))
  {
    ExtendIsValid(b, c);
    assert c.Tail() == c.eols;
    if p.remainder == b.Tail() {
      assert p.remainder + c.eols == Extend(b, c).Tail();
    }
  }

  /** A chunk that begins with blanks after a remainder that is empty or ends in one. */
  lemma AbsorbBlanks(b: Parts, p: Progress, c: Parts)
    requires Tracks(b, p) && c.Valid() && c.text == [] && c.blanks != []
    requires b.eols == []
    ensures Tracks(Extend(b, c), p.(remainder := p.remainder + c.Tail()))
  {
    ExtendIsValid(b, c);
    assert p.remainder + c.Tail() == Extend(b, c).Tail();
  }

  /** A chunk that is all tail but of another kind than the remainder, which is then hashed as a normal line. */
  lemma AbsorbPushedOut(b: Parts, p: Progress, c: Parts)
    requires Tracks(b, p) && c.Valid() && c.text == [] && NoBareLf(b.All() + c.All())
    requires p.remainder != [] && c.Tail() != [] && (b.eols == []) != (c.blanks != [])
    ensures Tracks(Extend(b, c), Progress(c.Tail(), p.hashed + Fed(p.remainder, [])))
  {
    assert b.All() + [] == b.All();
    LfsFollowCrConcat(false, b.All(), c.All());
    FedIsRelaxed(b, p, []);
    ExtendIsValid(b, c);
    if c.blanks == [] {
      assert b.All() == b.text + b.blanks;
      BlanksVanish(b.blanks);
      RelaxConcat(b.text, b.blanks);
      assert c.Tail() == c.eols && b.eols + c.eols == c.eols;
    }
  }

  /** The invariant of the stream: a chunk of any size and content moves the split of the body along. */
  lemma AbsorbTracks(b: Parts, p: Progress, chunk: seq<Byte>)
    requires chunk != [] && Tracks(b, p) && NoBareLf(b.All() + chunk)
    ensures Tracks(Extend(b, Split(chunk)), Absorb(p, chunk))
  {
    var c := Split(chunk);
    SplitIsValid(chunk);
    RemainderKind(b, p);
    if c.text != [] {
      AbsorbHead(b, p, c);
    } else {
      assert chunk == c.Tail();
      if CutChunk(p.remainder, chunk).Keep? {
        if c.blanks == [] {
          AbsorbEols(b, p, c);
        } else {
          AbsorbBlanks(b, p, c);
        }
      } else {
        AbsorbPushedOut(b, p, c);
      }
    }
  }

  // ----- The whole body -----

  /** The rule at the end of the stream. */
  function Flush(p: Progress, byteLength: nat): seq<Byte> {
    p.hashed + if p.remainder != [] && IsEol(Last(p.remainder)) && byteLength > 2 then CRLF else []
  }

  /** The bytes hashed for a body, as a function of the body alone. */
  function HashedBytes(body: seq<Byte>): seq<Byte> {
    Relax(Split(body).text) + if |body| > 2 && IsEol(Last(body)) then CRLF else []
  }

  lemma FlushIsWhole(b: Parts, p: Progress)
    requires Tracks(b, p)
    ensures Flush(p, |b.All()|) == HashedBytes(b.All())
  {
    SplitUnique(b);
    RemainderKind(b, p);
    var body := b.All();
    if body != [] {
      assert Last(body) == if b.eols != [] then Last(b.eols)
                        else if b.blanks != [] then Last(b.blanks) else Last(b.text);
      assert b.eols == [] && b.blanks != [] ==> Last(b.blanks) in b.blanks;
    }
  }

  function AbsorbAll(p: Progress, chunks: seq<seq<Byte>>): Progress
    decreases |chunks|
  {
    if chunks == [] then p
    else AbsorbAll(if chunks[0] == [] then p else Absorb(p, chunks[0]), chunks[1..])
  }

  const START := Progress([], [])

  lemma {:induction false} AbsorbAllTracks(b: Parts, p: Progress, chunks: seq<seq<Byte>>) returns (b': Parts)
    requires Tracks(b, p) && NoBareLf(b.All() + Flatten(chunks))
    ensures Tracks(b', AbsorbAll(p, chunks)) && b'.All() == b.All() + Flatten(chunks)
    decreases |chunks|
  {
    if chunks == [] {
      b' := b;
    } else {
      var chunk, more := chunks[0], Flatten(chunks[1..]);
      assert b.All() + Flatten(chunks) == (b.All() + chunk) + more;
      if chunk == [] {
        assert b.All() + chunk == b.All();
        b' := AbsorbAllTracks(b, p, chunks[1..]);
      } else {
        LfsFollowCrConcat(false, b.All() + chunk, more);
        AbsorbTracks(b, p, chunk);
        SplitIsValid(chunk);
        SplitConcat(b, Split(chunk));
        SplitIsValid(b.All() + chunk);
        b' := AbsorbAllTracks(Extend(b, Split(chunk)), Absorb(p, chunk), chunks[1..]);
      }
    }
  }

  /** However a body without bare LF was cut, the hash has seen the same bytes once the stream has ended. */
  lemma CuttingIsIrrelevant(chunks: seq<seq<Byte>>)
    requires NoBareLf(Flatten(chunks))
    ensures Flush(AbsorbAll(START, chunks), |Flatten(chunks)|) == HashedBytes(Flatten(chunks))
  {
    var none := Parts([], [], []);
    assert none.All() + Flatten(chunks) == Flatten(chunks);
    var b := AbsorbAllTracks(none, START, chunks);
    FlushIsWhole(b, AbsorbAll(START, chunks));
  }

  /** With nothing held back, a chunk that ends in a visible byte is hashed at once. */
  lemma AbsorbVisible(hashed: seq<Byte>, chunk: seq<Byte>)
    requires chunk != [] && IsVisible(Last(chunk))
    ensures Absorb(Progress([], hashed), chunk)
            == Progress([], hashed + if NeedsRewrite(chunk) then Rewrite(chunk) else chunk)
  {
    SplitUnique(Parts(chunk, [], []));
    assert Parts(chunk, [], []).All() == chunk;
    assert [] + chunk == chunk;
  }

  /** Without the line-end stream in front the cutting matters: a bare LF at the start of a chunk is not seen. */
  lemma BareLfDependsOnCutting()
    ensures var x: Byte := 0x78;
            && Absorb(START, [x, LF, x]).hashed == [x, CR, LF, x]
            && Absorb(Absorb(START, [x]), [LF, x]).hashed == [x, LF, x]
  {
    var x: Byte := 0x78;
    AbsorbVisible([], [x, LF, x]);
    AbsorbVisible([], [x]);
    AbsorbVisible([x], [LF, x]);
    assert TroubleAt([x, LF, x], 1) && !NeedsRewrite([x]) && !NeedsRewrite([LF, x]);
    RewriteExample(x);
  }

  lemma RewriteExample(x: Byte)
    requires IsVisible(x)
    ensures Rewrite([x, LF, x]) == [x, CR, LF, x]
  {
    var s, t := [x, LF, x], [LF, x];
    assert s[1..] == t && t[1..] == [x] && [x][1..] == [];
    assert JsLineEnds([x]) == [x];
    assert JsLineEnds(t) == [LF] + JsLineEnds([x]) == t;
    assert JsLineEnds(s) == [x] + JsLineEnds(t) == s;
    assert TrimLines([x]) == [x];
    assert TrimLines(t) == [LF] + TrimLines([x]) == t;
    assert TrimLines(s) == [x] + TrimLines(t) == s;
    assert SingleSpaces([x]) == [x];
    assert SingleSpaces(t) == [LF] + SingleSpaces([x]) == t;
    assert SingleSpaces(s) == [x] + SingleSpaces(t) == s;
    assert CrlfLineEnds([x]) == [x];
    assert CrlfLineEnds(t) == CRLF + CrlfLineEnds([x]);
    assert CrlfLineEnds(s) == [x] + CrlfLineEnds(t);
  }

  // ----- The stream -----

  datatype Mode = File | Line | Body

  /** Blanks from w to e, line-end bytes from there. */
  ghost predicate TailSoFar(s: seq<Byte>, w: nat, e: nat) {
    && w <= e <= |s|
    && (forall i :: e <= i < |s| ==> IsEol(s[i]))
    && (forall i :: w <= i < e ==> IsWsp(s[i]))
  }

  lemma CutFound(remainder: seq<Byte>, chunk: seq<Byte>, w: nat, e: nat)
    requires chunk != [] && TailSoFar(chunk, w, e)
    requires (e > 0 ==> !IsEol(chunk[e - 1])) && (w > 0 ==> !IsWsp(chunk[w - 1]))
    ensures CutChunk(remainder, chunk)
            == if w > 0 then Hash(chunk[..w], chunk[w..])
               else if remainder == [] || (if e > 0 then IsWsp(Last(remainder)) else IsEol(Last(remainder))) then Keep
               else Hash([], chunk)
  {
    EolsBeforeIs(chunk, |chunk|, e);
    BlanksBeforeIs(chunk, e, w);
    assert chunk[w..] == chunk[w..e] + chunk[e..];
  }

  /** The scan from the end of the chunk, and what to do when it stops or reaches the beginning. */
  method ScanChunk(remainder: seq<Byte>, chunk: seq<Byte>) returns (cut: Cut)
    requires chunk != []
    ensures cut == CutChunk(remainder, chunk)
  {
    hide CutChunk;
    var state := File;
    ghost var e := |chunk|;
    var i := |chunk| - 1;
    while i >= 0
      invariant 0 <= i < e <= |chunk|
      invariant state != Body
      invariant TailSoFar(chunk, i + 1, e)
      invariant state == File ==> i + 1 == e
      invariant state == Line ==> i + 1 < e
    {
      var c := chunk[i];
      if state == File && IsEol(c) {
        // the end of the file goes on
        e := i;
      } else if state == File && IsWsp(c) {
        state := Line;
      } else if state == Line && IsWsp(c) {
        // the end of the line goes on
      } else {
        state := Body;
        CutFound(remainder, chunk, i + 1, e);
        if i == |chunk| - 1 {
          return Hash(chunk, []);
        }
      }

      if i == 0 {
        if state != Body {
          CutFound(remainder, chunk, 0, e);
        }
        if (state == File && (remainder == [] || IsEol(Last(remainder))))
           || (state == Line && (remainder == [] || IsWsp(Last(remainder)))) {
          return Keep;
        } else if state != Body {
          return Hash([], chunk);
        }
      }

      if state == Body {
        return Hash(chunk[..i + 1], chunk[i + 1..]);
      }
      i := i - 1;
    }
    assert false;
    cut := Keep;
  }

  /** The scan that decides between the two paths. */
  method ScanForTrouble(chunk: seq<Byte>) returns (needsFixing: bool)
    ensures needsFixing == NeedsRewrite(chunk)
  {
    needsFixing := false;
    for i := 0 to |chunk|
      invariant !needsFixing && forall j :: 0 <= j < i ==> !TroubleAt(chunk, j)
    {
      if i > 0 && chunk[i] == LF && chunk[i - 1] != CR {
        needsFixing := true;
      } else if i > 0 && chunk[i] == CR && chunk[i - 1] == SP {
        needsFixing := true;
      } else if i > 0 && chunk[i] == SP && chunk[i - 1] == SP {
        needsFixing := true;
      } else if chunk[i] == TAB {
        needsFixing := true;
      }
      if needsFixing {
        assert TroubleAt(chunk, i);
        return;
      }
    }
  }

  class DkimRelaxedBody {
    var remainder: seq<Byte>
    var byteLength: nat
    /** The bytes fed to the hash so far. */
    var bodyHash: seq<Byte>

    ghost var body: seq<Byte>

    /** As long as the body has had no bare LF, hash and remainder are where the split of the body says. */
    ghost predicate Valid()
      reads this
    {
      && byteLength == |body|
      && (NoBareLf(body) ==> Tracks(Split(body), Progress(remainder, bodyHash)))
    }

    constructor ()
      ensures Valid() && body == [] && remainder == [] && bodyHash == []
    {
      remainder, byteLength, bodyHash, body := [], 0, [], [];
      SplitUnique(Parts([], [], []));
    }

    method UpdateHash(chunk: seq<Byte>)
      requires chunk != []
      modifies this`remainder, this`bodyHash
      ensures Progress(remainder, bodyHash) == Absorb(Progress(old(remainder), old(bodyHash)), chunk)
    {
      var cut := ScanChunk(remainder, chunk);
      if cut.Keep? {
        remainder := remainder + chunk;
        return;
      }
      var head := cut.head;
      var needsFixing := remainder != [];
      if !needsFixing {
        needsFixing := ScanForTrouble(head);
      }
      if needsFixing {
        bodyHash := bodyHash + Rewrite(remainder + head);
        remainder := cut.rest;
      } else {
        if cut.rest != [] {
          remainder := cut.rest;
        }
        bodyHash := bodyHash + head;
      }
    }

    /** Takes the next chunk, which is also what is sent on. */
    method Transform(chunk: seq<Byte>) returns (pushed: seq<Byte>)
      requires Valid()
      modifies this
      ensures Valid() && body == old(body) + chunk && pushed == chunk
    {
      if chunk == [] {
        assert body + chunk == body;
        return [];
      }
      UpdateHash(chunk);
      byteLength := byteLength + |chunk|;
      pushed := chunk;
      body := body + chunk;
      LfsFollowCrConcat(false, old(body), chunk);
      if NoBareLf(body) {
        SplitIsValid(old(body));
        SplitIsValid(chunk);
        AbsorbTracks(Split(old(body)), Progress(old(remainder), old(bodyHash)), chunk);
        SplitConcat(Split(old(body)), Split(chunk));
      }
    }

    /** Ends the stream: the bytes hashed are a function of the body, and an empty body is sent on as CRLF. */
    method Finish() returns (pushed: seq<Byte>)
      requires Valid()
      modifies this`bodyHash
      ensures NoBareLf(body) ==> bodyHash == HashedBytes(body)
      ensures pushed == if body == [] then CRLF else []
    {
      if NoBareLf(body) {
        SplitIsValid(body);
        FlushIsWhole(Split(body), Progress(remainder, bodyHash));
      }
      if remainder != [] && IsEol(Last(remainder)) && byteLength > 2 {
        bodyHash := bodyHash + CRLF;
      }
      pushed := if byteLength == 0 then CRLF else [];
    }
  }
}
