/** The length-prefixed transport: `encode`, and the FrameParser that undoes it however the bytes arrive. */
module Framing {
  import opened Bytes

  type Bytestring = seq<Byte>

  const MAX_FRAME := 3 * 1024 * 1024

  // ----- Encoding -----

  /** writeUInt32LE */
  function Uint32Le(n: nat): (s: Bytestring)
    requires n < 0x1_0000_0000
    ensures |s| == 4
  {
    [n % 0x100, n / 0x100 % 0x100, n / 0x1_0000 % 0x100, n / 0x100_0000]
  }

  /** readUInt32LE */
  function ReadUint32Le(s: Bytestring): (n: nat)
    requires |s| >= 4
    ensures n < 0x1_0000_0000
  {
    s[0] as int + 0x100 * s[1] as int + 0x1_0000 * s[2] as int + 0x100_0000 * s[3] as int
  }

  lemma Digits256(n: nat)
    requires n < 0x1_0000_0000
    ensures n % 0x100 + 0x100 * (n / 0x100 % 0x100) + 0x1_0000 * (n / 0x1_0000 % 0x100)
            + 0x100_0000 * (n / 0x100_0000) == n
  {
    assert n / 0x1_0000 == n / 0x100 / 0x100 && n / 0x100_0000 == n / 0x1_0000 / 0x100;
  }

  lemma ReadsBack(n: nat, rest: Bytestring)
    requires n < 0x1_0000_0000
    ensures ReadUint32Le(Uint32Le(n) + rest) == n
  {
    var a, b, c, d: int := n % 0x100, n / 0x100 % 0x100, n / 0x1_0000 % 0x100, n / 0x100_0000;
    assert ReadUint32Le(Uint32Le(n) + rest) == a + 0x100 * b + 0x1_0000 * c + 0x100_0000 * d;
    hide Uint32Le, ReadUint32Le;
    Digits256(n);
  }

  lemma WritesBack(s: Bytestring)
    requires |s| >= 4
    ensures Uint32Le(ReadUint32Le(s)) == s[..4]
  {
    var n := ReadUint32Le(s);
    var a, b, c, d: int := s[0], s[1], s[2], s[3];
    assert n / 0x100 == b + 0x100 * c + 0x1_0000 * d;
    assert n / 0x1_0000 == c + 0x100 * d;
    assert n / 0x100_0000 == d;
  }

  /** The least significant byte comes first. */
  lemma LeastFirst(a: Byte, b: Byte, c: Byte, d: Byte)
    ensures Uint32Le(a + 0x100 * b + 0x1_0000 * c + 0x100_0000 * d) == [a, b, c, d]
  {
    var n1: nat, n2: nat, n3: nat := b + 0x100 * c + 0x1_0000 * d, c + 0x100 * d, d;
    var n: nat := a + 0x100 * n1;
    LastDigit(a, n1);
    LastDigit(b, n2);
    LastDigit(c, n3);
    TwoDigits(n);
    TwoDigits(n1);
  }

  lemma LastDigit(a: Byte, rest: nat)
    ensures (a + 0x100 * rest) % 0x100 == a && (a + 0x100 * rest) / 0x100 == rest
  {}

  lemma TwoDigits(n: nat)
    ensures n / 0x1_0000 == n / 0x100 / 0x100 && n / 0x100_0000 == n / 0x1_0000 / 0x100
  {}

  predicate Sendable(payload: Bytestring) {
    1 <= |payload| <= MAX_FRAME
  }

  function Encode(payload: Bytestring): Bytestring
    requires |payload| < 0x1_0000_0000
  {
    Uint32Le(|payload|) + payload
  }

  ghost predicate Encodable(payloads: seq<Bytestring>) {
    forall p :: p in payloads ==> |p| < 0x1_0000_0000
  }

  ghost function EncodeAll(payloads: seq<Bytestring>): Bytestring
    requires Encodable(payloads)
  {
    if payloads == [] then [] else Encode(payloads[0]) + EncodeAll(payloads[1..])
  }

  lemma {:induction false} EncodeAllAppend(payloads: seq<Bytestring>, payload: Bytestring)
    requires |payload| < 0x1_0000_0000 && Encodable(payloads)
    ensures EncodeAll(payloads + [payload]) == EncodeAll(payloads) + Encode(payload)
  {
    if payloads == [] {
      assert EncodeAll([payload]) == Encode(payload) + EncodeAll([]);
    } else {
      assert (payloads + [payload])[1..] == payloads[1..] + [payload];
      EncodeAllAppend(payloads[1..], payload);
    }
  }

  /** A frame at the start of a stream, and with it the rest of the stream, can be told. */
  lemma FirstFrame(a: Bytestring, s: Bytestring, b: Bytestring, t: Bytestring)
    requires |a| < 0x1_0000_0000 && |b| < 0x1_0000_0000
    requires Encode(a) + s == Encode(b) + t
    ensures a == b && s == t
  {
    var all := Encode(a) + s;
    assert all == Uint32Le(|a|) + (a + s) && all == Uint32Le(|b|) + (b + t);
    ReadsBack(|a|, a + s);
    ReadsBack(|b|, b + t);
    assert all[4..] == a + s && all[4..] == b + t;
    assert a == all[4..][..|a|] && b == all[4..][..|b|];
    assert s == all[4..][|a|..] && t == all[4..][|b|..];
  }

  /** A stream of frames can be read in one way only. */
  lemma {:induction false} UniqueDecoding(got: seq<Bytestring>, tail: Bytestring, payloads: seq<Bytestring>)
    requires Encodable(got) && Encodable(payloads)
    requires EncodeAll(got) + tail == EncodeAll(payloads)
    ensures got <= payloads && tail == EncodeAll(payloads[|got|..])
  {
    if got == [] {
      assert payloads[0..] == payloads;
    } else {
      assert payloads != [];
      var more := EncodeAll(got[1..]);
      assert EncodeAll(got) + tail == Encode(got[0]) + (more + tail);
      FirstFrame(got[0], more + tail, payloads[0], EncodeAll(payloads[1..]));
      UniqueDecoding(got[1..], tail, payloads[1..]);
      assert payloads == [payloads[0]] + payloads[1..] && got == [got[0]] + got[1..];
      assert payloads[|got|..] == payloads[1..][|got[1..]|..];
    }
  }

  // ----- What the parser means -----

  /** The parser between two reads: the size read and not yet used up, with 0 for none as the source's tests for
      falsehood have it; the bytes piled up; the frames passed on; and whether it has given up. */
  datatype State = State(frame: nat, pile: Bytestring, emitted: seq<Bytestring>, failed: bool)

  const START := State(0, [], [], false)

  /** What bytes in hand do behind a header. */
  function TakePayload(s: State, bytes: Bytestring): State {
    var all := s.pile + bytes;
    if |all| < s.frame then s.(pile := all)
    else State(0, all[s.frame..], s.emitted + [all[..s.frame]], s.failed)
  }

  /** What bytes do when no header is pending. A header of 0 vanishes if nothing is behind it, and makes an empty frame
      if anything is. */
  function TakeHeader(s: State, all: Bytestring): State
    requires |all| >= 4
  {
    var size, rest := ReadUint32Le(all), all[4..];
    var headed := State(size, [], s.emitted, size > MAX_FRAME);
    if size > MAX_FRAME || rest == [] then headed else TakePayload(headed, rest)
  }

  /** What one run of `read` does with the bytes it got. */
  function Take(s: State, bytes: Bytestring): (t: State)
    ensures t.frame != 0 ==> |t.pile| < t.frame
  {
    if s.frame != 0 then TakePayload(s, bytes)
    else if |s.pile + bytes| < 4 then s.(pile := s.pile + bytes)
    else TakeHeader(s, s.pile + bytes)
  }

  /** Nothing can be done without more bytes. */
  predicate Settled(s: State) {
    s.failed || |s.pile| < if s.frame == 0 then 4 else s.frame
  }

  /** Enough for a header that is piled up is taken before the socket is read. */
  function Settle(s: State): (settled: State)
    ensures Settled(settled)
    decreases |s.pile|
  {
    if Settled(s) then s else
      PileShrinks(s);
      Settle(Take(s.(pile := []), s.pile))
  }

  lemma PileShrinks(s: State)
    requires !Settled(s)
    ensures |Take(s.(pile := []), s.pile).pile| < |s.pile|
  {
    assert [] + s.pile == s.pile;
  }

  function Feed(s: State, piece: Bytestring): State {
    if s.failed then s else Settle(Take(s, piece))
  }

  /** The state after reading pieces one after the other. */
  function Parse(s: State, pieces: seq<Bytestring>): State
    decreases |pieces|
  {
    if pieces == [] then s else Parse(Feed(s, pieces[0]), pieces[1..])
  }

  lemma {:induction false} ParseAppend(s: State, pieces: seq<Bytestring>, piece: Bytestring)
    ensures Parse(s, pieces + [piece]) == Feed(Parse(s, pieces), piece)
    decreases |pieces|
  {
    if pieces == [] {
      assert Parse(s, [piece]) == Parse(Feed(s, piece), []);
    } else {
      assert (pieces + [piece])[1..] == pieces[1..] + [piece];
      ParseAppend(Feed(s, pieces[0]), pieces[1..], piece);
    }
  }

  lemma {:induction false} ParseConcat(s: State, before: seq<Bytestring>, after: seq<Bytestring>)
    ensures Parse(s, before + after) == Parse(Parse(s, before), after)
    decreases |before|
  {
    if before == [] {
      assert before + after == after;
    } else {
      assert (before + after)[1..] == before[1..] + after;
      ParseConcat(Feed(s, before[0]), before[1..], after);
    }
  }

  /** After a failure nothing is read. */
  lemma {:induction false} FailedStays(s: State, pieces: seq<Bytestring>)
    requires s.failed
    ensures Parse(s, pieces) == s
    decreases |pieces|
  {
    if pieces != [] {
      FailedStays(s, pieces[1..]);
    }
  }

  // ----- The account -----

  function Header(frame: nat): Bytestring
    requires frame < 0x1_0000_0000
  {
    if frame == 0 then [] else Uint32Le(frame)
  }

  ghost predicate Countable(s: State) {
    s.frame < 0x1_0000_0000 && Encodable(s.emitted)
  }

  /** What a state accounts for: encodings of the frames emitted, the pending header and the pile. */
  ghost function Account(s: State): Bytestring
    requires Countable(s)
  {
    EncodeAll(s.emitted) + (Header(s.frame) + s.pile)
  }

  lemma PayloadAccounts(s: State, bytes: Bytestring)
    requires Countable(s)
    ensures Countable(TakePayload(s, bytes))
    ensures Account(TakePayload(s, bytes)) == EncodeAll(s.emitted) + (Uint32Le(s.frame) + (s.pile + bytes))
  {
    hide EncodeAll, Uint32Le;
    var all := s.pile + bytes;
    if |all| >= s.frame {
      EncodeAllAppend(s.emitted, all[..s.frame]);
      assert all == all[..s.frame] + all[s.frame..];
      assert EncodeAll(s.emitted) + (Uint32Le(s.frame) + all[..s.frame]) + ([] + all[s.frame..])
             == EncodeAll(s.emitted) + (Uint32Le(s.frame) + (all[..s.frame] + all[s.frame..]));
    }
  }

  lemma HeaderAccounts(s: State, all: Bytestring)
    requires Countable(s) && |all| >= 4
    ensures var s' := TakeHeader(s, all);
            && Countable(s')
            && (!s'.failed ==> (Account(s') == EncodeAll(s.emitted) + all <==> all != Uint32Le(0)))
            && |Account(s')| <= |EncodeAll(s.emitted)| + |all|
  {
    hide EncodeAll, Uint32Le, ReadUint32Le;
    WritesBack(all);
    var size, rest := ReadUint32Le(all), all[4..];
    assert all == Uint32Le(size) + rest;
    var headed := State(size, [], s.emitted, size > MAX_FRAME);
    if size <= MAX_FRAME && rest != [] {
      PayloadAccounts(headed, rest);
      assert [] + rest == rest;
      assert EncodeAll(s.emitted) + (Uint32Le(size) + []) + rest == EncodeAll(s.emitted) + (Uint32Le(size) + rest);
    } else {
      ReadsBack(0, []);
      ReadsBack(size, []);
      assert Uint32Le(size) + [] == Uint32Le(size) && Uint32Le(0) + [] == Uint32Le(0);
      assert rest == [] ==> all == Uint32Le(size);
    }
  }

  /** Any bytes whatever: unless the parser gives up they are added to the account, but for a header of 0 with nothing
      behind it. In no case does the account grow by more. */
  lemma TakeAccounts(s: State, bytes: Bytestring)
    requires Countable(s) && !s.failed
    ensures var s' := Take(s, bytes);
            && Countable(s') && |Account(s')| <= |Account(s)| + |bytes|
            && (!s'.failed ==> (Account(s') == Account(s) + bytes
                                <==> !(s.frame == 0 && s.pile + bytes == Uint32Le(0))))
  {
    hide EncodeAll, Uint32Le, TakeHeader, TakePayload, ReadUint32Le;
    var all, done := s.pile + bytes, EncodeAll(s.emitted);
    assert done + (Header(s.frame) + s.pile) + bytes == done + (Header(s.frame) + all);
    if s.frame != 0 {
      PayloadAccounts(s, bytes);
    } else if |all| >= 4 {
      HeaderAccounts(s, all);
      assert [] + all == all;
    }
  }

  /** Reading any pieces: the encodings of the frames passed on are never longer than the bytes read. */
  lemma SettleBound(s: State)
    requires Countable(s)
    ensures Countable(Settle(s)) && |Account(Settle(s))| <= |Account(s)|
    decreases |s.pile|
  {
    hide EncodeAll, Uint32Le, Take;
    if !Settled(s) {
      PileShrinks(s);
      TakeAccounts(s.(pile := []), s.pile);
      SettleBound(Take(s.(pile := []), s.pile));
    }
  }

  lemma {:induction false} ParseBound(s: State, pieces: seq<Bytestring>)
    requires Countable(s)
    ensures Countable(Parse(s, pieces)) && |Account(Parse(s, pieces))| <= |Account(s)| + |Flatten(pieces)|
    decreases |pieces|
  {
    hide Account, Settle, Take, Countable;
    if pieces != [] {
      FeedBound(s, pieces[0]);
      ParseBound(Feed(s, pieces[0]), pieces[1..]);
    }
  }

  lemma FeedBound(s: State, piece: Bytestring)
    requires Countable(s)
    ensures Countable(Feed(s, piece)) && |Account(Feed(s, piece))| <= |Account(s)| + |piece|
  {
    hide Account, Settle, Take, Countable;
    if !s.failed {
      TakeAccounts(s, piece);
      SettleBound(Take(s, piece));
    }
  }

  // ----- Streams of payloads -----

  /** The header behind some frames of a stream is that of the next payload. */
  lemma NextFrame(got: seq<Bytestring>, size: nat, more: Bytestring, payloads: seq<Bytestring>)
    returns (next: Bytestring)
    requires size < 0x1_0000_0000 && Encodable(got) && Encodable(payloads)
    requires EncodeAll(payloads) == EncodeAll(got) + (Uint32Le(size) + more)
    ensures got < payloads && next == payloads[|got|] && next in payloads && |next| == size
  {
    var tail := Uint32Le(size) + more;
    UniqueDecoding(got, tail, payloads);
    var rest := payloads[|got|..];
    assert rest != [];
    next := rest[0];
    assert tail == Uint32Le(|next|) + (next + EncodeAll(rest[1..]));
    ReadsBack(size, more);
    ReadsBack(|next|, next + EncodeAll(rest[1..]));
  }

  ghost predicate AllSendable(payloads: seq<Bytestring>) {
    forall p :: p in payloads ==> Sendable(p)
  }

  /** On a stream of sendable payloads, no header is 0 or too large. */
  lemma TakeFollows(s: State, bytes: Bytestring, payloads: seq<Bytestring>)
    requires Countable(s) && !s.failed && Encodable(payloads) && AllSendable(payloads)
    requires Account(s) + bytes <= EncodeAll(payloads)
    ensures var s' := Take(s, bytes);
            Countable(s') && !s'.failed && Account(s') == Account(s) + bytes
  {
    TakeAccounts(s, bytes);
    var all := s.pile + bytes;
    if s.frame == 0 && |all| >= 4 {
      HeaderIsNext(s, bytes, payloads);
      hide EncodeAll, Uint32Le, Account;
      ReadsBack(0, []);
      assert Uint32Le(0) + [] == Uint32Le(0);
    } else {
      assert all == Uint32Le(0) ==> |all| == 4;
    }
  }

  lemma HeaderIsNext(s: State, bytes: Bytestring, payloads: seq<Bytestring>)
    requires Countable(s) && Encodable(payloads) && AllSendable(payloads) && s.frame == 0 && |s.pile + bytes| >= 4
    requires Account(s) + bytes <= EncodeAll(payloads)
    ensures 0 < ReadUint32Le(s.pile + bytes) <= MAX_FRAME
  {
    hide EncodeAll, Uint32Le, ReadUint32Le;
    var all, future := s.pile + bytes, EncodeAll(payloads)[|Account(s) + bytes|..];
    WritesBack(all);
    var size := ReadUint32Le(all);
    assert all == Uint32Le(size) + all[4..];
    assert EncodeAll(payloads) == EncodeAll(s.emitted) + (Uint32Le(size) + (all[4..] + future));
    var next := NextFrame(s.emitted, size, all[4..] + future, payloads);
  }

  lemma {:induction false} SettleFollows(s: State, payloads: seq<Bytestring>)
    requires Countable(s) && !s.failed && Encodable(payloads) && AllSendable(payloads)
    requires Account(s) <= EncodeAll(payloads)
    ensures var s' := Settle(s);
            Countable(s') && !s'.failed && Account(s') == Account(s)
    decreases |s.pile|
  {
    hide EncodeAll, Uint32Le, Take, AllSendable;
    if !Settled(s) {
      PileShrinks(s);
      assert Account(s.(pile := [])) + s.pile == Account(s);
      TakeFollows(s.(pile := []), s.pile, payloads);
      SettleFollows(Take(s.(pile := []), s.pile), payloads);
    }
  }

  lemma {:induction false} ParseFollows(s: State, pieces: seq<Bytestring>, payloads: seq<Bytestring>)
    requires Countable(s) && !s.failed && Settled(s) && Encodable(payloads) && AllSendable(payloads)
    requires Account(s) + Flatten(pieces) <= EncodeAll(payloads)
    ensures var s' := Parse(s, pieces);
            Countable(s') && !s'.failed && Settled(s') && Account(s') == Account(s) + Flatten(pieces)
    decreases |pieces|
  {
    hide EncodeAll, Take, Settle, AllSendable, Account, Countable, Settled;
    if pieces == [] {
      assert Account(s) + [] == Account(s);
    } else {
      var s', more := Feed(s, pieces[0]), Flatten(pieces[1..]);
      assert Account(s) + (pieces[0] + more) == (Account(s) + pieces[0]) + more;
      TakeFollows(s, pieces[0], payloads);
      SettleFollows(Take(s, pieces[0]), payloads);
      ParseFollows(s', pieces[1..], payloads);
    }
  }

  /** When the whole stream is accounted for, it is all in the frames. */
  lemma AllArrived(s: State, payloads: seq<Bytestring>)
    requires Countable(s) && !s.failed && Settled(s) && Encodable(payloads)
    requires Account(s) == EncodeAll(payloads)
    ensures s == State(0, [], payloads, false)
  {
    hide EncodeAll, Uint32Le;
    var tail := Header(s.frame) + s.pile;
    UniqueDecoding(s.emitted, tail, payloads);
    if s.emitted != payloads {
      NextIsComplete(s.emitted, tail, payloads);
      if s.frame != 0 {
        var next := NextFrame(s.emitted, s.frame, s.pile, payloads);
        assert false;
      }
      assert false;
    }
    NothingBehind(payloads);
    assert |tail| == 0;
  }

  lemma NothingBehind(payloads: seq<Bytestring>)
    requires Encodable(payloads)
    ensures EncodeAll(payloads[|payloads|..]) == []
  {}

  lemma NextIsComplete(got: seq<Bytestring>, tail: Bytestring, payloads: seq<Bytestring>)
    requires Encodable(payloads) && got < payloads && tail == EncodeAll(payloads[|got|..])
    ensures |tail| >= 4 + |payloads[|got|]|
  {
    assert payloads[|got|..][0] == payloads[|got|];
  }

  // ----- The round trip -----

  ghost predicate IsCutting(pieces: seq<Bytestring>, bytes: Bytestring) {
    Flatten(pieces) == bytes && forall p :: p in pieces ==> p != []
  }

  /** However the stream of the payloads is cut, they come out as they went in, each once and in order. */
  ghost predicate RoundTrips(payloads: seq<Bytestring>)
    requires Encodable(payloads)
  {
    forall pieces :: IsCutting(pieces, EncodeAll(payloads)) ==> Parse(START, pieces).emitted == payloads
  }

  lemma NothingYet()
    ensures Countable(START) && Account(START) == [] && Settled(START)
  {}

  lemma Arrives(payloads: seq<Bytestring>, pieces: seq<Bytestring>)
    requires Encodable(payloads) && AllSendable(payloads) && Flatten(pieces) == EncodeAll(payloads)
    ensures Parse(START, pieces) == State(0, [], payloads, false)
  {
    hide Parse, Account, EncodeAll, Flatten, Countable, Settled, AllSendable, Encodable;
    NothingYet();
    assert [] + Flatten(pieces) == Flatten(pieces);
    ParseFollows(START, pieces, payloads);
    AllArrived(Parse(START, pieces), payloads);
  }

  lemma EncodeAllConcat(a: seq<Bytestring>, b: seq<Bytestring>)
    requires Encodable(a) && Encodable(b)
    ensures Encodable(a + b) && EncodeAll(a + b) == EncodeAll(a) + EncodeAll(b)
  {
    if a == [] {
      assert a + b == b;
    } else {
      assert (a + b)[1..] == a[1..] + b;
      EncodeAllConcat(a[1..], b);
    }
  }

  /** A header on its own: one that is 0 or too large adds nothing to the frames, and the parser forgets or refuses
      it. */
  lemma BadHeader(good: seq<Bytestring>, size: nat)
    requires Encodable(good) && size < 0x1_0000_0000 && !(1 <= size <= MAX_FRAME)
    ensures var s := Feed(State(0, [], good, false), Uint32Le(size));
            Countable(s) && s.pile == [] && s.emitted == good && (s.failed || s.frame == 0)
  {
    hide Uint32Le, ReadUint32Le;
    ReadsBack(size, []);
    assert Uint32Le(size) + [] == Uint32Le(size) && [] + Uint32Le(size) == Uint32Le(size);
    assert Uint32Le(size)[4..] == [];
  }

  lemma FlattenOne(piece: Bytestring)
    ensures Flatten(if piece == [] then [] else [piece]) == piece
  {
    assert piece != [] ==> [piece][1..] == [];
  }

  /** A cutting that ends a piece right behind the header of a payload that is empty or too large. */
  lemma BadCutting(good: seq<Bytestring>, bad: Bytestring, more: seq<Bytestring>) returns (pieces: seq<Bytestring>)
    requires Encodable(good) && AllSendable(good) && |bad| < 0x1_0000_0000 && !Sendable(bad) && Encodable(more)
    requires Encodable(good + [bad] + more)
    ensures IsCutting(pieces, EncodeAll(good + [bad] + more))
    ensures Parse(START, pieces).emitted != good + [bad] + more
  {
    hide Parse, EncodeAll, Flatten, Encodable, AllSendable, Uint32Le, Feed, Countable;
    var first, header, rest := EncodeAll(good), Uint32Le(|bad|), bad + EncodeAll(more);
    var before := if first == [] then [] else [first];
    var after := if rest == [] then [] else [rest];
    FlattenOne(first);
    FlattenOne(rest);
    pieces := before + [header] + after;
    FlattenParts(before, header, after);
    EncodedParts(good, bad, more);
    assert (first + header) + rest == first + ((header + bad) + EncodeAll(more));
    Arrives(good, before);
    ParseParts(before, header, after);
    BadHeader(good, |bad|);
    var s := Feed(State(0, [], good, false), header);
    StopsShort(s, good, bad, more, after);
  }

  lemma FlattenParts(before: seq<Bytestring>, header: Bytestring, after: seq<Bytestring>)
    ensures Flatten(before + [header] + after) == (Flatten(before) + header) + Flatten(after)
  {
    if before == [] {
      assert ([] + [header] + after)[1..] == after;
      assert [] + header == header;
    } else {
      assert (before + [header] + after)[1..] == before[1..] + [header] + after;
      FlattenParts(before[1..], header, after);
    }
  }

  lemma EncodedParts(good: seq<Bytestring>, bad: Bytestring, more: seq<Bytestring>)
    requires Encodable(good) && |bad| < 0x1_0000_0000 && Encodable(more) && Encodable(good + [bad] + more)
    ensures EncodeAll(good + [bad] + more) == EncodeAll(good) + ((Uint32Le(|bad|) + bad) + EncodeAll(more))
  {
    assert good + [bad] + more == good + ([bad] + more);
    EncodeAllConcat(good, [bad] + more);
    assert ([bad] + more)[1..] == more;
  }

  lemma ParseParts(before: seq<Bytestring>, header: Bytestring, after: seq<Bytestring>)
    ensures Parse(START, before + [header] + after) == Parse(Feed(Parse(START, before), header), after)
  {
    hide Feed;
    ParseConcat(START, before + [header], after);
    ParseAppend(START, before, header);
  }

  /** What is left of the bytes is too little for the rest of the payloads. */
  lemma StopsShort(s: State, good: seq<Bytestring>, bad: Bytestring, more: seq<Bytestring>, after: seq<Bytestring>)
    requires Countable(s) && s.pile == [] && s.emitted == good && (s.failed || s.frame == 0)
    requires |bad| < 0x1_0000_0000 && Encodable(more) && Encodable(good + [bad] + more)
    requires Flatten(after) == bad + EncodeAll(more)
    ensures Parse(s, after).emitted != good + [bad] + more
  {
    hide Parse, EncodeAll, Flatten;
    if s.failed {
      FailedStays(s, after);
    } else {
      ParseBound(s, after);
      EncodedParts(good, bad, more);
    }
  }

  /** The round trip is exact: lists of payloads of 1 byte to 3 MB, and no others, arrive whatever the cutting. */
  lemma RoundTripsExactly(payloads: seq<Bytestring>)
    requires Encodable(payloads)
    ensures RoundTrips(payloads) <==> forall p :: p in payloads ==> 1 <= |p| <= 3 * 1024 * 1024
  {
    assert AllSendable(payloads) <==> forall p :: p in payloads ==> 1 <= |p| <= 3 * 1024 * 1024;
    hide Parse, EncodeAll, Flatten, Sendable, AllSendable;
    if AllSendable(payloads) {
      forall pieces | IsCutting(pieces, EncodeAll(payloads))
        ensures Parse(START, pieces).emitted == payloads
      {
        Arrives(payloads, pieces);
      }
    } else {
      var k := FirstBad(payloads);
      var good, more := payloads[..k], payloads[k + 1..];
      assert payloads == good + [payloads[k]] + more;
      var pieces := BadCutting(good, payloads[k], more);
    }
  }

  lemma {:induction false} FirstBad(payloads: seq<Bytestring>) returns (k: nat)
    requires !AllSendable(payloads)
    ensures k < |payloads| && !Sendable(payloads[k]) && AllSendable(payloads[..k])
  {
    if !Sendable(payloads[0]) {
      k := 0;
    } else {
      var rest := FirstBad(payloads[1..]);
      k := rest + 1;
      assert payloads[..k] == [payloads[0]] + payloads[1..][..rest];
    }
  }

  // ----- The object -----

  class FrameParser {
    /** What waits in the socket; a call of its `read` gives all of it. */
    var socket: Bytestring
    var chunks: seq<Bytestring>
    var chunklen: nat
    var frame: nat
    /** From the start of a run of `read` until one finds the socket empty. Unless the parser has given up, the next
        run is then due, by setImmediate or by the handler. */
    var processing: bool
    var failed: bool
    /** The frames passed to the handler. */
    var emitted: seq<Bytestring>

    /** What the socket gave so far, piece by piece, and all bytes that ever arrived. */
    ghost var taken: seq<Bytestring>
    ghost var arrived: Bytestring

    function View(): State
      reads this
    {
      State(frame, Flatten(chunks), emitted, failed)
    }

    /** At every point the object is on the way to the state that the pieces read so far lead to; when no run is due, it
        is there and the socket is empty. */
    ghost predicate Valid()
      reads this
    {
      && chunklen == |Flatten(chunks)|
      && (frame != 0 && !failed ==> chunklen < frame)
      && Settle(View()) == Parse(START, taken)
      && IsCutting(taken, Flatten(taken))
      && arrived == Flatten(taken) + socket
      && (failed ==> processing)
      && (!processing ==> socket == [] && Settled(View()))
    }

    constructor ()
      ensures Valid() && arrived == [] && !processing && emitted == []
    {
      socket, chunks, chunklen, frame, processing, failed, emitted := [], [], 0, 0, false, false, [];
      taken, arrived := [], [];
    }

    method Push(chunk: Bytestring)
      requires chunklen == |Flatten(chunks)|
      modifies this`chunks, this`chunklen
      ensures Flatten(chunks) == old(Flatten(chunks)) + chunk && chunklen == |Flatten(chunks)|
    {
      FlattenAppend(chunks, chunk);
      chunks := chunks + [chunk];
      chunklen := chunklen + |chunk|;
    }

    /** Takes the pile, with the chunk on top if there is a pile. */
    method TakePile(chunk: Bytestring) returns (all: Bytestring)
      requires chunklen == |Flatten(chunks)|
      modifies this`chunks, this`chunklen
      ensures all == old(Flatten(chunks)) + chunk
      ensures Flatten(chunks) == [] && chunklen == 0
    {
      all := chunk;
      if chunklen > 0 {
        Push(chunk);
        all := BufferConcat(chunks, chunklen);
        chunks, chunklen := [], 0;
      } else {
        assert Flatten(chunks) == [];
      }
    }

    /** Passes on a frame and piles up what is behind it. */
    method GetFrame(chunk: Bytestring)
      requires Flatten(chunks) == [] && chunklen == 0 && frame <= |chunk|
      modifies this`chunks, this`chunklen, this`frame, this`emitted
      ensures chunklen == |Flatten(chunks)|
      ensures View() == TakePayload(old(View()), chunk)
    {
      var whole := chunk;
      assert [] + chunk == chunk;
      assert |chunk| == frame ==> chunk[..frame] == chunk && chunk[frame..] == [];
      if |chunk| != frame {
        whole := chunk[..frame];
        Push(chunk[frame..]);
        assert [] + chunk[frame..] == chunk[frame..];
      }
      emitted := emitted + [whole];
      frame := 0;
    }

    /** The part behind the header: the frame is complete, or the chunk goes on the pile. */
    method PayloadPart(chunk: Bytestring)
      requires chunklen == |Flatten(chunks)|
      modifies this`chunks, this`chunklen, this`frame, this`emitted
      ensures chunklen == |Flatten(chunks)|
      ensures View() == TakePayload(old(View()), chunk)
    {
      hide Flatten;
      if chunklen + |chunk| < frame {
        Push(chunk);
        return;
      }
      var all := TakePile(chunk);
      assert [] + all == all;
      GetFrame(all);
    }

    /** What `read` does with the bytes it got. */
    method Process(bytes: Bytestring)
      requires chunklen == |Flatten(chunks)| && !failed
      modifies this`chunks, this`chunklen, this`frame, this`emitted, this`failed
      ensures chunklen == |Flatten(chunks)|
      ensures View() == Take(old(View()), bytes)
    {
      hide Flatten, ReadUint32Le, TakePayload;
      var chunk := bytes;
      if frame == 0 {
        if chunklen + |chunk| < 4 {
          Push(chunk);
          return;
        }
        chunk := TakePile(chunk);
        frame := ReadUint32Le(chunk);
        if frame > MAX_FRAME {
          failed := true;
          return;
        }
        if |chunk| > 4 {
          chunk := chunk[4..];
        } else {
          assert chunk[4..] == [];
          return;
        }
      }
      PayloadPart(chunk);
    }

    /** One run of `read`. */
    method Read()
      requires Valid() && !failed
      modifies this
      ensures Valid() && arrived == old(arrived)
      ensures failed || !processing || |socket| < |old(socket)| || (socket == old(socket) && chunklen < old(chunklen))
    {
      hide Take, TakeHeader;
      processing := true;
      var chunk;
      ghost var before := View();
      if frame == 0 && chunklen >= 4 {
        // the pile goes first if it may have a header
        chunk := BufferConcat(chunks, chunklen);
        chunks, chunklen := [], 0;
        PileShrinks(before);
        assert chunk == before.pile && View() == before.(pile := []);
        Process(chunk);
        assert View() == Take(before.(pile := []), before.pile);
        return;
      }
      if socket == [] {
        processing := false;
        return;
      }
      chunk := socket;
      ParseAppend(START, taken, chunk);
      FlattenAppend(taken, chunk);
      assert Flatten(taken) + socket == (Flatten(taken) + chunk) + [];
      socket, taken := [], taken + [chunk];
      Process(chunk);
    }

    /** Bytes arrive, at whatever time. */
    method Readable(bytes: Bytestring)
      requires Valid()
      modifies this
      ensures Valid() && arrived == old(arrived) + bytes
    {
      assert Flatten(taken) + (socket + bytes) == Flatten(taken) + socket + bytes;
      socket, arrived := socket + bytes, arrived + bytes;
      if !processing {
        processing := true;
        Read();
      }
    }

    /** The runs that are due, one after the other. */
    method Drain()
      requires Valid()
      modifies this
      ensures Valid() && arrived == old(arrived) && (failed || !processing)
    {
      while processing && !failed
        invariant Valid() && arrived == old(arrived)
        decreases processing && !failed, |socket|, chunklen
      {
        Read();
      }
    }

    /** When no run is due, or the parser has given up, its state is a function of the bytes that arrived and of where
        the socket happened to cut them. */
    lemma StateIsParse() returns (pieces: seq<Bytestring>)
      requires Valid() && (failed || !processing)
      ensures IsCutting(pieces, arrived) && View() == Parse(START, pieces)
    {
      pieces := taken;
      if socket != [] {
        pieces := taken + [socket];
        FlattenAppend(taken, socket);
        ParseAppend(START, taken, socket);
      } else {
        assert Flatten(taken) + [] == Flatten(taken);
      }
    }
  }

  /** Bytes arrive in parts while runs of `read` are due or being waited for: after each part, some number of those due
      take place, and each joins what has arrived by then. What has been passed on in the end is what some cutting of
      the bytes leads to, and sendable payloads come out as they went in. */
  method ReceiveAll(parts: seq<Bytestring>, runs: seq<nat>, ghost payloads: seq<Bytestring>)
    returns (frames: seq<Bytestring>, ghost pieces: seq<Bytestring>)
    requires |runs| == |parts| && Encodable(payloads) && Flatten(parts) == EncodeAll(payloads)
    ensures IsCutting(pieces, EncodeAll(payloads)) && frames == Parse(START, pieces).emitted
    ensures AllSendable(payloads) ==> frames == payloads
  {
    var parser := new FrameParser();
    hide Parse, Flatten, EncodeAll, AllSendable, FrameParser.Valid;
    NoParts();
    for i := 0 to |parts|
      invariant fresh(parser) && parser.Valid() && parser.arrived == Flatten(parts[..i])
    {
      parser.Readable(parts[i]);
      assert parts[..i + 1] == parts[..i] + [parts[i]];
      FlattenAppend(parts[..i], parts[i]);
      for run := 0 to runs[i]
        invariant fresh(parser) && parser.Valid() && parser.arrived == Flatten(parts[..i + 1])
      {
        if parser.processing && !parser.failed {
          parser.Read();
        }
      }
    }
    assert parts[..|parts|] == parts;
    parser.Drain();
    pieces := parser.StateIsParse();
    frames := parser.emitted;
    if AllSendable(payloads) {
      Arrives(payloads, pieces);
    }
  }

  lemma NoParts()
    ensures Flatten<Byte>([]) == []
  {}
}
