/** Bytes, the few octets the mail code looks at, and joining buffers. */
module Bytes {
  type Byte = b: int | 0 <= b < 256

  const TAB: Byte := 0x09
  const LF: Byte := 0x0a
  const CR: Byte := 0x0d
  const SP: Byte := 0x20

  const CRLF: seq<Byte> := [CR, LF]

  predicate IsWsp(b: Byte) {
    b == SP || b == TAB
  }

  predicate IsEol(b: Byte) {
    b == CR || b == LF
  }

  predicate IsVisible(b: Byte) {
    !IsWsp(b) && !IsEol(b)
  }

  /** Every LF follows a CR; `afterCr` says whether the byte before `s` was one. */
  predicate LfsFollowCr(afterCr: bool, s: seq<Byte>)
    decreases s
  {
    s == [] || ((s[0] == LF ==> afterCr) && LfsFollowCr(s[0] == CR, s[1..]))
  }

  predicate NoBareLf(s: seq<Byte>) {
    LfsFollowCr(false, s)
  }

  predicate EndsInCr(afterCr: bool, s: seq<Byte>) {
    if s == [] then afterCr else s[|s| - 1] == CR
  }

  lemma {:induction false} LfsFollowCrConcat(afterCr: bool, s: seq<Byte>, t: seq<Byte>)
    ensures LfsFollowCr(afterCr, s + t) <==> LfsFollowCr(afterCr, s) && LfsFollowCr(EndsInCr(afterCr, s), t)
    decreases s
  {
    if s == [] {
      assert s + t == t;
    } else {
      assert (s + t)[1..] == s[1..] + t;
      LfsFollowCrConcat(s[0] == CR, s[1..], t);
    }
  }

  function Flatten<T>(parts: seq<seq<T>>): seq<T> {
    if parts == [] then [] else parts[0] + Flatten(parts[1..])
  }

  lemma {:induction false} FlattenAppend<T>(parts: seq<seq<T>>, part: seq<T>)
    ensures Flatten(parts + [part]) == Flatten(parts) + part
  {
    if parts == [] {
    } else {
      assert (parts + [part])[1..] == parts[1..] + [part];
      FlattenAppend(parts[1..], part);
    }
  }

  /** Node's Buffer.concat with an explicit length: cut off, or filled up with zeros. */
  function BufferConcat(parts: seq<seq<Byte>>, total: nat): seq<Byte> {
    var all := Flatten(parts);
    if total <= |all| then all[..total] else all + seq(total - |all|, _ => 0)
  }
}
