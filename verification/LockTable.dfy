/** What the queue locker means: a table of locks and the set of domains to skip. */
module LockTable {

  datatype Lock = Lock(key: string, zone: string, domain: string, owner: string, maxConnections: nat, expires: int)

  type Locks = map<string, Lock>

  datatype Table = Table(locks: Locks, skip: set<(string, string)>)

  const EMPTY := Table(map[], {})

  ghost predicate KeysMatch(locks: Locks) {
    forall k :: k in locks ==> locks[k].key == k
  }

  function OwnedBy(locks: Locks, owner: string): set<Lock> {
    set l | l in locks.Values && l.owner == owner
  }

  function Connections(locks: Locks, zone: string, domain: string): set<Lock> {
    set l | l in locks.Values && l.zone == zone && l.domain == domain
  }

  function Count(t: Table, zone: string, domain: string): nat {
    |Connections(t.locks, zone, domain)|
  }

  // ----- The two elementary operations -----

  /** Adds a lock unless its key is taken. A domain that is full now is skipped, but one that was skipped
      already is not skipped any more. */
  function Acquire(t: Table, l: Lock): Table {
    if l.key in t.locks then
      t
    else
      var locks := t.locks[l.key := l];
      var here := (l.zone, l.domain);
      if l.domain == "" then
        Table(locks, t.skip)
      else if l.maxConnections > 0 && |Connections(locks, l.zone, l.domain)| >= l.maxConnections && here !in t.skip then
        Table(locks, t.skip + {here})
      else
        Table(locks, t.skip - {here})
  }

  function Release(t: Table, key: string): Table {
    if key == "" || key !in t.locks then
      t
    else
      var l := t.locks[key];
      var locks := t.locks - {key};
      var room := l.maxConnections == 0 || |Connections(locks, l.zone, l.domain)| < l.maxConnections;
      Table(locks, if l.domain != "" && room then t.skip - {(l.zone, l.domain)} else t.skip)
  }

  function ReleaseAll(t: Table, keys: seq<string>): Table
    decreases |keys|
  {
    if keys == [] then t else ReleaseAll(Release(t, keys[0]), keys[1..])
  }

  lemma {:induction false} ReleaseAllAppend(t: Table, keys: seq<string>, key: string)
    ensures ReleaseAll(t, keys + [key]) == Release(ReleaseAll(t, keys), key)
    decreases |keys|
  {
    if keys == [] {
      assert ReleaseAll(t, [key]) == ReleaseAll(Release(t, key), []);
    } else {
      assert (keys + [key])[1..] == keys[1..] + [key];
      ReleaseAllAppend(Release(t, keys[0]), keys[1..], key);
    }
  }

  /** Whatever the order, releasing keys removes those locks and no other. */
  lemma {:induction false} ReleaseAllLocks(t: Table, keys: seq<string>)
    ensures ReleaseAll(t, keys).locks == map k | k in t.locks && (k == "" || k !in keys) :: t.locks[k]
    decreases |keys|
  {
    if keys != [] {
      ReleaseAllLocks(Release(t, keys[0]), keys[1..]);
      assert forall k :: k in keys <==> k == keys[0] || k in keys[1..];
    }
  }

  /** A lock taken is in the table as it was asked for, unless its key was taken; the others stay. */
  lemma AcquiredLocks(t: Table, l: Lock)
    ensures Acquire(t, l).locks == if l.key in t.locks then t.locks else t.locks[l.key := l]
  {}

  lemma ReleasedLocks(t: Table, key: string)
    ensures Release(t, key).locks == if key == "" then t.locks else t.locks - {key}
  {}

  /** A domain is no more skipped when a lock goes that leaves it with room. */
  lemma ReleasedSkips(t: Table, key: string)
    requires forall z :: (z, "") !in t.skip
    ensures forall z, d :: (z, d) in Release(t, key).skip
                           <==> (z, d) in t.skip
                                && !(key != "" && key in t.locks && t.locks[key].zone == z && t.locks[key].domain == d
                                     && (t.locks[key].maxConnections == 0
                                         || |Connections(Release(t, key).locks, z, d)| < t.locks[key].maxConnections))
  {}

  // ----- Counting -----

  lemma ValuesAdd(locks: Locks, l: Lock)
    requires l.key !in locks && KeysMatch(locks)
    ensures locks[l.key := l].Values == locks.Values + {l} && l !in locks.Values
  {
    var locks' := locks[l.key := l];
    forall x | x in locks.Values + {l}
      ensures x in locks'.Values
    {
      assert x.key in locks' && locks'[x.key] == x;
    }
  }

  lemma ValuesRemove(locks: Locks, key: string)
    requires key in locks && KeysMatch(locks)
    ensures (locks - {key}).Values == locks.Values - {locks[key]}
  {
    var locks' := locks - {key};
    forall x | x in locks.Values - {locks[key]}
      ensures x in locks'.Values
    {
      assert x.key in locks' && locks'[x.key] == x;
    }
  }

  lemma ConnectionsAdd(locks: Locks, l: Lock, zone: string, domain: string)
    requires l.key !in locks && KeysMatch(locks)
    ensures Connections(locks[l.key := l], zone, domain)
            == Connections(locks, zone, domain) + (if l.zone == zone && l.domain == domain then {l} else {})
    ensures l !in Connections(locks, zone, domain)
  {
    ValuesAdd(locks, l);
  }

  lemma ConnectionsRemove(locks: Locks, key: string, zone: string, domain: string)
    requires key in locks && KeysMatch(locks)
    ensures Connections(locks - {key}, zone, domain) == Connections(locks, zone, domain) - {locks[key]}
    ensures locks[key] in Connections(locks, zone, domain) <==> locks[key].zone == zone && locks[key].domain == domain
  {
    ValuesRemove(locks, key);
  }

  /** How one lock more changes the number of connections of each pair. */
  lemma CountAfterAcquire(t: Table, l: Lock, zone: string, domain: string)
    requires KeysMatch(t.locks)
    ensures Count(Acquire(t, l), zone, domain)
            == Count(t, zone, domain)
               + if l.key !in t.locks && l.zone == zone && l.domain == domain then 1 else 0
  {
    if l.key !in t.locks {
      ConnectionsAdd(t.locks, l, zone, domain);
    }
  }

  lemma CountAfterRelease(t: Table, key: string, zone: string, domain: string)
    requires KeysMatch(t.locks)
    ensures Count(Release(t, key), zone, domain)
            == Count(t, zone, domain)
               - if key != "" && key in t.locks && t.locks[key].zone == zone && t.locks[key].domain == domain
                 then 1 else 0
  {
    if key != "" && key in t.locks {
      ConnectionsRemove(t.locks, key, zone, domain);
    }
  }

  // ----- Runs -----

  /** Closing a client and expiry are releases in some order. */
  datatype Op = Take(lock: Lock) | Free(key: string)

  function Step(t: Table, op: Op): Table {
    match op
    case Take(l) => Acquire(t, l)
    case Free(key) => Release(t, key)
  }

  function Run(t: Table, ops: seq<Op>): Table
    decreases |ops|
  {
    if ops == [] then t else Run(Step(t, ops[0]), ops[1..])
  }

  /** A lock for a domain has the limit; one for no domain may have any. */
  predicate HasLimit(l: Lock, limit: nat) {
    l.domain != "" ==> l.maxConnections == limit
  }

  /** Every lock for a domain is taken with the same limit. */
  ghost predicate Uniform(ops: seq<Op>, limit: nat) {
    forall i :: 0 <= i < |ops| && ops[i].Take? ==> HasLimit(ops[i].lock, limit)
  }

  ghost predicate LimitOf(t: Table, limit: nat) {
    && KeysMatch(t.locks)
    && (forall k :: k in t.locks ==> HasLimit(t.locks[k], limit))
  }

  /** Whatever the limits, a skipped domain has a lock that can be released. */
  ghost predicate SkipsHaveLocks(t: Table) {
    && KeysMatch(t.locks) && "" !in t.locks
    && forall z, d :: (z, d) in t.skip ==> d != "" && Connections(t.locks, z, d) != {}
  }

  lemma AcquireKeepsSkips(t: Table, l: Lock)
    requires SkipsHaveLocks(t) && l.key != ""
    ensures SkipsHaveLocks(Acquire(t, l))
  {
    if l.key !in t.locks {
      var t' := Acquire(t, l);
      hide SkipsHaveLocks, KeysMatch, Connections;
      SkipsAre(t);
      forall z, d | (z, d) in t'.skip
        ensures d != "" && Connections(t'.locks, z, d) != {}
      {
        ConnectionsAdd(t.locks, l, z, d);
        assert l in {l};
      }
      SkipsHave(t');
    }
  }

  lemma ReleaseKeepsSkips(t: Table, key: string)
    requires SkipsHaveLocks(t)
    ensures SkipsHaveLocks(Release(t, key))
  {
    if key != "" && key in t.locks {
      var t', l := Release(t, key), t.locks[key];
      SkipsAre(t);
      assert KeysMatch(t'.locks);
      hide SkipsHaveLocks, KeysMatch, Connections;
      forall z, d | (z, d) in t'.skip
        ensures d != "" && Connections(t'.locks, z, d) != {}
      {
        ConnectionsRemove(t.locks, key, z, d);
        assert l.zone == z && l.domain == d ==> |Connections(t'.locks, z, d)| > 0;
      }
      SkipsHave(t');
    }
  }

  lemma SkipsAre(t: Table)
    requires SkipsHaveLocks(t)
    ensures KeysMatch(t.locks) && "" !in t.locks
    ensures forall z, d :: (z, d) in t.skip ==> d != "" && Connections(t.locks, z, d) != {}
  {}

  lemma SkipsHave(t: Table)
    requires KeysMatch(t.locks) && "" !in t.locks
    requires forall z, d :: (z, d) in t.skip ==> d != "" && Connections(t.locks, z, d) != {}
    ensures SkipsHaveLocks(t)
  {}

  lemma {:induction false} ReleaseAllKeepsSkips(t: Table, keys: seq<string>)
    requires SkipsHaveLocks(t)
    ensures SkipsHaveLocks(ReleaseAll(t, keys))
    decreases |keys|
  {
    if keys != [] {
      ReleaseKeepsSkips(t, keys[0]);
      ReleaseAllKeepsSkips(Release(t, keys[0]), keys[1..]);
    }
  }

  /** A skipped domain has at least as many connections as it may have. */
  ghost predicate SkippedAreFull(t: Table, limit: nat) {
    forall z, d :: (z, d) in t.skip ==> d != "" && Count(t, z, d) >= limit
  }

  /** No domain has more connections than it may have, and the full ones are the skipped ones. */
  ghost predicate WithinLimit(t: Table, limit: nat) {
    forall z, d :: d != "" ==> PairWithin(t, limit, z, d)
  }

  predicate PairWithin(t: Table, limit: nat, z: string, d: string) {
    Count(t, z, d) <= limit && ((z, d) in t.skip <==> Count(t, z, d) == limit)
  }

  lemma StepKeepsLimitOf(t: Table, op: Op, limit: nat)
    requires LimitOf(t, limit) && (op.Take? ==> HasLimit(op.lock, limit))
    ensures LimitOf(Step(t, op), limit)
  {}

  lemma StepKeepsFull(t: Table, op: Op, limit: nat)
    requires limit >= 1 && LimitOf(t, limit) && (op.Take? ==> HasLimit(op.lock, limit))
    requires SkippedAreFull(t, limit)
    ensures SkippedAreFull(Step(t, op), limit)
  {
    var t' := Step(t, op);
    forall z, d | (z, d) in t'.skip
      ensures d != "" && Count(t', z, d) >= limit
    {
      match op
      case Take(l) =>
        CountAfterAcquire(t, l, z, d);
      case Free(key) =>
        CountAfterRelease(t, key, z, d);
    }
  }

  /** In every run with one limit, no domain is skipped that has room. */
  lemma {:induction false} SkippingIsJustified(t: Table, ops: seq<Op>, limit: nat)
    requires limit >= 1 && LimitOf(t, limit) && SkippedAreFull(t, limit) && Uniform(ops, limit)
    ensures LimitOf(Run(t, ops), limit) && SkippedAreFull(Run(t, ops), limit)
    decreases |ops|
  {
    if ops != [] {
      StepKeepsLimitOf(t, ops[0], limit);
      StepKeepsFull(t, ops[0], limit);
      SkippingIsJustified(Step(t, ops[0]), ops[1..], limit);
    }
  }

  /** The step adds no connection to a domain that is being skipped. */
  predicate Respects(t: Table, op: Op) {
    op.Take? && op.lock.key !in t.locks && op.lock.domain != "" ==> (op.lock.zone, op.lock.domain) !in t.skip
  }

  /** One step within the limit stays within it exactly when it does not lock a skipped domain. */
  lemma StepWithinLimit(t: Table, op: Op, limit: nat)
    requires limit >= 1 && LimitOf(t, limit) && (op.Take? ==> HasLimit(op.lock, limit))
    requires WithinLimit(t, limit)
    ensures WithinLimit(Step(t, op), limit) <==> Respects(t, op)
  {
    var t' := Step(t, op);
    forall z, d | d != "" && Respects(t, op)
      ensures PairWithin(t', limit, z, d)
    {
      assert PairWithin(t, limit, z, d);
      match op
      case Take(l) =>
        CountAfterAcquire(t, l, z, d);
      case Free(key) =>
        CountAfterRelease(t, key, z, d);
    }
    if !Respects(t, op) {
      var z, d := op.lock.zone, op.lock.domain;
      assert PairWithin(t, limit, z, d);
      CountAfterAcquire(t, op.lock, z, d);
      assert !PairWithin(t', limit, z, d);
    }
  }

  ghost predicate AlwaysWithin(t: Table, ops: seq<Op>, limit: nat)
    decreases |ops|
  {
    WithinLimit(t, limit) && (ops != [] ==> AlwaysWithin(Step(t, ops[0]), ops[1..], limit))
  }

  predicate AlwaysRespects(t: Table, ops: seq<Op>)
    decreases |ops|
  {
    ops != [] ==> Respects(t, ops[0]) && AlwaysRespects(Step(t, ops[0]), ops[1..])
  }

  /** Over every run with one limit, the connections stay within it, with exactly the full domains skipped,
      if and only if no lock is ever taken for a domain that is being skipped. */
  lemma {:induction false} ConnectionLimit(t: Table, ops: seq<Op>, limit: nat)
    requires limit >= 1 && LimitOf(t, limit) && WithinLimit(t, limit) && Uniform(ops, limit)
    ensures AlwaysWithin(t, ops, limit) <==> AlwaysRespects(t, ops)
    decreases |ops|
  {
    if ops != [] {
      StepKeepsLimitOf(t, ops[0], limit);
      StepWithinLimit(t, ops[0], limit);
      if Respects(t, ops[0]) {
        ConnectionLimit(Step(t, ops[0]), ops[1..], limit);
      }
    }
  }

  /** What happens otherwise: the domain gets one connection too many and is open to more. */
  lemma LockingASkippedDomain(t: Table, l: Lock, limit: nat)
    requires limit >= 1 && LimitOf(t, limit) && WithinLimit(t, limit)
    requires l.key !in t.locks && l.domain != "" && l.maxConnections == limit && (l.zone, l.domain) in t.skip
    ensures Count(Acquire(t, l), l.zone, l.domain) == limit + 1
    ensures (l.zone, l.domain) !in Acquire(t, l).skip
  {
    assert PairWithin(t, limit, l.zone, l.domain);
    CountAfterAcquire(t, l, l.zone, l.domain);
  }
}
