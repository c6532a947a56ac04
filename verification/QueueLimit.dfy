/** The connection limit in the queue as a whole: requests in flight at the same time can exceed it, and the locks plus
    the locks still to be taken say exactly when. */
module QueueLimit {
  import opened Collections
  import opened Options
  import opened LockTable
  import opened QueueProtocol
  import QueueExclusion
  import QueuePush

  /** The keys of the locks for a zone and domain that picked rows are still to get. */
  function PendingKeys(m: Memory, zone: string, domain: string): set<string> {
    set t | t in m.tasks && IsPending(t, m.table, zone, domain) :: Key(t.row)
  }

  predicate IsPending(t: Task, table: Table, zone: string, domain: string) {
    t.ToLock? && t.query.zone == zone && t.domain == domain && Key(t.row) !in table.locks
  }

  /** The connections there are, and those that are still to come of requests in flight. */
  function Claims(m: Memory, zone: string, domain: string): nat {
    Count(m.table, zone, domain) + |PendingKeys(m, zone, domain)|
  }

  /** All events are lock-takings of the instance. */
  ghost predicate OnlyLocks(es: seq<Event>, i: Instance) {
    forall e :: e in es ==> e.TakeLock? && e.i == i
  }

  lemma MemoryAfterLock(s: State, e: Event, gap: int)
    requires Enabled(s, e, gap) && e.TakeLock?
    ensures e.i in s.memory && e.i in Apply(s, e, gap).memory
    ensures var task, m, m' := ToLock(e.row, e.domain, e.count, e.query), s.memory[e.i], Apply(s, e, gap).memory[e.i];
            && task in m.tasks
            && m'.table == Acquire(m.table, SenderLock(s, e.row, e.domain, e.query, e.maxConnections))
            && (forall t: Task :: t.ToLock? ==> m'.tasks[t] == m.tasks[t] - if t == task then 1 else 0)
  {
    hide Acquire, Key, RowsAfter, BodiesAfter;
  }

  /** A lock more is a claim less. */
  lemma ClaimsAfterLock(s: State, e: Event, gap: int, zone: string, domain: string)
    requires Enabled(s, e, gap) && e.TakeLock? && KeysMatch(s.memory[e.i].table.locks)
    ensures e.i in Apply(s, e, gap).memory && KeysMatch(Apply(s, e, gap).memory[e.i].table.locks)
    ensures var m, m' := s.memory[e.i], Apply(s, e, gap).memory[e.i];
            && Claims(m', zone, domain) <= Claims(m, zone, domain)
            && (IsPending(ToLock(e.row, e.domain, e.count, e.query), m.table, zone, domain) ==>
                  && Claims(m', zone, domain) == Claims(m, zone, domain)
                  && |PendingKeys(m', zone, domain)| < |PendingKeys(m, zone, domain)|)
  {
    hide Apply, Enabled, Count, PendingKeys, Key, Acquire, KeysMatch;
    MemoryAfterLock(s, e, gap);
    var m, m' := s.memory[e.i], Apply(s, e, gap).memory[e.i];
    var l := SenderLock(s, e.row, e.domain, e.query, e.maxConnections);
    CountAfterAcquire(m.table, l, zone, domain);
    AcquireKeepsKeys(m.table, l);
    PendingAfterLock(m, m', ToLock(e.row, e.domain, e.count, e.query), l, zone, domain);
  }

  lemma AcquireKeepsKeys(t: Table, l: Lock)
    requires KeysMatch(t.locks)
    ensures KeysMatch(Acquire(t, l).locks)
  {}

  lemma PendingAfterLock(m: Memory, m': Memory, task: Task, l: Lock, zone: string, domain: string)
    requires task.ToLock? && task in m.tasks && m'.table == Acquire(m.table, l)
    requires l.key == Key(task.row) && l.zone == task.query.zone && l.domain == task.domain
    requires forall t: Task :: t.ToLock? ==> m'.tasks[t] == m.tasks[t] - if t == task then 1 else 0
    ensures PendingKeys(m', zone, domain) <= PendingKeys(m, zone, domain) - {l.key}
    ensures IsPending(task, m.table, zone, domain) ==>
              l.key in PendingKeys(m, zone, domain)
              && PendingKeys(m', zone, domain) == PendingKeys(m, zone, domain) - {l.key}
    ensures |PendingKeys(m', zone, domain)| <= |PendingKeys(m, zone, domain)|
    ensures l.key !in m.table.locks && l.zone == zone && l.domain == domain ==>
              |PendingKeys(m', zone, domain)| == |PendingKeys(m, zone, domain)| - 1
  {
    hide Key;
    var pending, pending' := PendingKeys(m, zone, domain), PendingKeys(m', zone, domain);
    assert m'.table.locks == if l.key in m.table.locks then m.table.locks else m.table.locks[l.key := l];
    hide Acquire;
    forall k | k in pending'
      ensures k in pending && k != l.key
    {
      var t :| t in m'.tasks && IsPending(t, m'.table, zone, domain) && Key(t.row) == k;
      assert t in m.tasks && IsPending(t, m.table, zone, domain);
    }
    if IsPending(task, m.table, zone, domain) {
      forall k | k in pending && k != l.key
        ensures k in pending'
      {
        var t :| t in m.tasks && IsPending(t, m.table, zone, domain) && Key(t.row) == k;
        assert t != task && t in m'.tasks && IsPending(t, m'.table, zone, domain);
      }
    }
    Smaller(pending', pending);
    Smaller(pending', pending - {l.key});
  }

  /** However many locks are taken, there are never more than were claimed. */
  lemma {:induction false} ClaimsBound(s: State, es: seq<Event>, gap: int, i: Instance, zone: string, domain: string)
    requires Runs(s, es, gap) && OnlyLocks(es, i) && i in s.memory && KeysMatch(s.memory[i].table.locks)
    ensures i in After(s, es, gap).memory
    ensures Count(After(s, es, gap).memory[i].table, zone, domain) <= Claims(s.memory[i], zone, domain)
    decreases |es|
  {
    hide Enabled, Apply, Count, PendingKeys, KeysMatch;
    if es != [] {
      assert es[0] in es;
      ClaimsAfterLock(s, es[0], gap, zone, domain);
      ClaimsBound(Apply(s, es[0], gap), es[1..], gap, i, zone, domain);
    }
  }

  /** All that is claimed can be taken. */
  lemma {:induction false} ClaimsTaken(s: State, gap: int, i: Instance, zone: string, domain: string, limit: nat)
    returns (es: seq<Event>)
    requires i in s.memory && KeysMatch(s.memory[i].table.locks)
    ensures Runs(s, es, gap) && OnlyLocks(es, i) && Limited(es, limit)
    ensures i in After(s, es, gap).memory
    ensures Count(After(s, es, gap).memory[i].table, zone, domain) == Claims(s.memory[i], zone, domain)
    decreases |PendingKeys(s.memory[i], zone, domain)|
  {
    hide Enabled, Apply, Count, PendingKeys, KeysMatch, Runs, After;
    if PendingKeys(s.memory[i], zone, domain) == {} {
      es := [];
      NoRun(s, gap);
    } else {
      var e := TakeOne(s, gap, i, zone, domain, limit);
      ClaimsAfterLock(s, e, gap, zone, domain);
      var rest := ClaimsTaken(Apply(s, e, gap), gap, i, zone, domain, limit);
      RunsCons(s, e, rest, gap);
      es := [e] + rest;
    }
  }

  lemma NoRun(s: State, gap: int)
    ensures Runs(s, [], gap) && After(s, [], gap) == s
  {}

  lemma TakeOne(s: State, gap: int, i: Instance, zone: string, domain: string, limit: nat) returns (e: Event)
    requires i in s.memory && PendingKeys(s.memory[i], zone, domain) != {}
    ensures Enabled(s, e, gap) && e.TakeLock? && e.i == i && e.maxConnections == limit
    ensures IsPending(ToLock(e.row, e.domain, e.count, e.query), s.memory[i].table, zone, domain)
  {
    var m := s.memory[i];
    var k :| k in PendingKeys(m, zone, domain);
    var t :| t in m.tasks && IsPending(t, m.table, zone, domain) && Key(t.row) == k;
    hide Key;
    e := TakeLock(i, t.row, t.domain, t.count, t.query, limit);
  }

  /** Every lock is taken with the limit. */
  ghost predicate Limited(es: seq<Event>, limit: nat) {
    forall e :: e in es && e.TakeLock? ==> e.maxConnections == limit
  }

  /** Whatever locks the requests in flight go on to take, the connections stay within the limit. */
  ghost predicate StaysWithin(s: State, gap: int, i: Instance, zone: string, domain: string, limit: nat)
    requires i in s.memory
  {
    forall es :: Runs(s, es, gap) && OnlyLocks(es, i) ==>
      i in After(s, es, gap).memory ==> Count(After(s, es, gap).memory[i].table, zone, domain) <= limit
  }

  /** The limit holds if and only if the connections and those still to come do not exceed it. */
  lemma ClaimsDecide(s: State, gap: int, i: Instance, zone: string, domain: string, limit: nat)
    requires i in s.memory && KeysMatch(s.memory[i].table.locks)
    ensures StaysWithin(s, gap, i, zone, domain, limit) <==> Claims(s.memory[i], zone, domain) <= limit
  {
    hide Runs, After, Count, PendingKeys, KeysMatch, OnlyLocks;
    if Claims(s.memory[i], zone, domain) <= limit {
      forall es | Runs(s, es, gap) && OnlyLocks(es, i)
        ensures i in After(s, es, gap).memory && Count(After(s, es, gap).memory[i].table, zone, domain) <= limit
      {
        ClaimsBound(s, es, gap, i, zone, domain);
      }
    } else {
      var es := ClaimsTaken(s, gap, i, zone, domain, limit);
    }
  }

  // ----- A run that exceeds the limit -----

  const ZONE := "z"
  const DOMAIN := "d"

  function RowOf(n: nat): RowId {
    RowId("a", QueuePush.Number(n))
  }

  lemma RowsDiffer(a: nat, b: nat)
    requires Key(RowOf(a)) == Key(RowOf(b))
    ensures a == b
  {
    hide Key, QueuePush.Number;
    QueueExclusion.KeyInjective(RowOf(a), RowOf(b));
    QueuePush.NumbersDiffer(a, b);
  }

  function Keys(n: nat): set<string> {
    set k | 1 <= k <= n :: Key(RowOf(k))
  }

  lemma {:induction false} KeysCount(n: nat)
    ensures |Keys(n)| == n
  {
    hide Key, RowOf;
    if n > 0 {
      KeysCount(n - 1);
      forall k | 1 <= k < n
        ensures Key(RowOf(k)) != Key(RowOf(n))
      {
        if Key(RowOf(k)) == Key(RowOf(n)) {
          RowsDiffer(k, n);
        }
      }
      assert Keys(n) == Keys(n - 1) + {Key(RowOf(n))};
    } else {
      assert Keys(0) == {};
    }
  }

  /** Requests have picked the first rows of the message, and have still to lock them; the others are there to be
      picked. */
  ghost predicate Gathered(s: State, n: nat, total: nat) {
    && 0 in s.memory && s.memory[0].table == EMPTY && s.memory[0].empty == map[] && ZONE in s.memory[0].zones
    && PendingKeys(s.memory[0], ZONE, DOMAIN) == Keys(n)
    && forall k :: n < k <= total ==> Free(s, k)
  }

  predicate Free(s: State, k: nat) {
    && RowOf(k) in s.rows
    && s.rows[RowOf(k)] == Row(ZONE, DOMAIN, 0, false, 0, None, 0, 0)
  }

  lemma PollOne(s: State, gap: int, owner: string) returns (s': State, q: Query)
    requires 0 in s.memory && s.memory[0].table == EMPTY && s.memory[0].empty == map[] && ZONE in s.memory[0].zones
    requires !(DELETE_PREFIX <= owner)
    ensures Enabled(s, Poll(0, owner, ZONE), gap) && s' == Apply(s, Poll(0, owner, ZONE), gap)
    ensures q == Query(owner, ZONE, {}, s.now) && Has(s', 0, ToPick(q)) && s'.rows == s.rows && s'.now == s.now
    ensures s'.memory[0].table == EMPTY && s'.memory[0].empty == map[] && ZONE in s'.memory[0].zones
    ensures PendingKeys(s'.memory[0], ZONE, DOMAIN) == PendingKeys(s.memory[0], ZONE, DOMAIN)
  {
    hide Key;
    q := QueryNow(s, 0, owner, ZONE);
    s' := Apply(s, Poll(0, owner, ZONE), gap);
    assert forall t: Task :: t.ToLock? ==> s'.memory[0].tasks[t] == s.memory[0].tasks[t];
  }

  lemma PickOne(s: State, gap: int, q: Query, n: nat, total: nat) returns (s': State)
    requires Has(s, 0, ToPick(q)) && q.zone == ZONE && q.skip == {} && q.asked >= 0
             && n < total && Gathered(s, n, total)
    ensures Enabled(s, Pick(0, RowOf(n + 1), q), gap) && s' == Apply(s, Pick(0, RowOf(n + 1), q), gap)
    ensures Gathered(s', n + 1, total) && s'.now == s.now
  {
    hide Key, RowOf, Keys;
    assert Free(s, n + 1);
    var row := RowOf(n + 1);
    s' := Apply(s, Pick(0, row, q), gap);
    PickedTasks(s, gap, q, row);
    AddPending(s.memory[0], s'.memory[0], ToLock(row, DOMAIN, 0, q));
    hide PendingKeys, Apply;
    MoreKeys(n);
    OthersFree(s, s', gap, q, n, total);
  }

  lemma PickedTasks(s: State, gap: int, q: Query, row: RowId)
    requires Enabled(s, Pick(0, row, q), gap) && s.rows[row].domain == DOMAIN && s.rows[row].deferrals == 0
    ensures var m, m' := s.memory[0], Apply(s, Pick(0, row, q), gap).memory[0];
            && m'.table == m.table && m'.empty == m.empty && m'.zones == m.zones
            && (forall t: Task :: t.ToLock? ==>
                  m'.tasks[t] == m.tasks[t] + if t == ToLock(row, DOMAIN, 0, q) then 1 else 0)
  {
    hide RowsAfter, BodiesAfter;
  }

  lemma AddPending(m: Memory, m': Memory, task: Task)
    requires task.ToLock? && task.query.zone == ZONE && task.domain == DOMAIN && m.table == m'.table == EMPTY
    requires forall t: Task :: t.ToLock? ==> m'.tasks[t] == m.tasks[t] + if t == task then 1 else 0
    ensures PendingKeys(m', ZONE, DOMAIN) == PendingKeys(m, ZONE, DOMAIN) + {Key(task.row)}
  {
    hide Key;
    assert task in m'.tasks && IsPending(task, m'.table, ZONE, DOMAIN);
    forall k | k in PendingKeys(m, ZONE, DOMAIN)
      ensures k in PendingKeys(m', ZONE, DOMAIN)
    {
      var t :| t in m.tasks && IsPending(t, m.table, ZONE, DOMAIN) && Key(t.row) == k;
      assert t in m'.tasks;
    }
    forall k | k in PendingKeys(m', ZONE, DOMAIN) && k != Key(task.row)
      ensures k in PendingKeys(m, ZONE, DOMAIN)
    {
      var t :| t in m'.tasks && IsPending(t, m'.table, ZONE, DOMAIN) && Key(t.row) == k;
      assert t in m.tasks;
    }
  }

  lemma MoreKeys(n: nat)
    ensures Keys(n + 1) == Keys(n) + {Key(RowOf(n + 1))}
  {
    hide Key, RowOf;
  }

  lemma OthersFree(s: State, s': State, gap: int, q: Query, n: nat, total: nat)
    requires Enabled(s, Pick(0, RowOf(n + 1), q), gap) && s' == Apply(s, Pick(0, RowOf(n + 1), q), gap)
    requires forall k :: n < k <= total ==> Free(s, k)
    ensures forall k :: n + 1 < k <= total ==> Free(s', k)
  {
    hide MemoryAfter, RowOf;
    forall k | n + 1 < k <= total
      ensures Free(s', k)
    {
      assert Free(s, k);
      if RowOf(k) == RowOf(n + 1) {
        RowsDiffer(k, n + 1);
      }
    }
  }

  lemma {:induction false} GatherAll(s: State, gap: int, n: nat, total: nat) returns (es: seq<Event>)
    requires n <= total && Gathered(s, n, total) && s.now >= 0
    ensures Runs(s, es, gap) && Gathered(After(s, es, gap), total, total)
    ensures forall e :: e in es ==> !e.TakeLock?
    decreases total - n, 0
  {
    if n == total {
      es := [];
    } else {
      var s1, s2, q := GatherOne(s, gap, n, total);
      es := GatherRest(s, s1, s2, q, gap, n, total);
    }
  }

  lemma {:induction false} GatherRest(s: State, s1: State, s2: State, q: Query, gap: int, n: nat, total: nat)
    returns (es: seq<Event>)
    requires n < total && s2.now >= 0 && Gathered(s2, n + 1, total)
    requires Enabled(s, Poll(0, "c", ZONE), gap) && s1 == Apply(s, Poll(0, "c", ZONE), gap)
    requires Enabled(s1, Pick(0, RowOf(n + 1), q), gap) && s2 == Apply(s1, Pick(0, RowOf(n + 1), q), gap)
    ensures Runs(s, es, gap) && Gathered(After(s, es, gap), total, total)
    ensures forall e :: e in es ==> !e.TakeLock?
    decreases total - (n + 1), 1
  {
    hide Enabled, Apply, Runs, After, Gathered, RowOf;
    var rest := GatherAll(s2, gap, n + 1, total);
    var poll, pick := Poll(0, "c", ZONE), Pick(0, RowOf(n + 1), q);
    RunsCons(s1, pick, rest, gap);
    RunsCons(s, poll, [pick] + rest, gap);
    es := [poll] + ([pick] + rest);
  }

  lemma GatherOne(s: State, gap: int, n: nat, total: nat) returns (s1: State, s2: State, q: Query)
    requires n < total && Gathered(s, n, total) && s.now >= 0
    ensures Enabled(s, Poll(0, "c", ZONE), gap) && s1 == Apply(s, Poll(0, "c", ZONE), gap)
    ensures Enabled(s1, Pick(0, RowOf(n + 1), q), gap) && s2 == Apply(s1, Pick(0, RowOf(n + 1), q), gap)
    ensures Gathered(s2, n + 1, total) && s2.now >= 0
  {
    hide Enabled, Apply, PendingKeys, Keys, RowOf;
    s1, q := PollOne(s, gap, "c");
    assert Gathered(s1, n, total) by {
      assert forall k :: n < k <= total ==> Free(s, k) && Free(s1, k);
    }
    s2 := PickOne(s1, gap, q, n, total);
  }

  /** For every limit there is a run in which every lock is taken with it, and every request respects the skip list it
      has read, and that still ends with one connection too many: the requests all came in before any took its lock. */
  lemma LimitExceeded(limit: nat, gap: int) returns (s: State, es: seq<Event>)
    requires gap >= 0
    ensures Initial(s) && Runs(s, es, gap) && Limited(es, limit)
    ensures 0 in After(s, es, gap).memory && Count(After(s, es, gap).memory[0].table, ZONE, DOMAIN) == limit + 1
  {
    hide Runs, After, Enabled, Apply, PendingKeys, Keys, Count, Gathered;
    var push;
    s, push := PushMany(gap, limit + 1);
    var s2 := After(s, push, gap);
    var gather := GatherAll(s2, gap, 0, limit + 1);
    var s3 := After(s2, gather, gap);
    AllGathered(s3, limit + 1);
    var take := ClaimsTaken(s3, gap, 0, ZONE, DOMAIN, limit);
    RunsConcat(s, push, gather, gap);
    RunsConcat(s, push + gather, take, gap);
    es := (push + gather) + take;
  }

  lemma AllGathered(s: State, total: nat)
    requires Gathered(s, total, total)
    ensures 0 in s.memory && KeysMatch(s.memory[0].table.locks) && Claims(s.memory[0], ZONE, DOMAIN) == total
  {
    KeysCount(total);
    assert Connections(EMPTY.locks, ZONE, DOMAIN) == {};
  }

  lemma PushMany(gap: int, total: nat) returns (s: State, es: seq<Event>)
    requires gap >= 0 && total > 0
    ensures Initial(s) && Runs(s, es, gap) && Gathered(After(s, es, gap), 0, total) && After(s, es, gap).now >= 0
    ensures forall e :: e in es ==> !e.TakeLock?
  {
    s := State(0, map[], map[], map[0 := Memory(EMPTY, multiset{}, multiset{}, map[], {ZONE})], {}, map[], {});
    var targets := map n | n in QueuePush.Numbers(total) :: Target(ZONE, DOMAIN, 0);
    assert QueuePush.Number(1) in targets;
    var store, push := Store("a"), Push("a", targets);
    var s1 := Apply(s, store, gap);
    var s2 := Apply(s1, push, gap);
    PushedGathered(s1, s2, gap, targets, total);
    hide Enabled, Apply, Runs, After;
    RunsOne(s1, push, gap);
    RunsCons(s, store, [push], gap);
    es := [store] + [push];
  }

  lemma PushedGathered(s: State, s': State, gap: int, targets: map<string, Target>, total: nat)
    requires Enabled(s, Push("a", targets), gap) && s' == Apply(s, Push("a", targets), gap) && s.now == 0
    requires s.memory == map[0 := Memory(EMPTY, multiset{}, multiset{}, map[], {ZONE})]
    requires targets == map n | n in QueuePush.Numbers(total) :: Target(ZONE, DOMAIN, 0)
    ensures Gathered(s', 0, total)
  {
    hide QueuePush.Number, Key;
    forall k | 0 < k <= total
      ensures Free(s', k)
    {
      assert QueuePush.Number(k) in targets;
      assert RowOf(k) in NewRows("a", targets, 0);
    }
    assert PendingKeys(s'.memory[0], ZONE, DOMAIN) == {} == Keys(0);
  }
}
