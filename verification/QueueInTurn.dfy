/** An instance that has one request in flight at a time keeps the connection limit. */
module QueueInTurn {
  import opened Collections
  import opened Options
  import opened LockTable
  import opened QueueProtocol

  predicate IsRequest(t: Task) {
    t.ToPick? || t.ToLock? || t.ToHand? || t.ToSend? || t.ToRetry?
  }

  ghost predicate NoRequest(tasks: multiset<Task>) {
    forall t :: t in tasks ==> !IsRequest(t)
  }

  ghost predicate OneRequest(tasks: multiset<Task>) {
    && (forall t :: t in tasks && IsRequest(t) ==> tasks[t] == 1)
    && (forall t, u :: t in tasks && u in tasks && IsRequest(t) && IsRequest(u) ==> t == u)
  }

  /** The key of the lock that a request has taken, if it has got so far. */
  function HeldKey(t: Task): string
    requires IsRequest(t)
  {
    if t.ToPick? || t.ToLock? then "" else Key(t.row)
  }

  function Others(locks: Locks, key: string, zone: string, domain: string): set<Lock> {
    set l | l in locks.Values && l.zone == zone && l.domain == domain && l.key != key
  }

  /** Without the lock of the request itself, there is room at every domain that the request does not skip. */
  ghost predicate Room(locks: Locks, key: string, q: Query, limit: nat) {
    forall d :: d != "" && d !in q.skip ==> |Others(locks, key, q.zone, d)| < limit
  }

  ghost predicate RequestFits(t: Task, locks: Locks, limit: nat)
    requires IsRequest(t)
  {
    && Room(locks, HeldKey(t), t.query, limit)
    && (t.ToLock? ==> t.domain !in t.query.skip)
  }

  ghost predicate TableOrderly(t: Table, limit: nat) {
    limit >= 1 && SkipsHaveLocks(t) && LimitOf(t, limit) && WithinLimit(t, limit)
  }

  ghost predicate Orderly(m: Memory, limit: nat) {
    && TableOrderly(m.table, limit)
    && OneRequest(m.tasks)
    && forall t :: t in m.tasks && IsRequest(t) ==> RequestFits(t, m.table.locks, limit)
  }

  // ----- Room -----

  ghost predicate IsPart(locks': Locks, locks: Locks) {
    forall k :: k in locks' ==> k in locks && locks'[k] == locks[k]
  }

  lemma RoomStays(locks: Locks, locks': Locks, key: string, q: Query, limit: nat)
    requires Room(locks, key, q, limit) && IsPart(locks', locks)
    ensures Room(locks', key, q, limit)
  {
    forall d | d != "" && d !in q.skip
      ensures |Others(locks', key, q.zone, d)| < limit
    {
      Smaller(Others(locks', key, q.zone, d), Others(locks, key, q.zone, d));
    }
  }

  /** A lock for no domain takes no room, nor does the request's own. */
  lemma RoomAfterTake(locks: Locks, l: Lock, key: string, q: Query, limit: nat)
    requires KeysMatch(locks) && l.key !in locks && Room(locks, key, q, limit) && (l.domain == "" || l.key == key)
    ensures Room(locks[l.key := l], key, q, limit)
  {
    ValuesAdd(locks, l);
    forall d | d != "" && d !in q.skip
      ensures |Others(locks[l.key := l], key, q.zone, d)| < limit
    {
      assert Others(locks[l.key := l], key, q.zone, d) == Others(locks, key, q.zone, d);
    }
  }

  /** Before its lock is taken and after it is released, a request counts all locks. */
  lemma RoomChangesKey(locks: Locks, key: string, q: Query, limit: nat)
    requires KeysMatch(locks) && "" !in locks
    ensures Room(locks, "", q, limit) && key !in locks ==> Room(locks, key, q, limit)
    ensures Room(locks, key, q, limit) ==> Room(locks - {key}, "", q, limit)
  {
    if Room(locks, "", q, limit) && key !in locks {
      forall d | d != "" && d !in q.skip
        ensures |Others(locks, key, q.zone, d)| < limit
      {
        assert Others(locks, key, q.zone, d) == Others(locks, "", q.zone, d);
      }
    }
    if Room(locks, key, q, limit) {
      forall d | d != "" && d !in q.skip
        ensures |Others(locks - {key}, "", q.zone, d)| < limit
      {
        Smaller(Others(locks - {key}, "", q.zone, d), Others(locks, key, q.zone, d));
      }
    }
  }

  /** A request that comes in now skips exactly what is full. */
  lemma RoomNow(t: Table, zone: string, q: Query, limit: nat)
    requires TableOrderly(t, limit) && q.zone == zone && q.skip == SkipList(t, zone)
    ensures Room(t.locks, "", q, limit)
  {
    forall d | d != "" && d !in q.skip
      ensures |Others(t.locks, "", q.zone, d)| < limit
    {
      assert PairWithin(t, limit, zone, d);
      assert (zone, d) !in t.skip;
      Smaller(Others(t.locks, "", zone, d), Connections(t.locks, zone, d));
    }
  }

  // ----- The table -----

  lemma TakeInOrder(t: Table, l: Lock, limit: nat)
    requires TableOrderly(t, limit) && HasLimit(l, limit) && l.key != "" && l.key !in t.locks
    requires l.domain != "" ==> |Others(t.locks, "", l.zone, l.domain)| < limit
    ensures TableOrderly(Acquire(t, l), limit)
  {
    AcquireKeepsSkips(t, l);
    StepKeepsLimitOf(t, Take(l), limit);
    if l.domain != "" {
      assert Others(t.locks, "", l.zone, l.domain) == Connections(t.locks, l.zone, l.domain);
      assert PairWithin(t, limit, l.zone, l.domain);
    }
    StepWithinLimit(t, Take(l), limit);
  }

  lemma FreeInOrder(t: Table, key: string, limit: nat)
    requires TableOrderly(t, limit)
    ensures TableOrderly(Release(t, key), limit) && IsPart(Release(t, key).locks, t.locks)
  {
    ReleaseKeepsSkips(t, key);
    StepKeepsLimitOf(t, Free(key), limit);
    StepWithinLimit(t, Free(key), limit);
  }

  lemma {:induction false} FreeAllInOrder(t: Table, keys: seq<string>, limit: nat)
    requires TableOrderly(t, limit)
    ensures TableOrderly(ReleaseAll(t, keys), limit) && IsPart(ReleaseAll(t, keys).locks, t.locks)
    decreases |keys|
  {
    hide TableOrderly, Release;
    if keys != [] {
      FreeInOrder(t, keys[0], limit);
      FreeAllInOrder(Release(t, keys[0]), keys[1..], limit);
    }
  }

  lemma EmptyInOrder(limit: nat)
    requires limit >= 1
    ensures TableOrderly(EMPTY, limit)
  {
    forall z, d | d != ""
      ensures PairWithin(EMPTY, limit, z, d)
    {
      assert Connections(EMPTY.locks, z, d) == {};
    }
  }

  // ----- The requests -----

  lemma StageIsConsumed(s: State, e: Event, gap: int)
    requires Enabled(s, e, gap) && Stage(e).Some?
    ensures IsRequest(Stage(e).value) && At(e) == Some(e.i) && Has(s, e.i, Stage(e).value)
    ensures Consumed(e) == multiset{Stage(e).value}
  {}

  lemma NoStage(s: State, e: Event, gap: int)
    requires Enabled(s, e, gap) && Stage(e) == None && !e.Poll?
    ensures NoRequest(Consumed(e)) && NoRequest(Spawned(s, e, gap))
  {
    hide Enabled, Consumed, Spawned;
    NoneConsumed(e);
    NoneSpawned(s, e, gap);
  }

  lemma NoneConsumed(e: Event)
    requires Stage(e) == None
    ensures NoRequest(Consumed(e))
  {}

  lemma NoneSpawned(s: State, e: Event, gap: int)
    requires Enabled(s, e, gap) && Stage(e) == None && !e.Poll?
    ensures NoRequest(Spawned(s, e, gap))
  {
    hide Enabled;
  }

  lemma NewRequests(s: State, e: Event, gap: int)
    requires Enabled(s, e, gap) && (Stage(e).Some? || e.Poll?)
    ensures OneRequest(Spawned(s, e, gap))
    ensures e.Poll? ==> Consumed(e) == multiset{}
  {
    hide Enabled;
  }

  /** There is one request afterwards: the next stage of the one before, or the same. */
  lemma RequestsAfter(s: State, e: Event, gap: int)
    requires Enabled(s, e, gap) && At(e).Some? && e.i in s.memory && OneRequest(s.memory[e.i].tasks)
    requires e.Poll? ==> NoRequest(s.memory[e.i].tasks)
    ensures var m, m' := s.memory[e.i], MemoryAfter(s, e, gap);
            && OneRequest(m'.tasks)
            && forall t :: t in m'.tasks && IsRequest(t) ==>
                 if Stage(e).Some? || e.Poll? then t in Spawned(s, e, gap) else t in m.tasks
  {
    hide Enabled, Spawned, Consumed, TableAfter, Stage;
    if e.Restart? {
    } else if Stage(e).Some? {
      StageIsConsumed(s, e, gap);
      NewRequests(s, e, gap);
      NextStage(s.memory[e.i].tasks, Stage(e).value, Spawned(s, e, gap));
    } else if e.Poll? {
      NewRequests(s, e, gap);
      FirstStage(s.memory[e.i].tasks, Spawned(s, e, gap));
    } else {
      NoStage(s, e, gap);
      SameStage(s.memory[e.i].tasks, Consumed(e), Spawned(s, e, gap));
    }
  }

  lemma NextStage(tasks: multiset<Task>, t: Task, spawned: multiset<Task>)
    requires OneRequest(tasks) && t in tasks && IsRequest(t) && OneRequest(spawned)
    ensures OneRequest(tasks - multiset{t} + spawned)
    ensures forall u :: u in tasks - multiset{t} + spawned && IsRequest(u) ==> u in spawned
  {
    assert forall u :: u in tasks - multiset{t} ==> !IsRequest(u);
  }

  lemma FirstStage(tasks: multiset<Task>, spawned: multiset<Task>)
    requires NoRequest(tasks) && OneRequest(spawned)
    ensures OneRequest(tasks - multiset{} + spawned)
    ensures forall u :: u in tasks - multiset{} + spawned && IsRequest(u) ==> u in spawned
  {}

  lemma SameStage(tasks: multiset<Task>, consumed: multiset<Task>, spawned: multiset<Task>)
    requires OneRequest(tasks) && NoRequest(consumed) && NoRequest(spawned)
    ensures OneRequest(tasks - consumed + spawned)
    ensures forall u :: u in tasks - consumed + spawned && IsRequest(u) ==> u in tasks
  {
    assert forall u :: IsRequest(u) ==> (tasks - consumed + spawned)[u] == tasks[u];
  }

  // ----- The steps -----

  /** A request comes in only when there is none, and locks for domains are taken with the limit. */
  predicate StepInTurn(s: State, e: Event, i: Instance, limit: nat) {
    && (e.Poll? && e.i == i ==> i in s.memory && forall t :: t in s.memory[i].tasks ==> !IsRequest(t))
    && (e.TakeLock? && e.i == i && e.domain != "" ==> e.maxConnections == limit)
  }

  lemma TableStep(s: State, e: Event, gap: int, limit: nat)
    requires Enabled(s, e, gap) && At(e).Some? && e.i in s.memory && Orderly(s.memory[e.i], limit)
    requires StepInTurn(s, e, e.i, limit)
    ensures TableOrderly(TableAfter(s, e, gap), limit)
    ensures !e.TakeLock? && !e.ApiLock? ==> IsPart(TableAfter(s, e, gap).locks, s.memory[e.i].table.locks)
  {
    var table := s.memory[e.i].table;
    if e.TakeLock? {
      LockStep(s, e, gap, limit);
    } else if e.ApiLock? {
      hide Enabled, TableOrderly, Orderly;
      OrderlyTable(s.memory[e.i], limit);
      ApiStep(s, e, gap, limit);
    } else {
      hide Enabled, TableOrderly, Orderly, Acquire, Release, ReleaseAll, Key;
      OrderlyTable(s.memory[e.i], limit);
      match e
      case FailMeta(_, row, _, _) => FreeInOrder(table, Key(row), limit);
      case FailSend(_, row, _, _) => FreeInOrder(table, Key(row), limit);
      case Retry(_, row, _) => FreeInOrder(table, Key(row), limit);
      case Unlock(_, row) => FreeInOrder(table, Key(row), limit);
      case CloseClient(_, _, keys, _) => FreeAllInOrder(table, keys, limit);
      case ExpireLocks(_, keys) => FreeAllInOrder(table, keys, limit);
      case Restart(_, _) =>
        LimitPositive(table, limit);
        EmptyInOrder(limit);
      case _ =>
    }
  }

  lemma OrderlyTable(m: Memory, limit: nat)
    requires Orderly(m, limit)
    ensures TableOrderly(m.table, limit)
  {}

  lemma LimitPositive(t: Table, limit: nat)
    requires TableOrderly(t, limit)
    ensures limit >= 1 && KeysMatch(t.locks) && "" !in t.locks
  {}

  lemma OrderlyRequest(m: Memory, t: Task, limit: nat)
    requires Orderly(m, limit) && t in m.tasks && IsRequest(t)
    ensures RequestFits(t, m.table.locks, limit)
  {}

  lemma LockStep(s: State, e: Event, gap: int, limit: nat)
    requires Enabled(s, e, gap) && e.TakeLock? && e.i in s.memory && Orderly(s.memory[e.i], limit)
    requires StepInTurn(s, e, e.i, limit)
    ensures TableOrderly(TableAfter(s, e, gap), limit)
  {
    hide Orderly, TableOrderly, Room, Acquire;
    var table, l := s.memory[e.i].table, SenderLock(s, e.row, e.domain, e.query, e.maxConnections);
    OrderlyTable(s.memory[e.i], limit);
    OrderlyRequest(s.memory[e.i], ToLock(e.row, e.domain, e.count, e.query), limit);
    LockKey(e.row);
    if l.key in table.locks {
      assert Acquire(table, l) == table by {
        AcquireTaken(table, l);
      }
    } else {
      if e.domain != "" {
        RoomAt(table.locks, "", e.query, limit, e.domain);
      }
      TakeInOrder(table, l, limit);
    }
  }

  lemma AcquireTaken(t: Table, l: Lock)
    requires l.key in t.locks
    ensures Acquire(t, l) == t
  {}

  lemma LockKey(row: RowId)
    ensures Key(row) != ""
  {}

  lemma RoomAt(locks: Locks, key: string, q: Query, limit: nat, d: string)
    requires Room(locks, key, q, limit) && d != "" && d !in q.skip
    ensures |Others(locks, key, q.zone, d)| < limit
  {}

  lemma ApiStep(s: State, e: Event, gap: int, limit: nat)
    requires Enabled(s, e, gap) && e.ApiLock? && e.i in s.memory && TableOrderly(s.memory[e.i].table, limit)
    ensures TableOrderly(TableAfter(s, e, gap), limit)
  {
    hide TableOrderly, Acquire, Key;
    var table, l := s.memory[e.i].table, Lock(Key(e.row), "", "", e.deleteId, 0, s.now + DELETE_TTL);
    LockKey(e.row);
    if l.key in table.locks {
      AcquireTaken(table, l);
    } else {
      TakeInOrder(table, l, limit);
    }
  }

  /** The request in flight fits the table afterwards, too. */
  lemma RequestStep(s: State, e: Event, gap: int, limit: nat, t: Task)
    requires Enabled(s, e, gap) && At(e).Some? && e.i in s.memory && Orderly(s.memory[e.i], limit)
    requires StepInTurn(s, e, e.i, limit) && IsRequest(t)
    requires if Stage(e).Some? || e.Poll? then t in Spawned(s, e, gap) else t in s.memory[e.i].tasks
    ensures RequestFits(t, TableAfter(s, e, gap).locks, limit)
  {
    hide Orderly, TableOrderly, TableAfter, Spawned, Enabled, RequestFits, StepInTurn, Key, Stage, Consumed;
    var m := s.memory[e.i];
    OrderlyTable(m, limit);
    if e.Poll? {
      PollFits(s, e, gap, limit, t);
    } else if Stage(e).Some? {
      StageIsConsumed(s, e, gap);
      OrderlyRequest(m, Stage(e).value, limit);
      StageFits(s, e, gap, limit, t);
    } else {
      OrderlyRequest(m, t, limit);
      OtherFits(s, e, gap, limit, t);
    }
  }

  lemma PollFits(s: State, e: Event, gap: int, limit: nat, t: Task)
    requires Enabled(s, e, gap) && e.Poll? && TableOrderly(s.memory[e.i].table, limit) && t in Spawned(s, e, gap)
    ensures IsRequest(t) && RequestFits(t, TableAfter(s, e, gap).locks, limit)
  {
    hide TableOrderly, Room;
    RoomNow(s.memory[e.i].table, e.zone, QueryNow(s, e.i, e.owner, e.zone), limit);
  }

  lemma StageFits(s: State, e: Event, gap: int, limit: nat, t: Task)
    requires Enabled(s, e, gap) && Stage(e).Some? && e.i in s.memory && TableOrderly(s.memory[e.i].table, limit)
    requires IsRequest(Stage(e).value) && RequestFits(Stage(e).value, s.memory[e.i].table.locks, limit)
    requires IsRequest(t) && t in Spawned(s, e, gap)
    ensures RequestFits(t, TableAfter(s, e, gap).locks, limit)
  {
    hide TableOrderly, Room, Key, Acquire, Release;
    var table := s.memory[e.i].table;
    LimitPositive(table, limit);
    if e.TakeLock? {
      var l := SenderLock(s, e.row, e.domain, e.query, e.maxConnections);
      if l.key in table.locks {
        AcquireTaken(table, l);
      } else {
        RoomChangesKey(table.locks, l.key, e.query, limit);
        RoomAfterTake(table.locks, l, l.key, e.query, limit);
        AcquireLocks(table, l);
      }
    } else if e.Retry? {
      LockKey(e.row);
      RoomChangesKey(table.locks, Key(e.row), e.query, limit);
      ReleaseLocks(table, Key(e.row));
    }
  }

  lemma AcquireLocks(t: Table, l: Lock)
    requires l.key !in t.locks
    ensures Acquire(t, l).locks == t.locks[l.key := l]
  {}

  lemma ReleaseLocks(t: Table, key: string)
    requires key != ""
    ensures Release(t, key).locks == t.locks - {key}
  {}

  lemma OtherFits(s: State, e: Event, gap: int, limit: nat, t: Task)
    requires Enabled(s, e, gap) && Stage(e) == None && !e.Poll? && At(e).Some? && e.i in s.memory
    requires TableOrderly(s.memory[e.i].table, limit)
    requires StepInTurn(s, e, e.i, limit) && Orderly(s.memory[e.i], limit)
    requires IsRequest(t) && RequestFits(t, s.memory[e.i].table.locks, limit)
    ensures RequestFits(t, TableAfter(s, e, gap).locks, limit)
  {
    hide TableOrderly, Orderly, Room, Key, Enabled, IsPart, HeldKey;
    var table := s.memory[e.i].table;
    LimitPositive(table, limit);
    if e.ApiLock? {
      var l := Lock(Key(e.row), "", "", e.deleteId, 0, s.now + DELETE_TTL);
      if l.key in table.locks {
        AcquireTaken(table, l);
      } else {
        RoomAfterTake(table.locks, l, HeldKey(t), t.query, limit);
        AcquireLocks(table, l);
      }
    } else {
      hide TableAfter;
      TableStep(s, e, gap, limit);
      RoomStays(table.locks, TableAfter(s, e, gap).locks, HeldKey(t), t.query, limit);
    }
  }

  lemma OrderlyStep(s: State, e: Event, gap: int, i: Instance, limit: nat)
    requires Enabled(s, e, gap) && i in s.memory && Orderly(s.memory[i], limit) && StepInTurn(s, e, i, limit)
    ensures i in Apply(s, e, gap).memory && Orderly(Apply(s, e, gap).memory[i], limit)
  {
    hide Enabled, Orderly, RowsAfter, BodiesAfter, MemoryAfter, StepInTurn;
    if At(e) == Some(i) {
      OrderlyAfter(s, e, gap, limit);
    }
  }

  lemma OrderlyAfter(s: State, e: Event, gap: int, limit: nat)
    requires Enabled(s, e, gap) && At(e).Some? && e.i in s.memory && Orderly(s.memory[e.i], limit)
    requires StepInTurn(s, e, e.i, limit)
    ensures Orderly(MemoryAfter(s, e, gap), limit)
  {
    hide TableOrderly, RequestFits, Spawned, Consumed, TableAfter, Enabled, Stage;
    var m' := MemoryAfter(s, e, gap);
    TableStep(s, e, gap, limit);
    RequestsAfter(s, e, gap);
    forall t | t in m'.tasks && IsRequest(t)
      ensures RequestFits(t, m'.table.locks, limit)
    {
      RequestStep(s, e, gap, limit, t);
    }
  }

  // ----- Runs -----

  ghost predicate InTurn(s: State, es: seq<Event>, gap: int, i: Instance, limit: nat)
    requires Runs(s, es, gap)
    decreases |es|
  {
    es != [] ==> StepInTurn(s, es[0], i, limit) && InTurn(Apply(s, es[0], gap), es[1..], gap, i, limit)
  }

  lemma {:induction false} OrderlyRun(s: State, es: seq<Event>, gap: int, i: Instance, limit: nat)
    requires Runs(s, es, gap) && i in s.memory && Orderly(s.memory[i], limit) && InTurn(s, es, gap, i, limit)
    ensures i in After(s, es, gap).memory && Orderly(After(s, es, gap).memory[i], limit)
    decreases |es|
  {
    hide Enabled, Apply, Orderly, StepInTurn;
    if es != [] {
      OrderlyStep(s, es[0], gap, i, limit);
      OrderlyRun(Apply(s, es[0], gap), es[1..], gap, i, limit);
    }
  }

  /** If requests come in one at a time at an instance, no domain ever has more connections there than the limit, and
      exactly the full ones are skipped: whatever else happens, and however long a skip list has been read before. */
  lemma OneAtATimeIsWithin(s: State, es: seq<Event>, gap: int, i: Instance, limit: nat)
    requires Initial(s) && Runs(s, es, gap) && i in s.memory && limit >= 1 && InTurn(s, es, gap, i, limit)
    ensures i in After(s, es, gap).memory && WithinLimit(After(s, es, gap).memory[i].table, limit)
  {
    EmptyInOrder(limit);
    assert Orderly(s.memory[i], limit);
    OrderlyRun(s, es, gap, i, limit);
  }
}
