/** What comes before a row is deleted, other than for its sender. */
module QueueDeletion {
  import opened Options
  import opened LockTable
  import opened QueueProtocol
  import opened QueueExclusion
  import opened QueueBodies
  import opened QueueProgress
  import opened QueueInTurn
  import opened QueueClaims
  import opened QueueZones
  import opened QueueTiming
  import opened QueueRequests

  // ----- Rows that are too old -----

  lemma CollectComesFrom(s: State, e: Event, gap: int, row: RowId)
    requires Enabled(s, e, gap) && ToCollect(row) in Spawned(s, e, gap)
    ensures e.FindOverAge? && e.row == row && e.maxAge > 0
    ensures row in s.rows && !s.rows[row].locked && s.now - s.rows[row].created >= e.maxAge - 1499
  {
    CollectSpawned(s, e, gap, row);
    hide Spawned;
  }

  lemma CollectSpawned(s: State, e: Event, gap: int, row: RowId)
    requires Enabled(s, e, gap) && ToCollect(row) in Spawned(s, e, gap)
    ensures e.FindOverAge? && e.row == row
  {
    hide Enabled, Key, QueryNow, ClearUntil, Referenced;
  }

  lemma CollectIsThere(s: State, e: Event, gap: int)
    requires Enabled(s, e, gap) && e.CollectOverAge?
    ensures Has(s, e.i, ToCollect(e.row))
  {}

  /** Over every run: a row is collected only after it was found to be in nobody's hands and to have been in the queue
      for the time allowed, less a second and a half. */
  lemma CollectedIsOld(s: State, es: seq<Event>, gap: int, b: nat) returns (a: nat)
    requires Initial(s) && Runs(s, es, gap) && b < |es| && es[b].CollectOverAge?
    ensures a < b && es[a].FindOverAge? && es[a].i == es[b].i && es[a].row == es[b].row && es[a].maxAge > 0
    ensures var before, row := Before(s, es, gap, a), es[b].row;
            && row in before.rows && !before.rows[row].locked
            && before.now - before.rows[row].created >= es[a].maxAge - 1499
  {
    hide Initial, Runs, After, Enabled, Apply, Spawned, Before, Has;
    BeforeIs(s, es, gap, b);
    CollectIsThere(Before(s, es, gap, b), es[b], gap);
    a := SpawnedAt(s, es, gap, b, es[b].i, ToCollect(es[b].row));
    CollectComesFrom(Before(s, es, gap, a), es[a], gap, es[b].row);
  }

  // ----- Deletions by the API -----

  lemma DeleteComesFrom(s: State, e: Event, gap: int, row: RowId)
    requires Enabled(s, e, gap) && ToDelete(row) in Spawned(s, e, gap)
    ensures e.ApiLock? && e.row == row && e.i in s.memory && Key(row) !in s.memory[e.i].table.locks && row in s.rows
  {
    DeleteIsSpawned(s, e, gap, row);
    hide Key;
    assert e.i in s.memory && row in s.rows;
    hide Enabled;
  }

  lemma DeleteIsSpawned(s: State, e: Event, gap: int, row: RowId)
    requires Enabled(s, e, gap) && ToDelete(row) in Spawned(s, e, gap)
    ensures e.ApiLock? && e.row == row
  {
    if Stage(e).Some? {
      NoDeletionOfStage(s, e, gap, row);
      assert false;
    }
    DeletionOtherwise(s, e, gap, row);
  }

  lemma NoDeletionOfStage(s: State, e: Event, gap: int, row: RowId)
    requires Enabled(s, e, gap) && Stage(e).Some?
    ensures ToDelete(row) !in Spawned(s, e, gap)
  {
    hide Enabled, Key;
  }

  lemma DeletionOtherwise(s: State, e: Event, gap: int, row: RowId)
    requires Enabled(s, e, gap) && Stage(e).None? && ToDelete(row) in Spawned(s, e, gap)
    ensures e.ApiLock? && e.row == row
  {
    hide Enabled, Key, QueryNow, ClearUntil, Referenced;
  }

  lemma DeleteIsThere(s: State, e: Event, gap: int)
    requires Enabled(s, e, gap) && e.ApiDelete?
    ensures Has(s, e.i, ToDelete(e.row))
  {}

  /** Over every run: a row is deleted by the API only after its lock was found free and was taken. */
  lemma DeletionPath(s: State, es: seq<Event>, gap: int, b: nat) returns (a: nat)
    requires Initial(s) && Runs(s, es, gap) && b < |es| && es[b].ApiDelete?
    ensures a < b && es[a].ApiLock? && es[a].i == es[b].i && es[a].row == es[b].row
    ensures var before, row := Before(s, es, gap, a), es[b].row;
            es[a].i in before.memory && Key(row) !in before.memory[es[a].i].table.locks && row in before.rows
  {
    hide Initial, Runs, After, Enabled, Apply, Spawned, Before, Has, Key;
    BeforeIs(s, es, gap, b);
    DeleteIsThere(Before(s, es, gap, b), es[b], gap);
    a := SpawnedAt(s, es, gap, b, es[b].i, ToDelete(es[b].row));
    DeleteComesFrom(Before(s, es, gap, a), es[a], gap, es[b].row);
  }

  /** The row's lock is held for a deletion, and does not expire before that time. */
  ghost predicate LockedFor(s: State, i: Instance, row: RowId, deleteId: string, t: int) {
    && i in s.memory && Key(row) in s.memory[i].table.locks
    && s.memory[i].table.locks[Key(row)].owner == deleteId && s.memory[i].table.locks[Key(row)].expires >= t
  }

  /** The event releases the lock, other than for its age. */
  predicate Unlocks(e: Event, i: Instance, row: RowId, deleteId: string) {
    && At(e) == Some(i)
    && (e.Restart? || (e.CloseClient? && e.owner == deleteId)
        || ((e.FailMeta? || e.FailSend? || e.Retry? || e.Unlock?) && Key(e.row) == Key(row)))
  }

  lemma LockedOn(s: State, e: Event, gap: int, i: Instance, row: RowId, deleteId: string, t: int)
    requires LockedFor(s, i, row, deleteId, t) && Enabled(s, e, gap) && !Unlocks(e, i, row, deleteId) && s.now < t
    ensures LockedFor(Apply(s, e, gap), i, row, deleteId, t)
  {
    MemoryAt(s, e, gap, i);
    hide Enabled, Apply, MemoryAfter, Key;
    if At(e) == Some(i) {
      AtIs(e, i);
      TableIs(s, e, gap);
      hide At, Unlocks;
      LockKept(s, e, gap, i, row, deleteId, t);
    }
  }

  lemma LockKept(s: State, e: Event, gap: int, i: Instance, row: RowId, deleteId: string, t: int)
    requires LockedFor(s, i, row, deleteId, t) && Enabled(s, e, gap) && !Unlocks(e, i, row, deleteId) && s.now < t
    requires At(e) == Some(i) && e.i == i
    ensures var locks := TableAfter(s, e, gap).locks;
            Key(row) in locks && locks[Key(row)] == s.memory[i].table.locks[Key(row)]
  {
    var table := s.memory[i].table;
    KeysOthers(s, e, gap, Key(row), deleteId, t);
    hide Enabled, Acquire, Release, ReleaseAll, Key;
    match e
    case TakeLock(_, r, domain, n, q, max) => AcquiredLocks(table, SenderLock(s, r, domain, q, max));
    case ApiLock(_, r, id) => AcquiredLocks(table, Lock(Key(r), "", "", id, 0, s.now + DELETE_TTL));
    case FailMeta(_, r, _, _) => ReleasedLocks(table, Key(r));
    case FailSend(_, r, _, _) => ReleasedLocks(table, Key(r));
    case Retry(_, r, _) => ReleasedLocks(table, Key(r));
    case Unlock(_, r) => ReleasedLocks(table, Key(r));
    case CloseClient(_, _, keys, _) => ReleaseAllLocks(table, keys);
    case ExpireLocks(_, keys) => ReleaseAllLocks(table, keys);
    case _ =>
  }

  lemma KeysOthers(s: State, e: Event, gap: int, key: string, deleteId: string, t: int)
    requires Enabled(s, e, gap) && At(e).Some? && e.i in s.memory && key in s.memory[e.i].table.locks && s.now < t
    requires s.memory[e.i].table.locks[key].owner == deleteId && s.memory[e.i].table.locks[key].expires >= t
    ensures e.CloseClient? && e.owner != deleteId ==> key !in e.keys
    ensures e.ExpireLocks? ==> key !in e.keys
  {}

  lemma LockedAtFirst(s: State, e: Event, gap: int)
    requires Enabled(s, e, gap) && e.ApiLock? && e.i in s.memory && Key(e.row) !in s.memory[e.i].table.locks
    ensures LockedFor(Apply(s, e, gap), e.i, e.row, e.deleteId, s.now + 60000)
  {
    hide Key, Spawned, Consumed;
  }

  lemma {:induction false} LockedOver(s: State, es: seq<Event>, gap: int, i: Instance, row: RowId, id: string, t: int)
    requires LockedFor(s, i, row, id, t) && Runs(s, es, gap) && After(s, es, gap).now < t
    requires forall e :: e in es ==> !Unlocks(e, i, row, id)
    ensures LockedFor(After(s, es, gap), i, row, id, t)
    decreases |es|
  {
    hide Enabled, Apply, LockedFor, Unlocks;
    if es != [] {
      assert es[0] in es;
      TimeGoesOn(s, es[0], gap);
      TimeOver(Apply(s, es[0], gap), es[1..], gap);
      LockedOn(s, es[0], gap, i, row, id, t);
      LockedOver(Apply(s, es[0], gap), es[1..], gap, i, row, id, t);
    }
  }

  lemma {:induction false} TimeOver(s: State, es: seq<Event>, gap: int)
    requires Runs(s, es, gap)
    ensures s.now <= After(s, es, gap).now
    decreases |es|
  {
    hide Enabled, Apply;
    if es != [] {
      TimeGoesOn(s, es[0], gap);
      TimeOver(Apply(s, es[0], gap), es[1..], gap);
    }
  }

  /** Over every run: for a minute after a deletion took the lock of a row, no request at the instance can take it,
      unless the lock is released. */
  lemma DeletionExcludes(s: State, es: seq<Event>, gap: int, a: nat, b: nat)
    requires Runs(s, es, gap) && a < b < |es| && es[a].ApiLock? && es[a].i in Before(s, es, gap, a).memory
    requires Key(es[a].row) !in Before(s, es, gap, a).memory[es[a].i].table.locks
    requires forall k :: a < k < b ==> !Unlocks(es[k], es[a].i, es[a].row, es[a].deleteId)
    requires Before(s, es, gap, b).now < Before(s, es, gap, a).now + 60000
    ensures es[a].i in Before(s, es, gap, b).memory
    ensures Key(es[a].row) in Before(s, es, gap, b).memory[es[a].i].table.locks
  {
    hide Runs, After, Enabled, Apply, LockedFor, Unlocks, Key;
    var i, row, id, before := es[a].i, es[a].row, es[a].deleteId, Before(s, es, gap, a);
    BeforeIs(s, es, gap, a);
    LockedAtFirst(before, es[a], gap);
    Between(s, es, gap, a + 1, b);
    forall e | e in es[a + 1..b]
      ensures !Unlocks(e, i, row, id)
    {
      var k :| 0 <= k < |es[a + 1..b]| && es[a + 1..b][k] == e;
      assert e == es[a + 1 + k];
    }
    LockedOver(Before(s, es, gap, a + 1), es[a + 1..b], gap, i, row, id, before.now + 60000);
    IsLocked(Before(s, es, gap, b), i, row, id, before.now + 60000);
  }

  lemma IsLocked(s: State, i: Instance, row: RowId, id: string, t: int)
    requires LockedFor(s, i, row, id, t)
    ensures i in s.memory && Key(row) in s.memory[i].table.locks
  {}

  // ----- Whose the other locks are -----

  /** A deletion is about to be run, or the release of its lock. */
  ghost predicate DeletionPending(m: Memory, row: RowId) {
    ToDelete(row) in m.tasks || ToUnlock(row) in m.tasks
  }

  ghost predicate DeletionHeld(s: State, i: Instance, row: RowId) {
    i in s.memory && Key(row) in s.memory[i].table.locks && !ForSender(s.memory[i].table.locks[Key(row)]) ==>
      DeletionPending(s.memory[i], row)
  }

  /** No request in flight has an owner like those of deletions. */
  ghost predicate SendersAsk(s: State) {
    forall i, t :: i in s.memory && t in s.memory[i].tasks && IsRequest(t) ==> !(DELETE_PREFIX <= t.query.owner)
  }

  lemma AskAt(s: State, es: seq<Event>, gap: int, n: nat)
    requires Initial(s) && Runs(s, es, gap) && n <= |es|
    ensures SendersAsk(Before(s, es, gap, n))
  {
    hide Initial, Runs, After, Enabled, Apply, Before, SkipList;
    forall i, t | i in Before(s, es, gap, n).memory && t in Before(s, es, gap, n).memory[i].tasks && IsRequest(t)
      ensures !(DELETE_PREFIX <= t.query.owner)
    {
      var p := CameIn(s, es, gap, n, i, t);
      BeforeIs(s, es, gap, p);
      PollIsOfSender(Before(s, es, gap, p), es[p], gap);
    }
  }

  lemma PollIsOfSender(s: State, e: Event, gap: int)
    requires Enabled(s, e, gap) && e.Poll?
    ensures !(DELETE_PREFIX <= e.owner)
  {}

  lemma DeletionHeldOn(s: State, e: Event, gap: int, i: Instance, row: RowId)
    requires Homed(s) && SendersAsk(s) && DeletionHeld(s, i, row) && Enabled(s, e, gap) && WellNamed(row)
    requires e.ApiLock? ==> WellNamed(e.row)
    ensures DeletionHeld(Apply(s, e, gap), i, row)
  {
    SameInstances(s, e, gap);
    if i in s.memory {
      MemoryAt(s, e, gap, i);
      hide Homed, SendersAsk, Enabled, Apply, At, MemoryAfter, DeletionPending, Key, ForSender;
      if At(e) == Some(i) {
        AtIs(e, i);
        TableIs(s, e, gap);
        var m := MemoryAfter(s, e, gap);
        if Key(row) in m.table.locks && !ForSender(m.table.locks[Key(row)]) {
          OtherLock(s, e, gap, i, row);
          PendingOn(s, e, gap, i, row);
        }
      }
    }
  }

  /** Where a lock comes from that is not a sender's. */
  lemma OtherLock(s: State, e: Event, gap: int, i: Instance, row: RowId)
    requires Homed(s) && SendersAsk(s) && Enabled(s, e, gap) && At(e) == Some(i) && e.i == i && i in s.memory
    requires WellNamed(row) && (e.ApiLock? ==> WellNamed(e.row))
    requires Key(row) in TableAfter(s, e, gap).locks && !ForSender(TableAfter(s, e, gap).locks[Key(row)])
    ensures || (Key(row) in s.memory[i].table.locks && !ForSender(s.memory[i].table.locks[Key(row)]))
            || (e.ApiLock? && e.row == row && Key(row) !in s.memory[i].table.locks)
  {
    var table := s.memory[i].table;
    LockInTable(s, e, gap, i, Key(row));
    if e.TakeLock? {
      assert IsRequest(ToLock(e.row, e.domain, e.count, e.query));
      assert ToLock(e.row, e.domain, e.count, e.query) in s.memory[i].tasks;
      hide Homed, Key, Acquire;
      AcquiredLocks(table, SenderLock(s, e.row, e.domain, e.query, e.maxConnections));
    } else if e.ApiLock? {
      if Key(e.row) == Key(row) {
        KeyInjective(e.row, row);
      }
      hide Homed, Key, Acquire;
      AcquiredLocks(table, Lock(Key(e.row), "", "", e.deleteId, 0, s.now + DELETE_TTL));
    }
    hide Enabled, Homed, SendersAsk, TableAfter, Key;
  }

  lemma PendingOn(s: State, e: Event, gap: int, i: Instance, row: RowId)
    requires Enabled(s, e, gap) && At(e) == Some(i) && e.i == i && i in s.memory && DeletionHeld(s, i, row)
    requires Key(row) in MemoryAfter(s, e, gap).table.locks
    requires || (Key(row) in s.memory[i].table.locks && !ForSender(s.memory[i].table.locks[Key(row)]))
             || (e.ApiLock? && e.row == row && Key(row) !in s.memory[i].table.locks)
    ensures DeletionPending(MemoryAfter(s, e, gap), row)
  {
    hide MemoryAfter, Key, ForSender;
    if e.ApiLock? && Key(row) !in s.memory[i].table.locks {
      TasksThen(s, e, gap, i);
      DeleteSpawned(s, e, gap, i);
    } else {
      if e.Restart? || (e.Unlock? && e.row == row) {
        FreedIsGone(s, e, gap, i, row, s.memory[i].table.locks[Key(row)].owner);
        assert false;
      }
      TasksThen(s, e, gap, i);
      PendingStays(s, e, gap, row);
    }
  }

  lemma DeleteSpawned(s: State, e: Event, gap: int, i: Instance)
    requires Enabled(s, e, gap) && e.ApiLock? && e.i == i && i in s.memory && Key(e.row) !in s.memory[i].table.locks
    ensures ToDelete(e.row) in Spawned(s, e, gap)
  {
    hide Key;
  }

  lemma PendingStays(s: State, e: Event, gap: int, row: RowId)
    requires Enabled(s, e, gap) && !(e.Unlock? && e.row == row)
    ensures ToUnlock(row) !in Consumed(e)
    ensures ToDelete(row) in Consumed(e) ==> ToUnlock(row) in Spawned(s, e, gap)
  {
    PendingConsumed(e, row);
    hide Enabled, Consumed;
    if e.ApiDelete? {
      DeleteUnlocks(s, e, gap);
    }
  }

  lemma PendingConsumed(e: Event, row: RowId)
    ensures ToUnlock(row) in Consumed(e) ==> e.Unlock? && e.row == row
    ensures ToDelete(row) in Consumed(e) ==> e.ApiDelete? && e.row == row
  {
    if Stage(e).Some? {
      OnlyStageConsumed(e);
      hide Consumed, Stage;
    } else {
      OthersConsumed(e, row);
      hide Consumed, Stage;
    }
  }

  lemma OnlyStageConsumed(e: Event)
    requires Stage(e).Some?
    ensures Consumed(e) == multiset{Stage(e).value} && IsRequest(Stage(e).value)
  {}

  lemma OthersConsumed(e: Event, row: RowId)
    requires Stage(e).None?
    ensures ToUnlock(row) in Consumed(e) ==> e.Unlock? && e.row == row
    ensures ToDelete(row) in Consumed(e) ==> e.ApiDelete? && e.row == row
  {}

  lemma DeleteUnlocks(s: State, e: Event, gap: int)
    requires Enabled(s, e, gap) && e.ApiDelete?
    ensures ToUnlock(e.row) in Spawned(s, e, gap)
  {
    hide Enabled;
  }

  /** Over every run: whenever a row is locked, and not for a sender, its deletion is about to be run, or the release of
      the lock. */
  lemma {:induction false} DeletionsAreHeld(s: State, es: seq<Event>, gap: int, n: nat, i: Instance, row: RowId)
    requires Initial(s) && Runs(s, es, gap) && n <= |es| && WellNamed(row)
    ensures DeletionHeld(Before(s, es, gap, n), i, row)
  {
    BeforeAll(s, es, gap);
    if n == 0 {
      NothingLocked(s, i, row);
    } else {
      hide Initial, Runs, After, Enabled, Apply, Before, DeletionHeld, SendersAsk, Homed;
      DeletionsAreHeld(s, es, gap, n - 1, i, row);
      var before := Before(s, es, gap, n - 1);
      BeforeIs(s, es, gap, n - 1);
      AskAt(s, es, gap, n - 1);
      HomedAt(s, es, gap, n - 1);
      if es[n - 1].ApiLock? {
        RowOfDeletion(before, es[n - 1], gap);
      }
      DeletionHeldOn(before, es[n - 1], gap, i, row);
    }
  }

  lemma NothingLocked(s: State, i: Instance, row: RowId)
    requires Initial(s)
    ensures DeletionHeld(s, i, row)
  {}

  lemma HomedAt(s: State, es: seq<Event>, gap: int, n: nat)
    requires Initial(s) && Runs(s, es, gap) && n <= |es|
    ensures Homed(Before(s, es, gap, n))
  {
    InitialIsHomed(s);
    hide Initial, Runs, After, Homed;
    RunsSplit(s, es, n, gap);
    HomedRun(s, es[..n], gap);
  }

  lemma RowOfDeletion(s: State, e: Event, gap: int)
    requires Homed(s) && Enabled(s, e, gap) && e.ApiLock?
    ensures WellNamed(e.row)
  {
    assert RowHomed(e.row, s.rows[e.row], s.home);
  }
}
