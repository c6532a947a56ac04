/** How long rows and zones rest: what delays and pauses come to over runs. */
module QueueTiming {
  import opened Options
  import opened LockTable
  import opened QueueProtocol
  import opened QueueExclusion
  import opened QueueBodies
  import opened QueueProgress
  import opened QueueInTurn
  import opened QueueClaims
  import opened QueueHands
  import opened QueueZones

  // ----- Requests come from the past -----

  /** No request in flight came in later than now. */
  ghost predicate AskedBefore(s: State) {
    forall i, t :: i in s.memory && t in s.memory[i].tasks && IsRequest(t) ==> t.query.asked <= s.now
  }

  lemma TimeGoesOn(s: State, e: Event, gap: int)
    requires Enabled(s, e, gap)
    ensures s.now <= Apply(s, e, gap).now
  {
    hide Enabled, RowsAfter, BodiesAfter, MemoryAfter;
  }

  lemma AskedStep(s: State, e: Event, gap: int)
    requires AskedBefore(s) && Enabled(s, e, gap)
    ensures AskedBefore(Apply(s, e, gap))
  {
    hide Enabled, Apply, Spawned, Stage;
    var s' := Apply(s, e, gap);
    TimeGoesOn(s, e, gap);
    SameInstances(s, e, gap);
    forall i, t | i in s'.memory && t in s'.memory[i].tasks && IsRequest(t)
      ensures t.query.asked <= s'.now
    {
      NewTask(s, e, gap, i, t);
      if t !in s.memory[i].tasks {
        StageGoesOn(s, e, gap, t);
        if Stage(e).Some? {
          StageIsConsumed(s, e, gap);
        } else {
          PollIsThere(s, e, gap);
        }
      }
    }
  }

  lemma PollIsThere(s: State, e: Event, gap: int)
    requires Enabled(s, e, gap) && e.Poll?
    ensures e.i in s.memory && QueryNow(s, e.i, e.owner, e.zone).asked == s.now
  {}

  lemma {:induction false} AskedRun(s: State, es: seq<Event>, gap: int)
    requires AskedBefore(s) && Runs(s, es, gap)
    ensures AskedBefore(After(s, es, gap))
    decreases |es|
  {
    hide Enabled, Apply, AskedBefore;
    if es != [] {
      AskedStep(s, es[0], gap);
      AskedRun(Apply(s, es[0], gap), es[1..], gap);
    }
  }

  lemma InitialIsAsked(s: State)
    requires Initial(s)
    ensures AskedBefore(s)
  {}

  // ----- Delays -----

  /** The row is not due before that time, or gone for good. */
  ghost predicate Rests(s: State, row: RowId, t: int) {
    row.id in s.pushed && (row in s.rows ==> s.rows[row].queued >= t)
  }

  /** The event gives the row another time to be due at. */
  predicate Reschedules(e: Event, row: RowId) {
    (e.SendNow? || e.SenderDefer?) && e.row == row
  }

  lemma RestsOn(s: State, e: Event, gap: int, row: RowId, t: int)
    requires Rests(s, row, t) && Enabled(s, e, gap) && !Reschedules(e, row)
    ensures Rests(Apply(s, e, gap), row, t)
  {
    PushedGrows(s, e, gap);
    RowsAre(s, e, gap);
    QueuedStays(s, e, gap, row);
    hide Enabled, Apply, RowsAfter, Reschedules;
  }

  lemma RowsAre(s: State, e: Event, gap: int)
    requires Enabled(s, e, gap)
    ensures Apply(s, e, gap).rows == RowsAfter(s, e, gap)
  {
    hide Enabled, RowsAfter, BodiesAfter, MemoryAfter;
  }

  lemma QueuedStays(s: State, e: Event, gap: int, row: RowId)
    requires Enabled(s, e, gap) && row.id in s.pushed && !Reschedules(e, row)
    ensures row in RowsAfter(s, e, gap) ==> row in s.rows && RowsAfter(s, e, gap)[row].queued == s.rows[row].queued
  {
    assert e.Push? ==> e.id !in s.pushed;
    hide Enabled;
  }

  lemma {:induction false} RestsOver(s: State, es: seq<Event>, gap: int, row: RowId, t: int)
    requires Rests(s, row, t) && Runs(s, es, gap) && forall e :: e in es ==> !Reschedules(e, row)
    ensures Rests(After(s, es, gap), row, t)
    decreases |es|
  {
    hide Enabled, Apply, Rests, Reschedules;
    if es != [] {
      assert !Reschedules(es[0], row);
      RestsOn(s, es[0], gap, row, t);
      RestsOver(Apply(s, es[0], gap), es[1..], gap, row, t);
    }
  }

  /** A row that rests is not picked. */
  lemma PickedIsDue(s: State, e: Event, gap: int, row: RowId, t: int)
    requires AskedBefore(s) && Enabled(s, e, gap) && Rests(s, row, t) && e.Pick? && e.row == row
    ensures s.now >= t
  {
    assert ToPick(e.query) in s.memory[e.i].tasks;
  }

  /** In the state before the b-th event of a run. */
  ghost function Before(s: State, es: seq<Event>, gap: int, b: nat): State
    requires Runs(s, es, gap) && b <= |es|
  {
    RunsSplit(s, es, b, gap);
    After(s, es[..b], gap)
  }

  lemma BeforeIs(s: State, es: seq<Event>, gap: int, b: nat)
    requires Runs(s, es, gap) && b < |es|
    ensures Enabled(Before(s, es, gap, b), es[b], gap)
    ensures Before(s, es, gap, b + 1) == Apply(Before(s, es, gap, b), es[b], gap)
  {
    hide Enabled, Apply, After, Runs;
    RunsSplit(s, es, b, gap);
    RunsSplit(s, es, b + 1, gap);
    var upTo := es[..b + 1];
    RunsSplit(s, upTo, b, gap);
    assert upTo[..b] == es[..b] && upTo[b..] == [es[b]];
    RunsOne(After(s, es[..b], gap), es[b], gap);
  }

  lemma AskedAt(s: State, es: seq<Event>, gap: int, b: nat)
    requires Initial(s) && Runs(s, es, gap) && b <= |es|
    ensures AskedBefore(Before(s, es, gap, b))
  {
    InitialIsAsked(s);
    hide Initial, Runs, After, AskedBefore;
    RunsSplit(s, es, b, gap);
    AskedRun(s, es[..b], gap);
  }

  /** A row that rests after the a-th event is not picked earlier than it may, unless it is rescheduled. */
  lemma RestsUntil(s: State, es: seq<Event>, gap: int, a: nat, b: nat, row: RowId, t: int)
    requires Initial(s) && Runs(s, es, gap) && a < b < |es|
    requires Rests(Before(s, es, gap, a + 1), row, t)
    requires es[b].Pick? && es[b].row == row && forall k :: a < k < b ==> !Reschedules(es[k], row)
    ensures Before(s, es, gap, b).now >= t
  {
    hide Initial, Runs, After, Enabled, Apply, AskedBefore, Rests, Reschedules;
    AskedAt(s, es, gap, b);
    BeforeIs(s, es, gap, b);
    Between(s, es, gap, a + 1, b);
    forall e | e in es[a + 1..b]
      ensures !Reschedules(e, row)
    {
      var k :| 0 <= k < |es[a + 1..b]| && es[a + 1..b][k] == e;
      assert e == es[a + 1 + k];
    }
    RestsOver(Before(s, es, gap, a + 1), es[a + 1..b], gap, row, t);
    PickedIsDue(Before(s, es, gap, b), es[b], gap, row, t);
  }

  lemma Between(s: State, es: seq<Event>, gap: int, a: nat, b: nat)
    requires Runs(s, es, gap) && a <= b <= |es|
    ensures Runs(Before(s, es, gap, a), es[a..b], gap)
    ensures After(Before(s, es, gap, a), es[a..b], gap) == Before(s, es, gap, b)
  {
    hide Enabled, Apply, After, Runs;
    RunsSplit(s, es, a, gap);
    RunsSplit(s, es, b, gap);
    RunsSplit(s, es[..b], a, gap);
    assert es[..b][..a] == es[..a] && es[..b][a..] == es[a..b];
  }

  /** Over every run: a row that was deferred is not picked by any instance before the delay is over, unless it is
      sent at once or deferred again. */
  lemma DeferredRests(s: State, es: seq<Event>, gap: int, a: nat, b: nat, row: RowId)
    requires Initial(s) && Runs(s, es, gap) && a < b < |es|
    requires es[a].SenderDefer? && es[a].row == row && row in Before(s, es, gap, a).rows
    requires es[b].Pick? && es[b].row == row
    requires forall k :: a < k < b ==> !((es[k].SendNow? || es[k].SenderDefer?) && es[k].row == row)
    ensures Before(s, es, gap, b).now >= Before(s, es, gap, a).now + es[a].ttl
  {
    InitialIsHomed(s);
    hide Initial, Runs, After, Enabled, Apply, Homed;
    var before := Before(s, es, gap, a);
    RunsSplit(s, es, a, gap);
    HomedRun(s, es[..a], gap);
    HomedIsPushed(before, row);
    BeforeIs(s, es, gap, a);
    DeferRests(before, es[a], gap);
    RestsUntil(s, es, gap, a, b, row, before.now + es[a].ttl);
  }

  lemma DeferRests(s: State, e: Event, gap: int)
    requires Enabled(s, e, gap) && e.SenderDefer? && e.row in s.rows && e.row.id in s.pushed
    ensures Rests(Apply(s, e, gap), e.row, s.now + e.ttl)
  {
    hide MemoryAfter, BodiesAfter;
  }

  /** Over every run: a row that is pushed with a time to be due at is not picked before, with the same exceptions. */
  lemma PushedRests(s: State, es: seq<Event>, gap: int, a: nat, b: nat, number: string)
    requires Initial(s) && Runs(s, es, gap) && a < b < |es|
    requires es[a].Push? && number in es[a].targets
    requires es[b].Pick? && es[b].row == RowId(es[a].id, number)
    requires forall k :: a < k < b ==> !((es[k].SendNow? || es[k].SenderDefer?) && es[k].row == RowId(es[a].id, number))
    ensures Before(s, es, gap, b).now >= es[a].targets[number].queued
  {
    hide Initial, Runs, After, Enabled, Apply;
    var row := RowId(es[a].id, number);
    BeforeIs(s, es, gap, a);
    PushRests(Before(s, es, gap, a), es[a], gap, number);
    RestsUntil(s, es, gap, a, b, row, es[a].targets[number].queued);
  }

  lemma PushRests(s: State, e: Event, gap: int, number: string)
    requires Enabled(s, e, gap) && e.Push? && number in e.targets
    ensures Rests(Apply(s, e, gap), RowId(e.id, number), e.targets[number].queued)
  {
    hide MemoryAfter, BodiesAfter;
  }

  /** Nothing but its delay keeps a row from being handed out. */
  ghost predicate OnlyWaits(s: State, i: Instance, row: RowId) {
    && row in s.rows && i in s.memory && MayServe(s, i, row) && !s.rows[row].locked
    && Key(row) !in s.memory[i].table.locks
    && (s.rows[row].zone, s.rows[row].domain) !in s.memory[i].table.skip
    && MayAsk(s.memory[i], s.rows[row].zone, s.now)
  }

  /** The exception: a row that only waits is handed out at once when it is sent now, whatever its delay. */
  lemma SentNow(s: State, gap: int, row: RowId, i: Instance, owner: string, limit: nat) returns (es: seq<Event>)
    requires OnlyWaits(s, i, row) && !(DELETE_PREFIX <= owner)
    ensures Runs(s, [SendNow(row)] + es, gap) && After(s, [SendNow(row)] + es, gap).now == s.now
    ensures Serves(es, i, row, owner, s.rows[row].deferrals, row.id in s.bodies)
  {
    hide Runs, After, Serves;
    var s1 := Apply(s, SendNow(row), gap);
    assert Ready(s1, i, row);
    hide Enabled, Apply, Ready;
    es := ServedNow(s1, gap, row, i, owner, limit);
    RunsCons(s, SendNow(row), es, gap);
  }

  /** A client of the instance has a row, and there is no lock for its zone and domain but the row's own, nor a pause of
      the zone that outlasts a time. */
  ghost predicate HeldAlone(s: State, i: Instance, row: RowId, client: string, t: int) {
    && row in s.rows && i in s.memory && s.rows[row].zone in s.memory[i].zones
    && (s.rows[row].assignee == None || s.rows[row].assignee == Some(i))
    && Copy(row, s.rows[row].deferrals, client) in s.memory[i].senders
    && SkipsHaveLocks(s.memory[i].table)
    && (forall k :: k in s.memory[i].table.locks && InTheWay(s.memory[i].table.locks[k], row, s.rows[row]) ==>
          k == Key(row))
    && (s.rows[row].zone in s.memory[i].empty ==> s.memory[i].empty[s.rows[row].zone] <= t)
  }

  /** A row that is deferred can be handed out again right when the delay is over. */
  lemma DeferredComesBack(s: State, gap: int, row: RowId, i: Instance, client: string, ttl: nat, owner: string,
                          limit: nat)
    returns (es: seq<Event>)
    requires HeldAlone(s, i, row, client, s.now + ttl) && !(DELETE_PREFIX <= owner)
    ensures Runs(s, es, gap) && After(s, es, gap).now == s.now + ttl
    ensures |es| >= 3 && es[0] == SenderDefer(i, row, s.rows[row].deferrals, client, ttl) && es[1] == Unlock(i, row)
    ensures es[2] == Tick(ttl)
    ensures Serves(es[3..], i, row, owner, s.rows[row].deferrals + 1, row.id in s.bodies)
  {
    hide Runs, After, Serves;
    var defer, unlock, tick := SenderDefer(i, row, s.rows[row].deferrals, client, ttl), Unlock(i, row), Tick(ttl);
    var s1 := DeferNow(s, gap, row, i, client, ttl);
    var s2 := UnlockedNow(s1, gap, row, i);
    var s3 := WaitNow(s2, gap, row, i, ttl);
    hide Enabled, Apply, Ready, HeldAlone, OnlyWaits;
    var end := ServedNow(s3, gap, row, i, owner, limit);
    RunsCons(s2, tick, end, gap);
    RunsCons(s1, unlock, [tick] + end, gap);
    RunsCons(s, defer, [unlock] + ([tick] + end), gap);
    es := [defer] + ([unlock] + ([tick] + end));
    assert es[3..] == end;
  }

  lemma DeferNow(s: State, gap: int, row: RowId, i: Instance, client: string, ttl: nat) returns (s': State)
    requires HeldAlone(s, i, row, client, s.now + ttl)
    ensures var e := SenderDefer(i, row, s.rows[row].deferrals, client, ttl);
            Enabled(s, e, gap) && s' == Apply(s, e, gap)
    ensures s'.now == s.now && s'.bodies == s.bodies && row in s'.rows && i in s'.memory && Has(s', i, ToUnlock(row))
    ensures s'.rows[row] == s.rows[row].(locked := false, queued := s.now + ttl, deferrals := s.rows[row].deferrals + 1)
    ensures s'.memory[i].table == s.memory[i].table && s'.memory[i].empty == s.memory[i].empty
    ensures s'.memory[i].zones == s.memory[i].zones
  {
    hide SkipsHaveLocks, Key;
    s' := Apply(s, SenderDefer(i, row, s.rows[row].deferrals, client, ttl), gap);
  }

  lemma UnlockedNow(s: State, gap: int, row: RowId, i: Instance) returns (s': State)
    requires Has(s, i, ToUnlock(row)) && row in s.rows && SkipsHaveLocks(s.memory[i].table)
    requires forall k :: k in s.memory[i].table.locks && InTheWay(s.memory[i].table.locks[k], row, s.rows[row]) ==>
                           k == Key(row)
    ensures Enabled(s, Unlock(i, row), gap) && s' == Apply(s, Unlock(i, row), gap)
    ensures s'.now == s.now && s'.rows == s.rows && s'.bodies == s.bodies && i in s'.memory
    ensures s'.memory[i].empty == s.memory[i].empty && s'.memory[i].zones == s.memory[i].zones
    ensures Key(row) !in s'.memory[i].table.locks
    ensures (s.rows[row].zone, s.rows[row].domain) !in s'.memory[i].table.skip
  {
    KeyNotEmpty(row);
    var table := s.memory[i].table;
    ReleaseKeepsSkips(table, Key(row));
    ReleasedLocks(table, Key(row));
    NoneToSkip(Release(table, Key(row)), row, s.rows[row]);
    hide SkipsHaveLocks, Release, Key;
    s' := Apply(s, Unlock(i, row), gap);
  }

  lemma NoneToSkip(t: Table, row: RowId, r: Row)
    requires SkipsHaveLocks(t) && forall k :: k in t.locks ==> !InTheWay(t.locks[k], row, r)
    ensures (r.zone, r.domain) !in t.skip
  {}

  lemma WaitNow(s: State, gap: int, row: RowId, i: Instance, ttl: nat) returns (s': State)
    requires row in s.rows && i in s.memory && MayServe(s, i, row) && !s.rows[row].locked
    requires s.rows[row].queued <= s.now + ttl && Key(row) !in s.memory[i].table.locks
    requires (s.rows[row].zone, s.rows[row].domain) !in s.memory[i].table.skip
    requires MayAsk(s.memory[i], s.rows[row].zone, s.now + ttl)
    ensures Enabled(s, Tick(ttl), gap) && s' == Apply(s, Tick(ttl), gap)
    ensures s'.now == s.now + ttl && s'.rows == s.rows && s'.bodies == s.bodies && Ready(s', i, row)
  {
    s' := Apply(s, Tick(ttl), gap);
  }

  // ----- Pauses -----

  /** No request for the zone is let in before that time. */
  ghost predicate Paused(s: State, i: Instance, zone: string, t: int) {
    i in s.memory && t <= s.now + 5000 && zone in s.memory[i].empty && s.memory[i].empty[zone] >= t
  }

  lemma PausedOn(s: State, e: Event, gap: int, i: Instance, zone: string, t: int)
    requires Paused(s, i, zone, t) && Enabled(s, e, gap) && !StartsAgain(e, i)
    ensures Paused(Apply(s, e, gap), i, zone, t)
  {
    TimeGoesOn(s, e, gap);
    MemoryAt(s, e, gap, i);
    hide Enabled, Apply, At, TableAfter, Spawned, Consumed, SendersAfter;
    if At(e) == Some(i) {
      AtIs(e, i);
    }
  }

  lemma {:induction false} PausedOver(s: State, es: seq<Event>, gap: int, i: Instance, zone: string, t: int)
    requires Paused(s, i, zone, t) && Runs(s, es, gap) && forall e :: e in es ==> !StartsAgain(e, i)
    ensures Paused(After(s, es, gap), i, zone, t)
    decreases |es|
  {
    hide Enabled, Apply, Paused, StartsAgain;
    if es != [] {
      assert !StartsAgain(es[0], i);
      PausedOn(s, es[0], gap, i, zone, t);
      PausedOver(Apply(s, es[0], gap), es[1..], gap, i, zone, t);
    }
  }

  /** Over every run: a zone in which nothing was found is not asked for again for five seconds, unless the instance
      starts again. */
  lemma ZoneRests(s: State, es: seq<Event>, gap: int, a: nat, b: nat)
    requires Runs(s, es, gap) && a < b < |es| && es[a].FindNothing? && es[b].Poll?
    requires es[b].i == es[a].i && es[b].zone == es[a].query.zone
    requires forall k :: a < k < b ==> !(es[k].Restart? && es[k].i == es[a].i)
    ensures Before(s, es, gap, b).now >= Before(s, es, gap, a).now + 5000
  {
    hide Runs, After, Enabled, Apply, Paused;
    var i, zone, before := es[a].i, es[a].query.zone, Before(s, es, gap, a);
    BeforeIs(s, es, gap, a);
    BeforeIs(s, es, gap, b);
    PauseBegins(before, es[a], gap);
    Between(s, es, gap, a + 1, b);
    forall e | e in es[a + 1..b]
      ensures !StartsAgain(e, i)
    {
      var k :| 0 <= k < |es[a + 1..b]| && es[a + 1..b][k] == e;
      assert e == es[a + 1 + k];
    }
    PausedOver(Before(s, es, gap, a + 1), es[a + 1..b], gap, i, zone, before.now + 5000);
    PauseIsOver(Before(s, es, gap, b), es[b], gap, before.now + 5000);
  }

  lemma PauseBegins(s: State, e: Event, gap: int)
    requires Enabled(s, e, gap) && e.FindNothing?
    ensures Paused(Apply(s, e, gap), e.i, e.query.zone, s.now + 5000)
  {
    hide TableAfter, Spawned, Consumed, Eligible;
  }

  lemma PauseIsOver(s: State, e: Event, gap: int, t: int)
    requires Enabled(s, e, gap) && e.Poll? && Paused(s, e.i, e.zone, t)
    ensures s.now >= t
  {}

  // ----- Locks -----

  /** A lock for the row does not expire before that time. */
  ghost predicate LockLasts(s: State, i: Instance, row: RowId, t: int) {
    && i in s.memory && t <= s.now + 3600000
    && (Key(row) in s.memory[i].table.locks ==> s.memory[i].table.locks[Key(row)].expires >= t)
  }

  lemma LockLastsOn(s: State, e: Event, gap: int, i: Instance, row: RowId, t: int)
    requires LockLasts(s, i, row, t) && Enabled(s, e, gap) && !(e.ApiLock? && e.i == i && Key(e.row) == Key(row))
    ensures LockLasts(Apply(s, e, gap), i, row, t)
  {
    TimeGoesOn(s, e, gap);
    MemoryAt(s, e, gap, i);
    hide Enabled, Apply, At, MemoryAfter, Key;
    if At(e) == Some(i) {
      AtIs(e, i);
      LockAfter(s, e, gap, i, Key(row));
    }
  }

  /** What an event does to the lock of a key. */
  lemma LockAfter(s: State, e: Event, gap: int, i: Instance, key: string)
    requires Enabled(s, e, gap) && At(e) == Some(i) && i in s.memory
    ensures var locks, locks' := s.memory[i].table.locks, MemoryAfter(s, e, gap).table.locks;
            key in locks' ==>
              || (key in locks && locks'[key] == locks[key])
              || (e.TakeLock? && Key(e.row) == key && locks'[key].expires == s.now + 3600000)
              || (e.ApiLock? && Key(e.row) == key)
  {
    AtIs(e, i);
    TableIs(s, e, gap);
    hide MemoryAfter;
    LockInTable(s, e, gap, i, key);
  }

  lemma TableIs(s: State, e: Event, gap: int)
    requires Enabled(s, e, gap) && At(e).Some?
    ensures MemoryAfter(s, e, gap).table == TableAfter(s, e, gap)
  {
    hide Enabled, TableAfter, Spawned, Consumed, SendersAfter;
  }

  lemma LockInTable(s: State, e: Event, gap: int, i: Instance, key: string)
    requires Enabled(s, e, gap) && At(e) == Some(i) && e.i == i && i in s.memory
    ensures var locks, locks' := s.memory[i].table.locks, TableAfter(s, e, gap).locks;
            key in locks' ==>
              || (key in locks && locks'[key] == locks[key])
              || (e.TakeLock? && Key(e.row) == key && locks'[key].expires == s.now + 3600000)
              || (e.ApiLock? && Key(e.row) == key)
  {
    hide Enabled, Acquire, Release, ReleaseAll, Key;
    var t := s.memory[i].table;
    match e
    case TakeLock(_, row, domain, n, q, max) => AcquiredLocks(t, SenderLock(s, row, domain, q, max));
    case ApiLock(_, row, id) => AcquiredLocks(t, Lock(Key(row), "", "", id, 0, s.now + DELETE_TTL));
    case FailMeta(_, row, _, _) => ReleasedLocks(t, Key(row));
    case FailSend(_, row, _, _) => ReleasedLocks(t, Key(row));
    case Retry(_, row, _) => ReleasedLocks(t, Key(row));
    case Unlock(_, row) => ReleasedLocks(t, Key(row));
    case CloseClient(_, _, keys, _) => ReleaseAllLocks(t, keys);
    case ExpireLocks(_, keys) => ReleaseAllLocks(t, keys);
    case _ =>
  }

  lemma {:induction false} LockLastsOver(s: State, es: seq<Event>, gap: int, i: Instance, row: RowId, t: int)
    requires LockLasts(s, i, row, t) && Runs(s, es, gap)
    requires forall e :: e in es ==> !(e.ApiLock? && e.i == i && Key(e.row) == Key(row))
    ensures LockLasts(After(s, es, gap), i, row, t)
    decreases |es|
  {
    hide Enabled, Apply, LockLasts, Key;
    if es != [] {
      assert es[0] in es;
      LockLastsOn(s, es[0], gap, i, row, t);
      LockLastsOver(Apply(s, es[0], gap), es[1..], gap, i, row, t);
    }
  }

  /** Over every run: a sender's lock does not expire within the hour after it was taken. */
  lemma LockLastsAnHour(s: State, es: seq<Event>, gap: int, a: nat, b: nat)
    requires Runs(s, es, gap) && a < b < |es| && es[a].TakeLock? && es[b].ExpireLocks? && es[b].i == es[a].i
    requires es[a].i in Before(s, es, gap, a).memory
    requires Key(es[a].row) !in Before(s, es, gap, a).memory[es[a].i].table.locks && Key(es[a].row) in es[b].keys
    requires forall k :: a < k < b ==> !(es[k].ApiLock? && es[k].i == es[a].i && Key(es[k].row) == Key(es[a].row))
    ensures Before(s, es, gap, b).now >= Before(s, es, gap, a).now + 3600000
  {
    hide Runs, After, Enabled, Apply, LockLasts, Key;
    var i, row, before := es[a].i, es[a].row, Before(s, es, gap, a);
    BeforeIs(s, es, gap, a);
    BeforeIs(s, es, gap, b);
    LockBegins(before, es[a], gap);
    Between(s, es, gap, a + 1, b);
    forall e | e in es[a + 1..b]
      ensures !(e.ApiLock? && e.i == i && Key(e.row) == Key(row))
    {
      var k :| 0 <= k < |es[a + 1..b]| && es[a + 1..b][k] == e;
      assert e == es[a + 1 + k];
    }
    LockLastsOver(Before(s, es, gap, a + 1), es[a + 1..b], gap, i, row, before.now + 3600000);
    LockExpires(Before(s, es, gap, b), es[b], gap, row, before.now + 3600000);
  }

  lemma LockBegins(s: State, e: Event, gap: int)
    requires Enabled(s, e, gap) && e.TakeLock? && e.i in s.memory && Key(e.row) !in s.memory[e.i].table.locks
    ensures LockLasts(Apply(s, e, gap), e.i, e.row, s.now + 3600000)
  {
    hide Spawned, Consumed, Key;
  }

  lemma LockExpires(s: State, e: Event, gap: int, row: RowId, t: int)
    requires Enabled(s, e, gap) && e.ExpireLocks? && Key(row) in e.keys && LockLasts(s, e.i, row, t)
    ensures s.now >= t
  {
    hide Key;
  }
}
