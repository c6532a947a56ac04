/** Rows are not lost: nothing but the named events removes one, and none is ever stuck. */
module QueueProgress {
  import opened Options
  import opened LockTable
  import opened QueueProtocol
  import opened QueueExclusion
  import opened QueueBodies

  /** The events that take a row out of the collection. */
  predicate Removes(s: State, e: Event, row: RowId) {
    match e
    case SenderRelease(_, r, _, _) => r == row
    case Suppress(_, r, _, _) => r == row
    case ApiDelete(_, r) => r == row
    case CollectOverAge(_, r) => r == row
    case MissBody(_, r, _, _) => r.id == row.id && row.id !in s.bodies
    case _ => false
  }

  lemma RemovalStep(s: State, e: Event, gap: int, row: RowId)
    requires Enabled(s, e, gap) && row in s.rows && row.id in s.pushed
    ensures row !in Apply(s, e, gap).rows <==> Removes(s, e, row)
    ensures row.id in Apply(s, e, gap).pushed
  {
    hide MemoryAfter, BodiesAfter;
  }

  ghost predicate SomeRemoval(s: State, es: seq<Event>, gap: int, row: RowId)
    requires Runs(s, es, gap)
    decreases |es|
  {
    es != [] && (Removes(s, es[0], row) || SomeRemoval(Apply(s, es[0], gap), es[1..], gap, row))
  }

  /** At least once: a row is in the collection until a release, suppression, deletion, collection for age or
      missing body takes it out, and out for good from then on. */
  lemma {:induction false} RowsStay(s: State, es: seq<Event>, gap: int, row: RowId)
    requires Homed(s) && Runs(s, es, gap) && row in s.rows
    ensures row !in After(s, es, gap).rows <==> SomeRemoval(s, es, gap, row)
    decreases |es|
  {
    if es != [] {
      HomedStep(s, es[0], gap);
      RemovalStep(s, es[0], gap, row);
      if Removes(s, es[0], row) {
        RowsStayAway(Apply(s, es[0], gap), es[1..], gap, row);
      } else {
        RowsStay(Apply(s, es[0], gap), es[1..], gap, row);
      }
    }
  }

  lemma {:induction false} RowsStayAway(s: State, es: seq<Event>, gap: int, row: RowId)
    requires Runs(s, es, gap) && row !in s.rows && row.id in s.pushed
    ensures row !in After(s, es, gap).rows
    decreases |es|
  {
    if es != [] {
      assert row !in Apply(s, es[0], gap).rows && row.id in Apply(s, es[0], gap).pushed;
      RowsStayAway(Apply(s, es[0], gap), es[1..], gap, row);
    }
  }

  lemma PushedRowsAreThere(s: State, e: Event, gap: int, number: string)
    requires Enabled(s, e, gap) && e.Push? && number in e.targets
    ensures RowId(e.id, number) in Apply(s, e, gap).rows
  {}

  /** Every row ever pushed in the system is still there exactly if no such event came after its push. */
  lemma PushedRowsStay(s: State, es: seq<Event>, gap: int, k: nat, number: string)
    requires Initial(s) && Runs(s, es, gap) && k < |es| && es[k].Push? && number in es[k].targets
    ensures Runs(s, es[..k + 1], gap) && Runs(After(s, es[..k + 1], gap), es[k + 1..], gap)
    ensures RowId(es[k].id, number) in After(s, es, gap).rows
            <==> !SomeRemoval(After(s, es[..k + 1], gap), es[k + 1..], gap, RowId(es[k].id, number))
  {
    InitialIsHomed(s);
    hide Initial, Homed, Runs, After, Apply, Enabled, SomeRemoval;
    RunsSplit(s, es, k + 1, gap);
    var upTo := es[..k + 1];
    RunsSplit(s, upTo, k, gap);
    assert upTo[k] == es[k] && upTo[k..] == [es[k]];
    RunsOne(After(s, upTo[..k], gap), es[k], gap);
    PushedRowsAreThere(After(s, upTo[..k], gap), es[k], gap, number);
    HomedRun(s, upTo, gap);
    RowsStay(After(s, upTo, gap), es[k + 1..], gap, RowId(es[k].id, number));
  }

  // ----- What holds a row back, and for how long -----

  /** Nothing keeps the row from being handed out by the instance at that time: neither its delay nor a lock left in the
      collection, a lock left in memory for it or for its zone and domain, or a zone found empty. */
  ghost predicate FreeBy(s: State, i: Instance, row: RowId, t: int)
    requires row in s.rows && i in s.memory
  {
    var r, m := s.rows[row], s.memory[i];
    && r.queued <= t
    && (r.locked ==> r.lockTime + OLD_LOCK <= t)
    && (r.zone in m.empty ==> m.empty[r.zone] < t)
    && forall k :: k in m.table.locks && InTheWay(m.table.locks[k], row, r) ==> m.table.locks[k].expires <= t
  }

  predicate InTheWay(l: Lock, row: RowId, r: Row) {
    l.key == Key(row) || (l.zone == r.zone && l.domain == r.domain)
  }

  /** No time anywhere lies further ahead than the locks' time to live. */
  ghost predicate Timely(s: State) {
    && RowsTimely(s.rows, s.now)
    && (forall i :: i in s.memory ==> MemoryTimely(s.memory[i], s.now))
  }

  ghost predicate RowsTimely(rows: map<RowId, Row>, now: int) {
    forall row :: row in rows ==> rows[row].locked ==> rows[row].lockTime <= now
  }

  ghost predicate MemoryTimely(m: Memory, now: int) {
    && SkipsHaveLocks(m.table)
    && (forall k :: k in m.table.locks ==> m.table.locks[k].expires <= now + LOCK_TTL)
    && (forall z :: z in m.empty ==> m.empty[z] <= now + EMPTY_TTL)
  }

  lemma KeyNotEmpty(row: RowId)
    ensures Key(row) != ""
  {}

  lemma ReleasedTimely(t: Table, keys: seq<string>, until: int)
    requires SkipsHaveLocks(t) && forall k :: k in t.locks ==> t.locks[k].expires <= until
    ensures SkipsHaveLocks(ReleaseAll(t, keys))
    ensures forall k :: k in ReleaseAll(t, keys).locks ==> ReleaseAll(t, keys).locks[k].expires <= until
  {
    ReleaseAllKeepsSkips(t, keys);
    ReleaseAllLocks(t, keys);
    hide ReleaseAll, SkipsHaveLocks;
  }

  lemma AcquiredTimely(t: Table, l: Lock, until: int)
    requires SkipsHaveLocks(t) && l.key != "" && l.expires <= until
    requires forall k :: k in t.locks ==> t.locks[k].expires <= until
    ensures SkipsHaveLocks(Acquire(t, l))
    ensures forall k :: k in Acquire(t, l).locks ==> Acquire(t, l).locks[k].expires <= until
  {
    AcquireKeepsSkips(t, l);
    hide SkipsHaveLocks, Connections;
  }

  lemma FreedTimely(t: Table, key: string, until: int)
    requires SkipsHaveLocks(t) && forall k :: k in t.locks ==> t.locks[k].expires <= until
    ensures SkipsHaveLocks(Release(t, key))
    ensures forall k :: k in Release(t, key).locks ==> Release(t, key).locks[k].expires <= until
  {
    ReleaseKeepsSkips(t, key);
    hide SkipsHaveLocks, Connections;
  }

  lemma TableTimely(s: State, e: Event, gap: int)
    requires Enabled(s, e, gap) && At(e).Some? && e.i in s.memory && MemoryTimely(s.memory[e.i], s.now)
    ensures SkipsHaveLocks(TableAfter(s, e, gap))
    ensures forall k :: k in TableAfter(s, e, gap).locks ==> TableAfter(s, e, gap).locks[k].expires <= s.now + LOCK_TTL
  {
    hide Enabled, SkipsHaveLocks, Acquire, Release, ReleaseAll, Key;
    var table, until := s.memory[e.i].table, s.now + LOCK_TTL;
    match e
    case TakeLock(_, row, domain, n, q, limit) =>
      KeyNotEmpty(row);
      AcquiredTimely(table, SenderLock(s, row, domain, q, limit), until);
    case ApiLock(_, row, deleteId) =>
      KeyNotEmpty(row);
      AcquiredTimely(table, Lock(Key(row), "", "", deleteId, 0, s.now + DELETE_TTL), until);
    case FailMeta(_, row, _, _) => FreedTimely(table, Key(row), until);
    case FailSend(_, row, _, _) => FreedTimely(table, Key(row), until);
    case Retry(_, row, _) => FreedTimely(table, Key(row), until);
    case Unlock(_, row) => FreedTimely(table, Key(row), until);
    case CloseClient(_, _, keys, _) => ReleasedTimely(table, keys, until);
    case ExpireLocks(_, keys) => ReleasedTimely(table, keys, until);
    case Restart(_, _) => EmptyTimely();
    case _ =>
  }

  lemma EmptyTimely()
    ensures SkipsHaveLocks(EMPTY)
  {}

  lemma MemoryTimelyStep(s: State, e: Event, gap: int, i: Instance)
    requires Timely(s) && Enabled(s, e, gap) && i in s.memory
    ensures i in Apply(s, e, gap).memory && MemoryTimely(Apply(s, e, gap).memory[i], Apply(s, e, gap).now)
  {
    hide Enabled, RowsAfter, BodiesAfter, MemoryAfter, SkipsHaveLocks;
    assert MemoryTimely(s.memory[i], s.now);
    if At(e) == Some(i) {
      NewMemoryTimely(s, e, gap);
    }
  }

  lemma NewMemoryTimely(s: State, e: Event, gap: int)
    requires Enabled(s, e, gap) && At(e).Some? && e.i in s.memory && MemoryTimely(s.memory[e.i], s.now)
    ensures MemoryTimely(MemoryAfter(s, e, gap), s.now)
  {
    hide Enabled, TableAfter, Spawned, Consumed, SkipsHaveLocks;
    TableTimely(s, e, gap);
  }

  lemma RowTimelyStep(s: State, e: Event, gap: int, row: RowId)
    requires Timely(s) && Enabled(s, e, gap) && row in RowsAfter(s, e, gap)
    ensures RowsAfter(s, e, gap)[row].locked ==> RowsAfter(s, e, gap)[row].lockTime <= s.now
  {
    hide MemoryTimely;
  }

  lemma TimelyStep(s: State, e: Event, gap: int)
    requires Timely(s) && Enabled(s, e, gap)
    ensures Timely(Apply(s, e, gap))
  {
    hide Enabled, Apply, MemoryTimely, RowsTimely;
    var s' := Apply(s, e, gap);
    RowsTimelyStep(s, e, gap);
    SameInstances(s, e, gap);
    forall i | i in s'.memory
      ensures MemoryTimely(s'.memory[i], s'.now)
    {
      MemoryTimelyStep(s, e, gap, i);
    }
  }

  lemma SameInstances(s: State, e: Event, gap: int)
    requires Enabled(s, e, gap)
    ensures Apply(s, e, gap).memory.Keys == s.memory.Keys
  {
    hide RowsAfter, BodiesAfter, MemoryAfter;
  }

  lemma RowsTimelyStep(s: State, e: Event, gap: int)
    requires Timely(s) && Enabled(s, e, gap)
    ensures RowsTimely(Apply(s, e, gap).rows, Apply(s, e, gap).now)
  {
    hide Enabled, RowsAfter, BodiesAfter, MemoryAfter, MemoryTimely;
    forall row | row in RowsAfter(s, e, gap)
      ensures RowsAfter(s, e, gap)[row].locked ==> RowsAfter(s, e, gap)[row].lockTime <= s.now
    {
      RowTimelyStep(s, e, gap, row);
    }
  }

  lemma {:induction false} TimelyRun(s: State, es: seq<Event>, gap: int)
    requires Timely(s) && Runs(s, es, gap)
    ensures Timely(After(s, es, gap))
    decreases |es|
  {
    hide Enabled, Apply, Timely;
    if es != [] {
      TimelyStep(s, es[0], gap);
      TimelyRun(Apply(s, es[0], gap), es[1..], gap);
    }
  }

  lemma InitialIsTimely(s: State)
    requires Initial(s)
    ensures Timely(s)
  {
    EmptyTimely();
  }

  function Later(a: int, b: int): int {
    if a < b then b else a
  }

  /** So whatever holds a row back but its delay is over after 61 minutes. */
  lemma FreeInTime(s: State, i: Instance, row: RowId, t: int)
    requires Timely(s) && row in s.rows && i in s.memory && t >= Later(s.rows[row].queued, s.now + OLD_LOCK)
    ensures FreeBy(s, i, row, t)
  {
    assert MemoryTimely(s.memory[i], s.now);
    hide SkipsHaveLocks;
  }

  // ----- No row is stuck -----

  /** The row's zone is one of the instance's, and no other instance has the row. */
  predicate MayServe(s: State, i: Instance, row: RowId)
    requires row in s.rows && i in s.memory
  {
    && s.rows[row].zone in s.memory[i].zones
    && (s.rows[row].assignee == Some(i) || (s.rows[row].assignee == None && !s.rows[row].locked))
  }

  /** A request that comes in now can find the row, lock it and go on. */
  predicate Ready(s: State, i: Instance, row: RowId) {
    && row in s.rows && i in s.memory && MayServe(s, i, row)
    && !s.rows[row].locked && s.rows[row].queued <= s.now
    && Key(row) !in s.memory[i].table.locks
    && (s.rows[row].zone, s.rows[row].domain) !in s.memory[i].table.skip
    && MayAsk(s.memory[i], s.rows[row].zone, s.now)
  }

  lemma {:induction false} ListOfSet(keys: set<string>) returns (list: seq<string>)
    ensures forall k :: k in list <==> k in keys
    decreases |keys|
  {
    if keys == {} {
      list := [];
    } else {
      var k :| k in keys;
      var rest := ListOfSet(keys - {k});
      list := [k] + rest;
    }
  }

  lemma DueKeys(s: State, gap: int, i: Instance) returns (keys: seq<string>)
    requires i in s.memory
    ensures Enabled(s, ExpireLocks(i, keys), gap)
  {
    var locks := s.memory[i].table.locks;
    keys := ListOfSet(set k | k in locks && locks[k].expires <= s.now);
  }

  /** Lock expiry ends the skipping of a domain all of whose locks are due. */
  lemma ExpiryEndsSkipping(t: Table, keys: seq<string>, now: int, zone: string, domain: string)
    requires SkipsHaveLocks(t)
    requires forall k :: k in keys <==> k in t.locks && t.locks[k].expires <= now
    requires forall k :: k in t.locks && t.locks[k].zone == zone && t.locks[k].domain == domain ==>
                           t.locks[k].expires <= now
    ensures (zone, domain) !in ReleaseAll(t, keys).skip
  {
    ReleaseAllLocks(t, keys);
    ReleaseAllKeepsSkips(t, keys);
    var t' := ReleaseAll(t, keys);
    hide ReleaseAll;
    assert Connections(t'.locks, zone, domain) == {};
  }

  lemma ExpireNow(s: State, gap: int, row: RowId, i: Instance, keys: seq<string>) returns (s': State)
    requires row in s.rows && i in s.memory && FreeBy(s, i, row, s.now) && Enabled(s, ExpireLocks(i, keys), gap)
    requires SkipsHaveLocks(s.memory[i].table)
    ensures s' == Apply(s, ExpireLocks(i, keys), gap) && s'.now == s.now && s'.rows == s.rows && s'.bodies == s.bodies
    ensures i in s'.memory && s'.memory[i].zones == s.memory[i].zones && Key(row) !in s'.memory[i].table.locks
    ensures (s.rows[row].zone, s.rows[row].domain) !in s'.memory[i].table.skip
    ensures MayAsk(s'.memory[i], s.rows[row].zone, s.now)
  {
    var table := s.memory[i].table;
    ReleaseAllLocks(table, keys);
    KeyNotEmpty(row);
    assert KeysMatch(table.locks);
    ExpiryEndsSkipping(table, keys, s.now, s.rows[row].zone, s.rows[row].domain);
    hide ReleaseAll, Key, SkipsHaveLocks, KeysMatch;
    s' := Apply(s, ExpireLocks(i, keys), gap);
  }

  lemma UnlockNow(s: State, gap: int, row: RowId, i: Instance) returns (s': State)
    requires row in s.rows && i in s.memory && MayServe(s, i, row) && s.rows[row].queued <= s.now
    requires s.rows[row].locked ==> s.rows[row].lockTime + OLD_LOCK <= s.now
    requires Key(row) !in s.memory[i].table.locks
    requires (s.rows[row].zone, s.rows[row].domain) !in s.memory[i].table.skip
    requires MayAsk(s.memory[i], s.rows[row].zone, s.now)
    ensures Enabled(s, UnlockOld(i), gap) && s' == Apply(s, UnlockOld(i), gap)
    ensures Ready(s', i, row) && s'.now == s.now && s'.bodies == s.bodies
    ensures s'.rows[row].deferrals == s.rows[row].deferrals
  {
    hide Key;
    s' := Apply(s, UnlockOld(i), gap);
  }

  /** When nothing holds it back, lock expiry and the collector's unlocking leave the row ready to be found. */
  lemma FreeWhenDue(s: State, gap: int, row: RowId, i: Instance) returns (keys: seq<string>, s1: State, s2: State)
    requires row in s.rows && i in s.memory && MayServe(s, i, row) && FreeBy(s, i, row, s.now)
    requires SkipsHaveLocks(s.memory[i].table)
    ensures Enabled(s, ExpireLocks(i, keys), gap) && s1 == Apply(s, ExpireLocks(i, keys), gap)
    ensures Enabled(s1, UnlockOld(i), gap) && s2 == Apply(s1, UnlockOld(i), gap)
    ensures Ready(s2, i, row) && s2.now == s.now && s2.bodies == s.bodies
    ensures s2.rows[row].deferrals == s.rows[row].deferrals
  {
    hide Enabled, Apply, Ready, Key, SkipsHaveLocks, MayAsk;
    keys := DueKeys(s, gap, i);
    s1 := ExpireNow(s, gap, row, i, keys);
    s2 := UnlockNow(s1, gap, row, i);
  }

  // ----- The stages of a request -----

  lemma PollNow(s: State, gap: int, row: RowId, i: Instance, owner: string) returns (s': State, q: Query)
    requires Ready(s, i, row) && !(DELETE_PREFIX <= owner)
    ensures Enabled(s, Poll(i, owner, s.rows[row].zone), gap) && s' == Apply(s, Poll(i, owner, s.rows[row].zone), gap)
    ensures q.owner == owner && Has(s', i, ToPick(q)) && Eligible(s', i, row, q)
    ensures s'.rows == s.rows && s'.bodies == s.bodies && s'.now == s.now && s'.memory[i].table == s.memory[i].table
  {
    hide Key;
    var e := Poll(i, owner, s.rows[row].zone);
    q := QueryNow(s, i, owner, s.rows[row].zone);
    s' := Apply(s, e, gap);
  }

  lemma PickNow(s: State, gap: int, row: RowId, i: Instance, q: Query) returns (s': State)
    requires Has(s, i, ToPick(q)) && Eligible(s, i, row, q)
    ensures Enabled(s, Pick(i, row, q), gap) && s' == Apply(s, Pick(i, row, q), gap)
    ensures Has(s', i, ToLock(row, s.rows[row].domain, s.rows[row].deferrals, q))
    ensures s'.bodies == s.bodies && s'.now == s.now && s'.memory[i].table == s.memory[i].table
  {
    s' := Apply(s, Pick(i, row, q), gap);
  }

  lemma TakeNow(s: State, gap: int, row: RowId, i: Instance, domain: string, n: nat, q: Query, limit: nat)
    returns (s': State)
    requires Has(s, i, ToLock(row, domain, n, q)) && Key(row) !in s.memory[i].table.locks
    ensures Enabled(s, TakeLock(i, row, domain, n, q, limit), gap)
    ensures s' == Apply(s, TakeLock(i, row, domain, n, q, limit), gap)
    ensures Has(s', i, ToHand(row, n, q)) && s'.bodies == s.bodies && s'.now == s.now
  {
    hide Key, Acquire;
    s' := Apply(s, TakeLock(i, row, domain, n, q, limit), gap);
  }

  lemma FindNow(s: State, gap: int, row: RowId, i: Instance, n: nat, q: Query) returns (s': State)
    requires Has(s, i, ToHand(row, n, q)) && row.id in s.bodies
    ensures Enabled(s, FindMeta(i, row, n, q), gap) && s' == Apply(s, FindMeta(i, row, n, q), gap)
    ensures Has(s', i, ToSend(row, n, q)) && s'.now == s.now
  {
    s' := Apply(s, FindMeta(i, row, n, q), gap);
  }

  lemma EndNow(s: State, gap: int, row: RowId, i: Instance, n: nat, q: Query)
    ensures Has(s, i, ToSend(row, n, q)) ==>
              Enabled(s, HandOut(i, row, n, q), gap) && Apply(s, HandOut(i, row, n, q), gap).now == s.now
    ensures Has(s, i, ToHand(row, n, q)) && row.id !in s.bodies ==>
              Enabled(s, MissBody(i, row, n, q), gap) && Apply(s, MissBody(i, row, n, q), gap).now == s.now
  {}

  /** The last stages: the row is handed out, or dropped because its body is gone. */
  lemma EndsNow(s: State, gap: int, row: RowId, i: Instance, n: nat, q: Query) returns (es: seq<Event>)
    requires Has(s, i, ToHand(row, n, q))
    ensures Runs(s, es, gap) && After(s, es, gap).now == s.now
    ensures es == if row.id in s.bodies then [FindMeta(i, row, n, q), HandOut(i, row, n, q)]
                  else [MissBody(i, row, n, q)]
  {
    hide Enabled, Apply, Runs, After, Has;
    EndNow(s, gap, row, i, n, q);
    if row.id in s.bodies {
      var s' := FindNow(s, gap, row, i, n, q);
      EndNow(s', gap, row, i, n, q);
      RunsOne(s', HandOut(i, row, n, q), gap);
      RunsCons(s, FindMeta(i, row, n, q), [HandOut(i, row, n, q)], gap);
      es := [FindMeta(i, row, n, q)] + [HandOut(i, row, n, q)];
    } else {
      RunsOne(s, MissBody(i, row, n, q), gap);
      es := [MissBody(i, row, n, q)];
    }
  }

  /** A run is a request of the owner's that gets the row, or finds that its body is gone. */
  ghost predicate Serves(es: seq<Event>, i: Instance, row: RowId, owner: string, n: nat, hasBody: bool) {
    && |es| == (if hasBody then 5 else 4)
    && es[0].Poll? && es[1].Pick? && es[2].TakeLock?
    && if hasBody then
         && es[3].FindMeta? && es[4].HandOut?
         && es[4].i == i && es[4].row == row && es[4].query.owner == owner && es[4].count == n
       else
         es[3].MissBody? && es[3].i == i && es[3].row == row
  }

  /** A row that is ready goes through. */
  lemma ServedNow(s: State, gap: int, row: RowId, i: Instance, owner: string, limit: nat) returns (es: seq<Event>)
    requires Ready(s, i, row) && !(DELETE_PREFIX <= owner)
    ensures Runs(s, es, gap) && After(s, es, gap).now == s.now
            && Serves(es, i, row, owner, s.rows[row].deferrals, row.id in s.bodies)
  {
    hide Runs, After, Enabled, Apply, Key, Has, Eligible;
    var s1, q := PollNow(s, gap, row, i, owner);
    var s2 := PickNow(s1, gap, row, i, q);
    var domain, n := s1.rows[row].domain, s1.rows[row].deferrals;
    var s3 := TakeNow(s2, gap, row, i, domain, n, q, limit);
    var end := EndsNow(s3, gap, row, i, n, q);
    var poll, pick := Poll(i, owner, s.rows[row].zone), Pick(i, row, q);
    var take := TakeLock(i, row, domain, n, q, limit);
    RunsCons(s2, take, end, gap);
    RunsCons(s1, pick, [take] + end, gap);
    RunsCons(s, poll, [pick] + ([take] + end), gap);
    es := [poll] + ([pick] + ([take] + end));
  }

  lemma DueRowIsServed(s: State, gap: int, row: RowId, i: Instance, owner: string, limit: nat) returns (es: seq<Event>)
    requires row in s.rows && i in s.memory && MayServe(s, i, row) && FreeBy(s, i, row, s.now)
    requires SkipsHaveLocks(s.memory[i].table) && !(DELETE_PREFIX <= owner)
    ensures Runs(s, es, gap) && After(s, es, gap).now == s.now
    ensures |es| >= 2 && es[0].ExpireLocks? && es[1].UnlockOld?
            && Serves(es[2..], i, row, owner, s.rows[row].deferrals, row.id in s.bodies)
  {
    hide Runs, After, Enabled, Apply, FreeBy, SkipsHaveLocks, Serves, Ready;
    var keys, s1, s2 := FreeWhenDue(s, gap, row, i);
    var expire, unlock := ExpireLocks(i, keys), UnlockOld(i);
    var end := ServedNow(s2, gap, row, i, owner, limit);
    RunsCons(s1, unlock, end, gap);
    RunsCons(s, expire, [unlock] + end, gap);
    es := [expire] + ([unlock] + end);
    assert es[2..] == end;
  }

  lemma WaitUntil(s: State, gap: int, row: RowId, i: Instance, t: int) returns (s': State)
    requires row in s.rows && i in s.memory && FreeBy(s, i, row, t) && t >= s.now
    ensures Enabled(s, Tick(t - s.now), gap) && s' == Apply(s, Tick(t - s.now), gap)
    ensures s'.now == t && s'.rows == s.rows && s'.memory == s.memory && s'.bodies == s.bodies && FreeBy(s', i, row, t)
  {
    s' := Apply(s, Tick(t - s.now), gap);
  }

  /** At any time by which nothing holds a row back, it can be handed out, or dropped if its body is gone. */
  lemma RowIsServed(s: State, gap: int, row: RowId, i: Instance, owner: string, limit: nat, t: int)
    returns (es: seq<Event>)
    requires row in s.rows && i in s.memory && MayServe(s, i, row) && FreeBy(s, i, row, t) && t >= s.now
    requires SkipsHaveLocks(s.memory[i].table) && !(DELETE_PREFIX <= owner)
    ensures Runs(s, es, gap) && After(s, es, gap).now == t
    ensures |es| >= 3 && es[0].Tick? && es[1].ExpireLocks? && es[2].UnlockOld?
            && Serves(es[3..], i, row, owner, s.rows[row].deferrals, row.id in s.bodies)
  {
    hide Runs, After, Enabled, Apply, FreeBy, SkipsHaveLocks, Serves;
    var s1 := WaitUntil(s, gap, row, i, t);
    var end := DueRowIsServed(s1, gap, row, i, owner, limit);
    var tick := Tick(t - s.now);
    RunsCons(s, tick, end, gap);
    es := [tick] + end;
    assert es[3..] == end[2..];
  }

  lemma HomedServes(s: State, row: RowId, i: Instance)
    requires Homed(s) && row in s.rows && (s.rows[row].assignee == None || s.rows[row].assignee == Some(i))
    requires i in s.memory && s.rows[row].zone in s.memory[i].zones
    ensures MayServe(s, i, row)
  {
    assert RowHomed(row, s.rows[row], s.home);
  }

  /** In every reachable state, every row can be handed out by the instance it is assigned to, or by any if it is not
      assigned, at any time after its delay that is 61 minutes ahead, without a restart and whatever became of earlier
      hand-outs: even if all of its domain's connections are taken now and never released. */
  lemma NoRowIsStuck(s: State, es: seq<Event>, gap: int, row: RowId, i: Instance, owner: string, limit: nat, t: int)
    returns (more: seq<Event>)
    requires Initial(s) && Runs(s, es, gap) && gap <= SAFE_GAP && !(DELETE_PREFIX <= owner)
    requires row in After(s, es, gap).rows && i in After(s, es, gap).memory
    requires var r := After(s, es, gap).rows[row];
             && (r.assignee == None || r.assignee == Some(i))
             && r.zone in After(s, es, gap).memory[i].zones
             && t >= Later(r.queued, After(s, es, gap).now + OLD_LOCK)
    ensures Runs(After(s, es, gap), more, gap) && After(After(s, es, gap), more, gap).now == t
    ensures |more| == 8 && more[0].Tick? && more[1].ExpireLocks? && more[2].UnlockOld?
            && Serves(more[3..], i, row, owner, After(s, es, gap).rows[row].deferrals, true)
  {
    assert AllRowsKept(s) && AllTasksSafe(s);
    hide Initial, Runs, After, FreeBy, AllRowsKept, AllTasksSafe, SkipsHaveLocks;
    KeptRun(s, es, gap);
    RowIsKept(After(s, es, gap), row);
    ReachedIsServable(s, es, gap, row, i, t);
    more := RowIsServed(After(s, es, gap), gap, row, i, owner, limit, t);
  }

  lemma ReachedIsServable(s: State, es: seq<Event>, gap: int, row: RowId, i: Instance, t: int)
    requires Initial(s) && Runs(s, es, gap)
    requires row in After(s, es, gap).rows && i in After(s, es, gap).memory
    requires var r := After(s, es, gap).rows[row];
             && (r.assignee == None || r.assignee == Some(i))
             && r.zone in After(s, es, gap).memory[i].zones
             && t >= Later(r.queued, After(s, es, gap).now + OLD_LOCK)
    ensures var end := After(s, es, gap);
            && MayServe(end, i, row) && FreeBy(end, i, row, t) && SkipsHaveLocks(end.memory[i].table)
            && row.id in end.pushed && t >= end.now
  {
    hide Initial, Homed, Runs, After, Timely, FreeBy, SkipsHaveLocks, MayServe;
    InitialIsHomed(s);
    InitialIsTimely(s);
    HomedRun(s, es, gap);
    TimelyRun(s, es, gap);
    var end := After(s, es, gap);
    HomedServes(end, row, i);
    HomedIsPushed(end, row);
    FreeInTime(end, i, row, t);
    TimelySkips(end, i);
  }

  lemma HomedIsPushed(s: State, row: RowId)
    requires Homed(s) && row in s.rows
    ensures row.id in s.pushed
  {}

  lemma TimelySkips(s: State, i: Instance)
    requires Timely(s) && i in s.memory
    ensures SkipsHaveLocks(s.memory[i].table)
  {
    assert MemoryTimely(s.memory[i], s.now);
  }

  /** A restart frees every row of its instance at once, if its zone is among those that it comes with. */
  lemma RestartFrees(s: State, gap: int, row: RowId, i: Instance, zones: set<string>, owner: string, limit: nat)
    returns (es: seq<Event>)
    requires row in s.rows && i in s.memory && !(DELETE_PREFIX <= owner)
    requires s.rows[row].assignee == Some(i) && s.rows[row].queued <= s.now && s.rows[row].zone in zones
    ensures Runs(s, [Restart(i, zones)] + es, gap) && After(s, [Restart(i, zones)] + es, gap).now == s.now
    ensures Serves(es, i, row, owner, s.rows[row].deferrals, row.id in s.bodies)
  {
    hide Runs, After, Serves;
    var s1 := Restarted(s, gap, row, i, zones);
    hide Enabled, Apply, Ready;
    es := ServedNow(s1, gap, row, i, owner, limit);
    RunsCons(s, Restart(i, zones), es, gap);
  }

  lemma Restarted(s: State, gap: int, row: RowId, i: Instance, zones: set<string>) returns (s': State)
    requires row in s.rows && i in s.memory
    requires s.rows[row].assignee == Some(i) && s.rows[row].queued <= s.now && s.rows[row].zone in zones
    ensures Enabled(s, Restart(i, zones), gap) && s' == Apply(s, Restart(i, zones), gap)
    ensures Ready(s', i, row) && s'.now == s.now && s'.bodies == s.bodies
    ensures s'.rows[row].deferrals == s.rows[row].deferrals
  {
    s' := Apply(s, Restart(i, zones), gap);
  }
}
