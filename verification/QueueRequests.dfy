/** The way of a request: what comes before every hand-out, that none gets lost, and whose the locks are. */
module QueueRequests {
  import opened Options
  import opened LockTable
  import opened QueueProtocol
  import opened QueueExclusion
  import opened QueueBodies
  import opened QueueProgress
  import opened QueueInTurn
  import opened QueueClaims
  import opened QueueZones
  import opened QueueTiming

  // ----- Where callbacks come from -----

  lemma BeforePrefix(s: State, es: seq<Event>, gap: int, n: nat, k: nat)
    requires Runs(s, es, gap) && k <= n <= |es|
    ensures Runs(s, es[..n], gap) && Before(s, es[..n], gap, k) == Before(s, es, gap, k)
    ensures After(s, es[..n], gap) == Before(s, es, gap, n)
  {
    hide Enabled, Apply, Runs, After;
    RunsSplit(s, es, n, gap);
    assert es[..n][..k] == es[..k];
  }

  lemma BeforeAll(s: State, es: seq<Event>, gap: int)
    requires Runs(s, es, gap)
    ensures Before(s, es, gap, |es|) == After(s, es, gap) && Before(s, es, gap, 0) == s
  {
    assert es[..|es|] == es && es[..0] == [];
  }

  /** Every callback still to be run was left by an event of the run. */
  lemma {:induction false} SpawnedAt(s: State, es: seq<Event>, gap: int, n: nat, i: Instance, t: Task) returns (k: nat)
    requires Initial(s) && Runs(s, es, gap) && n <= |es| && Has(Before(s, es, gap, n), i, t)
    ensures k < n && At(es[k]) == Some(i) && es[k].i == i
    ensures Enabled(Before(s, es, gap, k), es[k], gap)
    ensures t in Spawned(Before(s, es, gap, k), es[k], gap)
  {
    BeforeAll(s, es, gap);
    if n == 0 {
      NothingAtFirst(s, i, t);
      assert false;
    } else {
      hide Initial, Runs, After, Enabled, Apply, Spawned, Before;
      var before := Before(s, es, gap, n - 1);
      BeforeIs(s, es, gap, n - 1);
      SameInstances(before, es[n - 1], gap);
      NewTask(before, es[n - 1], gap, i, t);
      if t in before.memory[i].tasks {
        k := SpawnedAt(s, es, gap, n - 1, i, t);
      } else {
        k := n - 1;
      }
    }
  }

  lemma NothingAtFirst(s: State, i: Instance, t: Task)
    requires Initial(s)
    ensures !Has(s, i, t)
  {}

  /** Every request in flight came in as one. */
  lemma {:induction false} CameIn(s: State, es: seq<Event>, gap: int, n: nat, i: Instance, t: Task) returns (p: nat)
    requires Initial(s) && Runs(s, es, gap) && n <= |es| && Has(Before(s, es, gap, n), i, t) && IsRequest(t)
    ensures p < n && es[p] == Poll(i, t.query.owner, t.query.zone) && i in Before(s, es, gap, p).memory
    ensures t.query == QueryNow(Before(s, es, gap, p), i, t.query.owner, t.query.zone)
  {
    hide Initial, Runs, After, Enabled, Apply, Spawned, Before, SkipList;
    var k := SpawnedAt(s, es, gap, n, i, t);
    var before := Before(s, es, gap, k);
    StageGoesOn(before, es[k], gap, t);
    if Stage(es[k]).Some? {
      StageIsConsumed(before, es[k], gap);
      p := CameIn(s, es, gap, k, i, Stage(es[k]).value);
    } else {
      p := k;
      PollIsThere(before, es[k], gap);
    }
  }

  // ----- What comes before a hand-out -----

  /** The events that leave the later stages of a request. */
  lemma StagesLeft(s: State, e: Event, gap: int, t: Task)
    requires Enabled(s, e, gap) && t in Spawned(s, e, gap)
    ensures t.ToSend? ==> e.FindMeta? && e.row == t.row && e.count == t.count && e.query == t.query
    ensures t.ToHand? ==> e.TakeLock? && e.row == t.row && e.count == t.count && e.query == t.query
    ensures t.ToLock? ==> e.Pick? && e.row == t.row && e.query == t.query
  {
    hide Enabled, Key, QueryNow, ClearUntil, Referenced;
  }

  lemma SendComesFrom(s: State, e: Event, gap: int, row: RowId, n: nat, q: Query)
    requires Enabled(s, e, gap) && ToSend(row, n, q) in Spawned(s, e, gap)
    ensures e.FindMeta? && e == FindMeta(e.i, row, n, q) && row.id in s.bodies && Has(s, e.i, ToHand(row, n, q))
  {
    StagesLeft(s, e, gap, ToSend(row, n, q));
    hide Spawned;
  }

  lemma HandComesFrom(s: State, e: Event, gap: int, row: RowId, n: nat, q: Query)
    requires Enabled(s, e, gap) && ToHand(row, n, q) in Spawned(s, e, gap)
    ensures e.TakeLock? && e.row == row && e.count == n && e.query == q && e.i in s.memory
    ensures Key(row) !in s.memory[e.i].table.locks && Has(s, e.i, ToLock(row, e.domain, n, q))
  {
    StagesLeft(s, e, gap, ToHand(row, n, q));
    hide Key;
    assert Has(s, e.i, ToLock(row, e.domain, n, q));
    hide Enabled;
  }

  lemma LockComesFrom(s: State, e: Event, gap: int, row: RowId, domain: string, n: nat, q: Query)
    requires Enabled(s, e, gap) && ToLock(row, domain, n, q) in Spawned(s, e, gap)
    ensures e.Pick? && e == Pick(e.i, row, q) && Has(s, e.i, ToPick(q))
    ensures row in s.rows && s.rows[row].domain == domain && s.rows[row].deferrals == n
    ensures s.rows[row].zone == q.zone && s.rows[row].queued <= q.asked && !s.rows[row].locked && domain !in q.skip
    ensures s.rows[row].assignee == None || s.rows[row].assignee == Some(e.i)
  {
    StagesLeft(s, e, gap, ToLock(row, domain, n, q));
    assert Has(s, e.i, ToPick(q)) && Eligible(s, e.i, row, q);
    hide Enabled, Has;
  }

  lemma OutComesFrom(s: State, e: Event, gap: int)
    requires Enabled(s, e, gap) && e.HandOut?
    ensures Has(s, e.i, ToSend(e.row, e.count, e.query))
  {}

  /** Over every run, before a row is handed out to a client: the client's request came in, picked the row, which was
      due when the request came in, free, of the zone, and of no domain skipped then; took its lock, which was free;
      and found its body. */
  lemma HandOutPath(s: State, es: seq<Event>, gap: int, b: nat) returns (p: nat, k: nat, l: nat, f: nat)
    requires Initial(s) && Runs(s, es, gap) && b < |es| && es[b].HandOut?
    ensures p < k < l < f < b
    ensures var i, q := es[b].i, es[b].query;
            && es[p] == Poll(i, q.owner, q.zone) && i in Before(s, es, gap, p).memory
            && q.asked == Before(s, es, gap, p).now
            && q.skip == SkipList(Before(s, es, gap, p).memory[i].table, q.zone)
    ensures var row, q, before := es[b].row, es[b].query, Before(s, es, gap, k);
            && es[k] == Pick(es[b].i, row, q) && row in before.rows
            && before.rows[row].zone == q.zone && before.rows[row].queued <= q.asked && !before.rows[row].locked
            && before.rows[row].deferrals == es[b].count && before.rows[row].domain !in q.skip
    ensures es[l].TakeLock? && es[l].i == es[b].i && es[l].row == es[b].row && es[l].query == es[b].query
    ensures es[b].i in Before(s, es, gap, l).memory
    ensures Key(es[b].row) !in Before(s, es, gap, l).memory[es[b].i].table.locks
    ensures es[f] == FindMeta(es[b].i, es[b].row, es[b].count, es[b].query)
    ensures es[b].row.id in Before(s, es, gap, f).bodies
  {
    hide Initial, Runs, After, Enabled, Apply, Spawned, Before, SkipList, Key, Has;
    var i, row, n, q := es[b].i, es[b].row, es[b].count, es[b].query;
    BeforeIs(s, es, gap, b);
    OutComesFrom(Before(s, es, gap, b), es[b], gap);
    f := SpawnedAt(s, es, gap, b, i, ToSend(row, n, q));
    SendComesFrom(Before(s, es, gap, f), es[f], gap, row, n, q);
    l := SpawnedAt(s, es, gap, f, i, ToHand(row, n, q));
    HandComesFrom(Before(s, es, gap, l), es[l], gap, row, n, q);
    k := SpawnedAt(s, es, gap, l, i, ToLock(row, es[l].domain, n, q));
    LockComesFrom(Before(s, es, gap, k), es[k], gap, row, es[l].domain, n, q);
    p := CameIn(s, es, gap, k, i, ToPick(q));
  }

  /** Over every run, when a request is told that there is nothing, there is no row that is free, of its zone, due when
      it came in, for the instance to take, and of no domain skipped then. */
  lemma NothingWasThere(s: State, es: seq<Event>, gap: int, b: nat, row: RowId)
    requires Runs(s, es, gap) && b < |es| && es[b].FindNothing? && row in Before(s, es, gap, b).rows
    ensures var r, q := Before(s, es, gap, b).rows[row], es[b].query;
            || r.zone != q.zone || r.queued > q.asked || r.locked || r.domain in q.skip
            || (r.assignee != None && r.assignee != Some(es[b].i))
  {
    hide Runs, After, Enabled, Apply, Before;
    BeforeIs(s, es, gap, b);
    NoneEligible(Before(s, es, gap, b), es[b], gap, row);
  }

  lemma NoneEligible(s: State, e: Event, gap: int, row: RowId)
    requires Enabled(s, e, gap) && e.FindNothing? && row in s.rows
    ensures var r, q := s.rows[row], e.query;
            || r.zone != q.zone || r.queued > q.asked || r.locked || r.domain in q.skip
            || (r.assignee != None && r.assignee != Some(e.i))
  {
    assert !Eligible(s, e.i, row, e.query);
  }

  // ----- No request gets lost -----

  /** The event answers the request, or gives it up because of an error. */
  predicate Answers(e: Event, i: Instance, q: Query) {
    (e.FindNothing? || e.FailMeta? || e.FailSend? || e.HandOut? || e.LoseClient?) && e.i == i && e.query == q
  }

  ghost predicate InFlight(s: State, i: Instance, q: Query) {
    i in s.memory && exists t :: t in s.memory[i].tasks && IsRequest(t) && t.query == q
  }

  lemma NextStageIs(s: State, e: Event, gap: int)
    requires Enabled(s, e, gap) && Stage(e).Some? && !Answers(e, e.i, Stage(e).value.query)
    ensures exists u :: u in Spawned(s, e, gap) && IsRequest(u) && u.query == Stage(e).value.query
  {
    assert (e.Pick? ==> e.row in s.rows) && (e.TakeLock? ==> e.i in s.memory);
    hide Enabled, Key;
    match e {
      case Pick(_, row, q) => assert ToLock(row, s.rows[row].domain, s.rows[row].deferrals, q) in Spawned(s, e, gap);
      case TakeLock(i, row, _, n, q, _) =>
        assert (if Key(row) in s.memory[i].table.locks then ToPick(q) else ToHand(row, n, q)) in Spawned(s, e, gap);
      case MissBody(_, row, _, q) => assert ToRetry(row, q) in Spawned(s, e, gap);
      case FindMeta(_, row, n, q) => assert ToSend(row, n, q) in Spawned(s, e, gap);
      case Suppress(_, row, _, q) => assert ToRetry(row, q) in Spawned(s, e, gap);
      case Retry(_, _, q) => assert ToPick(q) in Spawned(s, e, gap);
    }
  }

  lemma InFlightOn(s: State, e: Event, gap: int, i: Instance, q: Query)
    requires InFlight(s, i, q) && Enabled(s, e, gap) && !Answers(e, i, q) && !StartsAgain(e, i)
    ensures InFlight(Apply(s, e, gap), i, q)
  {
    MemoryAt(s, e, gap, i);
    hide Enabled, Apply, At, MemoryAfter, Spawned, Stage, Answers, IsRequest;
    if At(e) == Some(i) {
      AtIs(e, i);
      var t :| t in s.memory[i].tasks && IsRequest(t) && t.query == q;
      TasksThen(s, e, gap, i);
      if Stage(e) == Some(t) {
        NextStageIs(s, e, gap);
        var u :| u in Spawned(s, e, gap) && IsRequest(u) && u.query == q;
        assert u in MemoryAfter(s, e, gap).tasks;
      } else {
        NotConsumed(s, e, gap, t);
        assert t in MemoryAfter(s, e, gap).tasks;
      }
    }
  }

  lemma NotConsumed(s: State, e: Event, gap: int, t: Task)
    requires Enabled(s, e, gap) && IsRequest(t) && Stage(e) != Some(t)
    ensures t !in Consumed(e)
  {
    if Stage(e).Some? {
      StageIsConsumed(s, e, gap);
    } else {
      NoneConsumed(e);
    }
    hide Enabled, Consumed, Stage, IsRequest;
  }

  lemma TasksThen(s: State, e: Event, gap: int, i: Instance)
    requires Enabled(s, e, gap) && At(e) == Some(i) && i in s.memory && !e.Restart?
    ensures MemoryAfter(s, e, gap).tasks == s.memory[i].tasks - Consumed(e) + Spawned(s, e, gap)
  {
    AtIs(e, i);
    hide Enabled, TableAfter, Spawned, Consumed, SendersAfter;
  }

  lemma PollIsInFlight(s: State, e: Event, gap: int)
    requires Enabled(s, e, gap) && e.Poll?
    ensures e.i in s.memory && InFlight(Apply(s, e, gap), e.i, QueryNow(s, e.i, e.owner, e.zone))
  {
    hide SkipList;
    assert ToPick(QueryNow(s, e.i, e.owner, e.zone)) in Apply(s, e, gap).memory[e.i].tasks;
  }

  /** Over every run, a request that came in is in flight, or was answered or given up because of an error, or its
      instance has started again. */
  lemma {:induction false} UntilAnswered(s: State, es: seq<Event>, gap: int, a: nat, n: nat)
    requires Runs(s, es, gap) && a < n <= |es| && es[a].Poll? && es[a].i in Before(s, es, gap, a).memory
    ensures var i, q := es[a].i, QueryNow(Before(s, es, gap, a), es[a].i, es[a].owner, es[a].zone);
            || InFlight(Before(s, es, gap, n), i, q)
            || exists k :: a < k < n && (Answers(es[k], i, q) || StartsAgain(es[k], i))
    decreases n
  {
    hide Runs, After, Enabled, Apply, Before, InFlight, Answers, StartsAgain, SkipList;
    var i, q := es[a].i, QueryNow(Before(s, es, gap, a), es[a].i, es[a].owner, es[a].zone);
    BeforeIs(s, es, gap, n - 1);
    if n == a + 1 {
      PollIsInFlight(Before(s, es, gap, a), es[a], gap);
    } else {
      UntilAnswered(s, es, gap, a, n - 1);
      if InFlight(Before(s, es, gap, n - 1), i, q) && !Answers(es[n - 1], i, q) && !StartsAgain(es[n - 1], i) {
        InFlightOn(Before(s, es, gap, n - 1), es[n - 1], gap, i, q);
      }
    }
  }

  // ----- Whose the locks are -----

  /** A callback that still needs the row's lock, or is about to release it. */
  predicate Needs(t: Task, row: RowId, owner: string) {
    match t
    case ToHand(r, _, q) => r == row && q.owner == owner
    case ToSend(r, _, q) => r == row && q.owner == owner
    case ToRetry(r, q) => r == row && q.owner == owner
    case ToUnlock(r) => r == row
    case _ => false
  }

  /** A request or client of the owner's has the row, or the release of its lock is about to be run. */
  ghost predicate HeldBy(m: Memory, row: RowId, owner: string) {
    || (exists t :: t in m.tasks && Needs(t, row, owner))
    || (exists c :: c in m.senders && c.row == row && c.owner == owner)
  }

  ghost predicate LockHeld(s: State, i: Instance, row: RowId) {
    i in s.memory && Key(row) in s.memory[i].table.locks && ForSender(s.memory[i].table.locks[Key(row)]) ==>
      HeldBy(s.memory[i], row, s.memory[i].table.locks[Key(row)].owner)
  }

  /** The ways in which a lock can be left to itself: the client went away before it got the row, or gave the row up, or
      settled it when it was not there any more. */
  predicate Leaves(s: State, e: Event, i: Instance, row: RowId) {
    && (e.LoseClient? || e.Abandon? || e.SenderRelease? || e.SenderDefer?) && e.i == i && e.row == row
    && (e.SenderRelease? || e.SenderDefer? ==> row !in s.rows)
  }

  /** The event releases the lock of the row. */
  predicate Frees(e: Event, row: RowId, owner: string) {
    || e.Restart?
    || (e.CloseClient? && e.owner == owner)
    || ((e.FailMeta? || e.FailSend? || e.Retry? || e.Unlock?) && e.row == row)
  }

  lemma FreedIsGone(s: State, e: Event, gap: int, i: Instance, row: RowId, owner: string)
    requires Enabled(s, e, gap) && At(e) == Some(i) && i in s.memory && Frees(e, row, owner)
    requires Key(row) in s.memory[i].table.locks && s.memory[i].table.locks[Key(row)].owner == owner
    ensures Key(row) !in MemoryAfter(s, e, gap).table.locks
  {
    AtIs(e, i);
    KeyNotEmpty(row);
    TableIs(s, e, gap);
    TableFreed(s, e, gap);
    if e.CloseClient? {
      KeysOfOwner(s, e, gap);
    }
    hide Enabled, MemoryAfter, TableAfter, Release, ReleaseAll, Key;
    ReleasedLocks(s.memory[i].table, Key(row));
    if e.CloseClient? {
      ReleaseAllLocks(s.memory[i].table, e.keys);
    }
  }

  lemma TableFreed(s: State, e: Event, gap: int)
    requires Enabled(s, e, gap) && At(e).Some? && e.i in s.memory
    ensures e.Restart? ==> TableAfter(s, e, gap) == EMPTY
    ensures e.CloseClient? ==> TableAfter(s, e, gap) == ReleaseAll(s.memory[e.i].table, e.keys)
    ensures e.FailMeta? || e.FailSend? || e.Retry? || e.Unlock? ==>
              TableAfter(s, e, gap) == Release(s.memory[e.i].table, Key(e.row))
  {
    hide Enabled, Acquire, Release, ReleaseAll, Key;
  }

  lemma KeysOfOwner(s: State, e: Event, gap: int)
    requires Enabled(s, e, gap) && e.CloseClient? && e.i in s.memory
    ensures forall k :: k in s.memory[e.i].table.locks && s.memory[e.i].table.locks[k].owner == e.owner ==> k in e.keys
  {}

  /** A holder stays or hands on. */
  lemma TaskHandsOn(s: State, e: Event, gap: int, i: Instance, row: RowId, owner: string, t: Task)
    requires Enabled(s, e, gap) && At(e) == Some(i) && i in s.memory && !Frees(e, row, owner) && !Leaves(s, e, i, row)
    requires t in s.memory[i].tasks && Needs(t, row, owner)
    ensures HeldBy(MemoryAfter(s, e, gap), row, owner)
  {
    AtIs(e, i);
    TasksThen(s, e, gap, i);
    SendersThen(s, e, gap, i);
    hide MemoryAfter;
    if t !in Consumed(e) {
      assert t in MemoryAfter(s, e, gap).tasks;
    } else {
      ConsumedHandsOn(s, e, gap, row, owner, t);
      hide Enabled, Consumed, Spawned, Frees, Leaves;
      if e.HandOut? {
        assert Copy(row, e.count, owner) in MemoryAfter(s, e, gap).senders;
      } else {
        var u :| u in Spawned(s, e, gap) && Needs(u, row, owner);
        assert u in MemoryAfter(s, e, gap).tasks;
      }
    }
  }

  lemma SendersThen(s: State, e: Event, gap: int, i: Instance)
    requires Enabled(s, e, gap) && At(e) == Some(i) && i in s.memory
    ensures MemoryAfter(s, e, gap).senders == SendersAfter(s.memory[i].senders, e)
  {
    AtIs(e, i);
    hide Enabled, TableAfter, Spawned, Consumed, SendersAfter;
  }

  lemma ConsumedHandsOn(s: State, e: Event, gap: int, row: RowId, owner: string, t: Task)
    requires Enabled(s, e, gap) && At(e).Some? && !Frees(e, row, owner) && !Leaves(s, e, e.i, row)
    requires t in Consumed(e) && Needs(t, row, owner)
    ensures if e.HandOut? then e.row == row && e.query.owner == owner
            else exists u :: u in Spawned(s, e, gap) && Needs(u, row, owner)
  {
    ConsumedIs(e, row, owner, t);
    hide Enabled, Consumed, Needs;
    if !e.HandOut? {
      NextNeeds(s, e, gap, row, owner);
    }
  }

  /** The events that such a callback is. */
  lemma ConsumedIs(e: Event, row: RowId, owner: string, t: Task)
    requires t in Consumed(e) && Needs(t, row, owner)
    ensures e.FailMeta? || e.MissBody? || e.FindMeta? || e.Suppress? || e.FailSend? || e.HandOut? || e.LoseClient?
            || e.Retry? || e.Unlock?
    ensures e.row == row && (e.MissBody? || e.FindMeta? || e.Suppress? || e.HandOut? ==> e.query.owner == owner)
  {}

  lemma NextNeeds(s: State, e: Event, gap: int, row: RowId, owner: string)
    requires Enabled(s, e, gap) && (e.MissBody? || e.FindMeta? || e.Suppress?) && e.row == row && e.query.owner == owner
    ensures exists u :: u in Spawned(s, e, gap) && Needs(u, row, owner)
  {
    hide Enabled;
    var u := if e.FindMeta? then ToSend(e.row, e.count, e.query) else ToRetry(e.row, e.query);
    assert u in Spawned(s, e, gap) && Needs(u, row, owner);
  }

  lemma CopyHandsOn(s: State, e: Event, gap: int, i: Instance, row: RowId, owner: string, c: Copy)
    requires Enabled(s, e, gap) && At(e) == Some(i) && i in s.memory && !Frees(e, row, owner) && !Leaves(s, e, i, row)
    requires c in s.memory[i].senders && c.row == row && c.owner == owner
    ensures HeldBy(MemoryAfter(s, e, gap), row, owner)
  {
    AtIs(e, i);
    SendersThen(s, e, gap, i);
    SendersEnabled(s, e, gap, i);
    SendersMove(s.memory[i].senders, e, c);
    if c in SendersAfter(s.memory[i].senders, e) {
      hide Enabled, MemoryAfter;
      assert c in MemoryAfter(s, e, gap).senders;
    } else {
      TasksThen(s, e, gap, i);
      hide MemoryAfter, SendersAfter;
      SettledHandsOn(s, e, gap, c);
      hide Enabled, Spawned, Consumed, Settled, CutsOff;
      assert ToUnlock(row) in MemoryAfter(s, e, gap).tasks && Needs(ToUnlock(row), row, owner);
    }
  }

  lemma SettledHandsOn(s: State, e: Event, gap: int, c: Copy)
    requires Enabled(s, e, gap) && At(e).Some? && c in Settled(e) && !Leaves(s, e, e.i, c.row)
    ensures ToUnlock(c.row) in Spawned(s, e, gap)
  {
    hide Enabled;
  }

  lemma LockStays(s: State, e: Event, gap: int, i: Instance, row: RowId)
    requires Homed(s) && Enabled(s, e, gap) && At(e) == Some(i) && i in s.memory && WellNamed(row)
    requires Key(row) in MemoryAfter(s, e, gap).table.locks
    requires ForSender(MemoryAfter(s, e, gap).table.locks[Key(row)])
    ensures var l := MemoryAfter(s, e, gap).table.locks[Key(row)];
            || (Key(row) in s.memory[i].table.locks && s.memory[i].table.locks[Key(row)] == l)
            || (e.TakeLock? && e.row == row && Key(row) !in s.memory[i].table.locks && l.owner == e.query.owner)
  {
    AtIs(e, i);
    TableIs(s, e, gap);
    LockAfter(s, e, gap, i, Key(row));
    if e.TakeLock? || e.ApiLock? {
      TakenLock(s, e, gap, i, row);
    }
    hide Enabled, Homed, MemoryAfter, TableAfter, Key;
  }

  lemma TakenLock(s: State, e: Event, gap: int, i: Instance, row: RowId)
    requires Homed(s) && Enabled(s, e, gap) && At(e) == Some(i) && e.i == i && i in s.memory && WellNamed(row)
    requires (e.TakeLock? || e.ApiLock?) && Key(row) in TableAfter(s, e, gap).locks
    requires ForSender(TableAfter(s, e, gap).locks[Key(row)])
    ensures var l := TableAfter(s, e, gap).locks[Key(row)];
            || (Key(row) in s.memory[i].table.locks && s.memory[i].table.locks[Key(row)] == l)
            || (e.TakeLock? && e.row == row && Key(row) !in s.memory[i].table.locks && l.owner == e.query.owner)
  {
    if e.TakeLock? {
      assert TaskHomed(ToLock(e.row, e.domain, e.count, e.query), i, s.home) by {
        assert MemoryHomed(s.memory[i], i, s.home);
      }
      if Key(row) == Key(e.row) {
        KeyInjective(row, e.row);
      }
      hide Homed, Key, Acquire;
      AcquiredLocks(s.memory[i].table, SenderLock(s, e.row, e.domain, e.query, e.maxConnections));
    } else {
      hide Homed, Key, Acquire;
      AcquiredLocks(s.memory[i].table, Lock(Key(e.row), "", "", e.deleteId, 0, s.now + DELETE_TTL));
    }
  }

  lemma LockHeldOn(s: State, e: Event, gap: int, i: Instance, row: RowId)
    requires Homed(s) && LockHeld(s, i, row) && Enabled(s, e, gap) && WellNamed(row) && !Leaves(s, e, i, row)
    ensures LockHeld(Apply(s, e, gap), i, row)
  {
    SameInstances(s, e, gap);
    if i in s.memory {
      MemoryAt(s, e, gap, i);
      hide Homed, Enabled, Apply, At, MemoryAfter, HeldBy, Leaves, Frees, Key, ForSender;
      if At(e) == Some(i) {
        AtIs(e, i);
        var m := MemoryAfter(s, e, gap);
        if Key(row) in m.table.locks && ForSender(m.table.locks[Key(row)]) {
          LockStays(s, e, gap, i, row);
          HolderStays(s, e, gap, i, row);
        }
      }
    }
  }

  lemma HolderStays(s: State, e: Event, gap: int, i: Instance, row: RowId)
    requires Enabled(s, e, gap) && At(e) == Some(i) && e.i == i && i in s.memory
    requires LockHeld(s, i, row) && !Leaves(s, e, i, row)
    requires Key(row) in MemoryAfter(s, e, gap).table.locks
    requires var l := MemoryAfter(s, e, gap).table.locks[Key(row)];
             && ForSender(l)
             && ((Key(row) in s.memory[i].table.locks && s.memory[i].table.locks[Key(row)] == l)
                 || (e.TakeLock? && e.row == row && Key(row) !in s.memory[i].table.locks && l.owner == e.query.owner))
    ensures HeldBy(MemoryAfter(s, e, gap), row, MemoryAfter(s, e, gap).table.locks[Key(row)].owner)
  {
    hide Enabled, MemoryAfter, Leaves, Frees, Key, ForSender, Needs;
    var owner := MemoryAfter(s, e, gap).table.locks[Key(row)].owner;
    if Key(row) in s.memory[i].table.locks {
      if Frees(e, row, owner) {
        FreedIsGone(s, e, gap, i, row, owner);
        assert false;
      }
      if t :| t in s.memory[i].tasks && Needs(t, row, owner) {
        TaskHandsOn(s, e, gap, i, row, owner, t);
      } else {
        var c :| c in s.memory[i].senders && c.row == row && c.owner == owner;
        CopyHandsOn(s, e, gap, i, row, owner, c);
      }
    } else {
      NewHolder(s, e, gap, i);
      assert ToHand(row, e.count, e.query) in MemoryAfter(s, e, gap).tasks;
      assert Needs(ToHand(row, e.count, e.query), row, owner) by {
        HandNeeds(row, e.count, e.query);
      }
    }
  }

  lemma HandNeeds(row: RowId, n: nat, q: Query)
    ensures Needs(ToHand(row, n, q), row, q.owner)
  {}

  lemma NewHolder(s: State, e: Event, gap: int, i: Instance)
    requires Enabled(s, e, gap) && e.TakeLock? && e.i == i && i in s.memory && Key(e.row) !in s.memory[i].table.locks
    ensures ToHand(e.row, e.count, e.query) in MemoryAfter(s, e, gap).tasks
  {
    hide TableAfter, Key;
    assert ToHand(e.row, e.count, e.query) in Spawned(s, e, gap);
  }

  ghost predicate NeverLeaves(s: State, es: seq<Event>, gap: int, i: Instance, row: RowId)
    requires Runs(s, es, gap)
    decreases |es|
  {
    es != [] ==> !Leaves(s, es[0], i, row) && NeverLeaves(Apply(s, es[0], gap), es[1..], gap, i, row)
  }

  /** Over every run in which no client of the instance's goes away with the row, gives it up or settles it late:
      whenever the row is locked for a sender, a request or a client of that owner has it, or the release is about to
      be run. */
  lemma {:induction false} LocksAreHeld(s: State, es: seq<Event>, gap: int, i: Instance, row: RowId)
    requires Homed(s) && LockHeld(s, i, row) && Runs(s, es, gap) && WellNamed(row) && NeverLeaves(s, es, gap, i, row)
    ensures LockHeld(After(s, es, gap), i, row)
    decreases |es|
  {
    hide Enabled, Apply, Homed, LockHeld, Leaves;
    if es != [] {
      HomedStep(s, es[0], gap);
      LockHeldOn(s, es[0], gap, i, row);
      LocksAreHeld(Apply(s, es[0], gap), es[1..], gap, i, row);
    }
  }

  lemma InitialIsHeld(s: State, i: Instance, row: RowId)
    requires Initial(s)
    ensures LockHeld(s, i, row)
  {}
}
