/** Which rows can be handed out at all: those of the zones that clients can ask for. */
module QueueZones {
  import opened Options
  import opened LockTable
  import opened QueueProtocol
  import opened QueueExclusion
  import opened QueueBodies
  import opened QueueProgress
  import opened QueueInTurn
  import opened QueueClaims
  import opened QueueHands
  import opened QueuePush
  import opened Strings

  /** The row that a request has picked. */
  function Picked(t: Task): Option<RowId> {
    match t
    case ToLock(row, _, _, _) => Some(row)
    case ToHand(row, _, _) => Some(row)
    case ToSend(row, _, _) => Some(row)
    case _ => None
  }

  /** Requests are for zones of the instance, and pick rows of their zone. */
  ghost predicate TaskZoned(s: State, i: Instance, t: Task)
    requires i in s.memory
  {
    && (IsRequest(t) ==> t.query.zone in s.memory[i].zones)
    && (Picked(t).Some? ==>
          var row := Picked(t).value;
          row.id in s.pushed && (row in s.rows ==> s.rows[row].zone == t.query.zone))
  }

  ghost predicate Zoned(s: State) {
    && (forall row :: row in s.rows ==> row.id in s.pushed)
    && (forall i, t :: i in s.memory && t in s.memory[i].tasks ==> TaskZoned(s, i, t))
  }

  /** The instance starts again, perhaps with other zones. */
  predicate StartsAgain(e: Event, i: Instance) {
    e.Restart? && e.i == i
  }

  /** The zones of an instance change only when it starts again, and that of a row never. */
  lemma ZonesStay(s: State, e: Event, gap: int)
    requires Enabled(s, e, gap)
    ensures var s' := Apply(s, e, gap);
            && s'.memory.Keys == s.memory.Keys && s.pushed <= s'.pushed
            && (forall i :: i in s.memory ==>
                  s'.memory[i].zones == if StartsAgain(e, i) then e.zones else s.memory[i].zones)
  {
    SameInstances(s, e, gap);
    PushedGrows(s, e, gap);
    hide Enabled, RowsAfter, BodiesAfter, MemoryAfter;
    if At(e).Some? {
      ZonesAt(s, e, gap);
    } else {
      assert !e.Restart?;
    }
  }

  lemma ZonesAt(s: State, e: Event, gap: int)
    requires Enabled(s, e, gap) && At(e).Some?
    ensures e.i in s.memory
    ensures MemoryAfter(s, e, gap).zones == if e.Restart? then e.zones else s.memory[e.i].zones
    ensures e.Restart? ==> MemoryAfter(s, e, gap).tasks == multiset{}
  {
    hide TableAfter, Spawned, Consumed;
  }

  lemma RowZoneStays(s: State, e: Event, gap: int, row: RowId)
    requires Enabled(s, e, gap) && row in Apply(s, e, gap).rows && row.id in s.pushed
    ensures row in s.rows && Apply(s, e, gap).rows[row].zone == s.rows[row].zone
  {
    hide MemoryAfter, BodiesAfter;
  }

  lemma RowsPushed(s: State, e: Event, gap: int)
    requires Enabled(s, e, gap) && forall row :: row in s.rows ==> row.id in s.pushed
    ensures forall row :: row in Apply(s, e, gap).rows ==> row.id in Apply(s, e, gap).pushed
  {
    hide MemoryAfter, BodiesAfter;
  }

  lemma TaskStaysZoned(s: State, e: Event, gap: int, i: Instance, t: Task)
    requires Enabled(s, e, gap) && i in s.memory && TaskZoned(s, i, t) && !StartsAgain(e, i)
    ensures i in Apply(s, e, gap).memory && TaskZoned(Apply(s, e, gap), i, t)
  {
    hide Enabled, Apply, Picked;
    var s' := Apply(s, e, gap);
    ZonesStay(s, e, gap);
    if Picked(t).Some? && Picked(t).value in s'.rows {
      RowZoneStays(s, e, gap, Picked(t).value);
    }
  }

  /** A new stage has the query of the one before, and its row but for the one that picks it. */
  lemma StageGoesOn(s: State, e: Event, gap: int, t: Task)
    requires Enabled(s, e, gap) && t in Spawned(s, e, gap) && (IsRequest(t) || Picked(t).Some?)
    ensures Stage(e).Some? || e.Poll?
    ensures Stage(e).Some? ==> IsRequest(t) && IsRequest(Stage(e).value) && t.query == Stage(e).value.query
    ensures Stage(e).Some? && Picked(t).Some? ==>
              if e.Pick? then Picked(t).value == e.row else Picked(t) == Picked(Stage(e).value)
    ensures e.Poll? ==> t == ToPick(QueryNow(s, e.i, e.owner, e.zone))
  {
    hide Enabled, Stage, Picked, IsRequest;
    StageOrPoll(s, e, gap, t);
    if Stage(e).Some? {
      StageKeepsQuery(s, e, gap, t);
      if Picked(t).Some? {
        StageKeepsRow(s, e, gap, t);
      }
    }
  }

  lemma StageOrPoll(s: State, e: Event, gap: int, t: Task)
    requires Enabled(s, e, gap) && t in Spawned(s, e, gap) && (IsRequest(t) || Picked(t).Some?)
    ensures Stage(e).Some? <==> !e.Poll?
    ensures e.Poll? ==> t == ToPick(QueryNow(s, e.i, e.owner, e.zone))
  {
    hide Enabled, SkipList;
  }

  lemma StageKeepsQuery(s: State, e: Event, gap: int, t: Task)
    requires Enabled(s, e, gap) && t in Spawned(s, e, gap) && Stage(e).Some? && (IsRequest(t) || Picked(t).Some?)
    ensures IsRequest(t) && IsRequest(Stage(e).value) && t.query == Stage(e).value.query
  {
    hide Enabled;
  }

  lemma StageKeepsRow(s: State, e: Event, gap: int, t: Task)
    requires Enabled(s, e, gap) && t in Spawned(s, e, gap) && Picked(t).Some? && Stage(e).Some?
    ensures if e.Pick? then Picked(t).value == e.row else Picked(t) == Picked(Stage(e).value)
  {
    hide Enabled;
  }

  lemma PollZoned(s: State, e: Event, gap: int)
    requires Enabled(s, e, gap)
    ensures e.Poll? ==> e.i in s.memory && e.zone in s.memory[e.i].zones
    ensures e.Pick? ==> e.row in s.rows && s.rows[e.row].zone == e.query.zone && Stage(e) == Some(ToPick(e.query))
  {}

  lemma SpawnedZoned(s: State, e: Event, gap: int, t: Task)
    requires Zoned(s) && Enabled(s, e, gap) && At(e).Some? && e.i in s.memory && t in Spawned(s, e, gap)
    ensures TaskZoned(s, e.i, t)
  {
    hide Enabled, Spawned, Consumed, Stage;
    if IsRequest(t) || Picked(t).Some? {
      StageGoesOn(s, e, gap, t);
      PollZoned(s, e, gap);
      if Stage(e).Some? {
        StageIsConsumed(s, e, gap);
        assert TaskZoned(s, e.i, Stage(e).value);
      }
    }
  }

  lemma ZonedStep(s: State, e: Event, gap: int)
    requires Zoned(s) && Enabled(s, e, gap)
    ensures Zoned(Apply(s, e, gap))
  {
    hide Enabled, Apply, TaskZoned;
    var s' := Apply(s, e, gap);
    RowsPushed(s, e, gap);
    ZonesStay(s, e, gap);
    forall i, t | i in s'.memory && t in s'.memory[i].tasks
      ensures TaskZoned(s', i, t)
    {
      NewTask(s, e, gap, i, t);
      if t !in s.memory[i].tasks {
        SpawnedZoned(s, e, gap, t);
      }
      TaskStaysZoned(s, e, gap, i, t);
    }
  }

  lemma NewTask(s: State, e: Event, gap: int, i: Instance, t: Task)
    requires Enabled(s, e, gap) && i in s.memory && i in Apply(s, e, gap).memory
             && t in Apply(s, e, gap).memory[i].tasks
    ensures t in s.memory[i].tasks || (At(e) == Some(i) && e.i == i && t in Spawned(s, e, gap))
    ensures !StartsAgain(e, i)
  {
    hide Enabled, RowsAfter, BodiesAfter, TableAfter, Spawned, Consumed;
  }

  lemma {:induction false} ZonedRun(s: State, es: seq<Event>, gap: int)
    requires Zoned(s) && Runs(s, es, gap)
    ensures Zoned(After(s, es, gap))
    decreases |es|
  {
    hide Enabled, Apply, Zoned;
    if es != [] {
      ZonedStep(s, es[0], gap);
      ZonedRun(Apply(s, es[0], gap), es[1..], gap);
    }
  }

  // ----- Rows of other zones -----

  /** The row is of a zone that is not the instance's, and no request there is about it. */
  ghost predicate Unserved(s: State, row: RowId, i: Instance, zone: string) {
    && row.id in s.pushed && i in s.memory && zone !in s.memory[i].zones
    && (row in s.rows ==> s.rows[row].zone == zone)
    && (forall t :: t in s.memory[i].tasks ==> Picked(t) != Some(row))
    && (forall t :: t in s.memory[i].tasks && IsRequest(t) ==> t.query.zone in s.memory[i].zones)
  }

  lemma ZonedUnserved(s: State, row: RowId, i: Instance)
    requires Zoned(s) && row in s.rows && i in s.memory && s.rows[row].zone !in s.memory[i].zones
    ensures Unserved(s, row, i, s.rows[row].zone)
  {
    forall t | t in s.memory[i].tasks
      ensures Picked(t) != Some(row)
      ensures IsRequest(t) ==> t.query.zone in s.memory[i].zones
    {
      assert TaskZoned(s, i, t);
    }
  }

  /** The instance starts again with the zone. */
  predicate Brings(e: Event, i: Instance, zone: string) {
    StartsAgain(e, i) && zone in e.zones
  }

  /** The event has the instance pick, lock or hand out the row. */
  predicate Handles(e: Event, row: RowId, i: Instance) {
    (e.Pick? || e.TakeLock? || e.HandOut?) && e.row == row && e.i == i
  }

  lemma NotHandled(s: State, e: Event, gap: int, row: RowId, i: Instance, zone: string)
    requires Unserved(s, row, i, zone) && Enabled(s, e, gap)
    ensures !Handles(e, row, i)
  {
    hide Enabled, Stage, Picked;
    if Handles(e, row, i) {
      HandledStage(s, e, gap);
      PollZoned(s, e, gap);
    }
  }

  lemma HandledStage(s: State, e: Event, gap: int)
    requires Enabled(s, e, gap) && (e.Pick? || e.TakeLock? || e.HandOut?)
    ensures e.i in s.memory && Stage(e).Some? && Stage(e).value in s.memory[e.i].tasks && IsRequest(Stage(e).value)
    ensures !e.Pick? ==> Picked(Stage(e).value) == Some(e.row)
    ensures e.Pick? ==> Stage(e).value.query == e.query
  {}

  lemma UnservedStep(s: State, e: Event, gap: int, row: RowId, i: Instance, zone: string)
    requires Unserved(s, row, i, zone) && Enabled(s, e, gap) && !Brings(e, i, zone)
    ensures Unserved(Apply(s, e, gap), row, i, zone)
  {
    hide Enabled, Apply, Stage;
    var s' := Apply(s, e, gap);
    ZonesStay(s, e, gap);
    NotHandled(s, e, gap, row, i, zone);
    if row in s'.rows {
      RowZoneStays(s, e, gap, row);
    }
    forall t | t in s'.memory[i].tasks
      ensures Picked(t) != Some(row)
      ensures IsRequest(t) ==> t.query.zone in s'.memory[i].zones
    {
      NewTask(s, e, gap, i, t);
      if t !in s.memory[i].tasks && (IsRequest(t) || Picked(t).Some?) {
        StageGoesOn(s, e, gap, t);
        PollZoned(s, e, gap);
        if Stage(e).Some? {
          StageIsConsumed(s, e, gap);
        }
      }
    }
  }

  /** A row of a zone that the instance's clients cannot ask for is never picked or handed out there, unless the
      instance starts again with that zone. */
  lemma {:induction false} NeverHandled(s: State, es: seq<Event>, gap: int, row: RowId, i: Instance, zone: string,
                                        k: nat)
    requires Unserved(s, row, i, zone) && Runs(s, es, gap) && k < |es|
    requires forall e :: e in es[..k] ==> !Brings(e, i, zone)
    ensures !Handles(es[k], row, i)
    decreases |es|
  {
    hide Enabled, Apply, Unserved, Handles;
    if k == 0 {
      NotHandled(s, es[0], gap, row, i, zone);
    } else {
      assert es[0] in es[..k] && es[..k][1..] == es[1..][..k - 1];
      UnservedStep(s, es[0], gap, row, i, zone);
      NeverHandled(Apply(s, es[0], gap), es[1..], gap, row, i, zone, k - 1);
    }
  }

  // ----- Exactly the others can be handed out -----

  ghost predicate HandsOut(es: seq<Event>, row: RowId, i: Instance) {
    exists e :: e in es && e.HandOut? && e.row == row && e.i == i
  }

  /** There is a way on to the hand-out in which the instance starts again with these zones only, if at all. */
  ghost predicate CanBeHandedOut(s: State, gap: int, row: RowId, i: Instance, zones: set<string>) {
    exists es: seq<Event> :: Runs(s, es, gap) && HandsOut(es, row, i) && KeepsTo(es, i, zones)
  }

  ghost predicate KeepsTo(es: seq<Event>, i: Instance, zones: set<string>) {
    forall e :: e in es && StartsAgain(e, i) ==> e.zones <= zones
  }

  /** In every reachable state, a row that an instance may take can be handed out by it sooner or later if and only if
      the row's zone is one that clients of the instance can ask for, or will be able to when it starts again. */
  lemma ServedExactly(s: State, es: seq<Event>, gap: int, row: RowId, i: Instance, zones: set<string>)
    requires Initial(s) && Runs(s, es, gap) && gap <= SAFE_GAP
    requires row in After(s, es, gap).rows && i in After(s, es, gap).memory
    requires After(s, es, gap).rows[row].assignee in {None, Some(i)}
    ensures CanBeHandedOut(After(s, es, gap), gap, row, i, zones)
            <==> After(s, es, gap).rows[row].zone in After(s, es, gap).memory[i].zones + zones
  {
    hide *;
    var end := After(s, es, gap);
    var zone := end.rows[row].zone;
    if zone in end.memory[i].zones {
      ServedNowOn(s, es, gap, row, i, zones);
    } else if zone in zones {
      ServedAfterRestart(s, es, gap, row, i, zones);
    } else {
      NotServed(s, es, gap, row, i, zones);
    }
  }

  lemma ServedNowOn(s: State, es: seq<Event>, gap: int, row: RowId, i: Instance, zones: set<string>)
    requires Initial(s) && Runs(s, es, gap) && gap <= SAFE_GAP
    requires row in After(s, es, gap).rows && i in After(s, es, gap).memory
    requires After(s, es, gap).rows[row].assignee in {None, Some(i)}
    requires After(s, es, gap).rows[row].zone in After(s, es, gap).memory[i].zones
    ensures CanBeHandedOut(After(s, es, gap), gap, row, i, zones)
  {
    hide Runs, After, Initial, IsHarmless;
    var end := After(s, es, gap);
    var more := NoRowIsStuck(s, es, gap, row, i, "", 1, Later(end.rows[row].queued, end.now + OLD_LOCK));
    WaitIsHarmless(more, i, row, "", end.rows[row].deferrals);
    HarmlessKeepsTo(more, i, zones);
    assert more[7] in more;
  }

  lemma HarmlessKeepsTo(es: seq<Event>, i: Instance, zones: set<string>)
    requires forall e :: e in es ==> IsHarmless(e)
    ensures KeepsTo(es, i, zones)
  {}

  lemma ServedAfterRestart(s: State, es: seq<Event>, gap: int, row: RowId, i: Instance, zones: set<string>)
    requires Initial(s) && Runs(s, es, gap) && gap <= SAFE_GAP
    requires row in After(s, es, gap).rows && i in After(s, es, gap).memory
    requires After(s, es, gap).rows[row].assignee in {None, Some(i)} && After(s, es, gap).rows[row].zone in zones
    ensures CanBeHandedOut(After(s, es, gap), gap, row, i, zones)
  {
    var end, restart := After(s, es, gap), Restart(i, zones);
    var s1 := RestartKeepsRow(end, gap, row, i, zones);
    hide *;
    RunsOne(end, restart, gap);
    RunsConcat(s, es, [restart], gap);
    var wait := NoRowIsStuck(s, es + [restart], gap, row, i, "", 1, Later(s1.rows[row].queued, s1.now + OLD_LOCK));
    WaitIsHarmless(wait, i, row, "", s1.rows[row].deferrals);
    HarmlessKeepsTo(wait, i, zones);
    RunsCons(end, restart, wait, gap);
    IsHandedOut(end, restart, wait, gap, row, i, "", s1.rows[row].deferrals, zones);
  }

  lemma IsHandedOut(s: State, e: Event, es: seq<Event>, gap: int, row: RowId, i: Instance, owner: string, n: nat,
                    zones: set<string>)
    requires Runs(s, [e] + es, gap) && KeepsTo(es, i, zones) && (StartsAgain(e, i) ==> e.zones <= zones)
    requires es != [] && HandsTo(es[|es| - 1], i, row, owner, n)
    ensures CanBeHandedOut(s, gap, row, i, zones)
  {
    hide Runs;
    var more := [e] + es;
    assert more[|es|] == es[|es| - 1] && more[|es|] in more;
    assert KeepsTo(more, i, zones);
  }

  lemma RestartKeepsRow(s: State, gap: int, row: RowId, i: Instance, zones: set<string>) returns (s': State)
    requires row in s.rows && i in s.memory
    ensures Enabled(s, Restart(i, zones), gap) && s' == Apply(s, Restart(i, zones), gap)
    ensures row in s'.rows && s'.rows[row].zone == s.rows[row].zone && s'.rows[row].assignee == s.rows[row].assignee
    ensures i in s'.memory && s'.memory[i].zones == zones
    ensures StartsAgain(Restart(i, zones), i)
  {
    s' := Apply(s, Restart(i, zones), gap);
  }

  lemma NotServed(s: State, es: seq<Event>, gap: int, row: RowId, i: Instance, zones: set<string>)
    requires Initial(s) && Runs(s, es, gap) && row in After(s, es, gap).rows && i in After(s, es, gap).memory
    requires After(s, es, gap).rows[row].zone !in After(s, es, gap).memory[i].zones + zones
    ensures !CanBeHandedOut(After(s, es, gap), gap, row, i, zones)
  {
    hide Runs, After, Initial, Unserved, Zoned;
    var end := After(s, es, gap);
    InitialIsZoned(s);
    ZonedRun(s, es, gap);
    ZonedUnserved(end, row, i);
    forall more | Runs(end, more, gap) && KeepsTo(more, i, zones)
      ensures !HandsOut(more, row, i)
    {
      forall k | 0 <= k < |more|
        ensures !Handles(more[k], row, i)
      {
        assert forall e :: e in more[..k] ==> e in more;
        NeverHandled(end, more, gap, row, i, end.rows[row].zone, k);
      }
    }
  }

  lemma InitialIsZoned(s: State)
    requires Initial(s)
    ensures Zoned(s)
  {}

  // ----- Rows of a zone that was asked for -----

  lemma {:induction false} ZoneStays(s: State, es: seq<Event>, gap: int, row: RowId)
    requires Runs(s, es, gap) && row in s.rows && row.id in s.pushed && row in After(s, es, gap).rows
    ensures After(s, es, gap).rows[row].zone == s.rows[row].zone
    decreases |es|
  {
    hide Enabled, Apply;
    if es != [] {
      StillThere(s, es, gap, row);
      RowZoneStays(s, es[0], gap, row);
      PushedGrows(s, es[0], gap);
      ZoneStays(Apply(s, es[0], gap), es[1..], gap, row);
    }
  }

  lemma PushedZone(s: State, e: Event, gap: int, recipients: seq<Recipient>, zone: string, fallback: string, hook: Hook,
                   due: int, n: nat)
    requires Enabled(s, e, gap) && e.Push? && 1 <= n <= |recipients| && Routed(recipients, zone, fallback, hook)
    requires HasAll(e.targets, recipients, zone, fallback, hook, due)
    requires zone != "" && hook(n - 1, zone) == Some(zone)
    ensures var row, s' := RowId(e.id, Number(n)), Apply(s, e, gap);
            row in s'.rows && row.id in s'.pushed && s'.rows[row].zone == zone
  {
    hide *;
    PushMakesRows(s, e.id, e.targets, recipients, zone, fallback, hook, due, gap);
    MadeZone(s.rows, Apply(s, e, gap).rows, e.id, recipients, zone, fallback, hook, due, s.now, n);
    PushRecords(s, e, gap);
  }

  lemma MadeZone(rows: map<RowId, Row>, rows': map<RowId, Row>, id: string, recipients: seq<Recipient>, zone: string,
                 fallback: string, hook: Hook, due: int, now: int, n: nat)
    requires Routed(recipients, zone, fallback, hook) && 1 <= n <= |recipients|
    requires RowsMade(rows, rows', id, recipients, zone, fallback, hook, due, now)
    requires zone != "" && hook(n - 1, zone) == Some(zone)
    ensures RowId(id, Number(n)) in rows' && rows'[RowId(id, Number(n))].zone == zone
  {
    hide Number, Numbers;
    assert TargetFor(n - 1, recipients[n - 1], zone, fallback, hook, due).zone == zone;
  }

  lemma PushRecords(s: State, e: Event, gap: int)
    requires Enabled(s, e, gap) && e.Push?
    ensures e.id in Apply(s, e, gap).pushed
  {
    hide RowsAfter, BodiesAfter, MemoryAfter;
  }

  /** In every run from a push with a zone that is known, and that routing leaves as it is: a row of it that is still
      there can be handed out by an instance that has the configured zones, if and only if the zone was asked for by its
      normal name. */
  lemma AskedIsHandedOut(s: State, es: seq<Event>, gap: int, k: nat, recipients: seq<Recipient>, asked: string,
                         names: set<string>, fallback: string, hook: Hook, due: int, n: nat, i: Instance)
    requires Initial(s) && Runs(s, es, gap) && gap <= SAFE_GAP && k < |es| && es[k].Push?
    requires 1 <= n <= |recipients| && ZoneAskedFor(asked, names) != ""
    requires Routed(recipients, ZoneAskedFor(asked, names), fallback, hook)
    requires HasAll(es[k].targets, recipients, ZoneAskedFor(asked, names), fallback, hook, due)
    requires hook(n - 1, ZoneAskedFor(asked, names)) == Some(ZoneAskedFor(asked, names))
    requires RowId(es[k].id, Number(n)) in After(s, es, gap).rows && i in After(s, es, gap).memory
    requires After(s, es, gap).rows[RowId(es[k].id, Number(n))].assignee in {None, Some(i)}
    requires After(s, es, gap).memory[i].zones == ServedZones(names)
    ensures CanBeHandedOut(After(s, es, gap), gap, RowId(es[k].id, Number(n)), i, ServedZones(names))
            <==> asked == Normal(asked)
  {
    hide *;
    var zone, row := ZoneAskedFor(asked, names), RowId(es[k].id, Number(n));
    RunsSplit(s, es, k, gap);
    var before := After(s, es[..k], gap);
    PushedZone(before, es[k], gap, recipients, zone, fallback, hook, due, n);
    RunsSplit(before, es[k..], 1, gap);
    assert es[k..][..1] == [es[k]];
    RunsOne(before, es[k], gap);
    ZoneStays(Apply(before, es[k], gap), es[k..][1..], gap, row);
    ServedExactly(s, es, gap, row, i, ServedZones(names));
    AskedIsServed(asked, names);
  }
}
