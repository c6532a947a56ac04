/** How long stored bodies stay: exactly when no body is deleted while a row refers to it, and that a body no row
    refers to is not forgotten. */
module QueueBodies {
  import opened Options
  import opened LockTable
  import opened QueueProtocol

  /** Half a second short of ten minutes: the collector rounds the time to the nearest second. */
  const SAFE_GAP := 599500

  ghost predicate BodiesPresent(s: State) {
    forall row :: row in s.rows ==> row.id in s.bodies
  }

  // ----- The invariant -----

  /** A row's message has been pushed, and soon enough after its body began to be stored. */
  predicate RowKept(s: State, row: RowId)
    requires row in s.rows
  {
    && row.id in s.pushed
    && row.id in s.bodies
    && s.rows[row].created <= s.now
    && s.rows[row].created - s.bodies[row.id] <= SAFE_GAP
  }

  /** The message a callback is about. */
  function IdOf(task: Task): Option<string> {
    match task
    case ToPick(_) => None
    case ToLock(row, _, _, _) => Some(row.id)
    case ToHand(row, _, _) => Some(row.id)
    case ToSend(row, _, _) => Some(row.id)
    case ToRetry(row, _) => Some(row.id)
    case ToUnlock(row) => Some(row.id)
    case ToDelete(row) => Some(row.id)
    case ToCollect(row) => Some(row.id)
    case ToCheck(id) => Some(id)
    case ToRemove(id) => Some(id)
    case ToClear(_) => None
  }

  predicate TaskPushed(task: Task, pushed: set<string>) {
    IdOf(task).Some? ==> IdOf(task).value in pushed
  }

  ghost predicate TaskSafe(s: State, task: Task) {
    && TaskPushed(task, s.pushed)
    && (task.ToRemove? ==> forall row :: row in s.rows ==> row.id != task.id)
    && (task.ToClear? ==> ClearSafe(s, task.until))
  }

  /** Neither the rows that are there nor any that may still come have a body that old. */
  ghost predicate ClearSafe(s: State, until: int) {
    && until <= Second(s.now - SAFE_GAP)
    && forall row :: row in s.rows ==> row.id in s.bodies && Second(s.bodies[row.id]) >= until
  }

  ghost predicate AllRowsKept(s: State) {
    forall row :: row in s.rows ==> RowKept(s, row)
  }

  ghost predicate AllTasksSafe(s: State) {
    forall i, task :: i in s.memory && task in s.memory[i].tasks ==> TaskSafe(s, task)
  }

  lemma SecondMonotone(a: int, b: int)
    requires a <= b
    ensures Second(a) <= Second(b)
  {}

  lemma DeletionsAreSafe(s: State, e: Event, gap: int)
    requires AllTasksSafe(s) && Enabled(s, e, gap)
    ensures e.RemoveBody? ==> TaskSafe(s, ToRemove(e.id))
    ensures e.ClearGarbage? ==> TaskSafe(s, ToClear(e.until))
  {
    hide TaskSafe;
  }

  lemma RowKeptStep(s: State, e: Event, gap: int, row: RowId)
    requires AllRowsKept(s) && AllTasksSafe(s) && Enabled(s, e, gap) && gap <= SAFE_GAP
    requires row in Apply(s, e, gap).rows
    ensures RowKept(Apply(s, e, gap), row)
  {
    hide AllRowsKept, AllTasksSafe, MemoryAfter, RowsAfter;
    RowOrigin(s, e, gap, row);
    DeletionsAreSafe(s, e, gap);
    if row in s.rows {
      RowIsKept(s, row);
    }
  }

  lemma KeptStep(s: State, e: Event, gap: int)
    requires AllRowsKept(s) && AllTasksSafe(s) && Enabled(s, e, gap) && gap <= SAFE_GAP
    ensures AllRowsKept(Apply(s, e, gap))
  {
    forall row | row in Apply(s, e, gap).rows
      ensures RowKept(Apply(s, e, gap), row)
    {
      RowKeptStep(s, e, gap, row);
    }
  }

  /** A task that is safe stays so whatever happens. */
  lemma TaskStaysSafe(s: State, e: Event, gap: int, task: Task)
    requires AllRowsKept(s) && AllTasksSafe(s) && Enabled(s, e, gap) && gap <= SAFE_GAP && TaskSafe(s, task)
    ensures TaskSafe(Apply(s, e, gap), task)
  {
    var s' := Apply(s, e, gap);
    KeptStep(s, e, gap);
    if task.ToClear? {
      SecondMonotone(s.now - SAFE_GAP, s'.now - SAFE_GAP);
      forall row | row in s'.rows
        ensures row.id in s'.bodies && Second(s'.bodies[row.id]) >= task.until
      {
        assert RowKept(s', row);
        if row !in s.rows {
          SecondMonotone(s.now - SAFE_GAP, s'.bodies[row.id]);
        }
      }
    }
  }

  /** The message an event is about, if it leaves callbacks about one. */
  function EventId(e: Event): Option<string> {
    match e
    case Pick(_, row, _) => Some(row.id)
    case TakeLock(_, row, _, _, _, _) => Some(row.id)
    case MissBody(_, row, _, _) => Some(row.id)
    case FindMeta(_, row, _, _) => Some(row.id)
    case Suppress(_, row, _, _) => Some(row.id)
    case SenderRelease(_, row, _, _) => Some(row.id)
    case SenderDefer(_, row, _, _, _) => Some(row.id)
    case ApiLock(_, row, _) => Some(row.id)
    case ApiDelete(_, row) => Some(row.id)
    case FindOverAge(_, row, _) => Some(row.id)
    case CollectOverAge(_, row) => Some(row.id)
    case CheckBody(_, id) => Some(id)
    case _ => None
  }

  lemma SpawnedIds(s: State, e: Event, gap: int)
    requires Enabled(s, e, gap)
    ensures forall task :: task in Spawned(s, e, gap) && IdOf(task).Some? ==> IdOf(task) == EventId(e)
    ensures (e.SenderRelease? || e.SenderDefer?) && e.row !in s.rows ==> Spawned(s, e, gap) == multiset{}
  {
    hide Enabled, Spawned, IdOf, EventId;
    forall task | task in Spawned(s, e, gap)
      ensures IdOf(task).Some? ==> IdOf(task) == EventId(e)
    {
      if Stage(e).Some? {
        SpawnedIdByStage(s, e, gap, task);
      } else {
        SpawnedIdOtherwise(s, e, gap, task);
      }
    }
    if e.SenderRelease? || e.SenderDefer? {
      NothingSpawned(s, e, gap);
    }
  }

  lemma SpawnedIdByStage(s: State, e: Event, gap: int, task: Task)
    requires Enabled(s, e, gap) && Stage(e).Some? && task in Spawned(s, e, gap)
    ensures IdOf(task).Some? ==> IdOf(task) == EventId(e)
  {
    hide Enabled;
  }

  lemma SpawnedIdOtherwise(s: State, e: Event, gap: int, task: Task)
    requires Enabled(s, e, gap) && Stage(e).None? && task in Spawned(s, e, gap)
    ensures IdOf(task).Some? ==> IdOf(task) == EventId(e)
  {
    hide Enabled;
  }

  lemma NothingSpawned(s: State, e: Event, gap: int)
    requires Enabled(s, e, gap) && (e.SenderRelease? || e.SenderDefer?)
    ensures e.row !in s.rows ==> Spawned(s, e, gap) == multiset{}
  {
    hide Enabled;
  }

  lemma TaskIsPushed(s: State, i: Instance, task: Task)
    requires AllTasksSafe(s) && Has(s, i, task)
    ensures TaskPushed(task, s.pushed)
  {
    assert TaskSafe(s, task);
  }

  lemma RowIsKept(s: State, row: RowId)
    requires AllRowsKept(s) && row in s.rows
    ensures RowKept(s, row)
  {}

  lemma StageIsNone(e: Event)
    requires Stage(e).None?
    ensures !e.Pick? && !e.TakeLock? && !e.MissBody? && !e.FindMeta? && !e.Suppress?
  {}

  lemma StageIdPushed(s: State, e: Event, gap: int)
    requires AllRowsKept(s) && AllTasksSafe(s) && Enabled(s, e, gap) && EventId(e).Some? && Stage(e).Some?
    ensures EventId(e).value in s.pushed
  {
    hide AllRowsKept, AllTasksSafe;
    match e {
      case Pick(_, row, _) => RowIsKept(s, row);
      case TakeLock(i, row, domain, n, q, _) => TaskIsPushed(s, i, ToLock(row, domain, n, q));
      case MissBody(i, row, n, q) => TaskIsPushed(s, i, ToHand(row, n, q));
      case FindMeta(i, row, n, q) => TaskIsPushed(s, i, ToHand(row, n, q));
      case Suppress(i, row, n, q) => TaskIsPushed(s, i, ToSend(row, n, q));
    }
  }

  lemma EventIdPushed(s: State, e: Event, gap: int)
    requires AllRowsKept(s) && AllTasksSafe(s) && Enabled(s, e, gap) && EventId(e).Some?
    requires e.SenderRelease? || e.SenderDefer? ==> e.row in s.rows
    ensures EventId(e).value in s.pushed
  {
    hide AllRowsKept, AllTasksSafe, Stage;
    if Stage(e).Some? {
      hide Enabled;
      StageIdPushed(s, e, gap);
      return;
    }
    StageIsNone(e);
    match e {
      case SenderRelease(_, row, _, _) => RowIsKept(s, row);
      case SenderDefer(_, row, _, _, _) => RowIsKept(s, row);
      case ApiLock(_, row, _) => RowIsKept(s, row);
      case ApiDelete(i, row) => TaskIsPushed(s, i, ToDelete(row));
      case FindOverAge(_, row, _) => RowIsKept(s, row);
      case CollectOverAge(i, row) => TaskIsPushed(s, i, ToCollect(row));
      case CheckBody(i, id) => TaskIsPushed(s, i, ToCheck(id));
    }
  }

  /** What the callbacks of an event speak of has been pushed. */
  lemma SpawnedIsPushed(s: State, e: Event, gap: int)
    requires AllRowsKept(s) && AllTasksSafe(s) && Enabled(s, e, gap)
    ensures forall task :: task in Spawned(s, e, gap) ==> TaskPushed(task, s.pushed)
  {
    hide AllRowsKept, AllTasksSafe, Enabled, Spawned, EventId, IdOf;
    SpawnedIds(s, e, gap);
    if EventId(e).Some? && ((e.SenderRelease? || e.SenderDefer?) ==> e.row in s.rows) {
      EventIdPushed(s, e, gap);
    }
  }

  /** The callbacks an event adds are safe. */
  lemma SpawnedIsSafe(s: State, e: Event, gap: int, task: Task)
    requires AllRowsKept(s) && AllTasksSafe(s) && Enabled(s, e, gap) && gap <= SAFE_GAP
    requires task in Spawned(s, e, gap)
    ensures TaskSafe(Apply(s, e, gap), task)
  {
    hide Spawned, TaskSafe, AllTasksSafe, Apply, Enabled, TaskPushed;
    if e.FindGarbage? {
      FoundGarbageIsSafe(s, e, gap, task);
    } else {
      SpawnedIsPushed(s, e, gap);
      OtherSpawnedIsSafe(s, e, gap, task);
    }
  }

  lemma FoundGarbageIsSafe(s: State, e: Event, gap: int, task: Task)
    requires AllRowsKept(s) && Enabled(s, e, gap) && e.FindGarbage? && task in Spawned(s, e, gap)
    ensures TaskSafe(Apply(s, e, gap), task)
  {
    hide AllRowsKept, MemoryAfter;
    GarbageSafe(s, e.oldest);
  }

  lemma OtherSpawnedIsSafe(s: State, e: Event, gap: int, task: Task)
    requires Enabled(s, e, gap) && !e.FindGarbage? && task in Spawned(s, e, gap)
    requires !task.ToClear? ==> TaskPushed(task, s.pushed)
    ensures TaskSafe(Apply(s, e, gap), task)
  {
    OnlyGarbageClears(s, e, gap, task);
    RemovedIsFree(s, e, gap, task);
    PushedGrows(s, e, gap);
    hide Enabled, Spawned, Apply;
  }

  lemma OnlyGarbageClears(s: State, e: Event, gap: int, task: Task)
    requires Enabled(s, e, gap) && !e.FindGarbage? && task in Spawned(s, e, gap)
    ensures !task.ToClear? && (task.ToRemove? ==> e.CheckBody? && e.id == task.id && !Referenced(s, e.id))
  {
    hide Enabled, Referenced;
  }

  lemma RemovedIsFree(s: State, e: Event, gap: int, task: Task)
    requires Enabled(s, e, gap)
    ensures task.ToRemove? && e.CheckBody? && e.id == task.id && !Referenced(s, e.id) ==>
              forall row :: row in Apply(s, e, gap).rows ==> row.id != task.id
  {
    hide MemoryAfter, BodiesAfter;
  }

  /** The collector's second, at the time it is worked out. */
  lemma GarbageSafe(s: State, oldest: Option<RowId>)
    requires AllRowsKept(s) && IsOldest(s, oldest)
    ensures ClearSafe(s, ClearUntil(s, oldest))
  {
    if oldest.Some? {
      var created := s.rows[oldest.value].created;
      assert RowKept(s, oldest.value);
      SecondMonotone(created - SHIFT, s.now - SAFE_GAP);
      forall row | row in s.rows
        ensures row.id in s.bodies && Second(s.bodies[row.id]) >= ClearUntil(s, oldest)
      {
        assert RowKept(s, row);
        SecondMonotone(created - SHIFT, s.bodies[row.id]);
      }
    }
  }

  lemma SafeStep(s: State, e: Event, gap: int)
    requires AllRowsKept(s) && AllTasksSafe(s) && Enabled(s, e, gap) && gap <= SAFE_GAP
    ensures AllTasksSafe(Apply(s, e, gap))
  {
    var s' := Apply(s, e, gap);
    assert s'.memory.Keys == s.memory.Keys;
    forall i, task | i in s'.memory && task in s'.memory[i].tasks
      ensures TaskSafe(s', task)
    {
      if task in s.memory[i].tasks {
        TaskStaysSafe(s, e, gap, task);
      } else {
        SpawnedIsSafe(s, e, gap, task);
      }
    }
  }

  lemma {:induction false} KeptRun(s: State, es: seq<Event>, gap: int)
    requires AllRowsKept(s) && AllTasksSafe(s) && Runs(s, es, gap) && gap <= SAFE_GAP
    ensures AllRowsKept(After(s, es, gap))
    decreases |es|
  {
    if es != [] {
      KeptStep(s, es[0], gap);
      SafeStep(s, es[0], gap);
      KeptRun(Apply(s, es[0], gap), es[1..], gap);
    }
  }

  // ----- The bound is exact -----

  /** The collector, looking at an empty queue, works out a second; then a message is pushed; then it clears. */
  lemma PushBetween(s: State, gap: int, id: string, target: Target) returns (es: seq<Event>)
    requires 0 in s.memory && s.rows == map[] && id in s.bodies && id !in s.pushed && ' ' !in id
    requires s.now - s.bodies[id] <= gap && Second(s.bodies[id]) < RoundedSecond(s.now - SHIFT)
    ensures Runs(s, es, gap) && !BodiesPresent(After(s, es, gap))
  {
    hide Enabled, Apply, Runs, After, BodiesPresent;
    var until := RoundedSecond(s.now - SHIFT);
    var targets := map["1" := target];
    assert "1" in targets;
    var find, push, clear := FindGarbage(0, None), Push(id, targets), ClearGarbage(0, until);
    var s1 := FoundNothing(s, gap);
    var s2 := Pushed(s1, gap, id, targets, "1");
    ClearedAway(s2, gap, RowId(id, "1"), until);
    RunsOne(s2, clear, gap);
    RunsCons(s1, push, [clear], gap);
    RunsCons(s, find, [push] + [clear], gap);
    es := [find] + ([push] + [clear]);
  }

  lemma FoundNothing(s: State, gap: int) returns (s1: State)
    requires 0 in s.memory && s.rows == map[]
    ensures Enabled(s, FindGarbage(0, None), gap) && s1 == Apply(s, FindGarbage(0, None), gap)
    ensures s1.rows == map[] && s1.bodies == s.bodies && s1.pushed == s.pushed && s1.now == s.now
    ensures Has(s1, 0, ToClear(RoundedSecond(s.now - SHIFT)))
  {
    s1 := Apply(s, FindGarbage(0, None), gap);
  }

  lemma Pushed(s: State, gap: int, id: string, targets: map<string, Target>, n: string) returns (s1: State)
    requires id in s.bodies && id !in s.pushed && s.now - s.bodies[id] <= gap && ' ' !in id && n in targets
    ensures Enabled(s, Push(id, targets), gap) && s1 == Apply(s, Push(id, targets), gap)
    ensures RowId(id, n) in s1.rows && s1.bodies == s.bodies && s1.memory == s.memory
  {
    s1 := Apply(s, Push(id, targets), gap);
  }

  lemma ClearedAway(s: State, gap: int, row: RowId, until: int)
    requires Has(s, 0, ToClear(until)) && row in s.rows
    requires row.id in s.bodies && Second(s.bodies[row.id]) < until
    ensures Enabled(s, ClearGarbage(0, until), gap)
    ensures !BodiesPresent(Apply(s, ClearGarbage(0, until), gap))
  {
    hide MemoryAfter;
    var s' := Apply(s, ClearGarbage(0, until), gap);
    assert row in s'.rows && row.id !in s'.bodies;
  }

  /** A body stored 999 ms after a full second, collected with an empty queue just before its push. */
  lemma BodyLost(gap: int, target: Target) returns (s: State, es: seq<Event>)
    requires gap > SAFE_GAP
    ensures Initial(s) && Runs(s, es, gap) && !BodiesPresent(After(s, es, gap))
  {
    s := State(999, map[], map[], map[0 := Memory(EMPTY, multiset{}, multiset{}, map[], {})], {}, map[], {});
    var store, tick := Store("a"), Tick(SAFE_GAP + 1);
    var s1 := Apply(s, store, gap);
    var s2 := Apply(s1, tick, gap);
    hide Runs, After, BodiesPresent;
    var rest := PushBetween(s2, gap, "a", target);
    RunsCons(s1, tick, rest, gap);
    RunsCons(s, store, [tick] + rest, gap);
    es := [store] + ([tick] + rest);
  }

  /** In no run is a row left without its body. */
  ghost predicate Retains(gap: int) {
    forall s, es :: Initial(s) && Runs(s, es, gap) ==> BodiesPresent(After(s, es, gap))
  }

  /** No interleaving of releases and collections deletes a body that a row refers to, if and only if rows are
      pushed at most 599.5 seconds after their body began to be stored. */
  lemma RetentionBound(gap: int)
    ensures Retains(gap) <==> gap <= 599500
  {
    if gap <= SAFE_GAP {
      forall s, es | Initial(s) && Runs(s, es, gap)
        ensures BodiesPresent(After(s, es, gap))
      {
        KeptRun(s, es, gap);
        assert forall row :: row in After(s, es, gap).rows ==> RowKept(After(s, es, gap), row);
      }
    } else {
      var s, es := BodyLost(gap, Target("", "", 0));
    }
  }

  // ----- Bodies no row refers to -----

  /** Some instance has still to look whether the body is needed, or to delete it. */
  ghost predicate Awaiting(s: State, id: string) {
    exists i :: i in s.memory && (ToCheck(id) in s.memory[i].tasks || ToRemove(id) in s.memory[i].tasks)
  }

  ghost predicate Accounted(s: State, id: string) {
    id in s.pushed && id in s.bodies && !Referenced(s, id) ==> Awaiting(s, id) || id in s.lost
  }

  lemma AccountedStep(s: State, e: Event, gap: int, id: string)
    requires Enabled(s, e, gap) && Accounted(s, id)
    ensures Accounted(Apply(s, e, gap), id)
  {
    var s' := Apply(s, e, gap);
    if id in s'.pushed && id in s'.bodies && !Referenced(s', id) {
      if Referenced(s, id) {
        LastRowGone(s, e, gap, id);
      } else if id !in s.pushed {
        PushRefers(s, e, gap);
      } else if id !in s.lost {
        var i :| i in s.memory && (ToCheck(id) in s.memory[i].tasks || ToRemove(id) in s.memory[i].tasks);
        CheckStays(s, e, gap, id, i);
      }
    }
  }

  lemma LastRowGone(s: State, e: Event, gap: int, id: string)
    requires Enabled(s, e, gap) && Referenced(s, id) && !Referenced(Apply(s, e, gap), id) && id in s.bodies
    ensures Awaiting(Apply(s, e, gap), id)
  {
    var s' := Apply(s, e, gap);
    var row :| row in s.rows && row.id == id;
    assert row !in s'.rows;
    RemovedBy(s, e, gap, row);
    hide Apply, Referenced, Enabled;
    CheckFollows(s, e, gap);
    AwaitingBy(s', id, e.i);
  }

  lemma RemovedBy(s: State, e: Event, gap: int, row: RowId)
    requires Enabled(s, e, gap) && row in s.rows && row !in Apply(s, e, gap).rows && row.id in s.bodies
    ensures (e.Suppress? || e.SenderRelease? || e.ApiDelete? || e.CollectOverAge?) && e.row == row
  {
    hide MemoryAfter, BodiesAfter;
  }

  lemma CheckFollows(s: State, e: Event, gap: int)
    requires Enabled(s, e, gap) && (e.Suppress? || e.SenderRelease? || e.ApiDelete? || e.CollectOverAge?)
    requires e.row in s.rows
    ensures e.i in Apply(s, e, gap).memory && ToCheck(e.row.id) in Apply(s, e, gap).memory[e.i].tasks
  {
    hide Apply, Consumed;
    TasksAfter(s, e, gap);
    assert ToCheck(e.row.id) in Spawned(s, e, gap);
  }

  lemma TasksAfter(s: State, e: Event, gap: int)
    requires Enabled(s, e, gap) && At(e).Some? && !e.Restart?
    ensures e.i in Apply(s, e, gap).memory
    ensures Apply(s, e, gap).memory[e.i].tasks == s.memory[e.i].tasks - Consumed(e) + Spawned(s, e, gap)
  {
    hide RowsAfter, BodiesAfter, TableAfter, Spawned, Consumed;
  }

  lemma PushRefers(s: State, e: Event, gap: int)
    requires Enabled(s, e, gap)
    ensures e.Push? ==> Referenced(Apply(s, e, gap), e.id)
    ensures forall id :: id in Apply(s, e, gap).pushed && id !in s.pushed ==> e.Push? && e.id == id
    ensures Apply(s, e, gap).bodies.Keys - s.bodies.Keys !! s.pushed
  {
    if e.Push? {
      var n :| n in e.targets;
      assert RowId(e.id, n) in Apply(s, e, gap).rows;
    }
  }

  lemma CheckStays(s: State, e: Event, gap: int, id: string, i: Instance)
    requires Enabled(s, e, gap) && i in s.memory && !Referenced(s, id)
    requires ToCheck(id) in s.memory[i].tasks || ToRemove(id) in s.memory[i].tasks
    ensures var s' := Apply(s, e, gap);
            id in s'.bodies ==> Awaiting(s', id) || id in s'.lost
  {
    hide Apply, Enabled, Referenced, Awaiting, Consumed;
    if e.Restart? && e.i == i {
      RestartRecords(s, gap, id, i, e.zones);
    } else if e == CheckBody(i, id) {
      CheckFindsNoRow(s, gap, id, i);
    } else if e == RemoveBody(i, id) {
      RemovedBodyGone(s, gap, id, i);
    } else {
      var task := if ToCheck(id) in s.memory[i].tasks then ToCheck(id) else ToRemove(id);
      Consumes(e, id, i);
      TaskStays(s, e, gap, i, task);
      AwaitingBy(Apply(s, e, gap), id, i);
    }
  }

  lemma Consumes(e: Event, id: string, i: Instance)
    ensures At(e) == Some(i) && ToCheck(id) in Consumed(e) ==> e == CheckBody(i, id)
    ensures At(e) == Some(i) && ToRemove(id) in Consumed(e) ==> e == RemoveBody(i, id)
  {}

  lemma AwaitingBy(s: State, id: string, i: Instance)
    requires i in s.memory && (ToCheck(id) in s.memory[i].tasks || ToRemove(id) in s.memory[i].tasks)
    ensures Awaiting(s, id)
  {}

  lemma RestartRecords(s: State, gap: int, id: string, i: Instance, zones: set<string>)
    requires Enabled(s, Restart(i, zones), gap)
    requires ToCheck(id) in s.memory[i].tasks || ToRemove(id) in s.memory[i].tasks
    ensures id in Apply(s, Restart(i, zones), gap).lost
  {
    var task :| task in s.memory[i].tasks && (task == ToCheck(id) || task == ToRemove(id));
    hide RowsAfter, MemoryAfter;
  }

  lemma RemovedBodyGone(s: State, gap: int, id: string, i: Instance)
    requires Enabled(s, RemoveBody(i, id), gap)
    ensures id !in Apply(s, RemoveBody(i, id), gap).bodies
  {}

  lemma CheckFindsNoRow(s: State, gap: int, id: string, i: Instance)
    requires Enabled(s, CheckBody(i, id), gap) && !Referenced(s, id)
    ensures Awaiting(Apply(s, CheckBody(i, id), gap), id)
  {
    var e := CheckBody(i, id);
    hide Referenced, Apply, Awaiting;
    assert At(e) == Some(i) && ToRemove(id) in Spawned(s, e, gap);
    TasksAfter(s, e, gap);
    AwaitingBy(Apply(s, e, gap), id, i);
  }

  lemma TaskStays(s: State, e: Event, gap: int, i: Instance, task: Task)
    requires Enabled(s, e, gap) && i in s.memory && task in s.memory[i].tasks && !(e.Restart? && e.i == i)
    requires At(e) == Some(i) ==> task !in Consumed(e)
    ensures i in Apply(s, e, gap).memory && task in Apply(s, e, gap).memory[i].tasks
  {
    hide TableAfter, RowsAfter, BodiesAfter, Consumed, Spawned, Enabled;
  }

  lemma {:induction false} AccountedRun(s: State, es: seq<Event>, gap: int, id: string)
    requires Accounted(s, id) && Runs(s, es, gap)
    ensures Accounted(After(s, es, gap), id)
    decreases |es|
  {
    if es != [] {
      AccountedStep(s, es[0], gap, id);
      AccountedRun(Apply(s, es[0], gap), es[1..], gap, id);
    }
  }

  /** In every reachable state, a stored body whose last row has gone is about to be looked at or deleted, unless
      a restart cut that off. */
  lemma LastReleaseChecksBody(s: State, es: seq<Event>, gap: int, id: string)
    requires Initial(s) && Runs(s, es, gap)
    ensures Accounted(After(s, es, gap), id)
  {
    AccountedRun(s, es, gap, id);
  }
}
