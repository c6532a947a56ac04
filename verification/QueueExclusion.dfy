/** A row is only ever handed out by one instance, and no two instances hold a sender lock for it. */
module QueueExclusion {
  import opened Options
  import opened LockTable
  import opened QueueProtocol

  predicate WellNamed(row: RowId) {
    ' ' !in row.id
  }

  function SpaceIn(s: string): nat {
    if s == "" || s[0] == ' ' then 0 else 1 + SpaceIn(s[1..])
  }

  lemma {:induction false} SpaceAfter(s: string, rest: string)
    requires ' ' !in s
    ensures SpaceIn(s + " " + rest) == |s|
  {
    if s != "" {
      assert s[0] in s;
      assert (s + " " + rest)[1..] == s[1..] + " " + rest;
      SpaceAfter(s[1..], rest);
    }
  }

  /** Lock keys tell rows apart, message ids being free of spaces. */
  lemma KeyInjective(a: RowId, b: RowId)
    requires WellNamed(a) && WellNamed(b) && Key(a) == Key(b)
    ensures a == b
  {
    var x, y := a.id + " " + a.number, b.id + " " + b.number;
    assert x == Key(a)[5..] && y == Key(b)[5..];
    SpaceAfter(a.id, a.number);
    SpaceAfter(b.id, b.number);
    assert a.id == x[..|a.id|] && b.id == y[..|b.id|];
    assert a.number == x[|a.id| + 1..] && b.number == y[|b.id| + 1..];
  }

  // ----- The invariant -----

  type Homes = map<RowId, Instance>

  predicate IsHome(homes: Homes, row: RowId, i: Instance) {
    row in homes && homes[row] == i
  }

  ghost predicate Extends(homes: Homes, homes': Homes) {
    forall row :: row in homes ==> IsHome(homes', row, homes[row])
  }

  ghost predicate RowsHomed(rows: map<RowId, Row>, homes: Homes) {
    forall row :: row in rows ==> RowHomed(row, rows[row], homes)
  }

  predicate RowHomed(id: RowId, row: Row, homes: Homes) {
    && WellNamed(id)
    && match row.assignee
       case None => !row.locked && id !in homes
       case Some(i) => IsHome(homes, id, i)
  }

  /** Every sender lock of an instance is for a row at home there. */
  ghost predicate TableHomed(table: Table, i: Instance, homes: Homes) {
    forall row :: WellNamed(row) && Key(row) in table.locks && ForSender(table.locks[Key(row)])
      ==> IsHome(homes, row, i)
  }

  predicate TaskHomed(task: Task, i: Instance, homes: Homes) {
    match task
    case ToLock(row, _, _, _) => WellNamed(row) && IsHome(homes, row, i)
    case ToHand(row, _, _) => WellNamed(row) && IsHome(homes, row, i)
    case ToSend(row, _, _) => WellNamed(row) && IsHome(homes, row, i)
    case _ => true
  }

  ghost predicate MemoryHomed(m: Memory, i: Instance, homes: Homes) {
    && TableHomed(m.table, i, homes)
    && (forall task :: task in m.tasks ==> TaskHomed(task, i, homes))
    && (forall c :: c in m.senders ==> IsHome(homes, c.row, i))
  }

  ghost predicate Recorded(s: State) {
    && (forall row :: row in s.home || row in s.rows ==> row.id in s.pushed)
    && (forall row :: row in s.home ==> s.home[row] in s.memory)
  }

  ghost predicate Homed(s: State) {
    && RowsHomed(s.rows, s.home)
    && (forall i :: i in s.memory ==> MemoryHomed(s.memory[i], i, s.home))
    && Recorded(s)
  }

  // ----- Its parts under the operations -----

  lemma AcquireHomed(table: Table, i: Instance, homes: Homes, row: RowId, l: Lock)
    requires TableHomed(table, i, homes) && l.key == Key(row)
    requires ForSender(l) ==> WellNamed(row) && IsHome(homes, row, i)
    ensures TableHomed(Acquire(table, l), i, homes)
  {
    var table' := Acquire(table, l);
    if Key(row) in table.locks {
      return;
    }
    forall r: RowId | WellNamed(r) && Key(r) in table'.locks && ForSender(table'.locks[Key(r)])
      ensures IsHome(homes, r, i)
    {
      if Key(r) == Key(row) && ForSender(l) {
        KeyInjective(r, row);
      }
    }
  }

  lemma ReleaseHomed(table: Table, i: Instance, homes: Homes, keys: seq<string>)
    requires TableHomed(table, i, homes)
    ensures TableHomed(ReleaseAll(table, keys), i, homes)
  {
    ReleaseAllLocks(table, keys);
  }

  lemma MemoryKept(m: Memory, i: Instance, homes: Homes, homes': Homes)
    requires MemoryHomed(m, i, homes) && Extends(homes, homes')
    ensures MemoryHomed(m, i, homes')
  {
    forall task | task in m.tasks
      ensures TaskHomed(task, i, homes')
    {
      assert TaskHomed(task, i, homes);
    }
  }

  /** Homes are never taken back. */
  lemma HomesKept(s: State, e: Event, gap: int)
    requires RowsHomed(s.rows, s.home) && Enabled(s, e, gap)
    ensures Extends(s.home, Apply(s, e, gap).home)
    ensures e.Pick? ==> WellNamed(e.row) && IsHome(Apply(s, e, gap).home, e.row, e.i)
  {
    if e.Pick? {
      assert RowHomed(e.row, s.rows[e.row], s.home);
    }
  }

  lemma TableStep(s: State, e: Event, gap: int, homes: Homes)
    requires Enabled(s, e, gap) && At(e).Some? && e.i in s.memory && MemoryHomed(s.memory[e.i], e.i, homes)
    ensures TableHomed(TableAfter(s, e, gap), e.i, homes)
  {
    var i, m := e.i, s.memory[e.i];
    match e
    case TakeLock(_, row, domain, n, q, limit) =>
      assert TaskHomed(ToLock(row, domain, n, q), i, homes);
      AcquireHomed(m.table, i, homes, row, SenderLock(s, row, domain, q, limit));
    case ApiLock(_, row, deleteId) =>
      AcquireHomed(m.table, i, homes, row, Lock(Key(row), "", "", deleteId, 0, s.now + DELETE_TTL));
    case CloseClient(_, _, keys, _) => ReleaseHomed(m.table, i, homes, keys);
    case ExpireLocks(_, keys) => ReleaseHomed(m.table, i, homes, keys);
    case _ =>
  }

  lemma SpawnedHomed(s: State, e: Event, gap: int, homes: Homes)
    requires Enabled(s, e, gap) && At(e).Some? && e.i in s.memory && MemoryHomed(s.memory[e.i], e.i, homes)
    requires e.Pick? ==> WellNamed(e.row) && IsHome(homes, e.row, e.i)
    ensures forall task :: task in Spawned(s, e, gap) ==> TaskHomed(task, e.i, homes)
  {
    hide Enabled, Spawned, MemoryHomed;
    if e.TakeLock? {
      TakenTask(s, e, gap);
      TasksAreHomed(s, e.i, ToLock(e.row, e.domain, e.count, e.query), homes);
    } else if e.FindMeta? {
      TakenTask(s, e, gap);
      TasksAreHomed(s, e.i, ToHand(e.row, e.count, e.query), homes);
    }
    NewStage(s, e, gap, homes);
  }

  lemma TakenTask(s: State, e: Event, gap: int)
    requires Enabled(s, e, gap) && (e.TakeLock? || e.FindMeta?)
    ensures Has(s, e.i, if e.TakeLock? then ToLock(e.row, e.domain, e.count, e.query)
                    else ToHand(e.row, e.count, e.query))
  {}

  lemma TasksAreHomed(s: State, i: Instance, task: Task, homes: Homes)
    requires Has(s, i, task) && MemoryHomed(s.memory[i], i, homes)
    ensures TaskHomed(task, i, homes)
  {}

  /** A request stays with its row. */
  lemma NewStage(s: State, e: Event, gap: int, homes: Homes)
    requires Enabled(s, e, gap) && At(e).Some?
    requires e.Pick? || e.TakeLock? || e.FindMeta? ==> WellNamed(e.row) && IsHome(homes, e.row, e.i)
    ensures forall task :: task in Spawned(s, e, gap) ==> TaskHomed(task, e.i, homes)
  {
    hide Enabled;
  }

  /** What an event does to the memories. */
  lemma MemoryStep(s: State, e: Event, gap: int, i: Instance)
    requires RowsHomed(s.rows, s.home) && i in s.memory && MemoryHomed(s.memory[i], i, s.home)
    requires Enabled(s, e, gap)
    ensures var s' := Apply(s, e, gap);
            i in s'.memory && MemoryHomed(s'.memory[i], i, s'.home)
  {
    hide MemoryHomed, Enabled, RowsHomed, RowsAfter, BodiesAfter, MemoryAfter;
    var homes := Apply(s, e, gap).home;
    HomesKept(s, e, gap);
    MemoryKept(s.memory[i], i, s.home, homes);
    if At(e) == Some(i) {
      TableStep(s, e, gap, homes);
      SpawnedHomed(s, e, gap, homes);
      HandedHomed(s, e, gap, homes);
      NewMemory(s, e, gap, homes);
    }
  }

  lemma HandedHomed(s: State, e: Event, gap: int, homes: Homes)
    requires Enabled(s, e, gap) && At(e).Some? && e.i in s.memory && MemoryHomed(s.memory[e.i], e.i, homes)
    ensures e.HandOut? ==> IsHome(homes, e.row, e.i)
  {
    if e.HandOut? {
      assert TaskHomed(ToSend(e.row, e.count, e.query), e.i, homes);
    }
  }

  lemma NewMemory(s: State, e: Event, gap: int, homes: Homes)
    requires Enabled(s, e, gap) && At(e).Some? && e.i in s.memory && MemoryHomed(s.memory[e.i], e.i, homes)
    requires TableHomed(TableAfter(s, e, gap), e.i, homes)
    requires forall task :: task in Spawned(s, e, gap) ==> TaskHomed(task, e.i, homes)
    requires e.HandOut? ==> IsHome(homes, e.row, e.i)
    ensures MemoryHomed(MemoryAfter(s, e, gap), e.i, homes)
  {
    hide TableHomed, TaskHomed, TableAfter, Spawned, Consumed, Enabled;
  }

  // ----- Every step, every run -----

  lemma RowsStep(s: State, e: Event, gap: int)
    requires Homed(s) && Enabled(s, e, gap)
    ensures RowsHomed(Apply(s, e, gap).rows, Apply(s, e, gap).home)
  {
    var s' := Apply(s, e, gap);
    HomesKept(s, e, gap);
    hide MemoryHomed, MemoryAfter, BodiesAfter, RowsAfter;
    forall row | row in s'.rows
      ensures RowHomed(row, s'.rows[row], s'.home)
    {
      RowOrigin(s, e, gap, row);
      if row in s.rows {
        assert RowHomed(row, s.rows[row], s.home);
      }
    }
  }

  lemma RecordedStep(s: State, e: Event, gap: int)
    requires Recorded(s) && Enabled(s, e, gap)
    ensures Recorded(Apply(s, e, gap))
    ensures Apply(s, e, gap).memory.Keys == s.memory.Keys
  {
    hide MemoryAfter, BodiesAfter, RowsAfter;
    RowsRecorded(s, e, gap);
  }

  lemma RowsRecorded(s: State, e: Event, gap: int)
    requires Recorded(s) && Enabled(s, e, gap)
    ensures forall row :: row in RowsAfter(s, e, gap) ==> row.id in s.pushed || (e.Push? && row.id == e.id)
  {}

  lemma HomedStep(s: State, e: Event, gap: int)
    requires Homed(s) && Enabled(s, e, gap)
    ensures Homed(Apply(s, e, gap))
  {
    var s' := Apply(s, e, gap);
    RowsStep(s, e, gap);
    RecordedStep(s, e, gap);
    hide Recorded, Apply;
    forall i | i in s'.memory
      ensures MemoryHomed(s'.memory[i], i, s'.home)
    {
      MemoryStep(s, e, gap, i);
    }
  }

  lemma {:induction false} HomedRun(s: State, es: seq<Event>, gap: int)
    requires Homed(s) && Runs(s, es, gap)
    ensures Homed(After(s, es, gap)) && Extends(s.home, After(s, es, gap).home)
    decreases |es|
  {
    if es != [] {
      HomedStep(s, es[0], gap);
      HomesKept(s, es[0], gap);
      HomedRun(Apply(s, es[0], gap), es[1..], gap);
    }
  }

  lemma InitialIsHomed(s: State)
    requires Initial(s)
    ensures Homed(s)
  {}

  // ----- What follows -----

  /** In every reachable state of the whole system, at most one sender lock exists for a row. */
  lemma OneSenderLock(s: State, es: seq<Event>, gap: int, row: RowId, i: Instance, j: Instance)
    requires Initial(s) && Runs(s, es, gap) && WellNamed(row)
    requires i in After(s, es, gap).memory && j in After(s, es, gap).memory
    requires var locks := After(s, es, gap).memory[i].table.locks; Key(row) in locks && ForSender(locks[Key(row)])
    requires var locks := After(s, es, gap).memory[j].table.locks; Key(row) in locks && ForSender(locks[Key(row)])
    ensures i == j
  {
    InitialIsHomed(s);
    HomedRun(s, es, gap);
    var end := After(s, es, gap);
    assert MemoryHomed(end.memory[i], i, end.home) && MemoryHomed(end.memory[j], j, end.home);
  }

  /** A row at home with one instance is never picked, locked or handed out by another. */
  lemma HandlingIsAtHome(s: State, e: Event, gap: int)
    requires Homed(s) && Enabled(s, e, gap) && (e.Pick? || e.TakeLock? || e.HandOut?)
    ensures e.row in s.home || e.Pick? ==> IsHome(Apply(s, e, gap).home, e.row, e.i)
    ensures e.row in s.home ==> IsHome(s.home, e.row, e.i)
    ensures !e.Pick? ==> e.row in s.home
  {
    hide Homed, Apply, RowsHomed;
    RowsAreHomed(s);
    HomesKept(s, e, gap);
    match e
    case TakeLock(i, row, domain, n, q, _) => TaskIsAtHome(s, i, ToLock(row, domain, n, q));
    case HandOut(i, row, n, q) => TaskIsAtHome(s, i, ToSend(row, n, q));
    case Pick(i, row, _) => RowIsAtHome(s, row);
  }

  lemma RowsAreHomed(s: State)
    requires Homed(s)
    ensures RowsHomed(s.rows, s.home)
  {}

  lemma RowIsAtHome(s: State, row: RowId)
    requires Homed(s) && row in s.rows
    ensures RowHomed(row, s.rows[row], s.home)
  {}

  lemma TaskIsAtHome(s: State, i: Instance, task: Task)
    requires Homed(s) && Has(s, i, task)
    ensures TaskHomed(task, i, s.home)
  {
    assert MemoryHomed(s.memory[i], i, s.home);
    hide TableHomed;
  }

  /** Whatever happens in between, a row is handed out by one instance only. */
  lemma OneInstanceHandsOut(s: State, es: seq<Event>, gap: int, a: nat, b: nat)
    requires Initial(s) && Runs(s, es, gap)
    requires a < b < |es| && es[a].HandOut? && es[b].HandOut? && es[a].row == es[b].row
    ensures es[a].i == es[b].i
  {
    InitialIsHomed(s);
    hide Initial, Homed, Runs, After, Apply, Enabled;
    RunsSplit(s, es, a, gap);
    HomedRun(s, es[..a], gap);
    var rest := es[a..];
    RunsSplit(After(s, es[..a], gap), rest, b - a, gap);
    HandedAtHome(After(s, es[..a], gap), rest, gap, b - a);
  }

  lemma HandedAtHome(s: State, es: seq<Event>, gap: int, n: nat)
    requires Homed(s) && Runs(s, es, gap) && 0 < n < |es|
    requires es[0].HandOut? && es[n].HandOut? && es[0].row == es[n].row
    ensures es[0].i == es[n].i
  {
    RunsSplit(s, es, n, gap);
    HandlingIsAtHome(s, es[0], gap);
    HomedRun(s, es[..n], gap);
    hide Homed, Runs, After, Apply, Enabled;
    HandlingIsAtHome(After(s, es[..n], gap), es[n], gap);
  }
}
