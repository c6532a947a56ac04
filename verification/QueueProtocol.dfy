/** The mail queue as a step system: any number of instances share the collection of rows and the stored bodies;
    each keeps its own lock table and the callbacks it still has to run. */
module QueueProtocol {
  import opened Options
  import opened LockTable

  type Instance = nat

  datatype RowId = RowId(id: string, number: string)

  /** A delivery in the shared collection. Times are in milliseconds. */
  datatype Row = Row(zone: string, domain: string, queued: int, locked: bool, lockTime: int,
                     assignee: Option<Instance>, created: int, deferrals: nat)

  datatype Target = Target(zone: string, domain: string, queued: int)

  /** What a request for a delivery asks the collection, as often as it has to. The domains to skip and the time are
      those of when the request came in. */
  datatype Query = Query(owner: string, zone: string, skip: set<string>, asked: int)

  /** A callback an instance still has to run. The first five are the stages of a request. */
  datatype Task =
    | ToPick(query: Query)
    | ToLock(row: RowId, domain: string, count: nat, query: Query)
    | ToHand(row: RowId, count: nat, query: Query)
    | ToSend(row: RowId, count: nat, query: Query)
    | ToRetry(row: RowId, query: Query)
    | ToUnlock(row: RowId)
    | ToDelete(row: RowId)
    | ToCollect(row: RowId)
    | ToCheck(id: string)
    | ToRemove(id: string)
    | ToClear(until: int)

  /** A delivery in the hands of a client, with the number of deferrals that the row had when it was picked. */
  datatype Copy = Copy(row: RowId, count: nat, owner: string)

  /** What an instance has in memory; `senders` are the deliveries that connected clients were handed and have still
      to settle, `empty` the zones in which nothing was found, each with the time until which it is not looked for
      again. `zones` are those that clients can ask for, which the configuration says. */
  datatype Memory = Memory(table: Table, tasks: multiset<Task>, senders: multiset<Copy>, empty: map<string, int>,
                           zones: set<string>)

  /** `bodies` has when the upload of each stored body began, `pushed` the message ids pushed so far, `home` the
      instance that each row was assigned to, and `lost` the ids whose body check a restart cut off. The last
      three only record the past. */
  datatype State = State(now: int, rows: map<RowId, Row>, bodies: map<string, int>, memory: map<Instance, Memory>,
                         pushed: set<string>, home: map<RowId, Instance>, lost: set<string>)

  datatype Event =
    | Tick(ms: nat)
    | Store(id: string)
    | Push(id: string, targets: map<string, Target>)
    | Poll(i: Instance, owner: string, zone: string)
    | FindNothing(i: Instance, query: Query)
    | Pick(i: Instance, row: RowId, query: Query)
    | TakeLock(i: Instance, row: RowId, domain: string, count: nat, query: Query, maxConnections: nat)
    | FailMeta(i: Instance, row: RowId, count: nat, query: Query)
    | MissBody(i: Instance, row: RowId, count: nat, query: Query)
    | FindMeta(i: Instance, row: RowId, count: nat, query: Query)
    | Suppress(i: Instance, row: RowId, count: nat, query: Query)
    | FailSend(i: Instance, row: RowId, count: nat, query: Query)
    | HandOut(i: Instance, row: RowId, count: nat, query: Query)
    | LoseClient(i: Instance, row: RowId, count: nat, query: Query)
    | Retry(i: Instance, row: RowId, query: Query)
    | SenderRelease(i: Instance, row: RowId, count: nat, owner: string)
    | SenderDefer(i: Instance, row: RowId, count: nat, owner: string, ttl: int)
    | Abandon(i: Instance, row: RowId, count: nat, owner: string)
    | Unlock(i: Instance, row: RowId)
    | CloseClient(i: Instance, owner: string, keys: seq<string>, copies: multiset<Copy>)
    | ExpireLocks(i: Instance, keys: seq<string>)
    | SendNow(row: RowId)
    | UnlockOld(i: Instance)
    | Restart(i: Instance, zones: set<string>)
    | ApiLock(i: Instance, row: RowId, deleteId: string)
    | ApiDelete(i: Instance, row: RowId)
    | FindOverAge(i: Instance, row: RowId, maxAge: nat)
    | CollectOverAge(i: Instance, row: RowId)
    | CheckBody(i: Instance, id: string)
    | RemoveBody(i: Instance, id: string)
    | FindGarbage(i: Instance, oldest: Option<RowId>)
    | ClearGarbage(i: Instance, until: int)

  const LOCK_TTL := 60 * 60 * 1000
  const DELETE_TTL := 60 * 1000
  const OLD_LOCK := 61 * 60 * 1000
  const SHIFT := 10 * 60 * 1000
  const EMPTY_TTL := 5 * 1000

  function Key(row: RowId): string {
    "lock " + row.id + " " + row.number
  }

  const DELETE_PREFIX := "delete:"

  /** Locks of API deletions have owners of their own; the others are held for senders. */
  predicate ForSender(l: Lock) {
    !(DELETE_PREFIX <= l.owner)
  }

  function SkipList(t: Table, zone: string): set<string> {
    set p | p in t.skip && p.0 == zone :: p.1
  }

  /** What a request asks that comes in now. */
  function QueryNow(s: State, i: Instance, owner: string, zone: string): Query
    requires i in s.memory
  {
    Query(owner, zone, SkipList(s.memory[i].table, zone), s.now)
  }

  /** The rows that the query of `shift` can find. */
  predicate Eligible(s: State, i: Instance, row: RowId, q: Query) {
    && row in s.rows
    && s.rows[row].zone == q.zone
    && s.rows[row].queued <= q.asked
    && !s.rows[row].locked
    && (s.rows[row].assignee == None || s.rows[row].assignee == Some(i))
    && s.rows[row].domain !in q.skip
  }

  /** The zone was not found empty lately. (At the very end of the time, the cache may or may not have forgotten.) */
  predicate MayAsk(m: Memory, zone: string, now: int) {
    zone in m.empty ==> m.empty[zone] <= now
  }

  predicate StoredTooLong(row: Row, now: int) {
    row.locked && row.lockTime <= now - OLD_LOCK
  }

  /** The creation second an ObjectId carries. */
  function Second(ms: int): int {
    ms / 1000
  }

  /** Math.round(ms / 1000) */
  function RoundedSecond(ms: int): int {
    (ms + 500) / 1000
  }

  predicate Has(s: State, i: Instance, task: Task) {
    i in s.memory && task in s.memory[i].tasks
  }

  /** The copies are exactly those that the client has. */
  ghost predicate AreOf(copies: multiset<Copy>, senders: multiset<Copy>, owner: string) {
    forall c: Copy :: copies[c] == if c.owner == owner then senders[c] else 0
  }

  ghost predicate Enabled(s: State, e: Event, gap: int) {
    match e
    case Tick(_) => true
    case Store(id) => id !in s.bodies && id !in s.pushed && ' ' !in id
    case Push(id, targets) => targets != map[] && id in s.bodies && id !in s.pushed
        && s.now - s.bodies[id] <= gap && ' ' !in id
    case Poll(i, owner, zone) =>
      i in s.memory && !(DELETE_PREFIX <= owner) && zone in s.memory[i].zones && MayAsk(s.memory[i], zone, s.now)
    case FindNothing(i, q) => Has(s, i, ToPick(q)) && forall row :: row in s.rows ==> !Eligible(s, i, row, q)
    case Pick(i, row, q) => Has(s, i, ToPick(q)) && Eligible(s, i, row, q)
    case TakeLock(i, row, domain, n, q, _) => Has(s, i, ToLock(row, domain, n, q))
    case FailMeta(i, row, n, q) => Has(s, i, ToHand(row, n, q))
    case MissBody(i, row, n, q) => Has(s, i, ToHand(row, n, q)) && row.id !in s.bodies
    case FindMeta(i, row, n, q) => Has(s, i, ToHand(row, n, q)) && row.id in s.bodies
    case Suppress(i, row, n, q) => Has(s, i, ToSend(row, n, q))
    case FailSend(i, row, n, q) => Has(s, i, ToSend(row, n, q))
    case HandOut(i, row, n, q) => Has(s, i, ToSend(row, n, q))
    case LoseClient(i, row, n, q) => Has(s, i, ToSend(row, n, q))
    case Retry(i, row, q) => Has(s, i, ToRetry(row, q))
    case SenderRelease(i, row, n, owner) => i in s.memory && Copy(row, n, owner) in s.memory[i].senders
    case SenderDefer(i, row, n, owner, _) => i in s.memory && Copy(row, n, owner) in s.memory[i].senders
    case Abandon(i, row, n, owner) => i in s.memory && Copy(row, n, owner) in s.memory[i].senders
    case Unlock(i, row) => Has(s, i, ToUnlock(row))
    case CloseClient(i, owner, keys, copies) =>
      && i in s.memory && AreOf(copies, s.memory[i].senders, owner)
      && forall k :: k in keys <==> k in s.memory[i].table.locks && s.memory[i].table.locks[k].owner == owner
    case ExpireLocks(i, keys) =>
      && i in s.memory
      && forall k :: k in keys <==> k in s.memory[i].table.locks && s.memory[i].table.locks[k].expires <= s.now
    case SendNow(row) => row in s.rows
    case UnlockOld(i) => i in s.memory
    case Restart(i, _) => i in s.memory
    case ApiLock(i, row, deleteId) => i in s.memory && row in s.rows && DELETE_PREFIX <= deleteId
    case ApiDelete(i, row) => Has(s, i, ToDelete(row))
    case FindOverAge(i, row, maxAge) =>
      && i in s.memory && row in s.rows && !s.rows[row].locked
      && maxAge > 0 && Second(s.rows[row].created) <= RoundedSecond(s.now - maxAge)
    case CollectOverAge(i, row) => Has(s, i, ToCollect(row))
    case CheckBody(i, id) => Has(s, i, ToCheck(id))
    case RemoveBody(i, id) => Has(s, i, ToRemove(id))
    case FindGarbage(i, oldest) => i in s.memory && IsOldest(s, oldest)
    case ClearGarbage(i, until) => Has(s, i, ToClear(until))
  }

  function UnlockRows(s: State, i: Instance, onlyOld: bool): map<RowId, Row> {
    map row | row in s.rows ::
      if s.rows[row].locked && s.rows[row].assignee == Some(i) && (onlyOld ==> StoredTooLong(s.rows[row], s.now))
      then s.rows[row].(locked := false, lockTime := 0)
      else s.rows[row]
  }

  predicate Referenced(s: State, id: string) {
    exists row :: row in s.rows && row.id == id
  }

  /** The answer to the query for the oldest row. */
  ghost predicate IsOldest(s: State, oldest: Option<RowId>) {
    match oldest
    case None => s.rows == map[]
    case Some(row) => row in s.rows && forall other :: other in s.rows ==> s.rows[row].created <= s.rows[other].created
  }

  /** The second before which bodies are cleared: ten minutes before the oldest row, or before now. */
  function ClearUntil(s: State, oldest: Option<RowId>): int
    requires oldest.Some? ==> oldest.value in s.rows
  {
    match oldest
    case None => RoundedSecond(s.now - SHIFT)
    case Some(row) => Second(s.rows[row].created) - SHIFT / 1000
  }

  /** The instance an event takes place at; the other events do not concern the memory of any. */
  function At(e: Event): Option<Instance> {
    match e
    case Tick(_) => None
    case Store(_) => None
    case Push(_, _) => None
    case SendNow(_) => None
    case UnlockOld(_) => None
    case _ => Some(e.i)
  }

  ghost function RowsAfter(s: State, e: Event, gap: int): map<RowId, Row>
    requires Enabled(s, e, gap)
  {
    match e
    case Push(id, targets) => s.rows + NewRows(id, targets, s.now)
    case Pick(i, row, _) => s.rows[row := s.rows[row].(locked := true, lockTime := s.now, assignee := Some(i))]
    case MissBody(_, row, _, _) => map r | r in s.rows && r.id != row.id :: s.rows[r]
    case Suppress(_, row, _, _) => s.rows - {row}
    case SenderRelease(_, row, _, _) => s.rows - {row}
    case SenderDefer(_, row, _, _, ttl) =>
      if row !in s.rows then s.rows
      else s.rows[row := s.rows[row].(locked := false, queued := s.now + ttl, deferrals := s.rows[row].deferrals + 1)]
    case SendNow(row) => s.rows[row := s.rows[row].(queued := s.now)]
    case UnlockOld(i) => UnlockRows(s, i, true)
    case Restart(i, _) => UnlockRows(s, i, false)
    case ApiDelete(_, row) => s.rows - {row}
    case CollectOverAge(_, row) => s.rows - {row}
    case _ => s.rows
  }

  function BodiesAfter(s: State, e: Event): map<string, int> {
    match e
    case Store(id) => s.bodies[id := s.now]
    case RemoveBody(_, id) => s.bodies - {id}
    case ClearGarbage(_, until) => map id | id in s.bodies && Second(s.bodies[id]) >= until :: s.bodies[id]
    case _ => s.bodies
  }

  function SenderLock(s: State, row: RowId, domain: string, q: Query, maxConnections: nat): Lock {
    Lock(Key(row), q.zone, domain, q.owner, maxConnections, s.now + LOCK_TTL)
  }

  ghost function TableAfter(s: State, e: Event, gap: int): Table
    requires Enabled(s, e, gap) && At(e).Some?
  {
    var table := s.memory[e.i].table;
    match e
    case TakeLock(_, row, domain, n, q, maxConnections) => Acquire(table, SenderLock(s, row, domain, q, maxConnections))
    case FailMeta(_, row, _, _) => Release(table, Key(row))
    case FailSend(_, row, _, _) => Release(table, Key(row))
    case Retry(_, row, _) => Release(table, Key(row))
    case Unlock(_, row) => Release(table, Key(row))
    case CloseClient(_, _, keys, _) => ReleaseAll(table, keys)
    case ExpireLocks(_, keys) => ReleaseAll(table, keys)
    case Restart(_, _) => EMPTY
    case ApiLock(_, row, deleteId) => Acquire(table, Lock(Key(row), "", "", deleteId, 0, s.now + DELETE_TTL))
    case _ => table
  }

  /** The callback that an event is. */
  function Consumed(e: Event): multiset<Task> {
    match e
    case FindNothing(_, q) => multiset{ToPick(q)}
    case Pick(_, _, q) => multiset{ToPick(q)}
    case TakeLock(_, row, domain, n, q, _) => multiset{ToLock(row, domain, n, q)}
    case FailMeta(_, row, n, q) => multiset{ToHand(row, n, q)}
    case MissBody(_, row, n, q) => multiset{ToHand(row, n, q)}
    case FindMeta(_, row, n, q) => multiset{ToHand(row, n, q)}
    case Suppress(_, row, n, q) => multiset{ToSend(row, n, q)}
    case FailSend(_, row, n, q) => multiset{ToSend(row, n, q)}
    case HandOut(_, row, n, q) => multiset{ToSend(row, n, q)}
    case LoseClient(_, row, n, q) => multiset{ToSend(row, n, q)}
    case Retry(_, row, q) => multiset{ToRetry(row, q)}
    case Unlock(_, row) => multiset{ToUnlock(row)}
    case ApiDelete(_, row) => multiset{ToDelete(row)}
    case CollectOverAge(_, row) => multiset{ToCollect(row)}
    case CheckBody(_, id) => multiset{ToCheck(id)}
    case RemoveBody(_, id) => multiset{ToRemove(id)}
    case ClearGarbage(_, until) => multiset{ToClear(until)}
    case _ => multiset{}
  }

  /** The stage of a request that an event ends. */
  function Stage(e: Event): Option<Task> {
    match e
    case FindNothing(_, q) => Some(ToPick(q))
    case Pick(_, _, q) => Some(ToPick(q))
    case TakeLock(_, row, domain, n, q, _) => Some(ToLock(row, domain, n, q))
    case FailMeta(_, row, n, q) => Some(ToHand(row, n, q))
    case MissBody(_, row, n, q) => Some(ToHand(row, n, q))
    case FindMeta(_, row, n, q) => Some(ToHand(row, n, q))
    case Suppress(_, row, n, q) => Some(ToSend(row, n, q))
    case FailSend(_, row, n, q) => Some(ToSend(row, n, q))
    case HandOut(_, row, n, q) => Some(ToSend(row, n, q))
    case LoseClient(_, row, n, q) => Some(ToSend(row, n, q))
    case Retry(_, row, q) => Some(ToRetry(row, q))
    case _ => None
  }

  /** The callbacks an event leaves to be run. A request that finds a lock taken, or a row to drop, goes on. Releasing
      a row is followed by releasing its lock and by looking whether its body is still needed. */
  ghost function Spawned(s: State, e: Event, gap: int): multiset<Task>
    requires Enabled(s, e, gap)
  {
    match e
    case Poll(i, owner, zone) => multiset{ToPick(QueryNow(s, i, owner, zone))}
    case Pick(_, row, q) => multiset{ToLock(row, s.rows[row].domain, s.rows[row].deferrals, q)}
    case TakeLock(i, row, _, n, q, _) =>
      if Key(row) in s.memory[i].table.locks then multiset{ToPick(q)} else multiset{ToHand(row, n, q)}
    case MissBody(_, row, n, q) => multiset{ToRetry(row, q)}
    case FindMeta(_, row, n, q) => multiset{ToSend(row, n, q)}
    case Suppress(_, row, n, q) => multiset{ToRetry(row, q), ToCheck(row.id)}
    case Retry(_, _, q) => multiset{ToPick(q)}
    case SenderRelease(_, row, _, _) => if row in s.rows then multiset{ToUnlock(row), ToCheck(row.id)} else multiset{}
    case SenderDefer(_, row, _, _, _) => if row in s.rows then multiset{ToUnlock(row)} else multiset{}
    case ApiLock(i, row, _) => if Key(row) in s.memory[i].table.locks then multiset{} else multiset{ToDelete(row)}
    case ApiDelete(_, row) => multiset{ToUnlock(row), ToCheck(row.id)}
    case FindOverAge(_, row, _) => multiset{ToCollect(row)}
    case CollectOverAge(_, row) => multiset{ToCheck(row.id)}
    case CheckBody(_, id) => if Referenced(s, id) then multiset{} else multiset{ToRemove(id)}
    case FindGarbage(_, oldest) => multiset{ToClear(ClearUntil(s, oldest))}
    case _ => multiset{}
  }

  /** The delivery that a client settles or gives up. */
  function Settled(e: Event): multiset<Copy> {
    match e
    case SenderRelease(_, row, n, owner) => multiset{Copy(row, n, owner)}
    case SenderDefer(_, row, n, owner, _) => multiset{Copy(row, n, owner)}
    case Abandon(_, row, n, owner) => multiset{Copy(row, n, owner)}
    case _ => multiset{}
  }

  /** A client whose connection closes, or whose instance starts again, can no more settle any delivery. */
  function SendersAfter(senders: multiset<Copy>, e: Event): multiset<Copy> {
    if e.Restart? then multiset{}
    else if e.CloseClient? then senders - e.copies
    else if e.HandOut? then senders + multiset{Copy(e.row, e.count, e.query.owner)}
    else senders - Settled(e)
  }

  ghost function MemoryAfter(s: State, e: Event, gap: int): Memory
    requires Enabled(s, e, gap) && At(e).Some?
  {
    var m := s.memory[e.i];
    Memory(TableAfter(s, e, gap),
           if e.Restart? then multiset{} else m.tasks - Consumed(e) + Spawned(s, e, gap),
           SendersAfter(m.senders, e),
           if e.Restart? then map[]
           else if e.FindNothing? then m.empty[e.query.zone := s.now + EMPTY_TTL]
           else m.empty,
           if e.Restart? then e.zones else m.zones)
  }

  ghost function Apply(s: State, e: Event, gap: int): State
    requires Enabled(s, e, gap)
  {
    State(if e.Tick? then s.now + e.ms else s.now,
          RowsAfter(s, e, gap),
          BodiesAfter(s, e),
          if At(e).Some? then s.memory[e.i := MemoryAfter(s, e, gap)] else s.memory,
          if e.Push? then s.pushed + {e.id} else s.pushed,
          if e.Pick? then s.home[e.row := e.i] else s.home,
          if e.Restart? then s.lost + PendingChecks(s.memory[e.i]) else s.lost)
  }

  function NewRow(target: Target, now: int): Row {
    Row(target.zone, target.domain, target.queued, false, 0, None, now, 0)
  }

  function NewRows(id: string, targets: map<string, Target>, now: int): (rows: map<RowId, Row>)
    ensures forall row :: row in rows ==> row.id == id
  {
    map row | row in (set n | n in targets :: RowId(id, n)) :: NewRow(targets[row.number], now)
  }

  function PendingChecks(m: Memory): set<string> {
    set task | task in m.tasks && (task.ToCheck? || task.ToRemove?) :: task.id
  }

  /** Where the rows after an event come from: they were there, with the same assignment unless picked, or are new. */
  lemma RowOrigin(s: State, e: Event, gap: int, row: RowId)
    requires Enabled(s, e, gap) && row in RowsAfter(s, e, gap)
    ensures var r := RowsAfter(s, e, gap)[row];
            if row in s.rows && !(e.Push? && row in NewRows(e.id, e.targets, s.now)) then
              && r.created == s.rows[row].created
              && if e.Pick? && e.row == row then r.assignee == Some(e.i)
                 else r.assignee == s.rows[row].assignee && (r.locked ==> s.rows[row].locked)
            else
              e.Push? && row.id == e.id && r.assignee == None && !r.locked && r.created == s.now
  {}

  lemma PushedGrows(s: State, e: Event, gap: int)
    requires Enabled(s, e, gap)
    ensures s.pushed <= Apply(s, e, gap).pushed
  {
    hide RowsAfter, BodiesAfter, MemoryAfter;
  }

  // ----- Runs -----

  ghost predicate Runs(s: State, es: seq<Event>, gap: int)
    decreases |es|
  {
    es != [] ==> Enabled(s, es[0], gap) && Runs(Apply(s, es[0], gap), es[1..], gap)
  }

  ghost function After(s: State, es: seq<Event>, gap: int): State
    requires Runs(s, es, gap)
    decreases |es|
  {
    if es == [] then s else After(Apply(s, es[0], gap), es[1..], gap)
  }

  lemma RunsOne(s: State, e: Event, gap: int)
    requires Enabled(s, e, gap)
    ensures Runs(s, [e], gap) && After(s, [e], gap) == Apply(s, e, gap)
  {
    hide Enabled, Apply;
    assert [e][1..] == [];
  }

  lemma RunsCons(s: State, e: Event, es: seq<Event>, gap: int)
    requires Enabled(s, e, gap) && Runs(Apply(s, e, gap), es, gap)
    ensures Runs(s, [e] + es, gap) && After(s, [e] + es, gap) == After(Apply(s, e, gap), es, gap)
  {
    assert ([e] + es)[1..] == es;
  }

  lemma {:induction false} RunsConcat(s: State, es: seq<Event>, more: seq<Event>, gap: int)
    requires Runs(s, es, gap) && Runs(After(s, es, gap), more, gap)
    ensures Runs(s, es + more, gap) && After(s, es + more, gap) == After(After(s, es, gap), more, gap)
    decreases |es|
  {
    hide Enabled, Apply;
    if es == [] {
      assert es + more == more;
    } else {
      RunsConcat(Apply(s, es[0], gap), es[1..], more, gap);
      assert (es + more)[1..] == es[1..] + more;
    }
  }

  /** A run may be stopped anywhere and goes on from there. */
  lemma {:induction false} RunsSplit(s: State, es: seq<Event>, n: nat, gap: int)
    requires n <= |es| && Runs(s, es, gap)
    ensures Runs(s, es[..n], gap) && Runs(After(s, es[..n], gap), es[n..], gap)
    ensures After(s, es, gap) == After(After(s, es[..n], gap), es[n..], gap)
    ensures n < |es| ==> Enabled(After(s, es[..n], gap), es[n], gap)
    decreases n
  {
    hide Enabled, Apply;
    if n == 0 {
      assert es[n..] == es;
    } else {
      RunsSplit(Apply(s, es[0], gap), es[1..], n - 1, gap);
      assert es[..n][1..] == es[1..][..n - 1] && es[n..] == es[1..][n - 1..];
    }
  }

  /** Instances with empty memories on an empty collection. */
  predicate Initial(s: State) {
    && s.rows == map[] && s.bodies == map[] && s.pushed == {} && s.home == map[] && s.lost == {}
    && forall i :: i in s.memory ==> s.memory[i] == Memory(EMPTY, multiset{}, multiset{}, map[], s.memory[i].zones)
  }
}
