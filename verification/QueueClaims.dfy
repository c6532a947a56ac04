/** Who has a row: the request that picked it, or the client that was handed it. When that is ever more than one, and
    how often a row is deferred. */
module QueueClaims {
  import opened Options
  import opened LockTable
  import opened QueueProtocol
  import opened QueueExclusion
  import opened QueueBodies
  import opened QueueProgress
  import Retry

  /** A hold on a row, from when it is picked until it is settled or the request drops it. */
  datatype Claim = ByTask(task: Task) | ByCopy(copy: Copy)

  predicate IsClaim(a: Claim, row: RowId) {
    match a
    case ByTask(t) => (t.ToLock? || t.ToHand? || t.ToSend?) && t.row == row
    case ByCopy(c) => c.row == row
  }

  /** The number of deferrals that the row had when it was picked. */
  function CountOf(a: Claim): nat
    requires a.ByTask? ==> a.task.ToLock? || a.task.ToHand? || a.task.ToSend?
  {
    match a
    case ByTask(t) => t.count
    case ByCopy(c) => c.count
  }

  function Holds(m: Memory, a: Claim): nat {
    match a
    case ByTask(t) => m.tasks[t]
    case ByCopy(c) => m.senders[c]
  }

  ghost predicate OneClaim(m: Memory, row: RowId) {
    && (forall a :: IsClaim(a, row) ==> Holds(m, a) <= 1)
    && (forall a, b :: IsClaim(a, row) && IsClaim(b, row) && Holds(m, a) > 0 && Holds(m, b) > 0 ==> a == b)
  }

  ghost predicate NoClaim(m: Memory, row: RowId) {
    forall a :: IsClaim(a, row) ==> Holds(m, a) == 0
  }

  /** What a claim at an instance needs: the row, if it is still there, is locked for it and has not been deferred
      since. */
  ghost predicate Backed(s: State, i: Instance, row: RowId, a: Claim)
    requires IsClaim(a, row)
  {
    && row.id in s.pushed
    && (row in s.rows ==>
          && s.rows[row].locked && s.rows[row].assignee == Some(i)
          && s.rows[row].deferrals == CountOf(a))
  }

  /** Nowhere is there more than one claim to the row, and the row is kept for it. */
  ghost predicate Secure(s: State, row: RowId) {
    && (row in s.rows ==> row.id in s.pushed)
    && forall i :: i in s.memory ==> SecureAt(s, i, row)
  }

  ghost predicate SecureAt(s: State, i: Instance, row: RowId)
    requires i in s.memory
  {
    && OneClaim(s.memory[i], row)
    && forall a :: IsClaim(a, row) && Holds(s.memory[i], a) > 0 ==> Backed(s, i, row, a)
  }

  // ----- How claims come and go -----

  /** The claim that an event ends. */
  function Ended(e: Event): Option<Claim> {
    match e
    case TakeLock(_, row, domain, n, q, _) => Some(ByTask(ToLock(row, domain, n, q)))
    case FailMeta(_, row, n, q) => Some(ByTask(ToHand(row, n, q)))
    case MissBody(_, row, n, q) => Some(ByTask(ToHand(row, n, q)))
    case FindMeta(_, row, n, q) => Some(ByTask(ToHand(row, n, q)))
    case Suppress(_, row, n, q) => Some(ByTask(ToSend(row, n, q)))
    case FailSend(_, row, n, q) => Some(ByTask(ToSend(row, n, q)))
    case HandOut(_, row, n, q) => Some(ByTask(ToSend(row, n, q)))
    case LoseClient(_, row, n, q) => Some(ByTask(ToSend(row, n, q)))
    case SenderRelease(_, row, n, owner) => Some(ByCopy(Copy(row, n, owner)))
    case SenderDefer(_, row, n, owner, _) => Some(ByCopy(Copy(row, n, owner)))
    case Abandon(_, row, n, owner) => Some(ByCopy(Copy(row, n, owner)))
    case _ => None
  }

  /** The event ends the claim together with others: its client's connection closes, or its instance starts again. */
  predicate CutsOff(e: Event, a: Claim) {
    e.Restart? || (e.CloseClient? && a.ByCopy? && a.copy.owner == e.owner)
  }

  /** The claim that an event begins. */
  function Begun(s: State, e: Event): Option<Claim>
    requires e.Pick? ==> e.row in s.rows
    requires e.TakeLock? ==> e.i in s.memory
  {
    match e
    case Pick(_, row, q) => Some(ByTask(ToLock(row, s.rows[row].domain, s.rows[row].deferrals, q)))
    case TakeLock(i, row, _, n, q, _) =>
      if Key(row) in s.memory[i].table.locks then None else Some(ByTask(ToHand(row, n, q)))
    case FindMeta(_, row, n, q) => Some(ByTask(ToSend(row, n, q)))
    case HandOut(_, row, n, q) => Some(ByCopy(Copy(row, n, q.owner)))
    case _ => None
  }

  lemma EventsAreAt(s: State, e: Event, gap: int)
    requires Enabled(s, e, gap)
    ensures e.Pick? ==> e.row in s.rows && e.i in s.memory && !s.rows[e.row].locked
    ensures e.TakeLock? ==> e.i in s.memory
    ensures Ended(e).Some? ==>
              && At(e) == Some(e.i) && e.i in s.memory
              && IsClaim(Ended(e).value, e.row) && Holds(s.memory[e.i], Ended(e).value) > 0
    ensures e.Restart? || e.CloseClient? ==> Ended(e) == None
  {}

  lemma BegunIs(s: State, e: Event, gap: int)
    requires Enabled(s, e, gap) && (e.Pick? ==> e.row in s.rows) && (e.TakeLock? ==> e.i in s.memory)
    ensures Begun(s, e).Some? ==> e.Pick? || e.TakeLock? || e.FindMeta? || e.HandOut?
    ensures Begun(s, e).Some? ==>
              && IsClaim(Begun(s, e).value, e.row) && At(e) == Some(e.i)
              && (e.Pick? || (Ended(e).Some? && CountOf(Begun(s, e).value) == CountOf(Ended(e).value)))
    ensures e.Pick? ==> Begun(s, e).Some? && CountOf(Begun(s, e).value) == s.rows[e.row].deferrals
  {
    hide Enabled, Key;
  }

  predicate IsClaimTask(t: Task) {
    t.ToLock? || t.ToHand? || t.ToSend?
  }

  lemma ClaimTasks(s: State, e: Event, gap: int, t: Task)
    requires Enabled(s, e, gap) && IsClaimTask(t)
    requires (e.Pick? ==> e.row in s.rows) && (e.TakeLock? ==> e.i in s.memory)
    ensures Consumed(e)[t] == if Ended(e) == Some(ByTask(t)) then 1 else 0
    ensures Spawned(s, e, gap)[t] == if Begun(s, e) == Some(ByTask(t)) then 1 else 0
  {
    hide Enabled, Consumed, Spawned, Ended, Begun;
    TasksEnded(e, t);
    TasksBegun(s, e, gap, t);
  }

  lemma TasksEnded(e: Event, t: Task)
    requires IsClaimTask(t)
    ensures Consumed(e)[t] == if Ended(e) == Some(ByTask(t)) then 1 else 0
  {}

  lemma TasksBegun(s: State, e: Event, gap: int, t: Task)
    requires Enabled(s, e, gap) && IsClaimTask(t)
    requires (e.Pick? ==> e.row in s.rows) && (e.TakeLock? ==> e.i in s.memory)
    ensures Spawned(s, e, gap)[t] == if Begun(s, e) == Some(ByTask(t)) then 1 else 0
  {
    hide Enabled, Key;
    if e.Pick? || e.TakeLock? || e.FindMeta? {
    } else {
      NoClaimSpawned(s, e, gap, t);
    }
  }

  lemma NoClaimSpawned(s: State, e: Event, gap: int, t: Task)
    requires Enabled(s, e, gap) && IsClaimTask(t) && !e.Pick? && !e.TakeLock? && !e.FindMeta?
    ensures t !in Spawned(s, e, gap)
  {
    hide Enabled, Key;
  }

  lemma CopiesMove(s: State, e: Event, gap: int, i: Instance, c: Copy)
    requires Enabled(s, e, gap) && At(e) == Some(i) && i in s.memory
    ensures MemoryAfter(s, e, gap).senders[c]
            == if CutsOff(e, ByCopy(c)) then 0
               else s.memory[i].senders[c] - Settled(e)[c] + (if HandsOver(e, c) then 1 else 0)
  {
    hide Enabled, TableAfter, Spawned, Consumed, SendersAfter, CutsOff, Settled, HandsOver;
    SendersEnabled(s, e, gap, i);
    SendersMove(s.memory[i].senders, e, c);
    AtIs(e, i);
  }

  lemma AtIs(e: Event, i: Instance)
    requires At(e) == Some(i)
    ensures e.i == i
  {}

  lemma SendersEnabled(s: State, e: Event, gap: int, i: Instance)
    requires Enabled(s, e, gap) && At(e) == Some(i) && i in s.memory
    ensures e.CloseClient? ==> AreOf(e.copies, s.memory[i].senders, e.owner)
    ensures Settled(e) <= s.memory[i].senders
  {
    hide AreOf;
  }

  lemma SendersMove(senders: multiset<Copy>, e: Event, c: Copy)
    requires (e.CloseClient? ==> AreOf(e.copies, senders, e.owner)) && Settled(e) <= senders
    ensures SendersAfter(senders, e)[c]
            == if CutsOff(e, ByCopy(c)) then 0
               else senders[c] - Settled(e)[c] + (if HandsOver(e, c) then 1 else 0)
  {
    hide Settled;
    if e.HandOut? || e.CloseClient? || e.Restart? {
      NothingSettled(e);
    }
  }

  lemma NothingSettled(e: Event)
    requires e.HandOut? || e.CloseClient? || e.Restart?
    ensures Settled(e) == multiset{}
  {}

  predicate HandsOver(e: Event, c: Copy) {
    e.HandOut? && Copy(e.row, e.count, e.query.owner) == c
  }

  lemma CopiesEnded(e: Event, c: Copy)
    ensures Settled(e)[c] == if Ended(e) == Some(ByCopy(c)) then 1 else 0
  {}

  lemma CopiesBegun(s: State, e: Event, c: Copy)
    requires (e.Pick? ==> e.row in s.rows) && (e.TakeLock? ==> e.i in s.memory)
    ensures Begun(s, e) == Some(ByCopy(c)) <==> HandsOver(e, c)
  {
    hide Key;
  }

  /** Each claim at the instance is there as often as before, but for those cut off, the one ended and the one begun. */
  lemma ClaimsMove(s: State, e: Event, gap: int, i: Instance, row: RowId, a: Claim)
    requires Enabled(s, e, gap) && At(e) == Some(i) && i in s.memory && IsClaim(a, row)
    requires (e.Pick? ==> e.row in s.rows) && (e.TakeLock? ==> e.i in s.memory)
    ensures Holds(MemoryAfter(s, e, gap), a)
            == if CutsOff(e, a) then 0
               else Holds(s.memory[i], a) - (if Ended(e) == Some(a) then 1 else 0)
                    + (if Begun(s, e) == Some(a) then 1 else 0)
  {
    hide Enabled, MemoryAfter, Spawned, Consumed, Key, Ended, Begun, Settled, CutsOff;
    match a
    case ByTask(t) =>
      TasksMove(s, e, gap, i, t);
      ClaimTasks(s, e, gap, t);
    case ByCopy(c) =>
      CopiesMove(s, e, gap, i, c);
      CopiesEnded(e, c);
      CopiesBegun(s, e, c);
  }

  lemma TasksMove(s: State, e: Event, gap: int, i: Instance, t: Task)
    requires Enabled(s, e, gap) && At(e) == Some(i) && i in s.memory && IsClaimTask(t)
    ensures Consumed(e) <= s.memory[i].tasks
    ensures MemoryAfter(s, e, gap).tasks[t]
            == if CutsOff(e, ByTask(t)) then 0
               else s.memory[i].tasks[t] - Consumed(e)[t] + Spawned(s, e, gap)[t]
  {
    AtIs(e, i);
    ConsumedIsThere(s, e, gap, i);
    hide Enabled, TableAfter, Spawned, Consumed;
  }

  lemma ConsumedIsThere(s: State, e: Event, gap: int, i: Instance)
    requires Enabled(s, e, gap) && At(e) == Some(i) && i in s.memory
    ensures Consumed(e) <= s.memory[i].tasks
  {}

  // ----- What makes a row insecure -----

  /** The event unlocks the row in the collection, as it has been locked for 61 minutes, although there is still a claim
      to it. */
  ghost predicate Strays(s: State, e: Event, row: RowId) {
    && e.UnlockOld? && e.i in s.memory && row in s.rows
    && StoredTooLong(s.rows[row], s.now) && s.rows[row].assignee == Some(e.i)
    && exists a :: IsClaim(a, row) && Holds(s.memory[e.i], a) > 0
  }

  /** How an event changes a row that stays. */
  lemma RowChanges(s: State, e: Event, gap: int, row: RowId)
    requires Enabled(s, e, gap) && row in Apply(s, e, gap).rows && row.id in s.pushed
    ensures row in s.rows
    ensures var r, r' := s.rows[row], Apply(s, e, gap).rows[row];
            && r'.deferrals == r.deferrals + (if e.SenderDefer? && e.row == row then 1 else 0)
            && (r'.assignee == r.assignee || (e.Pick? && e.row == row && r'.assignee == Some(e.i)))
            && (e.Pick? && e.row == row ==> r'.locked && r'.assignee == Some(e.i))
            && (r.locked && !r'.locked ==>
                  || (e.SenderDefer? && e.row == row)
                  || ((e.UnlockOld? || e.Restart?) && r.assignee == Some(e.i)
                      && (e.UnlockOld? ==> StoredTooLong(r, s.now))))
            && (r.locked && r'.locked && (e.UnlockOld? || e.Restart?) && r.assignee == Some(e.i) ==>
                  e.UnlockOld? && !StoredTooLong(r, s.now))
  {
    hide MemoryAfter, BodiesAfter;
  }

  /** What becomes of the claims to a row at one instance. */
  lemma ClaimsAt(s: State, e: Event, gap: int, i: Instance, row: RowId, a: Claim)
    requires Enabled(s, e, gap) && i in s.memory && IsClaim(a, row)
    requires (e.Pick? ==> e.row in s.rows) && (e.TakeLock? ==> e.i in s.memory)
    ensures i in Apply(s, e, gap).memory
    ensures Holds(Apply(s, e, gap).memory[i], a)
            == if At(e) != Some(i) then Holds(s.memory[i], a)
               else if CutsOff(e, a) then 0
               else Holds(s.memory[i], a) - (if Ended(e) == Some(a) then 1 else 0)
                    + (if Begun(s, e) == Some(a) then 1 else 0)
  {
    MemoryAt(s, e, gap, i);
    hide Enabled, Apply, At, MemoryAfter, Holds, Ended, Begun, IsClaim, CutsOff;
    if At(e) == Some(i) {
      ClaimsMove(s, e, gap, i, row, a);
    }
  }

  lemma MemoryAt(s: State, e: Event, gap: int, i: Instance)
    requires Enabled(s, e, gap) && i in s.memory
    ensures i in Apply(s, e, gap).memory
    ensures Apply(s, e, gap).memory[i] == if At(e) == Some(i) then MemoryAfter(s, e, gap) else s.memory[i]
  {
    hide Enabled, RowsAfter, BodiesAfter, MemoryAfter;
    if At(e) == Some(i) {
      AtIs(e, i);
    }
  }

  /** A picked row has no claim anywhere while it is secure. */
  lemma PickedIsFree(s: State, e: Event, gap: int, row: RowId, i: Instance, a: Claim)
    requires Secure(s, row) && Enabled(s, e, gap) && e.Pick? && e.row == row && i in s.memory && IsClaim(a, row)
    ensures Holds(s.memory[i], a) == 0
  {
    hide Secure, Holds, IsClaim;
    EventsAreAt(s, e, gap);
    if Holds(s.memory[i], a) > 0 {
      ClaimLocks(s, row, i, a);
    }
  }

  lemma ClaimLocks(s: State, row: RowId, i: Instance, a: Claim)
    requires Secure(s, row) && i in s.memory && row in s.rows && IsClaim(a, row) && Holds(s.memory[i], a) > 0
    ensures s.rows[row].locked && s.rows[row].assignee == Some(i) && s.rows[row].deferrals == CountOf(a)
  {
    hide IsClaim, Holds, CountOf;
    assert SecureAt(s, i, row);
    assert Backed(s, i, row, a);
  }

  lemma SameClaim(s: State, row: RowId, i: Instance, a: Claim, b: Claim)
    requires Secure(s, row) && i in s.memory && IsClaim(a, row) && IsClaim(b, row)
    requires Holds(s.memory[i], a) > 0 && Holds(s.memory[i], b) > 0
    ensures a == b && Holds(s.memory[i], a) == 1
  {
    hide IsClaim, Holds;
    assert SecureAt(s, i, row);
  }

  lemma SecureStepAt(s: State, e: Event, gap: int, row: RowId, i: Instance)
    requires Secure(s, row) && Enabled(s, e, gap) && !Strays(s, e, row) && i in s.memory
    ensures i in Apply(s, e, gap).memory && SecureAt(Apply(s, e, gap), i, row)
  {
    hide Enabled, Apply, Holds, IsClaim, CountOf, Ended, Begun, Secure;
    var s' := Apply(s, e, gap);
    EventsAreAt(s, e, gap);
    BegunIs(s, e, gap);
    SameInstances(s, e, gap);
    assert SecureAt(s, i, row) by {
      SecureIs(s, row, i);
    }
    forall a, b | IsClaim(a, row) && IsClaim(b, row) && Holds(s'.memory[i], a) > 0 && Holds(s'.memory[i], b) > 0
      ensures a == b
    {
      StillOne(s, e, gap, row, i, a, b);
    }
    forall a | IsClaim(a, row)
      ensures Holds(s'.memory[i], a) <= 1
    {
      AtMostOnce(s, e, gap, row, i, a);
    }
    forall a | IsClaim(a, row) && Holds(s'.memory[i], a) > 0
      ensures Backed(s', i, row, a)
    {
      StillBacked(s, e, gap, row, i, a);
    }
  }

  lemma SecureIs(s: State, row: RowId, i: Instance)
    requires Secure(s, row) && i in s.memory
    ensures SecureAt(s, i, row)
  {}

  lemma RowOfClaim(a: Claim, row: RowId, other: RowId)
    requires IsClaim(a, row) && IsClaim(a, other)
    ensures row == other
  {}

  lemma AtMostOnce(s: State, e: Event, gap: int, row: RowId, i: Instance, a: Claim)
    requires Secure(s, row) && Enabled(s, e, gap) && i in s.memory && IsClaim(a, row)
    ensures i in Apply(s, e, gap).memory && Holds(Apply(s, e, gap).memory[i], a) <= 1
  {
    hide Enabled, Apply, Holds, IsClaim, CountOf, Ended, Begun, Secure;
    EventsAreAt(s, e, gap);
    BegunIs(s, e, gap);
    SecureIs(s, row, i);
    ClaimsAt(s, e, gap, i, row, a);
    if At(e) == Some(i) && Begun(s, e) == Some(a) {
      RowOfClaim(a, row, e.row);
      if e.Pick? {
        PickedIsFree(s, e, gap, row, i, a);
      } else if Holds(s.memory[i], a) > 0 {
        assert IsClaim(Ended(e).value, row) && Holds(s.memory[i], Ended(e).value) > 0;
        assert a == Ended(e).value;
      }
    }
  }

  lemma StillOne(s: State, e: Event, gap: int, row: RowId, i: Instance, a: Claim, b: Claim)
    requires Secure(s, row) && Enabled(s, e, gap) && i in s.memory && i in Apply(s, e, gap).memory
    requires IsClaim(a, row) && IsClaim(b, row)
    requires Holds(Apply(s, e, gap).memory[i], a) > 0 && Holds(Apply(s, e, gap).memory[i], b) > 0
    ensures a == b
  {
    hide Enabled, Apply, Holds, IsClaim, CountOf, Ended, Begun, Secure;
    EventsAreAt(s, e, gap);
    BegunIs(s, e, gap);
    SecureIs(s, row, i);
    ClaimsAt(s, e, gap, i, row, a);
    ClaimsAt(s, e, gap, i, row, b);
    if At(e) == Some(i) && (Begun(s, e) == Some(a) || Begun(s, e) == Some(b)) {
      RowOfClaim(Begun(s, e).value, row, e.row);
      if e.Pick? {
        PickedIsFree(s, e, gap, row, i, a);
        PickedIsFree(s, e, gap, row, i, b);
      } else {
        var c := Ended(e).value;
        assert IsClaim(c, row) && Holds(s.memory[i], c) > 0;
      }
    }
  }

  /** The claims of a secure row that stays: each has one before it, at the same instance and with the same count,
      unless the row is picked just now. */
  lemma ClaimBefore(s: State, e: Event, gap: int, row: RowId, i: Instance, a: Claim) returns (b: Claim)
    requires Secure(s, row) && Enabled(s, e, gap) && i in s.memory && i in Apply(s, e, gap).memory && IsClaim(a, row)
    requires Holds(Apply(s, e, gap).memory[i], a) > 0 && !(e.Pick? && e.row == row && At(e) == Some(i))
    ensures IsClaim(b, row) && Holds(s.memory[i], b) > 0 && CountOf(b) == CountOf(a)
    ensures !(e.Restart? && e.i == i)
    ensures At(e) == Some(i) && Ended(e) == Some(b) ==> Begun(s, e) == Some(a)
  {
    hide Enabled, Apply, Holds, IsClaim, CountOf, Ended, Begun, Secure;
    EventsAreAt(s, e, gap);
    BegunIs(s, e, gap);
    SecureIs(s, row, i);
    ClaimsAt(s, e, gap, i, row, a);
    if Holds(s.memory[i], a) > 0 {
      SameClaim(s, row, i, a, a);
    }
    b := a;
    if At(e) == Some(i) && Begun(s, e) == Some(a) {
      RowOfClaim(a, row, e.row);
      b := Ended(e).value;
    }
  }

  lemma StillBacked(s: State, e: Event, gap: int, row: RowId, i: Instance, a: Claim)
    requires Secure(s, row) && Enabled(s, e, gap) && !Strays(s, e, row)
    requires i in s.memory && i in Apply(s, e, gap).memory && IsClaim(a, row)
    requires Holds(Apply(s, e, gap).memory[i], a) > 0
    ensures Backed(Apply(s, e, gap), i, row, a)
  {
    hide Enabled, Apply, Holds, IsClaim, CountOf, Ended, Begun, Secure, StoredTooLong, Backed, Strays;
    EventsAreAt(s, e, gap);
    if e.Pick? && e.row == row && At(e) == Some(i) {
      PickedBacked(s, e, gap, row, a);
    } else {
      var b := ClaimBefore(s, e, gap, row, i, a);
      if row in s.rows && e.SenderDefer? && e.row == row {
        DeferEnds(s, e, gap, row, i, b);
        BegunIs(s, e, gap);
        assert false;
      }
      if e.Pick? && e.row == row {
        PickedIsFree(s, e, gap, row, i, b);
        assert false;
      }
      KeptBacked(s, e, gap, row, i, a, b);
    }
  }

  lemma KeptBacked(s: State, e: Event, gap: int, row: RowId, i: Instance, a: Claim, b: Claim)
    requires Secure(s, row) && Enabled(s, e, gap) && !Strays(s, e, row) && i in s.memory
    requires IsClaim(a, row) && IsClaim(b, row) && Holds(s.memory[i], b) > 0 && CountOf(b) == CountOf(a)
    requires !(e.Restart? && e.i == i)
    requires row in s.rows ==> !(e.SenderDefer? && e.row == row)
    requires !(e.Pick? && e.row == row)
    ensures Backed(Apply(s, e, gap), i, row, a)
  {
    hide Enabled, Apply, Holds, IsClaim, CountOf, Secure, StoredTooLong;
    SecureIs(s, row, i);
    assert Backed(s, i, row, b);
    PushedGrows(s, e, gap);
    if row in Apply(s, e, gap).rows {
      RowChanges(s, e, gap, row);
    }
  }

  lemma PickedBacked(s: State, e: Event, gap: int, row: RowId, a: Claim)
    requires Secure(s, row) && Enabled(s, e, gap) && e.Pick? && e.row == row && e.i in s.memory && IsClaim(a, row)
    requires e.i in Apply(s, e, gap).memory && Holds(Apply(s, e, gap).memory[e.i], a) > 0
    ensures Backed(Apply(s, e, gap), e.i, row, a)
  {
    hide Enabled, Apply, Holds, IsClaim, CountOf, Ended, Begun, SecureAt;
    EventsAreAt(s, e, gap);
    BegunIs(s, e, gap);
    PickedIsFree(s, e, gap, row, e.i, a);
    ClaimsAt(s, e, gap, e.i, row, a);
    PushedGrows(s, e, gap);
    if row in Apply(s, e, gap).rows {
      RowChanges(s, e, gap, row);
    }
  }

  /** The claim of a client that defers ends, and there is no other. */
  lemma DeferEnds(s: State, e: Event, gap: int, row: RowId, i: Instance, b: Claim)
    requires Secure(s, row) && Enabled(s, e, gap) && i in s.memory && row in s.rows && e.SenderDefer? && e.row == row
    requires IsClaim(b, row) && Holds(s.memory[i], b) > 0
    ensures At(e) == Some(i) && Ended(e) == Some(b)
  {
    var c := ByCopy(Copy(e.row, e.count, e.owner));
    assert e.i in s.memory && IsClaim(c, row) && Holds(s.memory[e.i], c) > 0;
    hide Enabled, Secure, IsClaim, Holds;
    ClaimLocks(s, row, i, b);
    ClaimLocks(s, row, e.i, c);
    SameClaim(s, row, i, b, c);
  }

  lemma RowPushed(s: State, e: Event, gap: int, row: RowId)
    requires Enabled(s, e, gap) && (row in s.rows ==> row.id in s.pushed)
    ensures row in Apply(s, e, gap).rows ==> row.id in Apply(s, e, gap).pushed
  {
    hide MemoryAfter, BodiesAfter;
  }

  lemma SecureStays(s: State, e: Event, gap: int, row: RowId)
    requires Secure(s, row) && Enabled(s, e, gap) && !Strays(s, e, row)
    ensures Secure(Apply(s, e, gap), row)
  {
    SameInstances(s, e, gap);
    RowPushed(s, e, gap, row);
    hide Enabled, Apply, SecureAt, Strays;
    forall i | i in Apply(s, e, gap).memory
      ensures SecureAt(Apply(s, e, gap), i, row)
    {
      SecureStepAt(s, e, gap, row, i);
    }
  }

  lemma StrayBreaks(s: State, e: Event, gap: int, row: RowId)
    requires Secure(s, row) && Enabled(s, e, gap) && Strays(s, e, row)
    ensures !Secure(Apply(s, e, gap), row)
  {
    hide Enabled, Apply, Holds, IsClaim, StoredTooLong;
    var a :| IsClaim(a, row) && Holds(s.memory[e.i], a) > 0;
    ClaimsAt(s, e, gap, e.i, row, a);
    UnlockKeeps(s, e, gap, row);
    RowChanges(s, e, gap, row);
    assert !Backed(Apply(s, e, gap), e.i, row, a);
  }

  lemma UnlockKeeps(s: State, e: Event, gap: int, row: RowId)
    requires Enabled(s, e, gap) && (e.UnlockOld? || e.Restart?) && row in s.rows
    ensures row in Apply(s, e, gap).rows
  {
    hide MemoryAfter, BodiesAfter;
  }

  ghost predicate AlwaysSecure(s: State, es: seq<Event>, gap: int, row: RowId)
    requires Runs(s, es, gap)
    decreases |es|
  {
    Secure(s, row) && (es != [] ==> AlwaysSecure(Apply(s, es[0], gap), es[1..], gap, row))
  }

  ghost predicate NeverStrays(s: State, es: seq<Event>, gap: int, row: RowId)
    requires Runs(s, es, gap)
    decreases |es|
  {
    es != [] ==> !Strays(s, es[0], row) && NeverStrays(Apply(s, es[0], gap), es[1..], gap, row)
  }

  /** Over every run, no row is claimed twice, and every claimed row is locked in the collection for its instance, if
      and only if the unlocking of old rows never hits a row that is still claimed: by a request that takes more than 61
      minutes, or by a client that is connected and has had it for as long. */
  lemma {:induction false} SecureExactly(s: State, es: seq<Event>, gap: int, row: RowId)
    requires Secure(s, row) && Runs(s, es, gap)
    ensures AlwaysSecure(s, es, gap, row) <==> NeverStrays(s, es, gap, row)
    decreases |es|
  {
    hide Enabled, Apply, Secure, Strays;
    if es != [] {
      if Strays(s, es[0], row) {
        StrayBreaks(s, es[0], gap, row);
      } else {
        SecureStays(s, es[0], gap, row);
        SecureExactly(Apply(s, es[0], gap), es[1..], gap, row);
      }
    }
  }

  lemma InitialIsSecure(s: State, row: RowId)
    requires Initial(s)
    ensures Secure(s, row)
  {}

  // ----- How often a row is deferred -----

  /** The sender defers by its table, for the count it was given. */
  predicate Follows(e: Event, row: RowId, table: seq<nat>) {
    e.SenderDefer? && e.row == row ==> e.count < |table| && e.ttl == table[e.count]
  }

  /** That is what the sender's decision comes to. */
  lemma DecisionFollows(f: Retry.Failure, i: Instance, row: RowId, count: nat, owner: string, table: seq<nat>)
    ensures Retry.Decide(f, count, table).DeferFor? ==>
              Follows(SenderDefer(i, row, count, owner, Retry.Decide(f, count, table).ttl), row, table)
  {}

  /** The delays of the row's deferrals. */
  ghost function Delays(s: State, es: seq<Event>, gap: int, row: RowId): seq<int>
    requires Runs(s, es, gap)
    decreases |es|
  {
    if es == [] then []
    else
      (if es[0].SenderDefer? && es[0].row == row && row in s.rows then [es[0].ttl] else [])
      + Delays(Apply(s, es[0], gap), es[1..], gap, row)
  }

  lemma DeferredBy(s: State, e: Event, gap: int, row: RowId)
    requires Secure(s, row) && Enabled(s, e, gap) && e.SenderDefer? && e.row == row && row in s.rows
    ensures e.count == s.rows[row].deferrals
  {
    var c := ByCopy(Copy(e.row, e.count, e.owner));
    assert IsClaim(c, row) && Holds(s.memory[e.i], c) > 0;
    SecureIs(s, row, e.i);
    assert Backed(s, e.i, row, c);
  }

  lemma {:induction false} DelaysAre(s: State, es: seq<Event>, gap: int, row: RowId, table: seq<nat>)
    requires Secure(s, row) && Runs(s, es, gap) && NeverStrays(s, es, gap, row)
    requires forall e :: e in es ==> Follows(e, row, table)
    requires row in s.rows && row in After(s, es, gap).rows && s.rows[row].deferrals <= |table|
    ensures s.rows[row].deferrals <= After(s, es, gap).rows[row].deferrals <= |table|
    ensures Delays(s, es, gap, row) == table[s.rows[row].deferrals..After(s, es, gap).rows[row].deferrals]
    decreases |es|
  {
    hide Enabled, Apply, Secure, Strays, Follows;
    if es != [] {
      var s', e := Apply(s, es[0], gap), es[0];
      PushedOf(s, row);
      StillThere(s, es, gap, row);
      assert Follows(e, row, table) && forall f :: f in es[1..] ==> f in es;
      DelayStep(s, e, gap, row, table);
      DelaysAre(s', es[1..], gap, row, table);
      var k, m := s.rows[row].deferrals, After(s, es, gap).rows[row].deferrals;
      hide Delays, NeverStrays, Runs, After;
      assert k < m ==> table[k..m] == [table[k]] + table[k + 1..m];
    }
  }

  lemma DelayStep(s: State, e: Event, gap: int, row: RowId, table: seq<nat>)
    requires Secure(s, row) && Enabled(s, e, gap) && !Strays(s, e, row) && Follows(e, row, table)
    requires row in s.rows && row in Apply(s, e, gap).rows
    ensures Secure(Apply(s, e, gap), row)
    ensures var n, defers := s.rows[row].deferrals, e.SenderDefer? && e.row == row;
            && Apply(s, e, gap).rows[row].deferrals == n + (if defers then 1 else 0)
            && (defers ==> n < |table| && e.ttl == table[n])
  {
    hide Enabled, Apply, Secure, Strays;
    PushedOf(s, row);
    RowChanges(s, e, gap, row);
    SecureStays(s, e, gap, row);
    if e.SenderDefer? && e.row == row {
      DeferredBy(s, e, gap, row);
    }
  }

  lemma PushedOf(s: State, row: RowId)
    requires Secure(s, row)
    ensures row in s.rows ==> row.id in s.pushed
  {}

  lemma StillThere(s: State, es: seq<Event>, gap: int, row: RowId)
    requires Runs(s, es, gap) && es != [] && row.id in s.pushed && row in After(s, es, gap).rows
    ensures row in Apply(s, es[0], gap).rows
  {
    hide Enabled, Apply;
    PushedGrows(s, es[0], gap);
    if row !in Apply(s, es[0], gap).rows {
      RowsStayAway(Apply(s, es[0], gap), es[1..], gap, row);
    }
  }

  lemma {:induction false} SecureSplit(s: State, es: seq<Event>, gap: int, row: RowId, n: nat)
    requires Secure(s, row) && Runs(s, es, gap) && NeverStrays(s, es, gap, row) && n <= |es|
    ensures Runs(s, es[..n], gap) && Runs(After(s, es[..n], gap), es[n..], gap)
    ensures Secure(After(s, es[..n], gap), row) && NeverStrays(After(s, es[..n], gap), es[n..], gap, row)
    decreases n
  {
    hide Enabled, Apply, Secure, Strays;
    RunsSplit(s, es, n, gap);
    if n == 0 {
      assert es[n..] == es;
    } else {
      SecureStays(s, es[0], gap, row);
      SecureSplit(Apply(s, es[0], gap), es[1..], gap, row, n - 1);
      assert es[..n][1..] == es[1..][..n - 1] && es[n..] == es[1..][n - 1..];
    }
  }

  lemma PushedFresh(s: State, e: Event, gap: int, number: string)
    requires Enabled(s, e, gap) && e.Push? && number in e.targets
    ensures RowId(e.id, number) in Apply(s, e, gap).rows
    ensures Apply(s, e, gap).rows[RowId(e.id, number)].deferrals == 0
  {
    hide MemoryAfter, BodiesAfter;
  }

  /** In every run in which the row is not unlocked while it is claimed, its senders following its table: it is never
      deferred more often than the table is long, and the delays so far are the table's, in turn, so that they add up to
      no more than the whole table. */
  lemma DeferralsBound(s: State, es: seq<Event>, gap: int, k: nat, number: string, table: seq<nat>)
    requires Initial(s) && Runs(s, es, gap) && k < |es| && es[k].Push? && number in es[k].targets
    requires NeverStrays(s, es, gap, RowId(es[k].id, number))
    requires forall e :: e in es ==> Follows(e, RowId(es[k].id, number), table)
    requires RowId(es[k].id, number) in After(s, es, gap).rows
    ensures Runs(s, es[..k + 1], gap) && Runs(After(s, es[..k + 1], gap), es[k + 1..], gap)
    ensures var n := After(s, es, gap).rows[RowId(es[k].id, number)].deferrals;
            && n <= |table|
            && Delays(After(s, es[..k + 1], gap), es[k + 1..], gap, RowId(es[k].id, number)) == table[..n]
            && Retry.Sum(table[..n]) <= Retry.Sum(table)
  {
    hide Initial, Runs, After, Enabled, Apply, Secure, NeverStrays, Delays, Retry.Sum;
    var row := RowId(es[k].id, number);
    InitialIsSecure(s, row);
    SecureSplit(s, es, gap, row, k + 1);
    RunsSplit(s, es, k + 1, gap);
    var upTo := es[..k + 1];
    RunsSplit(s, upTo, k, gap);
    assert upTo[k] == es[k] && upTo[k..] == [es[k]];
    RunsOne(After(s, upTo[..k], gap), es[k], gap);
    PushedFresh(After(s, upTo[..k], gap), es[k], gap, number);
    assert forall e :: e in es[k + 1..] ==> e in es;
    DelaysAre(After(s, upTo, gap), es[k + 1..], gap, row, table);
    var n := After(s, es, gap).rows[row].deferrals;
    assert table[0..n] == table[..n];
    Retry.SumOfPrefix(table[..n], table);
  }
}
