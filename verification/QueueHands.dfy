/** When two clients have one row, and how a row comes back whose client is gone. */
module QueueHands {
  import opened Options
  import opened LockTable
  import opened QueueProtocol
  import opened QueueExclusion
  import opened QueueBodies
  import opened QueueProgress
  import opened QueueClaims

  /** A row is in the hands of two clients, or twice in those of one. */
  ghost predicate InTwoHands(s: State, row: RowId) {
    exists i: Instance, j: Instance, c: Copy, d: Copy ::
      i in s.memory && j in s.memory && c.row == row && d.row == row && TwoCopies(s, i, j, c, d)
  }

  predicate TwoCopies(s: State, i: Instance, j: Instance, c: Copy, d: Copy)
    requires i in s.memory && j in s.memory
  {
    && c in s.memory[i].senders && d in s.memory[j].senders
    && (i == j && c == d ==> s.memory[i].senders[c] >= 2)
  }

  lemma HolderIsHome(s: State, i: Instance, c: Copy)
    requires Homed(s) && i in s.memory && c in s.memory[i].senders
    ensures c.row in s.home && s.home[c.row] == i
    ensures c.row in s.rows ==> s.rows[c.row].assignee == None || s.rows[c.row].assignee == Some(i)
  {
    assert MemoryHomed(s.memory[i], i, s.home);
    assert c.row in s.rows ==> RowHomed(c.row, s.rows[c.row], s.home);
  }

  lemma SecureIsOneHand(s: State, row: RowId)
    requires Secure(s, row) && Homed(s)
    ensures !InTwoHands(s, row)
  {
    hide Secure, Homed;
    forall i: Instance, j: Instance, c: Copy, d: Copy |
      i in s.memory && j in s.memory && c.row == row && d.row == row && TwoCopies(s, i, j, c, d)
      ensures false
    {
      HolderIsHome(s, i, c);
      HolderIsHome(s, j, d);
      SameClaim(s, row, i, ByCopy(c), ByCopy(d));
    }
  }

  // ----- Going on without an end -----

  /** Events that leave rows, bodies, the clients' deliveries and the zones alone. */
  predicate IsHarmless(e: Event) {
    && !e.SenderRelease? && !e.SenderDefer? && !e.Abandon? && !e.CloseClient? && !e.Restart? && !e.Suppress?
    && !e.ApiDelete? && !e.CollectOverAge? && !e.MissBody? && !e.RemoveBody? && !e.ClearGarbage? && !e.SendNow?
  }

  ghost predicate GoesOn(s: State, s': State, row: RowId, i: Instance) {
    && row in s.rows && row in s'.rows && row.id in s.bodies && row.id in s'.bodies
    && row.id in s.pushed && row.id in s'.pushed
    && s'.rows[row].deferrals == s.rows[row].deferrals && s'.rows[row].queued == s.rows[row].queued
    && s'.rows[row].zone == s.rows[row].zone
    && i in s.memory && i in s'.memory && s'.memory[i].zones == s.memory[i].zones
    && s.memory[i].senders <= s'.memory[i].senders
  }

  lemma RowGoesOn(s: State, e: Event, gap: int, row: RowId)
    requires Enabled(s, e, gap) && IsHarmless(e) && row in s.rows && row.id in s.pushed && row.id in s.bodies
    ensures var s' := Apply(s, e, gap);
            && row in s'.rows && row.id in s'.pushed && row.id in s'.bodies
            && s'.rows[row].deferrals == s.rows[row].deferrals && s'.rows[row].queued == s.rows[row].queued
            && s'.rows[row].zone == s.rows[row].zone
  {
    hide MemoryAfter;
  }

  lemma SendersGoOn(s: State, e: Event, gap: int, i: Instance)
    requires Enabled(s, e, gap) && IsHarmless(e) && i in s.memory
    ensures var s' := Apply(s, e, gap);
            && i in s'.memory && s'.memory[i].zones == s.memory[i].zones
            && s.memory[i].senders <= s'.memory[i].senders
            && (e.HandOut? && e.i == i ==> Copy(e.row, e.count, e.query.owner) in s'.memory[i].senders)
  {
    SendersKept(s.memory[i].senders, e);
    MemoryAt(s, e, gap, i);
    assert !e.Restart? && (e.HandOut? ==> At(e) == Some(e.i));
    hide Enabled, Apply, MemoryAfter, SendersAfter, IsHarmless, At;
    if At(e) == Some(i) {
      MemoryKept(s, e, gap, i);
    }
  }

  lemma SendersKept(senders: multiset<Copy>, e: Event)
    requires IsHarmless(e)
    ensures senders <= SendersAfter(senders, e)
    ensures e.HandOut? ==> Copy(e.row, e.count, e.query.owner) in SendersAfter(senders, e)
  {}

  lemma MemoryKept(s: State, e: Event, gap: int, i: Instance)
    requires Enabled(s, e, gap) && At(e) == Some(i) && i in s.memory && !e.Restart?
    ensures MemoryAfter(s, e, gap).zones == s.memory[i].zones
    ensures MemoryAfter(s, e, gap).senders == SendersAfter(s.memory[i].senders, e)
  {
    AtIs(e, i);
    hide Enabled, TableAfter, Spawned, Consumed, SendersAfter;
  }

  lemma {:induction false} HarmlessRun(s: State, es: seq<Event>, gap: int, row: RowId, i: Instance)
    requires Runs(s, es, gap) && forall e :: e in es ==> IsHarmless(e)
    requires row in s.rows && row.id in s.pushed && row.id in s.bodies && i in s.memory
    ensures GoesOn(s, After(s, es, gap), row, i)
    decreases |es|
  {
    hide Enabled, Apply;
    if es != [] {
      assert IsHarmless(es[0]);
      RowGoesOn(s, es[0], gap, row);
      SendersGoOn(s, es[0], gap, i);
      HarmlessRun(Apply(s, es[0], gap), es[1..], gap, row, i);
    }
  }

  /** And ends with the hand-out of the row to that client. */
  lemma HandedRun(s: State, es: seq<Event>, gap: int, row: RowId, i: Instance, owner: string)
    requires Runs(s, es, gap) && es != [] && forall e :: e in es ==> IsHarmless(e)
    requires row in s.rows && row.id in s.pushed && row.id in s.bodies && i in s.memory
    requires HandsTo(es[|es| - 1], i, row, owner, s.rows[row].deferrals)
    ensures var end := After(s, es, gap);
            GoesOn(s, end, row, i) && Copy(row, s.rows[row].deferrals, owner) in end.memory[i].senders
  {
    hide Runs, After, Enabled, Apply, IsHarmless;
    var k := |es| - 1;
    HarmlessRun(s, es, gap, row, i);
    RunsSplit(s, es, k, gap);
    assert es[k..] == [es[k]] && forall e :: e in es[..k] ==> e in es;
    HarmlessRun(s, es[..k], gap, row, i);
    var last := After(s, es[..k], gap);
    SendersGoOn(last, es[k], gap, i);
    RunsOne(last, es[k], gap);
  }

  predicate HandsTo(e: Event, i: Instance, row: RowId, owner: string, n: nat) {
    e.HandOut? && e.i == i && e.row == row && e.query.owner == owner && e.count == n
  }

  lemma ServesIsHarmless(es: seq<Event>, i: Instance, row: RowId, owner: string, n: nat)
    requires Serves(es, i, row, owner, n, true)
    ensures |es| == 5 && HandsTo(es[4], i, row, owner, n)
    ensures forall e :: e in es ==> IsHarmless(e) && !e.UnlockOld?
  {
    assert es == [es[0], es[1], es[2], es[3], es[4]];
  }

  lemma WaitIsHarmless(es: seq<Event>, i: Instance, row: RowId, owner: string, n: nat)
    requires |es| >= 3 && es[0].Tick? && es[1].ExpireLocks? && es[2].UnlockOld?
    requires Serves(es[3..], i, row, owner, n, true)
    ensures |es| == 8 && HandsTo(es[7], i, row, owner, n)
    ensures forall e :: e in es ==> IsHarmless(e)
    ensures forall e :: e in es[3..] ==> !e.UnlockOld?
  {
    ServesIsHarmless(es[3..], i, row, owner, n);
    assert es == [es[0], es[1], es[2]] + es[3..];
  }

  // ----- A second hand -----

  /** A client has a row of a zone that clients can ask for, and at that time its delay and 61 minutes are over. */
  ghost predicate HeldUntil(s: State, row: RowId, i: Instance, owner: string, t: int) {
    && row in s.rows && i in s.memory && s.rows[row].zone in s.memory[i].zones
    && Copy(row, s.rows[row].deferrals, owner) in s.memory[i].senders
    && t >= Later(s.rows[row].queued, s.now + OLD_LOCK)
  }

  /** Both clients have the row, with that number of deferrals. */
  ghost predicate BothHave(s: State, row: RowId, i: Instance, first: string, second: string, n: nat) {
    && row in s.rows && i in s.memory && s.rows[row].deferrals == n
    && first != second
    && Copy(row, n, first) in s.memory[i].senders && Copy(row, n, second) in s.memory[i].senders
  }

  lemma BothHaveIsTwoHands(s: State, row: RowId, i: Instance, first: string, second: string, n: nat)
    requires BothHave(s, row, i, first, second, n)
    ensures InTwoHands(s, row)
  {
    assert TwoCopies(s, i, i, Copy(row, n, first), Copy(row, n, second));
  }

  /** The state is reached from the start. */
  ghost predicate Reaches(s: State, es: seq<Event>, gap: int, end: State) {
    Initial(s) && Runs(s, es, gap) && end == After(s, es, gap)
  }

  /** At any time by which nothing but its client holds a row back, the row can be handed out to another. */
  lemma SecondHand(s: State, gap: int, row: RowId, i: Instance, first: string, second: string, limit: nat, t: int)
    returns (es: seq<Event>)
    requires row in s.rows && i in s.memory && MayServe(s, i, row) && FreeBy(s, i, row, t) && t >= s.now
    requires SkipsHaveLocks(s.memory[i].table) && !(DELETE_PREFIX <= second)
    requires row.id in s.pushed && row.id in s.bodies
    requires first != second && Copy(row, s.rows[row].deferrals, first) in s.memory[i].senders
    ensures Runs(s, es, gap) && After(s, es, gap).now == t && forall e :: e in es ==> IsHarmless(e)
    ensures BothHave(After(s, es, gap), row, i, first, second, s.rows[row].deferrals)
  {
    hide Runs, After, Enabled, Apply, MayServe, FreeBy, SkipsHaveLocks, IsHarmless, Serves, GoesOn;
    var n := s.rows[row].deferrals;
    es := RowIsServed(s, gap, row, i, second, limit, t);
    WaitIsHarmless(es, i, row, second, n);
    HandedRun(s, es, gap, row, i, second);
    GoesOnIs(s, After(s, es, gap), row, i);
  }

  lemma SecondHandLater(s: State, es: seq<Event>, gap: int, end: State, row: RowId, i: Instance, first: string,
                        second: string, limit: nat, t: int)
    returns (more: seq<Event>)
    requires Reaches(s, es, gap, end) && HeldUntil(end, row, i, first, t) && row.id in end.bodies
    requires !(DELETE_PREFIX <= second) && first != second
    ensures Runs(end, more, gap) && After(end, more, gap).now == t && forall e :: e in more ==> IsHarmless(e)
    ensures BothHave(After(end, more, gap), row, i, first, second, end.rows[row].deferrals)
  {
    hide Initial, Runs, After, IsHarmless, BothHave, FreeBy, MayServe, SkipsHaveLocks, Later;
    HeldIsServable(s, es, gap, end, row, i, first, t);
    more := SecondHand(end, gap, row, i, first, second, limit, t);
  }

  lemma HeldIsServable(s: State, es: seq<Event>, gap: int, end: State, row: RowId, i: Instance, owner: string, t: int)
    requires Reaches(s, es, gap, end) && HeldUntil(end, row, i, owner, t)
    ensures MayServe(end, i, row) && FreeBy(end, i, row, t) && SkipsHaveLocks(end.memory[i].table)
    ensures row.id in end.pushed && t >= end.now
  {
    hide Initial, Runs, After, Homed, FreeBy, MayServe, SkipsHaveLocks, Later;
    HeldAssignee(s, es, gap, end, row, i, owner, t);
    ReachedIsServable(s, es, gap, row, i, t);
  }

  lemma HeldAssignee(s: State, es: seq<Event>, gap: int, end: State, row: RowId, i: Instance, owner: string, t: int)
    requires Reaches(s, es, gap, end) && HeldUntil(end, row, i, owner, t)
    ensures end.rows[row].assignee == None || end.rows[row].assignee == Some(i)
  {
    hide Initial, Runs, After, Homed, Later;
    InitialIsHomed(s);
    HomedRun(s, es, gap);
    HolderIsHome(end, i, Copy(row, end.rows[row].deferrals, owner));
  }

  /** In every reachable state, a client that has a row and does not settle it for 61 minutes can have to share it: the
      row is handed out to any other client. */
  lemma HandedOutTwice(s: State, es: seq<Event>, gap: int, end: State, row: RowId, i: Instance, first: string,
                       second: string, limit: nat, t: int)
    returns (more: seq<Event>)
    requires Reaches(s, es, gap, end) && HeldUntil(end, row, i, first, t) && gap <= SAFE_GAP
    requires !(DELETE_PREFIX <= second) && first != second
    ensures Runs(end, more, gap) && After(end, more, gap).now == t && forall e :: e in more ==> IsHarmless(e)
    ensures BothHave(After(end, more, gap), row, i, first, second, end.rows[row].deferrals)
  {
    hide Runs, After, IsHarmless, BothHave;
    HeldHasBody(s, es, gap, end, row);
    hide Initial;
    more := SecondHandLater(s, es, gap, end, row, i, first, second, limit, t);
  }

  lemma HeldHasBody(s: State, es: seq<Event>, gap: int, end: State, row: RowId)
    requires Reaches(s, es, gap, end) && gap <= SAFE_GAP && row in end.rows
    ensures row.id in end.bodies
  {
    assert AllRowsKept(s) && AllTasksSafe(s);
    hide Initial, Runs, After, AllRowsKept, AllTasksSafe;
    KeptRun(s, es, gap);
    RowIsKept(end, row);
  }

  // ----- For how long a row may be held -----

  ghost predicate Claimed(s: State, row: RowId) {
    exists i: Instance, a: Claim :: i in s.memory && IsClaim(a, row) && Holds(s.memory[i], a) > 0
  }

  /** While the row is claimed, it has not been locked for as long as that. */
  ghost predicate InTime(s: State, row: RowId, limit: int) {
    row in s.rows && s.rows[row].locked && Claimed(s, row) ==> s.now - s.rows[row].lockTime < limit
  }

  /** Requests and clients that have the row are through with it before the time is over, throughout the run. */
  ghost predicate Prompt(s: State, es: seq<Event>, gap: int, row: RowId, limit: int)
    requires Runs(s, es, gap)
    decreases |es|
  {
    InTime(s, row, limit) && (es != [] ==> Prompt(Apply(s, es[0], gap), es[1..], gap, row, limit))
  }

  lemma InTimeIsNoStray(s: State, e: Event, row: RowId, limit: int)
    requires InTime(s, row, limit) && limit <= OLD_LOCK
    ensures !Strays(s, e, row)
  {
    hide IsClaim, Holds;
    assert Strays(s, e, row) ==> Claimed(s, row);
  }

  lemma {:induction false} PromptNeverStrays(s: State, es: seq<Event>, gap: int, row: RowId, limit: int)
    requires Runs(s, es, gap) && Prompt(s, es, gap, row, limit) && limit <= OLD_LOCK
    ensures NeverStrays(s, es, gap, row)
    decreases |es|
  {
    hide Enabled, Apply, InTime, Strays;
    if es != [] {
      InTimeIsNoStray(s, es[0], row, limit);
      PromptNeverStrays(Apply(s, es[0], gap), es[1..], gap, row, limit);
    }
  }

  /** Locks on rows are as old as their picking. */
  lemma LockTimes(s: State, e: Event, gap: int, row: RowId, from: int)
    requires Enabled(s, e, gap) && from <= s.now
    requires row in s.rows && s.rows[row].locked ==> s.rows[row].lockTime >= from
    ensures var s' := Apply(s, e, gap);
            && s.now <= s'.now
            && (row in s'.rows && s'.rows[row].locked ==> s'.rows[row].lockTime >= from)
  {
    hide MemoryAfter, BodiesAfter;
  }

  lemma {:induction false} ShortRunIsPrompt(s: State, es: seq<Event>, gap: int, row: RowId, from: int, limit: int)
    requires Runs(s, es, gap) && from <= s.now
    requires row in s.rows && s.rows[row].locked ==> s.rows[row].lockTime >= from
    ensures s.now <= After(s, es, gap).now
    ensures After(s, es, gap).now - from < limit ==> Prompt(s, es, gap, row, limit)
    decreases |es|
  {
    hide Enabled, Apply, Claimed;
    if es != [] {
      LockTimes(s, es[0], gap, row, from);
      ShortRunIsPrompt(Apply(s, es[0], gap), es[1..], gap, row, from, limit);
    }
  }

  /** The state after a row has been pushed. */
  lemma OneRow(gap: int) returns (s: State, es: seq<Event>, row: RowId)
    requires gap >= 0
    ensures Initial(s) && s.now == 0 && Runs(s, es, gap)
    ensures var end := After(s, es, gap);
            && Ready(end, 0, row) && end.now == 0 && row.id in end.pushed && row.id in end.bodies
            && end.rows[row].assignee == None
  {
    s := State(0, map[], map[], map[0 := Memory(EMPTY, multiset{}, multiset{}, map[], {""})], {}, map[], {});
    var store, push := Store("a"), Push("a", map["" := Target("", "", 0)]);
    row := RowId("a", "");
    assert "" in push.targets;
    var s1 := Apply(s, store, gap);
    var s2 := Apply(s1, push, gap);
    assert row in NewRows("a", push.targets, 0);
    hide Runs, After;
    RunsOne(s1, push, gap);
    RunsCons(s, store, [push], gap);
    es := [store] + [push];
  }

  /** The state in which a client has it. */
  lemma OneHand(gap: int) returns (s: State, es: seq<Event>, row: RowId)
    requires gap >= 0
    ensures Initial(s) && s.now == 0 && Runs(s, es, gap)
    ensures HeldUntil(After(s, es, gap), row, 0, "a", OLD_LOCK) && row.id in After(s, es, gap).bodies
  {
    var start;
    s, start, row := OneRow(gap);
    var s1 := After(s, start, gap);
    hide Initial, Runs, After, Enabled, Apply, Serves, IsHarmless, Ready, GoesOn;
    ReadyIs(s1, 0, row);
    var one := ServedNow(s1, gap, row, 0, "a", 0);
    ServesIsHarmless(one, 0, row, "a", s1.rows[row].deferrals);
    HandedRun(s1, one, gap, row, 0, "a");
    GoesOnIs(s1, After(s1, one, gap), row, 0);
    RunsConcat(s, start, one, gap);
    es := start + one;
  }

  /** Handed out to one client and, 61 minutes later, to another. */
  lemma HeldTooLong(gap: int) returns (s: State, es: seq<Event>, row: RowId)
    requires gap >= 0
    ensures Initial(s) && Runs(s, es, gap) && InTwoHands(After(s, es, gap), row)
    ensures forall limit :: limit > OLD_LOCK ==> Prompt(s, es, gap, row, limit)
  {
    var start;
    s, start, row := OneHand(gap);
    var end := After(s, start, gap);
    hide Initial, Runs, After, Enabled, Apply, IsHarmless, InTwoHands, Prompt, BothHave;
    var more := SecondHandLater(s, start, gap, end, row, 0, "a", "b", 0, OLD_LOCK);
    BothHaveIsTwoHands(After(end, more, gap), row, 0, "a", "b", end.rows[row].deferrals);
    RunsConcat(s, start, more, gap);
    es := start + more;
    WithinTheTime(s, es, gap, row);
  }

  lemma WithinTheTime(s: State, es: seq<Event>, gap: int, row: RowId)
    requires Initial(s) && s.now == 0 && Runs(s, es, gap) && After(s, es, gap).now == OLD_LOCK
    ensures forall limit :: limit > OLD_LOCK ==> Prompt(s, es, gap, row, limit)
  {
    assert row !in s.rows;
    hide Initial, Runs, After, Prompt;
    forall limit | limit > OLD_LOCK
      ensures Prompt(s, es, gap, row, limit)
    {
      ShortRunIsPrompt(s, es, gap, row, 0, limit);
    }
  }

  lemma ReadyIs(s: State, i: Instance, row: RowId)
    requires Ready(s, i, row)
    ensures row in s.rows && i in s.memory && s.rows[row].zone in s.memory[i].zones && s.rows[row].queued <= s.now
  {}

  lemma GoesOnIs(s: State, s': State, row: RowId, i: Instance)
    requires GoesOn(s, s', row, i)
    ensures row in s.rows && row in s'.rows && row.id in s'.bodies && row.id in s'.pushed && i in s.memory
    ensures i in s'.memory && s'.memory[i].zones == s.memory[i].zones
    ensures s.memory[i].senders <= s'.memory[i].senders
    ensures s'.rows[row].deferrals == s.rows[row].deferrals && s'.rows[row].queued == s.rows[row].queued
    ensures s'.rows[row].zone == s.rows[row].zone
  {}

  /** In no run is a row in two hands that everyone who has it is through with in time. */
  ghost predicate OneHandOnly(limit: int, gap: int) {
    forall s, es, row :: Initial(s) && Runs(s, es, gap) && Prompt(s, es, gap, row, limit) ==>
                           !InTwoHands(After(s, es, gap), row)
  }

  /** Rows are in one hand only, if and only if requests and clients take at most 61 minutes. */
  lemma HoldBound(limit: int, gap: int)
    requires gap >= 0
    ensures OneHandOnly(limit, gap) <==> limit <= 61 * 60 * 1000
  {
    hide Initial, Runs, After, Prompt, InTwoHands, Homed, Secure;
    if limit <= OLD_LOCK {
      forall s, es, row | Initial(s) && Runs(s, es, gap) && Prompt(s, es, gap, row, limit)
        ensures !InTwoHands(After(s, es, gap), row)
      {
        InitialIsHomed(s);
        HomedRun(s, es, gap);
        PromptNeverStrays(s, es, gap, row, limit);
        ReachedIsSecure(s, es, gap, row);
        SecureIsOneHand(After(s, es, gap), row);
      }
    } else {
      var s, es, row := HeldTooLong(gap);
    }
  }

  // ----- Rows whose client is gone -----

  lemma {:induction false} CopiesOf(senders: multiset<Copy>, owner: string) returns (copies: multiset<Copy>)
    ensures AreOf(copies, senders, owner)
    decreases |senders|
  {
    if senders == multiset{} {
      copies := multiset{};
    } else {
      var c :| c in senders;
      copies := CopiesOf(senders - multiset{c}, owner);
      if c.owner == owner {
        copies := copies + multiset{c};
      }
    }
  }

  /** A connection can close at any time. */
  lemma CloseNow(s: State, gap: int, i: Instance, owner: string) returns (e: Event)
    requires i in s.memory
    ensures e.CloseClient? && e.i == i && e.owner == owner && Enabled(s, e, gap)
  {
    var locks := s.memory[i].table.locks;
    var keys := ListOfSet(set k | k in locks && locks[k].owner == owner);
    var copies := CopiesOf(s.memory[i].senders, owner);
    e := CloseClient(i, owner, keys, copies);
  }

  /** The instance has no claim to the row. */
  lemma NotClaimed(s: State, e: Event, row: RowId, i: Instance)
    requires i in s.memory && NoClaim(s.memory[i], row) && (row in s.rows ==> s.rows[row].assignee == Some(i))
    ensures !Strays(s, e, row)
  {
    hide IsClaim, Holds;
  }

  lemma {:induction false} NoUnlockNoStray(s: State, es: seq<Event>, gap: int, row: RowId)
    requires Runs(s, es, gap) && forall e :: e in es ==> !e.UnlockOld?
    ensures NeverStrays(s, es, gap, row)
    decreases |es|
  {
    hide Enabled, Apply;
    if es != [] {
      assert !es[0].UnlockOld?;
      NoUnlockNoStray(Apply(s, es[0], gap), es[1..], gap, row);
    }
  }

  lemma StaysUnclaimed(s: State, e: Event, gap: int, row: RowId, i: Instance)
    requires Enabled(s, e, gap) && (e.Tick? || e.ExpireLocks?) && i in s.memory && NoClaim(s.memory[i], row)
    ensures var s' := Apply(s, e, gap);
            i in s'.memory && NoClaim(s'.memory[i], row) && s'.rows == s.rows
  {
    TickOrExpire(s, e, gap, i);
    hide Enabled, Apply, IsClaim;
  }

  lemma TickOrExpire(s: State, e: Event, gap: int, i: Instance)
    requires Enabled(s, e, gap) && (e.Tick? || e.ExpireLocks?) && i in s.memory
    ensures var s' := Apply(s, e, gap);
            && i in s'.memory && s'.rows == s.rows
            && s'.memory[i].tasks == s.memory[i].tasks && s'.memory[i].senders == s.memory[i].senders
  {
    MemoryAt(s, e, gap, i);
    SameRows(s, e, gap);
    hide Enabled, Apply, MemoryAfter, At;
    if At(e) == Some(i) {
      SameTasks(s, e, gap, i);
    }
  }

  lemma SameRows(s: State, e: Event, gap: int)
    requires Enabled(s, e, gap) && (e.Tick? || e.ExpireLocks?)
    ensures Apply(s, e, gap).rows == s.rows
  {
    hide Enabled, MemoryAfter, BodiesAfter;
  }

  lemma SameTasks(s: State, e: Event, gap: int, i: Instance)
    requires Enabled(s, e, gap) && At(e) == Some(i) && (e.Tick? || e.ExpireLocks?) && i in s.memory
    ensures var m := MemoryAfter(s, e, gap);
            m.tasks == s.memory[i].tasks && m.senders == s.memory[i].senders
  {
    hide Enabled, TableAfter;
    assert e.i == i && Consumed(e) == multiset{} && Spawned(s, e, gap) == multiset{} && Settled(e) == multiset{};
  }

  /** The wait for a row that nobody has. */
  lemma WaitNeverStrays(s: State, es: seq<Event>, gap: int, row: RowId, i: Instance)
    requires Runs(s, es, gap) && |es| >= 3 && es[0].Tick? && es[1].ExpireLocks?
    requires forall e :: e in es[3..] ==> !e.UnlockOld?
    requires i in s.memory && NoClaim(s.memory[i], row) && (row in s.rows ==> s.rows[row].assignee == Some(i))
    ensures NeverStrays(s, es, gap, row)
  {
    hide Enabled, Apply, Strays, NoClaim;
    assert es[1..][1..] == es[2..] && es[2..][1..] == es[3..];
    var s1 := Apply(s, es[0], gap);
    assert Runs(s1, es[1..], gap) && es[1..][0] == es[1];
    var s2 := Apply(s1, es[1], gap);
    assert Runs(s2, es[2..], gap) && es[2..][0] == es[2];
    var s3 := Apply(s2, es[2], gap);
    StaysUnclaimed(s, es[0], gap, row, i);
    StaysUnclaimed(s1, es[1], gap, row, i);
    NotClaimed(s, es[0], row, i);
    NotClaimed(s1, es[1], row, i);
    NotClaimed(s2, es[2], row, i);
    NoUnlockNoStray(s3, es[3..], gap, row);
    assert NeverStrays(s2, es[2..], gap, row);
    assert NeverStrays(s1, es[1..], gap, row);
  }

  /** The client that has a secure row is gone with its connection, and then nobody has it. */
  lemma ClosedIsUnclaimed(s: State, e: Event, gap: int, row: RowId, i: Instance, c: Copy)
    requires Secure(s, row) && Enabled(s, e, gap) && e.CloseClient? && e.i == i && e.owner == c.owner && i in s.memory
    requires c.row == row && c in s.memory[i].senders
    ensures i in Apply(s, e, gap).memory && NoClaim(Apply(s, e, gap).memory[i], row)
  {
    hide Enabled, Apply, Secure, IsClaim, Holds, Ended, Begun;
    assert IsClaim(ByCopy(c), row) && Holds(s.memory[i], ByCopy(c)) > 0 by {
      CopyIsClaim(s.memory[i], c);
    }
    forall a | IsClaim(a, row)
      ensures i in Apply(s, e, gap).memory && Holds(Apply(s, e, gap).memory[i], a) == 0
    {
      EventsAreAt(s, e, gap);
      BegunIs(s, e, gap);
      ClaimsAt(s, e, gap, i, row, a);
      if Holds(s.memory[i], a) > 0 {
        SameClaim(s, row, i, a, ByCopy(c));
      }
    }
    SameInstances(s, e, gap);
  }

  lemma CopyIsClaim(m: Memory, c: Copy)
    requires c in m.senders
    ensures IsClaim(ByCopy(c), c.row) && Holds(m, ByCopy(c)) > 0
  {}

  lemma CloseKeeps(s: State, e: Event, gap: int, i: Instance)
    requires Enabled(s, e, gap) && e.CloseClient? && e.i == i && i in s.memory
    ensures var s' := Apply(s, e, gap);
            && s'.rows == s.rows && s'.now == s.now && i in s'.memory && s'.memory[i].zones == s.memory[i].zones
  {
    hide ReleaseAll, SendersAfter;
  }

  /** In every reachable state in which a client has a row that is secure, a way on in which its connection closes and
      the row is handed out to another client 61 minutes later, the row being secure all the time. */
  lemma ClosedComesBack(s: State, es: seq<Event>, gap: int, end: State, row: RowId, i: Instance, first: string,
                        second: string, limit: nat, t: int)
    returns (more: seq<Event>)
    requires Reaches(s, es, gap, end) && HeldUntil(end, row, i, first, t) && gap <= SAFE_GAP
    requires NeverStrays(s, es, gap, row) && !(DELETE_PREFIX <= second)
    ensures Runs(end, more, gap) && NeverStrays(end, more, gap, row) && After(end, more, gap).now == t
    ensures |more| == 9 && more[0].CloseClient? && more[0].i == i && more[0].owner == first
    ensures HandsTo(more[8], i, row, second, end.rows[row].deferrals)
  {
    hide Initial, Runs, After, Enabled, Apply, NeverStrays, Secure, NoClaim, IsClaim, Holds, IsHarmless, Serves, Later;
    var c := Copy(row, end.rows[row].deferrals, first);
    ReachedIsSecure(s, es, gap, row);
    CopyIsClaim(end.memory[i], c);
    ClaimLocks(end, row, i, ByCopy(c));
    var close := CloseNow(end, gap, i, first);
    CloseKeeps(end, close, gap, i);
    ClosedIsUnclaimed(end, close, gap, row, i, c);
    var s1 := Apply(end, close, gap);
    RunsOne(end, close, gap);
    RunsConcat(s, es, [close], gap);
    var wait := NoRowIsStuck(s, es + [close], gap, row, i, second, limit, t);
    WaitIsHarmless(wait, i, row, second, c.count);
    WaitNeverStrays(s1, wait, gap, row, i);
    RunsCons(end, close, wait, gap);
    more := [close] + wait;
    NeverStraysCons(end, close, wait, gap, row);
  }

  lemma ReachedIsSecure(s: State, es: seq<Event>, gap: int, row: RowId)
    requires Initial(s) && Runs(s, es, gap) && NeverStrays(s, es, gap, row)
    ensures Secure(After(s, es, gap), row)
  {
    InitialIsSecure(s, row);
    hide Initial, Runs, After, NeverStrays, Secure;
    SecureSplit(s, es, gap, row, |es|);
    assert es[..|es|] == es;
  }

  lemma NeverStraysCons(s: State, e: Event, es: seq<Event>, gap: int, row: RowId)
    requires Enabled(s, e, gap) && Runs(Apply(s, e, gap), es, gap) && !e.UnlockOld?
    requires NeverStrays(Apply(s, e, gap), es, gap, row)
    ensures Runs(s, [e] + es, gap) && NeverStrays(s, [e] + es, gap, row)
  {
    hide Enabled, Apply;
    assert ([e] + es)[1..] == es;
  }

  /** And one in which its instance starts again and hands it out at once. */
  lemma RestartBringsBack(s: State, es: seq<Event>, gap: int, end: State, row: RowId, i: Instance,
                          zones: set<string>, owner: string, limit: nat)
    returns (more: seq<Event>)
    requires Reaches(s, es, gap, end) && gap <= SAFE_GAP && !(DELETE_PREFIX <= owner)
    requires row in end.rows && i in end.memory && end.rows[row].assignee == Some(i)
    requires end.rows[row].zone in zones && end.rows[row].queued <= end.now
    ensures Runs(end, more, gap) && NeverStrays(end, more, gap, row) && After(end, more, gap).now == end.now
    ensures |more| == 6 && more[0] == Restart(i, zones)
    ensures HandsTo(more[5], i, row, owner, end.rows[row].deferrals)
  {
    hide Initial, Runs, After, Enabled, Apply, IsHarmless, NeverStrays, Serves;
    HeldHasBody(s, es, gap, end, row);
    var serve := RestartFrees(end, gap, row, i, zones, owner, limit);
    ServesIsHarmless(serve, i, row, owner, end.rows[row].deferrals);
    more := [Restart(i, zones)] + serve;
    NoUnlockNoStray(end, more, gap, row);
  }

  // ----- Too many deferrals -----

  /** Two clients with a row that has one deferral left, each of whom follows the table. */
  lemma BothDefer(s: State, gap: int, i: Instance, row: RowId, first: string, second: string, table: seq<nat>)
    returns (es: seq<Event>)
    requires row in s.rows && |table| == s.rows[row].deferrals + 1
    requires BothHave(s, row, i, first, second, s.rows[row].deferrals)
    ensures Runs(s, es, gap) && forall e :: e in es ==> Follows(e, row, table)
    ensures row in After(s, es, gap).rows && After(s, es, gap).rows[row].deferrals == |table| + 1
  {
    hide Runs, After, Enabled, Apply;
    var n := s.rows[row].deferrals;
    var one, two := SenderDefer(i, row, n, first, table[n]), SenderDefer(i, row, n, second, table[n]);
    var s1 := DeferOnce(s, gap, i, Copy(row, n, first), table[n]);
    var s2 := DeferOnce(s1, gap, i, Copy(row, n, second), table[n]);
    RunsOne(s1, two, gap);
    RunsCons(s, one, [two], gap);
    es := [one] + [two];
  }

  lemma DeferOnce(s: State, gap: int, i: Instance, c: Copy, ttl: int) returns (s': State)
    requires i in s.memory && c.row in s.rows && c in s.memory[i].senders
    ensures var e := SenderDefer(i, c.row, c.count, c.owner, ttl);
            && Enabled(s, e, gap) && s' == Apply(s, e, gap)
    ensures i in s'.memory && s'.memory[i].senders == s.memory[i].senders - multiset{c}
    ensures c.row in s'.rows && s'.rows[c.row].deferrals == s.rows[c.row].deferrals + 1
  {
    hide TableAfter, Spawned, Consumed;
    var e := SenderDefer(i, c.row, c.count, c.owner, ttl);
    assert Copy(c.row, c.count, c.owner) == c && Enabled(s, e, gap) && Settled(e) == multiset{c};
    hide Enabled, Settled;
    s' := Apply(s, e, gap);
  }

  /** Then the bound on the deferrals fails: in every reachable state in which a client has a row with one deferral
      left, there is a way on in which every deferral follows the table, and the row is deferred once more than the
      table is long. */
  lemma BoundFails(s: State, es: seq<Event>, gap: int, end: State, row: RowId, i: Instance, first: string,
                   second: string, limit: nat, t: int, table: seq<nat>)
    returns (more: seq<Event>)
    requires Reaches(s, es, gap, end) && HeldUntil(end, row, i, first, t) && gap <= SAFE_GAP
    requires !(DELETE_PREFIX <= second) && first != second && |table| == end.rows[row].deferrals + 1
    ensures Runs(end, more, gap) && forall e :: e in more ==> Follows(e, row, table)
    ensures row in After(end, more, gap).rows && After(end, more, gap).rows[row].deferrals == |table| + 1
  {
    hide Initial, Runs, After;
    var wait := HandedOutTwice(s, es, gap, end, row, i, first, second, limit, t);
    var both := BothDefer(After(end, wait, gap), gap, i, row, first, second, table);
    RunsConcat(end, wait, both, gap);
    assert forall e :: e in wait ==> IsHarmless(e);
    more := wait + both;
  }
}
