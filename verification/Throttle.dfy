/** The speedometer of a sending zone: how far apart the sends of one sender are. Times are in milliseconds. */
module Throttle {

  /** When the send of the i-th of a series of calls is due: at once, or a millisecond after the minimum time has gone
      by since the call before it. */
  function Due(calls: seq<int>, i: nat, minTime: int): int
    requires i < |calls|
  {
    if i == 0 || calls[i] - calls[i - 1] >= minTime then calls[i] else calls[i - 1] + minTime + 1
  }

  /** Timers fire when they are due, or later. */
  ghost predicate NotBefore(calls: seq<int>, sends: seq<int>, minTime: int) {
    |calls| == |sends| && forall i :: 0 <= i < |calls| ==> sends[i] >= Due(calls, i, minTime)
  }

  /** The sender makes the next call when the send before it is over. */
  ghost predicate InTurn(calls: seq<int>, sends: seq<int>)
    requires |calls| == |sends|
  {
    forall i, j :: 0 <= i && j == i + 1 && j < |calls| ==> sends[i] <= calls[j]
  }

  ghost predicate Spaced(sends: seq<int>, minTime: int) {
    forall i, j :: 0 <= i && j == i + 2 && j < |sends| ==> sends[i] + minTime <= sends[j]
  }

  lemma CallsGoOn(calls: seq<int>, sends: seq<int>, i: nat, minTime: int)
    requires minTime >= 0 && NotBefore(calls, sends, minTime) && InTurn(calls, sends) && i < |calls|
    ensures calls[i] <= Due(calls, i, minTime) <= calls[i] + minTime + 1
    ensures i > 0 ==> sends[i - 1] <= calls[i] && calls[i - 1] <= calls[i]
    ensures i > 0 ==> calls[i - 1] + minTime <= sends[i]
  {
    if i > 0 {
      CallsGoOn(calls, sends, i - 1, minTime);
      assert sends[i - 1] >= Due(calls, i - 1, minTime);
    }
  }

  /** However late the timers are, the sends of a sender that calls in turn are the minimum time away from the last but
      one before, and no call is put off by more than the minimum time and a millisecond. */
  lemma TwoApart(calls: seq<int>, sends: seq<int>, minTime: int)
    requires minTime >= 0 && NotBefore(calls, sends, minTime) && InTurn(calls, sends)
    ensures Spaced(sends, minTime)
    ensures forall i :: 0 <= i < |calls| ==> calls[i] <= Due(calls, i, minTime) <= calls[i] + minTime + 1
  {
    forall i | 0 <= i < |calls|
      ensures calls[i] <= Due(calls, i, minTime) <= calls[i] + minTime + 1
    {
      CallsGoOn(calls, sends, i, minTime);
    }
    forall i, j | 0 <= i && j == i + 2 && j < |sends|
      ensures sends[i] + minTime <= sends[j]
    {
      CallsGoOn(calls, sends, i + 1, minTime);
      CallsGoOn(calls, sends, j, minTime);
    }
  }

  /** So 2n + 1 sends take n times the minimum time at least: the rate is at most twice the configured one. */
  lemma {:induction false} RateBound(calls: seq<int>, sends: seq<int>, i: nat, n: nat, minTime: int)
    requires minTime >= 0 && NotBefore(calls, sends, minTime) && InTurn(calls, sends) && i + 2 * n < |calls|
    ensures sends[i + 2 * n] >= sends[i] + n * minTime
  {
    if n > 0 {
      RateBound(calls, sends, i, n - 1, minTime);
      TwoApart(calls, sends, minTime);
      assert n * minTime == (n - 1) * minTime + minTime;
    }
  }

  /** Adjacent sends, with the second as early as it may be, are the minimum time apart if and only if the first was not
      put off (by the speedometer or by a late timer), or by a millisecond only, or the next call came late enough by
      itself: what is stored is the time of the call, not of the send. */
  lemma AdjacentApart(calls: seq<int>, sends: seq<int>, i: nat, minTime: int)
    requires minTime >= 0 && NotBefore(calls, sends, minTime) && InTurn(calls, sends) && i + 1 < |calls|
    requires sends[i + 1] == Due(calls, i + 1, minTime)
    ensures sends[i + 1] >= sends[i] + minTime
            <==> calls[i + 1] >= sends[i] + minTime
                 || (sends[i] <= calls[i] + 1 && calls[i + 1] < calls[i] + minTime)
                 || (sends[i] == calls[i])
  {
    CallsGoOn(calls, sends, i, minTime);
    CallsGoOn(calls, sends, i + 1, minTime);
  }

  /** With timers that fire when they are due, there is no put-off by a millisecond. */
  lemma AdjacentApartInTime(calls: seq<int>, sends: seq<int>, i: nat, minTime: int)
    requires minTime >= 0 && NotBefore(calls, sends, minTime) && InTurn(calls, sends) && i + 1 < |calls|
    requires sends[i] == Due(calls, i, minTime) && sends[i + 1] == Due(calls, i + 1, minTime)
    ensures sends[i + 1] >= sends[i] + minTime <==> sends[i] == calls[i] || calls[i + 1] >= sends[i] + minTime
  {
    CallsGoOn(calls, sends, i, minTime);
    CallsGoOn(calls, sends, i + 1, minTime);
  }

  /** Calls for which they are not, for a sender whose timers are never late. */
  lemma AdjacentCloser(minTime: int) returns (calls: seq<int>, sends: seq<int>)
    requires minTime >= 3
    ensures |calls| == 3 && NotBefore(calls, sends, minTime) && InTurn(calls, sends)
    ensures forall i :: 0 <= i < 3 ==> sends[i] == Due(calls, i, minTime)
    ensures sends[2] - sends[1] < minTime
  {
    calls := [0, 1, minTime + 1];
    sends := [0, minTime + 1, minTime + 1];
  }

  /** Whatever sends the calls of one sender led to: if it kept to its turn they are spaced. The timer has the last
      call. */
  ghost predicate History(timer: int, calls: seq<int>, minTime: int) {
    && calls != [] && timer == calls[|calls| - 1]
    && forall sends :: NotBefore(calls, sends, minTime) && InTurn(calls, sends) ==> Spaced(sends, minTime)
  }

  lemma HistoryIs(calls: seq<int>, minTime: int)
    requires minTime >= 0 && calls != []
    ensures History(calls[|calls| - 1], calls, minTime)
  {
    forall sends | NotBefore(calls, sends, minTime) && InTurn(calls, sends)
      ensures Spaced(sends, minTime)
    {
      TwoApart(calls, sends, minTime);
    }
  }

  class Speedometer {
    const minTime: int
    var timers: map<string, int>

    /** All calls so far of each sender. */
    ghost var calls: map<string, seq<int>>

    /** For every sender that keeps to its turn, sends are spaced. */
    ghost predicate Valid()
      reads this
    {
      && minTime >= 0
      && calls.Keys == timers.Keys
      && forall ref :: ref in timers ==> History(timers[ref], calls[ref], minTime)
    }

    ghost function CallsOf(ref: string): seq<int>
      reads this
    {
      if ref in calls then calls[ref] else []
    }

    constructor (minTime: int)
      requires minTime >= 0
      ensures Valid() && this.minTime == minTime && calls == map[]
    {
      this.minTime, timers, calls := minTime, map[], map[];
    }

    /** How long the caller has to wait: until its send is due. */
    method Check(ref: string, now: int) returns (wait: int)
      requires Valid()
      modifies this
      ensures Valid() && calls == old(calls)[ref := old(CallsOf(ref)) + [now]]
      ensures now + wait == Due(calls[ref], |calls[ref]| - 1, minTime)
    {
      HistoryIs(CallsOf(ref) + [now], minTime);
      ghost var before := CallsOf(ref);
      assert ref in timers ==> timers[ref] == before[|before| - 1];
      hide History;
      if ref !in timers {
        wait := 0;
      } else if now - timers[ref] >= minTime {
        wait := 0;
      } else {
        wait := timers[ref] + minTime - now + 1;
      }
      timers, calls := timers[ref := now], calls[ref := before + [now]];
    }
  }
}
