/** Deferring and giving up: what the sender decides after a failed attempt, over the life of a delivery. */
module Retry {
  import opened Options

  datatype Action = Reject | Defer | Other

  /** What is known of a failure. `rule` is what the bounce rules say of the response, and `blacklisted` whether
      the category worked out is "blacklist"; `poolDisabled` and `hasSender` belong to the delivery. */
  datatype Failure = Failure(http: bool, httpResponse: int, preset: bool, temporary: bool, action: Option<Action>,
                             coded: bool, rule: Action, blacklisted: bool, poolDisabled: bool, hasSender: bool)

  datatype Decision = DeferFor(ttl: nat) | Release

  const MINUTE := 60 * 1000

  const DEFAULT_DEFER_TIMES: seq<nat> :=
    [5 * MINUTE, 7 * MINUTE, 8 * MINUTE, 25 * MINUTE, 75 * MINUTE, 120 * MINUTE,
     240 * MINUTE, 240 * MINUTE, 240 * MINUTE, 240 * MINUTE, 240 * MINUTE, 240 * MINUTE,
     240 * MINUTE, 240 * MINUTE, 240 * MINUTE, 240 * MINUTE, 240 * MINUTE]

  /** A failure that is final whatever the count. */
  predicate Final(f: Failure) {
    || (f.blacklisted && (f.poolDisabled || !f.hasSender))
    || (match f.action
        case Some(action) => action == Reject
        case None =>
          if f.http then 400 <= f.httpResponse < 500
          else if f.preset then !f.temporary
          else f.coded && f.rule == Reject)
  }

  /** The table in force: the delivery's own if it has entries. */
  function TableOf(own: seq<nat>): seq<nat> {
    if own != [] then own else DEFAULT_DEFER_TIMES
  }

  method HandleResponseError(f: Failure, count: nat, own: seq<nat>) returns (decision: Decision)
    ensures decision == Decide(f, count, TableOf(own))
    ensures DecidedByKind(f, count, if own != [] then own else DEFAULT_DEFER_TIMES, decision)
  {
    KindsDecide(f, count, TableOf(own));
    var action;
    if f.http {
      action := if f.httpResponse >= 400 && f.httpResponse < 500 then Reject else Defer;
    } else if f.preset {
      action := if f.temporary || f.action == Some(Defer) then Defer else Reject;
    } else if !f.coded {
      action := Defer;
    } else {
      action := f.rule;
    }
    action := if f.action.Some? then f.action.value else action;
    if f.blacklisted && (f.poolDisabled || !f.hasSender) {
      action := Reject;
    }
    var deferTimes := if own != [] then own else DEFAULT_DEFER_TIMES;
    if action != Reject && count < |deferTimes| {
      decision := DeferFor(deferTimes[count]);
    } else {
      decision := Release;
    }
  }

  /** The decision for each kind of failure: those that are final whatever else is known of them, those with an action
      given, and of the others those of HTTP, with a preset category, with a code, and of the network. */
  predicate DecidedByKind(f: Failure, count: nat, table: seq<nat>, decision: Decision) {
    var last, room := f.blacklisted && (f.poolDisabled || !f.hasSender), count < |table|;
    var deferred := decision.DeferFor?;
    && (deferred ==> room && decision.ttl == table[count])
    && (last ==> !deferred)
    && (!last && f.action.Some? ==> (deferred <==> f.action.value != Reject && room))
    && (!last && f.action.None? && f.http ==> (deferred <==> (f.httpResponse < 400 || f.httpResponse >= 500) && room))
    && (!last && f.action.None? && !f.http && f.preset ==> (deferred <==> f.temporary && room))
    && (!last && f.action.None? && !f.http && !f.preset && f.coded ==> (deferred <==> f.rule != Reject && room))
    && (!last && f.action.None? && !f.http && !f.preset && !f.coded ==> (deferred <==> room))
  }

  lemma KindsDecide(f: Failure, count: nat, table: seq<nat>)
    ensures DecidedByKind(f, count, table, Decide(f, count, table))
  {}

  // ----- The life of a delivery -----

  function Decide(f: Failure, count: nat, table: seq<nat>): Decision {
    if Final(f) || count >= |table| then Release else DeferFor(table[count])
  }

  /** What a delivery goes through while its hand-outs do not overlap: each attempt sees the count the last
      deferral left. `delays` are the delays so far. */
  datatype Life = Life(count: nat, delays: seq<nat>, released: bool)

  function Attempt(life: Life, f: Failure, table: seq<nat>): Life {
    if life.released then
      life
    else
      match Decide(f, life.count, table)
      case DeferFor(ttl) => Life(life.count + 1, life.delays + [ttl], false)
      case Release => life.(released := true)
  }

  function Lives(life: Life, failures: seq<Failure>, table: seq<nat>): Life
    decreases |failures|
  {
    if failures == [] then life else Lives(Attempt(life, failures[0], table), failures[1..], table)
  }

  function Sum(s: seq<nat>): nat {
    if s == [] then 0 else s[0] + Sum(s[1..])
  }

  /** How many of the failures are deferred: up to the first that is final, and as far as the table goes. */
  function Deferrals(failures: seq<Failure>, room: nat): (n: nat)
    ensures n <= room && n <= |failures|
  {
    if failures == [] || room == 0 || Final(failures[0]) then 0 else 1 + Deferrals(failures[1..], room - 1)
  }

  lemma {:induction false} LivesAs(life: Life, failures: seq<Failure>, table: seq<nat>)
    requires !life.released && life.count <= |table| && life.delays == table[..life.count]
    ensures var n := Deferrals(failures, |table| - life.count);
            Lives(life, failures, table) == Life(life.count + n, table[..life.count + n], n < |failures|)
    decreases |failures|
  {
    if failures != [] {
      var next := Attempt(life, failures[0], table);
      if next.released {
        Over(next, failures[1..], table);
      } else {
        assert table[..life.count + 1] == table[..life.count] + [table[life.count]];
        LivesAs(next, failures[1..], table);
      }
    }
  }

  lemma {:induction false} Over(life: Life, failures: seq<Failure>, table: seq<nat>)
    requires life.released
    ensures Lives(life, failures, table) == life
    decreases |failures|
  {
    if failures != [] {
      Over(life, failures[1..], table);
    }
  }

  /** Whatever the failures, a delivery is deferred at most as often as its table is long, with the table's delays
      in turn, and is released by the failure after that at the latest, or by the first that is final. */
  lemma RetriesEnd(failures: seq<Failure>, table: seq<nat>)
    ensures var life := Lives(Life(0, [], false), failures, table);
            && life.count == |life.delays| <= |table| && life.delays <= table
            && (life.released <==> |failures| > |table| || exists i :: 0 <= i < |failures| && Final(failures[i]))
  {
    LivesAs(Life(0, [], false), failures, table);
    DeferralsAll(failures, |table|);
  }

  lemma {:induction false} DeferralsAll(failures: seq<Failure>, room: nat)
    ensures Deferrals(failures, room) < |failures|
            <==> |failures| > room || exists i :: 0 <= i < |failures| && Final(failures[i])
  {
    if failures != [] && room > 0 {
      DeferralsAll(failures[1..], room - 1);
      if i :| 0 <= i < |failures| && Final(failures[i]) {
        assert i > 0 ==> Final(failures[1..][i - 1]);
      }
      if i :| 0 <= i < |failures[1..]| && Final(failures[1..][i]) {
        assert Final(failures[i + 1]);
      }
    }
  }

  lemma {:induction false} SumOfPrefix(prefix: seq<nat>, s: seq<nat>)
    requires prefix <= s
    ensures Sum(prefix) <= Sum(s)
  {
    if prefix != [] {
      SumOfPrefix(prefix[1..], s[1..]);
    }
  }

  /** With the default table the delays never add up to more than 48 hours. */
  lemma TwoDays(failures: seq<Failure>)
    ensures Sum(Lives(Life(0, [], false), failures, DEFAULT_DEFER_TIMES).delays) <= 48 * 60 * MINUTE
  {
    RetriesEnd(failures, DEFAULT_DEFER_TIMES);
    SumOfPrefix(Lives(Life(0, [], false), failures, DEFAULT_DEFER_TIMES).delays, DEFAULT_DEFER_TIMES);
    DefaultTableSum();
  }

  lemma {:induction false} SumRepeated(n: nat, x: nat)
    ensures Sum(seq(n, _ => x)) == n * x
  {
    if n > 0 {
      assert seq(n, _ => x)[1..] == seq(n - 1, _ => x);
      SumRepeated(n - 1, x);
    }
  }

  lemma SumOne(x: nat, s: seq<nat>)
    ensures Sum([x] + s) == x + Sum(s)
  {
    assert ([x] + s)[1..] == s;
  }

  /** The default table has seventeen entries that never get shorter, from five minutes to four hours, and add up to two
      days. */
  lemma DefaultTableSum()
    ensures Sum(DEFAULT_DEFER_TIMES) == 48 * 60 * MINUTE == 172800000
    ensures |DEFAULT_DEFER_TIMES| == 17 && DEFAULT_DEFER_TIMES[0] == 300000 && DEFAULT_DEFER_TIMES[16] == 14400000
    ensures forall i, j :: 0 <= i <= j < 17 ==> DEFAULT_DEFER_TIMES[i] <= DEFAULT_DEFER_TIMES[j]
  {
    hide Sum;
    var m := MINUTE;
    var long := seq(11, _ => 240 * m);
    SumRepeated(11, 240 * m);
    var from5 := [120 * m] + long;
    SumOne(120 * m, long);
    var from4 := [75 * m] + from5;
    SumOne(75 * m, from5);
    var from3 := [25 * m] + from4;
    SumOne(25 * m, from4);
    var from2 := [8 * m] + from3;
    SumOne(8 * m, from3);
    var from1 := [7 * m] + from2;
    SumOne(7 * m, from2);
    SumOne(5 * m, from1);
    assert DEFAULT_DEFER_TIMES == [5 * m] + from1;
  }
}
