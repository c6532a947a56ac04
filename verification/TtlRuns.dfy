/** What a cache answers, over any series of calls. */
module TtlRuns {
  import opened Options
  import opened TtlCaching

  datatype Call<K, V> =
    | Set(key: K, value: Option<V>, ttl: Option<int>, callback: bool)
    | Get(key: K)
    | Remove(key: K)
    | Check
    | Flush

  /** For how long a call of set keeps its value. */
  function Life<K, V>(call: Call<K, V>, defaultTtl: int): int
    requires call.Set?
  {
    if call.ttl.Some? then call.ttl.value else defaultTtl
  }

  /** The call puts a value in the cache. */
  predicate Stores<K, V>(call: Call<K, V>, defaultTtl: int) {
    call.Set? && call.value.Some? && Life(call, defaultTtl) > 0
  }

  /** The call replaces or removes the value of the key, other than for its age. */
  predicate Touches<K(==), V>(call: Call<K, V>, key: K) {
    call.Flush? || ((call.Set? || call.Remove?) && call.key == key)
  }

  /** From the a-th call, which stored a value, up to the n-th, none has touched its key. */
  ghost predicate Untouched<K(!new), V(!new)>(calls: seq<Call<K, V>>, a: nat, n: nat, defaultTtl: int) {
    && a < n <= |calls| && Stores(calls[a], defaultTtl)
    && forall b :: a < b < n ==> !Touches(calls[b], calls[a].key)
  }

  /** The value is found to be too old: by the expiry check at the time or later, or when it is asked for later. */
  ghost predicate Ages<K(!new), V(!new)>(call: Call<K, V>, now: int, key: K, expires: int) {
    (call.Check? && now >= expires) || (call == Get(key) && now > expires)
  }

  /** What the map has of a value stored and not touched since. */
  ghost predicate Tracked<K(!new), V(!new)>(calls: seq<Call<K, V>>, times: seq<int>, a: nat, n: nat, defaultTtl: int,
                                            data: map<K, Entry<K, V>>)
    requires |times| == |calls| && Untouched(calls, a, n, defaultTtl)
  {
    var key, expires := calls[a].key, times[a] + Life(calls[a], defaultTtl);
    && (key in data ==> data[key].value == calls[a].value.value && data[key].expires == expires)
    && (key in data <==> forall b :: a < b < n ==> !Ages(calls[b], times[b], key, expires))
  }

  /** What a call does to the map. */
  ghost predicate Changes<K(!new), V(!new)>(call: Call<K, V>, now: int, defaultTtl: int, data: map<K, Entry<K, V>>,
                                            data': map<K, Entry<K, V>>) {
    match call
    case Set(key, value, ttl, callback) =>
      if Stores(call, defaultTtl) then
        data' == data[key := Entry(key, value.value, now + Life(call, defaultTtl), callback)]
      else data' == data - {key}
    case Get(key) => data' == if key in data && data[key].expires >= now then data else data - {key}
    case Remove(key) => data' == data - {key}
    case Check =>
      && (forall k :: k in data' <==> k in data && data[k].expires > now)
      && (forall k :: k in data' ==> data'[k] == data[k])
    case Flush => data' == map[]
  }

  lemma TrackedOn<K(!new), V(!new)>(calls: seq<Call<K, V>>, times: seq<int>, a: nat, n: nat, defaultTtl: int,
                                    data: map<K, Entry<K, V>>, data': map<K, Entry<K, V>>)
    requires |times| == |calls| && n < |calls| && Untouched(calls, a, n + 1, defaultTtl)
    requires a < n ==> Untouched(calls, a, n, defaultTtl) && Tracked(calls, times, a, n, defaultTtl, data)
    requires Changes(calls[n], times[n], defaultTtl, data, data')
    ensures Tracked(calls, times, a, n + 1, defaultTtl, data')
  {
    var key, expires := calls[a].key, times[a] + Life(calls[a], defaultTtl);
    if a < n {
      assert !Touches(calls[n], key);
      if Ages(calls[n], times[n], key, expires) {
        assert key !in data';
      } else {
        assert key in data' <==> key in data;
      }
    }
  }

  /** The answer to a request for a value stored and not touched since: the value until it expires, and at the very
      time if no expiry check was run at it, and nothing after that. */
  ghost predicate IsAnswer<K(!new), V(!new)>(calls: seq<Call<K, V>>, times: seq<int>, a: nat, j: nat, defaultTtl: int,
                                             answer: Option<V>)
    requires |times| == |calls| && a < j < |calls| && Stores(calls[a], defaultTtl)
  {
    var expires := times[a] + Life(calls[a], defaultTtl);
    && (times[j] < expires ==> answer == calls[a].value)
    && (times[j] > expires ==> answer == None)
    && (times[j] == expires ==>
          answer == if exists b :: a < b < j && calls[b].Check? && times[b] == expires then None else calls[a].value)
  }

  lemma AnswerIs<K(!new), V(!new)>(calls: seq<Call<K, V>>, times: seq<int>, a: nat, j: nat, defaultTtl: int,
                                   data: map<K, Entry<K, V>>, answer: Option<V>)
    requires |times| == |calls| && j < |calls| && Untouched(calls, a, j, defaultTtl)
    requires Tracked(calls, times, a, j, defaultTtl, data) && calls[j] == Get(calls[a].key)
    requires forall b, c :: 0 <= b <= c < |times| ==> times[b] <= times[c]
    requires answer == if calls[j].key in data && data[calls[j].key].expires >= times[j]
                       then Some(data[calls[j].key].value) else None
    ensures IsAnswer(calls, times, a, j, defaultTtl, answer)
  {
    var key, expires := calls[a].key, times[a] + Life(calls[a], defaultTtl);
    if b :| a < b < j && calls[b].Check? && times[b] == expires {
      assert Ages(calls[b], times[b], key, expires);
    }
    forall b | a < b < j && times[j] <= expires && Ages(calls[b], times[b], key, expires)
      ensures calls[b].Check? && times[b] == times[j] == expires
    {
      assert times[b] <= times[j];
    }
  }

  /** Any series of calls at times that do not go back. */
  method Use<K(==,!new), V(==,!new)>(calls: seq<Call<K, V>>, times: seq<int>, standard: int)
    returns (answers: seq<Option<V>>)
    requires |times| == |calls| && forall b, c :: 0 <= b <= c < |times| ==> times[b] <= times[c]
    ensures |answers| == |calls|
    ensures var defaultTtl := if standard == 0 then 5000 else standard;
            forall a, j :: 0 <= a < j < |calls| && Untouched(calls, a, j, defaultTtl)
                           && calls[j] == Get(calls[a].key) ==>
                             IsAnswer(calls, times, a, j, defaultTtl, answers[j])
  {
    var cache := new TtlCache<K, V>(standard);
    ghost var defaultTtl := if standard == 0 then 5000 else standard;
    answers := [];
    hide Touches, Changes, TtlCache.Valid;
    for n := 0 to |calls|
      invariant fresh(cache) && cache.Valid() && cache.defaultTtl == defaultTtl && |answers| == n
      invariant forall a :: 0 <= a < n && Untouched(calls, a, n, defaultTtl) ==>
                              Tracked(calls, times, a, n, defaultTtl, cache.data)
      invariant forall a, j :: 0 <= a < j < n && Untouched(calls, a, j, defaultTtl) && calls[j] == Get(calls[a].key) ==>
                                 IsAnswer(calls, times, a, j, defaultTtl, answers[j])
    {
      ghost var before := cache.data;
      var answer := Do(cache, calls[n], times[n]);
      ghost var next := n + 1;
      forall a | 0 <= a < next && Untouched(calls, a, next, defaultTtl)
        ensures Tracked(calls, times, a, next, defaultTtl, cache.data)
      {
        TrackedOn(calls, times, a, n, defaultTtl, before, cache.data);
      }
      forall a | 0 <= a < n && Untouched(calls, a, n, defaultTtl) && calls[n] == Get(calls[a].key)
        ensures IsAnswer(calls, times, a, n, defaultTtl, answer)
      {
        AnswerIs(calls, times, a, n, defaultTtl, before, answer);
      }
      answers := answers + [answer];
    }
  }

  /** One call. */
  method Do<K(==,!new), V(==,!new)>(cache: TtlCache<K, V>, call: Call<K, V>, now: int) returns (answer: Option<V>)
    requires cache.Valid()
    modifies cache
    ensures cache.Valid() && Changes(call, now, cache.defaultTtl, old(cache.data), cache.data)
    ensures call.Get? ==>
              answer == if call.key in old(cache.data) && old(cache.data)[call.key].expires >= now
                        then Some(old(cache.data)[call.key].value) else None
  {
    hide TtlCache.Valid;
    answer := None;
    match call {
      case Set(key, value, ttl, callback) => cache.Set(key, value, ttl, callback, now);
      case Get(key) => answer := cache.Get(key, now);
      case Remove(key) => cache.Remove(key);
      case Check => var expired := cache.CheckExpired(now);
      case Flush => cache.Flush();
    }
  }
}
