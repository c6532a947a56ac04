/** The TtlCache object: a map, and an array of its entries in the order in which they expire. */
module TtlCaching {
  import opened Options

  /** `callback` says whether a function is to be called when the entry is removed or expires. */
  datatype Entry<K, V> = Entry(key: K, value: V, expires: int, callback: bool)

  const DEFAULT_CACHE_TTL := 5 * 1000

  ghost predicate Ordered<K(!new), V(!new)>(s: seq<Entry<K, V>>) {
    forall i, j :: 0 <= i < j < |s| ==> s[i].expires <= s[j].expires
  }

  ghost predicate OnePerKey<K(!new), V(!new)>(s: seq<Entry<K, V>>) {
    forall i, j :: 0 <= i < j < |s| ==> s[i].key != s[j].key
  }

  /** The array has the map's entries and no others. */
  ghost predicate Lists<K(!new), V(!new)>(s: seq<Entry<K, V>>, data: map<K, Entry<K, V>>) {
    forall e :: e in s <==> e.key in data && data[e.key] == e
  }

  /** Those of the entries that have a callback. */
  function WithCallback<K(!new), V(!new)>(s: seq<Entry<K, V>>): seq<Entry<K, V>> {
    if s == [] then [] else (if s[0].callback then [s[0]] else []) + WithCallback(s[1..])
  }

  lemma FirstCallback<K(!new), V(!new)>(s: seq<Entry<K, V>>)
    requires s != []
    ensures WithCallback(s) == (if s[0].callback then [s[0]] else []) + WithCallback(s[1..])
  {}

  lemma {:induction false} WithCallbackAppend<K(!new), V(!new)>(s: seq<Entry<K, V>>, e: Entry<K, V>)
    ensures WithCallback(s + [e]) == WithCallback(s) + if e.callback then [e] else []
  {
    hide WithCallback;
    if s == [] {
      assert s + [e] == [e];
      FirstCallback([e]);
      NoCallbacks<K, V>();
      assert [e][1..] == [];
    } else {
      FirstCallback(s);
      FirstCallback(s + [e]);
      assert (s + [e])[1..] == s[1..] + [e];
      WithCallbackAppend(s[1..], e);
    }
  }

  lemma {:induction false} WithCallbackIs<K(!new), V(!new)>(s: seq<Entry<K, V>>)
    ensures forall e :: e in WithCallback(s) <==> e in s && e.callback
  {
    if s != [] {
      WithCallbackIs(s[1..]);
    }
  }

  lemma {:induction false} AllHaveCallbacks<K(!new), V(!new)>(s: seq<Entry<K, V>>)
    requires forall e :: e in s ==> e.callback
    ensures WithCallback(s) == s
  {
    if s != [] {
      AllHaveCallbacks(s[1..]);
    }
  }

  function Without<K(==), V>(s: seq<Entry<K, V>>, key: K): seq<Entry<K, V>> {
    if s == [] then
      []
    else
      Without(s[..|s| - 1], key) + if s[|s| - 1].key == key then [] else [s[|s| - 1]]
  }

  /** Behind the last entry that does not expire later. */
  function SortedIn<K, V>(s: seq<Entry<K, V>>, entry: Entry<K, V>): seq<Entry<K, V>> {
    if s == [] || s[|s| - 1].expires <= entry.expires then
      s + [entry]
    else
      SortedIn(s[..|s| - 1], entry) + [s[|s| - 1]]
  }

  lemma {:induction false} WithoutKeeps<K(!new), V(!new)>(s: seq<Entry<K, V>>, key: K)
    requires Ordered(s) && OnePerKey(s)
    ensures Ordered(Without(s, key)) && OnePerKey(Without(s, key))
    ensures forall e :: e in Without(s, key) <==> e in s && e.key != key
  {
    if s != [] {
      var init, last := s[..|s| - 1], s[|s| - 1];
      WithoutKeeps(init, key);
      assert s == init + [last];
      assert forall e :: e in init ==> e.expires <= last.expires && e.key != last.key;
      var list := Without(init, key);
      assert Without(s, key) == if last.key == key then list else list + [last];
      hide Without;
      AppendKeeps(list, last);
    }
  }

  lemma AppendKeeps<K(!new), V(!new)>(s: seq<Entry<K, V>>, last: Entry<K, V>)
    requires Ordered(s) && OnePerKey(s) && forall e :: e in s ==> e.expires <= last.expires && e.key != last.key
    ensures Ordered(s + [last]) && OnePerKey(s + [last])
  {}

  lemma {:induction false} SortedInKeeps<K(!new), V(!new)>(s: seq<Entry<K, V>>, entry: Entry<K, V>)
    requires Ordered(s) && OnePerKey(s) && forall e :: e in s ==> e.key != entry.key
    ensures Ordered(SortedIn(s, entry)) && OnePerKey(SortedIn(s, entry))
    ensures forall e :: e in SortedIn(s, entry) <==> e in s || e == entry
  {
    if s == [] || s[|s| - 1].expires <= entry.expires {
    } else {
      var init, last := s[..|s| - 1], s[|s| - 1];
      assert s == init + [last];
      SortedInKeeps(init, entry);
      assert forall e :: e in init ==> e.expires <= last.expires && e.key != last.key;
      var list := SortedIn(init, entry);
      hide SortedIn;
      AppendKeeps(list, last);
    }
  }

  /** Where the new entry goes: behind all that expire before it or at the same time, in front of all that expire later;
      the others keep their order. */
  lemma {:induction false} SortedInPlace<K(!new), V(!new)>(s: seq<Entry<K, V>>, entry: Entry<K, V>) returns (k: nat)
    requires Ordered(s)
    ensures k <= |s| && SortedIn(s, entry) == s[..k] + [entry] + s[k..]
    ensures forall e :: e in s[..k] ==> e.expires <= entry.expires
    ensures forall e :: e in s[k..] ==> e.expires > entry.expires
  {
    hide SortedIn, Ordered;
    InPlaceAtEnd(s, entry);
    if s == [] || s[|s| - 1].expires <= entry.expires {
      k := |s|;
    } else {
      var init, last := s[..|s| - 1], s[|s| - 1];
      k := SortedInPlace(init, entry);
      InPlaceBefore(init, last, entry, k);
      assert s == init + [last] && s[k..] == init[k..] + [last] && s[..k] == init[..k];
    }
  }

  lemma InPlaceAtEnd<K(!new), V(!new)>(s: seq<Entry<K, V>>, entry: Entry<K, V>)
    requires Ordered(s)
    ensures s == [] || s[|s| - 1].expires <= entry.expires ==>
              && SortedIn(s, entry) == s[..|s|] + [entry] + s[|s|..]
              && forall e :: e in s ==> e.expires <= entry.expires
    ensures s != [] && s[|s| - 1].expires > entry.expires ==>
              SortedIn(s, entry) == SortedIn(s[..|s| - 1], entry) + [s[|s| - 1]] && Ordered(s[..|s| - 1])
    ensures s[..|s|] == s
  {
    assert s[..|s|] == s && s + [entry] + s[|s|..] == s + [entry];
    assert forall e :: e in s ==> e.expires <= s[|s| - 1].expires;
  }

  lemma InPlaceBefore<T>(init: seq<T>, last: T, entry: T, k: nat)
    requires k <= |init|
    ensures var s := init + [last];
            (init[..k] + [entry] + init[k..]) + [last] == s[..k] + [entry] + s[k..]
  {
    var s := init + [last];
    assert s[..k] == init[..k] && s[k..] == init[k..] + [last];
  }

  /** Taking out a key leaves the array as it was but for the key's entry, if it has one. */
  lemma {:induction false} WithoutIs<K(!new), V(!new)>(a: seq<Entry<K, V>>, e: Entry<K, V>, b: seq<Entry<K, V>>)
    requires OnePerKey(a + [e] + b)
    ensures Without(a + [e] + b, e.key) == a + b
    decreases |b|
  {
    var s := a + [e] + b;
    if b == [] {
      assert s == a + [e] && s[..|s| - 1] == a && a + [] == a;
      assert forall x :: x in a ==> x.key != e.key;
      NothingTakenOut(a, e.key);
    } else {
      var b', last := b[..|b| - 1], b[|b| - 1];
      assert s[..|s| - 1] == a + [e] + b' && s[|s| - 1] == last && s[|a|] == e;
      WithoutIs(a, e, b');
      assert (a + b') + [last] == a + b;
    }
  }

  lemma {:induction false} NothingTakenOut<K(!new), V(!new)>(s: seq<Entry<K, V>>, key: K)
    requires forall e :: e in s ==> e.key != key
    ensures Without(s, key) == s
  {
    if s != [] {
      NothingTakenOut(s[..|s| - 1], key);
      assert s == s[..|s| - 1] + [s[|s| - 1]];
    }
  }

  /** What the loop of `set` is to reach from `s` in front of `rest`. */
  function Goal<K(==), V>(s: seq<Entry<K, V>>, entry: Entry<K, V>, added: bool, rest: seq<Entry<K, V>>)
    : seq<Entry<K, V>>
  {
    (if added then Without(s, entry.key) else SortedIn(Without(s, entry.key), entry)) + rest
  }

  lemma GoalStep<K, V>(s: seq<Entry<K, V>>, entry: Entry<K, V>, added: bool, rest: seq<Entry<K, V>>)
    requires s != []
    ensures var init, last := s[..|s| - 1], s[|s| - 1];
            Goal(s, entry, added, rest)
            == if last.key == entry.key then Goal(init, entry, added, rest)
               else if !added && last.expires <= entry.expires then Goal(init, entry, true, [last, entry] + rest)
               else Goal(init, entry, added, [last] + rest)
  {
    var init, last := s[..|s| - 1], s[|s| - 1];
    var less := Without(init, entry.key);
    if last.key == entry.key {
      assert less + [] == less;
    } else if !added {
      assert (less + [last])[..|less|] == less;
      assert (less + [last]) + [entry] + rest == less + ([last, entry] + rest);
      assert SortedIn(less, entry) + [last] + rest == SortedIn(less, entry) + ([last] + rest);
    } else {
      assert (less + [last]) + rest == less + ([last] + rest);
    }
  }

  lemma Splices<K, V>(sorted: seq<Entry<K, V>>, i: nat, entry: Entry<K, V>, rest: seq<Entry<K, V>>)
    requires i < |sorted|
    ensures var s := sorted[..i + 1] + rest;
            && s[i] == sorted[i] && sorted[..i + 1][..i] == sorted[..i]
            && s[..i] + s[i + 1..] == sorted[..i] + rest
            && s[..i + 1] + [entry] + s[i + 1..] == sorted[..i] + ([sorted[i], entry] + rest)
            && s == sorted[..i] + ([sorted[i]] + rest)
  {
    var s := sorted[..i + 1] + rest;
    assert s[..i] == sorted[..i] && s[i + 1..] == rest && s[..i + 1] == sorted[..i] + [sorted[i]];
  }

  /** The loop of `set`: from the end, the old entry of the key is taken out and the new one put in. */
  method SortIn<K(==), V>(sorted: seq<Entry<K, V>>, entry: Entry<K, V>) returns (result: seq<Entry<K, V>>)
    ensures result == SortedIn(Without(sorted, entry.key), entry)
  {
    hide Goal, SortedIn, Without;
    GoalIs(sorted, entry);
    result := sorted;
    var added := false;
    var i := |sorted| - 1;
    ghost var rest: seq<Entry<K, V>> := [];
    assert sorted[..|sorted|] == sorted && result == sorted + rest;
    while i >= 0
      invariant -1 <= i < |sorted|
      invariant result == sorted[..i + 1] + rest
      invariant Goal(sorted, entry, false, []) == Goal(sorted[..i + 1], entry, added, rest)
    {
      GoalStep(sorted[..i + 1], entry, added, rest);
      Splices(sorted, i, entry, rest);
      if result[i].key == entry.key {
        result := result[..i] + result[i + 1..];
      } else if !added && result[i].expires <= entry.expires {
        result := result[..i + 1] + [entry] + result[i + 1..];
        rest := [sorted[i], entry] + rest;
        added := true;
      } else {
        rest := [sorted[i]] + rest;
      }
      i := i - 1;
    }
    assert sorted[..0] == [] && [] + rest == rest;
    GoalReached(entry, added, rest);
    if !added {
      result := [entry] + result;
    }
  }

  lemma GoalIs<K, V>(s: seq<Entry<K, V>>, entry: Entry<K, V>)
    ensures Goal(s, entry, false, []) == SortedIn(Without(s, entry.key), entry)
  {
    hide SortedIn, Without;
    var want := SortedIn(Without(s, entry.key), entry);
    assert want + [] == want;
  }

  lemma GoalReached<K, V>(entry: Entry<K, V>, added: bool, rest: seq<Entry<K, V>>)
    ensures Goal([], entry, added, rest) == if added then rest else [entry] + rest
  {
    assert Without<K, V>([], entry.key) == [] && SortedIn([], entry) == [] + [entry] == [entry];
    assert [] + rest == rest;
  }

  lemma TakenOut<K(!new), V(!new)>(sorted: seq<Entry<K, V>>, data: map<K, Entry<K, V>>, i: nat)
    requires Indexes(sorted, data) && i < |sorted|
    ensures Indexes(sorted[..i] + sorted[i + 1..], data - {sorted[i].key})
  {
    OthersStay(sorted, i);
    OrderStays(sorted, i);
    assert sorted[i] in sorted;
    hide Ordered, OnePerKey;
  }

  lemma EntryIsListed<K(!new), V(!new)>(sorted: seq<Entry<K, V>>, data: map<K, Entry<K, V>>, key: K)
    requires Indexes(sorted, data) && key in data
    ensures data[key].key == key && data[key] in sorted
  {
    hide Ordered, OnePerKey;
  }

  lemma OrderStays<K(!new), V(!new)>(sorted: seq<Entry<K, V>>, i: nat)
    requires Ordered(sorted) && OnePerKey(sorted) && i < |sorted|
    ensures Ordered(sorted[..i] + sorted[i + 1..]) && OnePerKey(sorted[..i] + sorted[i + 1..])
  {
    var s := sorted[..i] + sorted[i + 1..];
    forall a, b | 0 <= a < b < |s|
      ensures s[a].expires <= s[b].expires && s[a].key != s[b].key
    {
      var a', b' := if a < i then a else a + 1, if b < i then b else b + 1;
      assert s[a] == sorted[a'] && s[b] == sorted[b'];
    }
  }

  lemma OthersStay<K(!new), V(!new)>(sorted: seq<Entry<K, V>>, i: nat)
    requires OnePerKey(sorted) && i < |sorted|
    ensures forall e :: e in sorted[..i] + sorted[i + 1..] <==> e in sorted && e.key != sorted[i].key
  {
    var s := sorted[..i] + sorted[i + 1..];
    forall e | e in sorted && e.key != sorted[i].key
      ensures e in s
    {
      var j :| 0 <= j < |sorted| && sorted[j] == e;
      assert s[if j < i then j else j - 1] == e;
    }
  }

  method IndexOf<K(==), V(==)>(sorted: seq<Entry<K, V>>, entry: Entry<K, V>) returns (i: nat)
    ensures i <= |sorted| && entry !in sorted[..i] && (i < |sorted| ==> sorted[i] == entry)
  {
    i := 0;
    while i < |sorted| && sorted[i] != entry
      invariant i <= |sorted| && entry !in sorted[..i]
    {
      i := i + 1;
    }
  }

  predicate Live<K(==), V(==)>(e: Entry<K, V>, data: map<K, Entry<K, V>>) {
    e.key in data && data[e.key] == e
  }

  /** Each callback registered is still to come, or was scheduled, or was given up; so none is scheduled more often
      than it was registered. */
  ghost predicate CallbacksAdd<K(!new), V(!new)>(registered: multiset<Entry<K, V>>, scheduled: seq<Entry<K, V>>,
                                                 discarded: multiset<Entry<K, V>>, data: map<K, Entry<K, V>>) {
    forall e: Entry<K, V> :: e.callback ==>
      registered[e] == multiset(scheduled)[e] + discarded[e] + if Live(e, data) then 1 else 0
  }

  lemma AddsAfterLeaving<K(!new), V(!new)>(registered: multiset<Entry<K, V>>, scheduled: seq<Entry<K, V>>,
                                           discarded: multiset<Entry<K, V>>, data: map<K, Entry<K, V>>, key: K)
    requires CallbacksAdd(registered, scheduled, discarded, data)
    requires key in data && data[key].key == key
    ensures CallbacksAdd(registered, scheduled + if data[key].callback then [data[key]] else [],
                         discarded, data - {key})
  {
    var gone := if data[key].callback then [data[key]] else [];
    forall e: Entry<K, V> | e.callback
      ensures registered[e] == multiset(scheduled + gone)[e] + discarded[e] + if Live(e, data - {key}) then 1 else 0
    {
      assert multiset(scheduled + gone) == multiset(scheduled) + multiset(gone);
    }
  }

  lemma AddsAfterSetting<K(!new), V(!new)>(registered: multiset<Entry<K, V>>, scheduled: seq<Entry<K, V>>,
                                           discarded: multiset<Entry<K, V>>, data: map<K, Entry<K, V>>,
                                           entry: Entry<K, V>)
    requires CallbacksAdd(registered, scheduled, discarded, data)
    requires forall k :: k in data ==> data[k].key == k
    ensures CallbacksAdd(registered + multiset{entry}, scheduled,
                         discarded + (if entry.key in data then multiset{data[entry.key]} else multiset{}),
                         data[entry.key := entry])
  {}

  lemma PutIn<K(!new), V(!new)>(sorted: seq<Entry<K, V>>, data: map<K, Entry<K, V>>, entry: Entry<K, V>)
    requires Indexes(sorted, data)
    ensures Indexes(SortedIn(Without(sorted, entry.key), entry), data[entry.key := entry])
  {
    WithoutKeeps(sorted, entry.key);
    SortedInKeeps(Without(sorted, entry.key), entry);
    hide Ordered, OnePerKey, SortedIn, Without;
  }

  ghost predicate KeysMatch<K(!new), V(!new)>(data: map<K, Entry<K, V>>) {
    forall k :: k in data ==> data[k].key == k
  }

  /** The array has exactly the map's entries, one per key, in order of expiry. */
  ghost predicate Indexes<K(!new), V(!new)>(sorted: seq<Entry<K, V>>, data: map<K, Entry<K, V>>) {
    Ordered(sorted) && OnePerKey(sorted) && Lists(sorted, data) && KeysMatch(data)
  }

  lemma FirstTakenOut<K(!new), V(!new)>(s: seq<Entry<K, V>>, data: map<K, Entry<K, V>>)
    requires s != [] && Indexes(s, data)
    ensures s[0].key in data && data[s[0].key] == s[0]
    ensures Indexes(s[1..], data - {s[0].key})
    ensures forall k :: k in data ==> s[0].expires <= data[k].expires
  {
    hide Indexes;
    FirstIsListed(s, data);
    FirstIsLeast(s, data);
    TakenOut(s, data, 0);
    assert s[..0] + s[1..] == s[1..];
  }

  lemma FirstIsListed<K(!new), V(!new)>(s: seq<Entry<K, V>>, data: map<K, Entry<K, V>>)
    requires s != [] && Indexes(s, data)
    ensures s[0].key in data && data[s[0].key] == s[0]
  {
    hide Ordered, OnePerKey, KeysMatch;
    assert s[0] in s;
  }

  lemma FirstIsLeast<K(!new), V(!new)>(s: seq<Entry<K, V>>, data: map<K, Entry<K, V>>)
    requires s != [] && Indexes(s, data)
    ensures forall k :: k in data ==> s[0].expires <= data[k].expires
  {
    forall e | e in s
      ensures s[0].expires <= e.expires
    {
      var j :| 0 <= j < |s| && s[j] == e;
    }
    hide Ordered, OnePerKey;
    assert forall k :: k in data ==> data[k] in s;
  }

  /** What is left of a map when all is gone that is due. */
  function NotDue<K(!new), V>(data: map<K, Entry<K, V>>, now: int): map<K, Entry<K, V>> {
    map k | k in data && data[k].expires > now :: data[k]
  }

  /** The loop over the entries that are due: how many there are, what is left of the map, whom to call. */
  method TakeExpired<K(==,!new), V(==,!new)>(sorted: seq<Entry<K, V>>, data: map<K, Entry<K, V>>, now: int,
                                             ghost registered: multiset<Entry<K, V>>,
                                             ghost scheduled: seq<Entry<K, V>>,
                                             ghost discarded: multiset<Entry<K, V>>)
    returns (count: nat, left: map<K, Entry<K, V>>, due: seq<Entry<K, V>>)
    requires Indexes(sorted, data) && CallbacksAdd(registered, scheduled, discarded, data)
    ensures count <= |sorted| && due == WithCallback(sorted[..count])
    ensures Indexes(sorted[count..], left) && left == NotDue(data, now)
    ensures forall k :: k in left <==> k in data && data[k].expires > now
    ensures forall k :: k in left ==> left[k] == data[k]
    ensures forall e :: e in sorted[..count] ==> e.expires <= now
    ensures CallbacksAdd(registered, scheduled + due, discarded, left)
  {
    hide Indexes, CallbacksAdd, WithCallback;
    count, left, due := 0, data, [];
    assert scheduled + [] == scheduled && sorted[0..] == sorted;
    assert due == WithCallback(sorted[..0]) by {
      NoCallbacks<K, V>();
    }
    while count < |sorted| && sorted[count].expires <= now
      invariant count <= |sorted| && due == WithCallback(sorted[..count])
      invariant forall e :: e in sorted[..count] ==> e.expires <= now
      invariant Indexes(sorted[count..], left) && NotDue(left, now) == NotDue(data, now)
      invariant CallbacksAdd(registered, scheduled + due, discarded, left)
    {
      var entry := sorted[count];
      assert sorted[count..][0] == entry && sorted[count + 1..] == sorted[count..][1..];
      FirstTakenOut(sorted[count..], left);
      AddsAfterLeaving(registered, scheduled + due, discarded, left, entry.key);
      WithCallbackAppend(sorted[..count], entry);
      assert sorted[..count + 1] == sorted[..count] + [entry];
      var gone := if entry.callback then [entry] else [];
      assert (scheduled + due) + gone == scheduled + (due + gone);
      due, left, count := due + gone, left - {entry.key}, count + 1;
    }
    if count < |sorted| {
      FirstTakenOut(sorted[count..], left);
    } else {
      NothingListed(sorted[count..], left);
    }
    assert NotDue(left, now) == left;
  }

  /** Dropping the first entries of the array drops their keys from the map. */
  lemma {:induction false} KeysLeft<K(!new), V(!new)>(sorted: seq<Entry<K, V>>, data: map<K, Entry<K, V>>, count: nat,
                                                      left: map<K, Entry<K, V>>)
    requires Indexes(sorted, data) && count <= |sorted| && Indexes(sorted[count..], left)
    ensures left.Keys == data.Keys - set e | e in sorted[..count] :: e.key
    decreases count
  {
    hide Indexes;
    if count == 0 {
      assert sorted[0..] == sorted;
      SameKeys(sorted, data, left);
    } else {
      FirstTakenOut(sorted, data);
      assert sorted[1..][count - 1..] == sorted[count..];
      KeysLeft(sorted[1..], data - {sorted[0].key}, count - 1, left);
      assert sorted[..count] == [sorted[0]] + sorted[1..][..count - 1];
    }
  }

  lemma SameKeys<K(!new), V(!new)>(sorted: seq<Entry<K, V>>, data: map<K, Entry<K, V>>, left: map<K, Entry<K, V>>)
    requires Indexes(sorted, data) && Indexes(sorted, left)
    ensures left.Keys == data.Keys
  {
    hide Ordered, OnePerKey;
    assert forall k :: k in left ==> left[k] in sorted;
    assert forall k :: k in data ==> data[k] in sorted;
  }

  lemma NoCallbacks<K(!new), V(!new)>()
    ensures WithCallback<K, V>([]) == []
  {}

  lemma NothingListed<K(!new), V(!new)>(s: seq<Entry<K, V>>, data: map<K, Entry<K, V>>)
    requires s == [] && Indexes(s, data)
    ensures data == map[]
  {
    assert forall k :: k in data ==> data[k] in s;
  }

  class TtlCache<K(==,!new), V(==,!new)> {
    const defaultTtl: int
    var data: map<K, Entry<K, V>>
    var sorted: seq<Entry<K, V>>
    /** The callbacks passed to setImmediate so far, in that order. */
    var scheduled: seq<Entry<K, V>>

    /** All entries ever set with a callback, and those of them that were overwritten or flushed. */
    ghost var registered: multiset<Entry<K, V>>
    ghost var discarded: multiset<Entry<K, V>>

    ghost predicate Valid()
      reads this
    {
      Indexes(sorted, data) && CallbacksAdd(registered, scheduled, discarded, data)
    }

    constructor (defaultTtl: int)
      ensures Valid() && data == map[] && scheduled == [] && discarded == multiset{}
      ensures this.defaultTtl == if defaultTtl == 0 then DEFAULT_CACHE_TTL else defaultTtl
    {
      this.defaultTtl := if defaultTtl == 0 then DEFAULT_CACHE_TTL else defaultTtl;
      data, sorted, scheduled := map[], [], [];
      registered, discarded := multiset{}, multiset{};
    }

    /** Never a value past its expiry, and never none before it. */
    method Get(key: K, now: int) returns (value: Option<V>)
      requires Valid()
      modifies this
      ensures Valid() && registered == old(registered) && discarded == old(discarded)
      ensures value == if key in old(data) && old(data)[key].expires >= now then Some(old(data)[key].value) else None
      ensures data == if value == None then old(data) - {key} else old(data)
      ensures scheduled == old(scheduled)
                           + if key in old(data) && old(data)[key].expires < now && old(data)[key].callback
                             then [old(data)[key]] else []
    {
      if key !in data {
        return None;
      }
      if data[key].expires < now {
        Remove(key);
        return None;
      }
      value := Some(data[key].value);
    }

    method Remove(key: K)
      requires Valid()
      modifies this
      ensures Valid() && registered == old(registered) && discarded == old(discarded)
      ensures data == old(data) - {key}
      ensures scheduled == old(scheduled) + if key in old(data) && old(data)[key].callback then [old(data)[key]] else []
    {
      hide Indexes, CallbacksAdd;
      if key !in data {
        return;
      }
      var entry := data[key];
      EntryIsListed(sorted, data, key);
      AddsAfterLeaving(registered, scheduled, discarded, data, key);
      if entry.callback {
        scheduled := scheduled + [entry];
      }
      var i := IndexOf(sorted, entry);
      TakenOut(sorted, data, i);
      assert scheduled + [] == scheduled;
      data, sorted := data - {key}, sorted[..i] + sorted[i + 1..];
    }

    /** A time to live that is not positive, or no value, stands for removal; otherwise the entry takes the
        place of the one its key had, whose callback is given up. */
    method Set(key: K, value: Option<V>, ttl: Option<int>, callback: bool, now: int)
      requires Valid()
      modifies this
      ensures Valid()
      ensures var life := if ttl.Some? then ttl.value else defaultTtl;
              var gone := if key in old(data) then [old(data)[key]] else [];
              if life <= 0 || value == None then
                && data == old(data) - {key}
                && scheduled == old(scheduled) + WithCallback(gone)
                && registered == old(registered) && discarded == old(discarded)
              else
                var entry := Entry(key, value.value, now + life, callback);
                && data == old(data)[key := entry]
                && scheduled == old(scheduled)
                && registered == old(registered) + multiset{entry}
                && discarded == old(discarded) + multiset(gone)
    {
      hide Indexes, CallbacksAdd;
      var life := if ttl.Some? then ttl.value else defaultTtl;
      if life <= 0 || value == None {
        Remove(key);
        return;
      }
      Put(Entry(key, value.value, now + life, callback));
    }

    method Put(entry: Entry<K, V>)
      requires Valid()
      modifies this
      ensures Valid()
      ensures data == old(data)[entry.key := entry] && scheduled == old(scheduled)
      ensures registered == old(registered) + multiset{entry}
      ensures discarded
              == old(discarded) + if entry.key in old(data) then multiset{old(data)[entry.key]} else multiset{}
    {
      AddsAfterSetting(registered, scheduled, discarded, data, entry);
      PutIn(sorted, data, entry);
      var list := SortIn(sorted, entry);
      hide Indexes, SortedIn, Without, CallbacksAdd;
      registered, discarded := registered + multiset{entry},
                               discarded + (if entry.key in data then multiset{data[entry.key]} else multiset{});
      data, sorted := data[entry.key := entry], list;
    }

    /** Everything that expires now or before leaves, in the order of expiry, and its callbacks are scheduled in
        that order. */
    method CheckExpired(now: int) returns (ghost expired: nat)
      requires Valid()
      modifies this
      ensures Valid() && registered == old(registered) && discarded == old(discarded)
      ensures forall k :: k in data <==> k in old(data) && old(data)[k].expires > now
      ensures forall k :: k in data ==> data[k] == old(data)[k]
      ensures expired <= |old(sorted)| && sorted == old(sorted)[expired..]
      ensures forall e :: e in old(sorted)[..expired] ==> e.expires <= now
      ensures scheduled == old(scheduled) + WithCallback(old(sorted)[..expired])
    {
      hide Indexes, CallbacksAdd;
      var count, left, due := TakeExpired(sorted, data, now, registered, scheduled, discarded);
      if count < |sorted| {
        FirstTakenOut(sorted[count..], left);
        assert left != map[];
      }
      assert count == 0 ==> sorted[count..] == sorted;
      assert count == |sorted| ==> sorted[count..] == [];
      if count == |sorted| || left == map[] {
        sorted := [];
      } else if count > 0 {
        sorted := sorted[count..];
      }
      data, scheduled, expired := left, scheduled + due, count;
    }

    method Flush()
      requires Valid()
      modifies this
      ensures Valid() && registered == old(registered) && scheduled == old(scheduled)
      ensures data == map[]
    {
      discarded := registered - multiset(scheduled);
      data, sorted := map[], [];
    }
  }
}
