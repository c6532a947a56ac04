/** The QueueLocker object: the lock table with an index by owner, an index by zone and domain with cached skip
    lists, and the time of the next expiry check. */
module QueueLocking {
  import opened Options
  import opened LockTable

  datatype ZoneData = ZoneData(domains: map<string, set<Lock>>, skip: set<string>, skipCache: Option<seq<string>>)

  /** Ten minutes. */
  const DEFAULT_TTL := 10 * 60 * 1000

  ghost predicate IsListOf(list: seq<string>, s: set<string>) {
    && (forall d :: d in list <==> d in s)
    && |list| == |s|
  }

  /** Each owner's set is exactly the live locks of that owner, and never empty. */
  ghost predicate OwnersAgree(locks: Locks, owners: map<string, set<Lock>>) {
    && (forall o :: o in owners ==> owners[o] == OwnedBy(locks, o) && owners[o] != {})
    && (forall k :: k in locks ==> locks[k].owner in owners)
  }

  ghost predicate ZoneAgrees(locks: Locks, zone: string, data: ZoneData) {
    && "" !in data.domains
    && (forall d :: d in data.domains ==> data.domains[d] == Connections(locks, zone, d) && data.domains[d] != {})
    && data.skip <= data.domains.Keys
    && (data.skipCache.Some? ==> IsListOf(data.skipCache.value, data.skip))
  }

  /** Each domain's set is exactly the live locks of that zone and domain, and never empty. A skipped domain
      has at least one lock, and a cached skip list lists the skipped domains. */
  ghost predicate ZonesAgree(locks: Locks, zones: map<string, ZoneData>) {
    AllZonesAgree(locks, zones) && AllFound(locks, zones)
  }

  /** No live lock expires before the next check. (An empty key cannot be released and is never due.) */
  ghost predicate ExpiryAgrees(locks: Locks, next: Option<int>) {
    forall k :: k in locks && k != "" ==> next.Some? && next.value <= locks[k].expires
  }

  function SkipSet(zones: map<string, ZoneData>): set<(string, string)> {
    set z, d | z in zones && d in zones[z].skip :: (z, d)
  }

  // ----- The owner index -----

  function AddOwned(owners: map<string, set<Lock>>, l: Lock): map<string, set<Lock>> {
    owners[l.owner := (if l.owner in owners then owners[l.owner] else {}) + {l}]
  }

  function RemoveOwned(owners: map<string, set<Lock>>, l: Lock): map<string, set<Lock>> {
    if l.owner !in owners then owners
    else if owners[l.owner] - {l} == {} then owners - {l.owner}
    else owners[l.owner := owners[l.owner] - {l}]
  }

  lemma OwnersAfterAdd(locks: Locks, owners: map<string, set<Lock>>, l: Lock)
    requires KeysMatch(locks) && OwnersAgree(locks, owners) && l.key !in locks
    ensures OwnersAgree(locks[l.key := l], AddOwned(owners, l))
  {
    ValuesAdd(locks, l);
    if l.owner !in owners {
      assert OwnedBy(locks, l.owner) == {};
    }
  }

  lemma OwnersAfterRemove(locks: Locks, owners: map<string, set<Lock>>, key: string)
    requires KeysMatch(locks) && OwnersAgree(locks, owners) && key in locks
    ensures OwnersAgree(locks - {key}, RemoveOwned(owners, locks[key]))
  {
    ValuesRemove(locks, key);
    var l := locks[key];
    forall k | k in locks - {key}
      ensures locks[k].owner in RemoveOwned(owners, l)
    {
      assert locks[k].owner == l.owner ==> locks[k] in owners[l.owner] - {l};
    }
  }

  // ----- The zone index -----

  const NEW_ZONE := ZoneData(map[], {}, None)

  function ZoneOf(zones: map<string, ZoneData>, zone: string): ZoneData {
    if zone in zones then zones[zone] else NEW_ZONE
  }

  /** What `lock` makes of the zone of a lock with a domain. */
  function AddToZone(data: ZoneData, l: Lock): ZoneData {
    var conns := (if l.domain in data.domains then data.domains[l.domain] else {}) + {l};
    var domains := data.domains[l.domain := conns];
    if l.maxConnections > 0 && |conns| >= l.maxConnections && l.domain !in data.skip then
      ZoneData(domains, data.skip + {l.domain}, None)
    else if l.domain in data.skip then
      ZoneData(domains, data.skip - {l.domain}, None)
    else
      ZoneData(domains, data.skip, data.skipCache)
  }

  function AddToZones(zones: map<string, ZoneData>, l: Lock): map<string, ZoneData> {
    var data := ZoneOf(zones, l.zone);
    zones[l.zone := if l.domain == "" then data else AddToZone(data, l)]
  }

  lemma SkipSetUpdate(zones: map<string, ZoneData>, zone: string, data: ZoneData)
    ensures forall z, d :: (z, d) in SkipSet(zones[zone := data])
                           <==> if z == zone then d in data.skip else (z, d) in SkipSet(zones)
    ensures forall z, d :: (z, d) in SkipSet(zones - {zone}) <==> z != zone && (z, d) in SkipSet(zones)
  {}

  lemma ZoneOfAgrees(locks: Locks, zones: map<string, ZoneData>, zone: string)
    requires ZonesAgree(locks, zones)
    ensures var data := ZoneOf(zones, zone);
            && ZoneAgrees(locks, zone, data)
            && (forall d :: d != "" && d !in data.domains ==> Connections(locks, zone, d) == {})
            && (forall d :: d in data.skip <==> (zone, d) in SkipSet(zones))
  {
    var data := ZoneOf(zones, zone);
    forall l | l in locks.Values
      ensures l.zone == zone && l.domain != "" ==> l.domain in data.domains
    {
      var k :| k in locks && locks[k] == l;
    }
  }

  /** The zone of a new lock. */
  lemma ZoneAfterAdd(locks: Locks, data: ZoneData, l: Lock)
    requires KeysMatch(locks) && l.key !in locks && l.domain != ""
    requires ZoneAgrees(locks, l.zone, data)
    requires l.domain !in data.domains ==> Connections(locks, l.zone, l.domain) == {}
    ensures ZoneAgrees(locks[l.key := l], l.zone, AddToZone(data, l))
    ensures AddToZone(data, l).domains.Keys == data.domains.Keys + {l.domain}
    ensures AddToZone(data, l).domains[l.domain] == Connections(locks[l.key := l], l.zone, l.domain)
  {
    hide IsListOf, Connections, KeysMatch;
    var locks' := locks[l.key := l];
    ConnectionsAdd(locks, l, l.zone, l.domain);
    forall d | d in data.domains && d != l.domain
      ensures data.domains[d] == Connections(locks', l.zone, d)
    {
      ConnectionsAdd(locks, l, l.zone, d);
    }
    var conns := Connections(locks', l.zone, l.domain);
    assert AddToZone(data, l).domains == data.domains[l.domain := conns];
  }

  /** A zone does not notice a lock of another zone, or one without a domain. */
  lemma OtherZoneAfterAdd(locks: Locks, zone: string, data: ZoneData, l: Lock)
    requires KeysMatch(locks) && l.key !in locks && (l.zone != zone || l.domain == "")
    requires ZoneAgrees(locks, zone, data)
    ensures ZoneAgrees(locks[l.key := l], zone, data)
  {
    forall d | d in data.domains
      ensures data.domains[d] == Connections(locks[l.key := l], zone, d)
    {
      ConnectionsAdd(locks, l, zone, d);
    }
  }

  ghost predicate AllZonesAgree(locks: Locks, zones: map<string, ZoneData>) {
    forall z :: z in zones ==> ZoneAgrees(locks, z, zones[z])
  }

  predicate Found(l: Lock, zones: map<string, ZoneData>) {
    l.domain != "" ==> l.zone in zones && l.domain in zones[l.zone].domains
  }

  /** Every lock with a domain is found in its zone. */
  ghost predicate AllFound(locks: Locks, zones: map<string, ZoneData>) {
    forall k :: k in locks ==> Found(locks[k], zones)
  }

  lemma FoundAfterAdd(x: Lock, zones: map<string, ZoneData>, l: Lock)
    requires Found(x, zones) || x == l
    ensures Found(x, AddToZones(zones, l))
  {
    var data := ZoneOf(zones, l.zone);
    assert AddToZone(data, l).domains.Keys == data.domains.Keys + {l.domain};
    hide AddToZone;
  }

  lemma AllFoundAfterAdd(locks: Locks, zones: map<string, ZoneData>, l: Lock)
    requires AllFound(locks, zones) && l.key !in locks
    ensures AllFound(locks[l.key := l], AddToZones(zones, l))
  {
    hide AddToZones, Found;
    var locks' := locks[l.key := l];
    forall k | k in locks'
      ensures Found(locks'[k], AddToZones(zones, l))
    {
      FoundAfterAdd(locks'[k], zones, l);
    }
  }

  lemma AllZonesAfterAdd(locks: Locks, zones: map<string, ZoneData>, l: Lock)
    requires KeysMatch(locks) && ZonesAgree(locks, zones) && l.key !in locks
    ensures AllZonesAgree(locks[l.key := l], AddToZones(zones, l))
  {
    var zones' := AddToZones(zones, l);
    ZoneOfAgrees(locks, zones, l.zone);
    assert AllZonesAgree(locks, zones);
    hide ZoneAgrees, AddToZone, Connections, KeysMatch, ZonesAgree;
    forall z | z in zones'
      ensures ZoneAgrees(locks[l.key := l], z, zones'[z])
    {
      if z == l.zone && l.domain != "" {
        ZoneAfterAdd(locks, ZoneOf(zones, z), l);
      } else {
        assert z != l.zone ==> ZoneAgrees(locks, z, zones[z]);
        OtherZoneAfterAdd(locks, z, ZoneOf(zones, z), l);
      }
    }
  }

  lemma ZonesAfterAdd(locks: Locks, zones: map<string, ZoneData>, l: Lock)
    requires KeysMatch(locks) && ZonesAgree(locks, zones) && l.key !in locks
    ensures ZonesAgree(locks[l.key := l], AddToZones(zones, l))
  {
    hide ZoneAgrees, AddToZones, KeysMatch;
    AllZonesAfterAdd(locks, zones, l);
    AllFoundAfterAdd(locks, zones, l);
  }

  /** One zone's new skip set, as the table has it. */
  lemma ZoneSkipAfterAdd(locks: Locks, data: ZoneData, l: Lock)
    requires KeysMatch(locks) && l.key !in locks && l.domain != ""
    requires ZoneAgrees(locks, l.zone, data)
    requires l.domain !in data.domains ==> Connections(locks, l.zone, l.domain) == {}
    ensures var full := l.maxConnections > 0
                        && |Connections(locks[l.key := l], l.zone, l.domain)| >= l.maxConnections;
            AddToZone(data, l).skip
            == if full && l.domain !in data.skip then data.skip + {l.domain} else data.skip - {l.domain}
  {
    hide IsListOf;
    ZoneAfterAdd(locks, data, l);
  }

  lemma SkipAfterAdd(locks: Locks, zones: map<string, ZoneData>, l: Lock)
    requires KeysMatch(locks) && ZonesAgree(locks, zones) && l.key !in locks
    ensures SkipSet(AddToZones(zones, l)) == Acquire(Table(locks, SkipSet(zones)), l).skip
  {
    var data := ZoneOf(zones, l.zone);
    ZoneOfAgrees(locks, zones, l.zone);
    if l.domain != "" {
      ZoneSkipAfterAdd(locks, data, l);
    }
    hide SkipSet, Connections, ZonesAgree, ZoneAgrees, KeysMatch, ZoneOf, AddToZone;
    SkipSetUpdate(zones, l.zone, if l.domain == "" then data else AddToZone(data, l));
    var after, wanted := SkipSet(AddToZones(zones, l)), Acquire(Table(locks, SkipSet(zones)), l).skip;
    forall p: (string, string)
      ensures p in after <==> p in wanted
    {
      var (z, d) := p;
    }
    assert after == wanted;
  }

  /** What `release` makes of the zone of a lock with a domain. */
  function RemoveFromZone(data: ZoneData, l: Lock): ZoneData
    requires l.domain in data.domains
  {
    var conns := data.domains[l.domain] - {l};
    var domains := if conns == {} then data.domains - {l.domain} else data.domains[l.domain := conns];
    if (l.maxConnections == 0 || |conns| < l.maxConnections) && l.domain in data.skip then
      ZoneData(domains, data.skip - {l.domain}, None)
    else
      ZoneData(domains, data.skip, data.skipCache)
  }

  function RemoveFromZones(zones: map<string, ZoneData>, l: Lock): map<string, ZoneData> {
    if l.zone !in zones || l.domain == "" || l.domain !in zones[l.zone].domains then
      zones
    else
      var data := RemoveFromZone(zones[l.zone], l);
      if data.domains == map[] then zones - {l.zone} else zones[l.zone := data]
  }

  lemma ZoneAfterRemove(locks: Locks, data: ZoneData, key: string)
    requires KeysMatch(locks) && key in locks && locks[key].domain in data.domains
    requires ZoneAgrees(locks, locks[key].zone, data)
    ensures ZoneAgrees(locks - {key}, locks[key].zone, RemoveFromZone(data, locks[key]))
    ensures data.domains[locks[key].domain] - {locks[key]}
            == Connections(locks - {key}, locks[key].zone, locks[key].domain)
  {
    hide IsListOf;
    var l := locks[key];
    var data' := RemoveFromZone(data, l);
    ConnectionsRemove(locks, key, l.zone, l.domain);
    forall d | d in data'.domains
      ensures data'.domains[d] == Connections(locks - {key}, l.zone, d)
    {
      ConnectionsRemove(locks, key, l.zone, d);
    }
  }

  lemma OtherZoneAfterRemove(locks: Locks, zone: string, data: ZoneData, key: string)
    requires KeysMatch(locks) && key in locks && (locks[key].zone != zone || locks[key].domain == "")
    requires ZoneAgrees(locks, zone, data)
    ensures ZoneAgrees(locks - {key}, zone, data)
  {
    forall d | d in data.domains
      ensures data.domains[d] == Connections(locks - {key}, zone, d)
    {
      ConnectionsRemove(locks, key, zone, d);
    }
  }

  lemma ZonesAfterRemove(locks: Locks, zones: map<string, ZoneData>, key: string)
    requires KeysMatch(locks) && ZonesAgree(locks, zones) && key in locks
    ensures ZonesAgree(locks - {key}, RemoveFromZones(zones, locks[key]))
  {
    hide IsListOf;
    var l := locks[key];
    var zones' := RemoveFromZones(zones, l);
    forall z | z in zones'
      ensures ZoneAgrees(locks - {key}, z, zones'[z])
    {
      if z == l.zone && l.domain != "" {
        ZoneAfterRemove(locks, zones[z], key);
      } else {
        OtherZoneAfterRemove(locks, z, zones[z], key);
      }
    }
    forall k | k in locks - {key} && locks[k].domain != ""
      ensures locks[k].zone in zones' && locks[k].domain in zones'[locks[k].zone].domains
    {
      if locks[k].zone == l.zone && l.domain != "" {
        assert ZoneAgrees(locks, l.zone, zones[l.zone]);
        assert locks[k].domain == l.domain ==> locks[k] in zones[l.zone].domains[l.domain] - {l};
        assert locks[k].domain in RemoveFromZone(zones[l.zone], l).domains;
      }
    }
  }

  lemma SkipAfterRemove(locks: Locks, zones: map<string, ZoneData>, key: string)
    requires KeysMatch(locks) && ZonesAgree(locks, zones) && key in locks && key != ""
    ensures SkipSet(RemoveFromZones(zones, locks[key])) == Release(Table(locks, SkipSet(zones)), key).skip
  {
    hide IsListOf;
    var l := locks[key];
    if l.domain != "" {
      var data := RemoveFromZone(zones[l.zone], l);
      ZoneAfterRemove(locks, zones[l.zone], key);
      SkipSetUpdate(zones, l.zone, data);
    }
  }

  /** Array.from, in any order. */
  method ArrayFrom(s: set<string>) returns (list: seq<string>)
    ensures IsListOf(list, s)
  {
    list := [];
    var rest := s;
    while rest != {}
      invariant rest <= s && IsListOf(list, s - rest)
      decreases |rest|
    {
      var d :| d in rest;
      assert s - (rest - {d}) == (s - rest) + {d};
      list, rest := list + [d], rest - {d};
    }
    assert s - {} == s;
  }

  // ----- All indexes together -----

  ghost predicate Indexed(locks: Locks, owners: map<string, set<Lock>>, zones: map<string, ZoneData>) {
    KeysMatch(locks) && OwnersAgree(locks, owners) && ZonesAgree(locks, zones)
  }

  lemma NoEmptyDomain(locks: Locks, owners: map<string, set<Lock>>, zones: map<string, ZoneData>)
    requires Indexed(locks, owners, zones)
    ensures forall z :: (z, "") !in SkipSet(zones)
  {
    forall z | z in zones
      ensures "" !in zones[z].skip
    {
      assert ZoneAgrees(locks, z, zones[z]);
    }
  }

  lemma IndexesAfterAdd(locks: Locks, owners: map<string, set<Lock>>, zones: map<string, ZoneData>, l: Lock)
    requires Indexed(locks, owners, zones) && l.key !in locks
    ensures Indexed(locks[l.key := l], AddOwned(owners, l), AddToZones(zones, l))
    ensures Acquire(Table(locks, SkipSet(zones)), l) == Table(locks[l.key := l], SkipSet(AddToZones(zones, l)))
  {
    hide OwnersAgree, ZonesAgree, SkipSet;
    OwnersAfterAdd(locks, owners, l);
    ZonesAfterAdd(locks, zones, l);
    SkipAfterAdd(locks, zones, l);
  }

  lemma IndexesAfterRemove(locks: Locks, owners: map<string, set<Lock>>, zones: map<string, ZoneData>, key: string)
    requires Indexed(locks, owners, zones) && key in locks && key != ""
    ensures Indexed(locks - {key}, RemoveOwned(owners, locks[key]), RemoveFromZones(zones, locks[key]))
    ensures Release(Table(locks, SkipSet(zones)), key)
            == Table(locks - {key}, SkipSet(RemoveFromZones(zones, locks[key])))
  {
    hide OwnersAgree, ZonesAgree, SkipSet;
    OwnersAfterRemove(locks, owners, key);
    ZonesAfterRemove(locks, zones, key);
    SkipAfterRemove(locks, zones, key);
  }

  /** A lock with a domain is among the locks of its domain. */
  lemma LockIsLinked(locks: Locks, owners: map<string, set<Lock>>, zones: map<string, ZoneData>, key: string)
    requires Indexed(locks, owners, zones) && key in locks
    ensures var l := locks[key];
            l.zone in zones && l.domain in zones[l.zone].domains ==> l in zones[l.zone].domains[l.domain]
  {
    hide OwnersAgree;
    var l := locks[key];
    assert l.zone in zones ==> ZoneAgrees(locks, l.zone, zones[l.zone]);
  }

  lemma ExpiryAfterAdd(locks: Locks, next: Option<int>, l: Lock)
    requires ExpiryAgrees(locks, next)
    ensures ExpiryAgrees(locks[l.key := l], if next == None || l.expires < next.value then Some(l.expires) else next)
  {}

  // ----- The steps of the object's methods on its maps -----

  method LinkToOwner(owners: map<string, set<Lock>>, lock: Lock) returns (linked: map<string, set<Lock>>)
    ensures linked == AddOwned(owners, lock)
  {
    linked := owners;
    if lock.owner !in linked {
      linked := linked[lock.owner := {}];
    }
    linked := linked[lock.owner := linked[lock.owner] + {lock}];
  }

  method UnlinkFromOwner(owners: map<string, set<Lock>>, lock: Lock) returns (linked: map<string, set<Lock>>)
    ensures linked == RemoveOwned(owners, lock)
  {
    linked := owners;
    if lock.owner in linked {
      linked := linked[lock.owner := linked[lock.owner] - {lock}];
      if linked[lock.owner] == {} {
        linked := linked - {lock.owner};
      }
    }
  }

  method LinkToZone(zones: map<string, ZoneData>, lock: Lock) returns (linked: map<string, ZoneData>)
    ensures linked == AddToZones(zones, lock)
  {
    hide AddToZone;
    linked := zones;
    if lock.zone !in linked {
      linked := linked[lock.zone := NEW_ZONE];
    }
    if lock.domain != "" {
      var data := LinkToDomain(linked[lock.zone], lock);
      linked := linked[lock.zone := data];
    }
  }

  method LinkToDomain(zoneData: ZoneData, lock: Lock) returns (data: ZoneData)
    ensures data == AddToZone(zoneData, lock)
  {
    data := zoneData;
    var domain := lock.domain;
    if domain !in data.domains {
      data := data.(domains := data.domains[domain := {}]);
    }
    data := data.(domains := data.domains[domain := data.domains[domain] + {lock}]);
    assert data.domains == zoneData.domains[domain := data.domains[domain]];
    if lock.maxConnections > 0 && |data.domains[domain]| >= lock.maxConnections && domain !in data.skip {
      data := data.(skip := data.skip + {domain}, skipCache := None);
    } else if domain in data.skip {
      data := data.(skip := data.skip - {domain}, skipCache := None);
    }
  }

  method UnlinkFromZone(zones: map<string, ZoneData>, lock: Lock) returns (linked: map<string, ZoneData>)
    requires lock.zone in zones && lock.domain in zones[lock.zone].domains
             ==> lock in zones[lock.zone].domains[lock.domain]
    ensures linked == RemoveFromZones(zones, lock)
  {
    linked := zones;
    if lock.zone in linked {
      var domain, data := lock.domain, linked[lock.zone];
      if domain != "" && domain in data.domains {
        var conns := data.domains[domain];
        if lock in conns {
          conns := conns - {lock};
          data := data.(domains := data.domains[domain := conns]);
          if (lock.maxConnections == 0 || |conns| < lock.maxConnections) && domain in data.skip {
            data := data.(skip := data.skip - {domain}, skipCache := None);
          }
        }
        if conns == {} {
          data := data.(domains := data.domains - {domain});
        }
        assert data.domains == RemoveFromZone(zones[lock.zone], lock).domains;
        if data.domains == map[] {
          linked := linked - {lock.zone};
        } else {
          linked := linked[lock.zone := data];
        }
      }
    }
  }

  method FindExpired(locks: Locks, now: int) returns (expired: seq<string>, next: Option<int>)
    ensures forall k :: k in expired <==> k in locks && locks[k].expires <= now
    ensures forall k :: k in locks && locks[k].expires > now ==> next.Some? && next.value <= locks[k].expires
  {
    expired, next := [], None;
    var rest := locks.Keys;
    while rest != {}
      invariant rest <= locks.Keys
      invariant forall k :: k in expired <==> k in locks.Keys - rest && locks[k].expires <= now
      invariant forall k :: k in locks.Keys - rest && locks[k].expires > now ==>
                  next.Some? && next.value <= locks[k].expires
      decreases |rest|
    {
      var k :| k in rest;
      if locks[k].expires <= now {
        expired := expired + [k];
      } else if next == None || locks[k].expires < next.value {
        next := Some(locks[k].expires);
      }
      rest := rest - {k};
    }
  }

  method KeysOf(owned: set<Lock>) returns (keys: seq<string>)
    ensures forall k :: k in keys <==> exists l :: l in owned && l.key == k
  {
    keys := [];
    var rest := owned;
    while rest != {}
      invariant rest <= owned
      invariant forall k :: k in keys <==> exists l :: l in owned - rest && l.key == k
      decreases |rest|
    {
      var l :| l in rest;
      keys, rest := keys + [l.key], rest - {l};
      assert owned - rest == (owned - rest - {l}) + {l};
    }
    assert owned - {} == owned;
  }

  class QueueLocker {
    var locks: Locks
    var zones: map<string, ZoneData>
    var lockOwners: map<string, set<Lock>>
    /** None stands for Infinity. */
    var nextExpireCheck: Option<int>

    ghost predicate IndexesAgree()
      reads this
    {
      Indexed(locks, lockOwners, zones)
    }

    ghost predicate Valid()
      reads this
    {
      IndexesAgree() && ExpiryAgrees(locks, nextExpireCheck)
    }

    /** The table the indexes stand for. */
    function View(): Table
      reads this
    {
      Table(locks, SkipSet(zones))
    }

    constructor ()
      ensures Valid() && View() == EMPTY && nextExpireCheck == None
    {
      locks, zones, lockOwners, nextExpireCheck := map[], map[], map[], None;
    }

    /** The source compares the clock with a field that no lock has, so a lock found is never given up here. */
    predicate LockExists(key: string)
      reads this
    {
      key in locks
    }

    predicate DomainIsSkipped(zone: string, domain: string)
      reads this
      requires Valid()
      ensures DomainIsSkipped(zone, domain) <==> (zone, domain) in View().skip
    {
      assert zone in zones ==> ZoneAgrees(locks, zone, zones[zone]);
      domain != "" && zone in zones && domain in zones[zone].skip
    }

    method Lock(key: string, zone: string, domain: string, lockOwner: string, maxConnections: nat, ttl: int, now: int)
      returns (locked: bool)
      requires Valid()
      modifies this
      ensures Valid()
      ensures locked <==> key !in old(locks)
      ensures var expires := now + if ttl == 0 then DEFAULT_TTL else ttl;
              View() == Acquire(old(View()), LockTable.Lock(key, zone, domain, lockOwner, maxConnections, expires))
      ensures var lock := LockTable.Lock(key, zone, domain, lockOwner, maxConnections,
                                         now + if ttl == 0 then 600000 else ttl);
              locks == if locked then old(locks)[key := lock] else old(locks)
      ensures forall z, d :: (z, d) in View().skip
                             <==> if locked && domain != "" && z == zone && d == domain then
                                    && (z, d) !in old(View()).skip
                                    && 0 < maxConnections <= |Connections(locks, zone, domain)|
                                  else (z, d) in old(View()).skip
    {
      hide Indexed, SkipSet, ExpiryAgrees, Connections;
      if LockExists(key) {
        return false;
      }
      var expires := now + if ttl == 0 then DEFAULT_TTL else ttl;
      Link(LockTable.Lock(key, zone, domain, lockOwner, maxConnections, expires));
      locked := true;
    }

    /** Enters a new lock into the table and its indexes. */
    method Link(lock: LockTable.Lock)
      requires Valid() && lock.key !in locks
      modifies this
      ensures Valid()
      ensures View() == Acquire(old(View()), lock)
    {
      hide Indexed, SkipSet, Acquire, AddOwned, AddToZones, ExpiryAgrees;
      IndexesAfterAdd(locks, lockOwners, zones, lock);
      ExpiryAfterAdd(locks, nextExpireCheck, lock);
      if nextExpireCheck == None || lock.expires < nextExpireCheck.value {
        nextExpireCheck := Some(lock.expires);
      }
      var owners := LinkToOwner(lockOwners, lock);
      var zones' := LinkToZone(zones, lock);
      locks, lockOwners, zones := locks[lock.key := lock], owners, zones';
    }

    method Release(key: string) returns (released: bool)
      requires IndexesAgree()
      modifies this
      ensures IndexesAgree() && (old(Valid()) ==> Valid())
      ensures released <==> key != "" && key in old(locks)
      ensures View() == LockTable.Release(old(View()), key)
      ensures locks == if released then old(locks) - {key} else old(locks)
      ensures forall z, d :: (z, d) in View().skip
                             <==> (z, d) in old(View()).skip
                                  && !(released && old(locks)[key].zone == z && old(locks)[key].domain == d
                                       && (old(locks)[key].maxConnections == 0
                                           || |Connections(locks, z, d)| < old(locks)[key].maxConnections))
      ensures nextExpireCheck == if released && locks == map[] then None else old(nextExpireCheck)
    {
      NoEmptyDomain(locks, lockOwners, zones);
      ReleasedSkips(View(), key);
      ReleasedLocks(View(), key);
      hide Indexed, SkipSet, RemoveOwned, RemoveFromZones;
      if key == "" || key !in locks {
        return false;
      }
      hide LockTable.Release;
      var lock := locks[key];
      IndexesAfterRemove(locks, lockOwners, zones, key);
      LockIsLinked(locks, lockOwners, zones, key);
      locks := locks - {key};
      lockOwners := UnlinkFromOwner(lockOwners, lock);
      zones := UnlinkFromZone(zones, lock);
      if locks == map[] {
        nextExpireCheck := None;
      }
      released := true;
    }

    /** Forgets the locks of a client that has gone. The order in which they go can matter to the skip set. */
    method ReleaseLockOwner(lockOwner: string) returns (ghost order: seq<string>)
      requires Valid()
      modifies this
      ensures Valid()
      ensures forall k :: k in order <==> k in old(locks) && old(locks)[k].owner == lockOwner
      ensures View() == ReleaseAll(old(View()), order)
      ensures locks == map k | k in old(locks) && (k == "" || old(locks)[k].owner != lockOwner) :: old(locks)[k]
    {
      order := [];
      if lockOwner !in lockOwners {
        return;
      }
      var keys := KeysOf(lockOwners[lockOwner]);
      order := ReleaseKeys(keys);
    }

    /** Runs when the check timer fires. */
    method CheckExpired(now: int) returns (ghost order: seq<string>)
      requires Valid()
      modifies this
      ensures Valid()
      ensures forall k :: k in order <==> k in old(locks) && old(locks)[k].expires <= now
      ensures View() == ReleaseAll(old(View()), order)
      ensures locks == map k | k in old(locks) && (k == "" || old(locks)[k].expires > now) :: old(locks)[k]
    {
      hide Indexed, SkipSet, ReleaseAll;
      var expired;
      expired, nextExpireCheck := FindExpired(locks, now);
      order := ReleaseKeys(expired);
    }

    method ReleaseKeys(keys: seq<string>) returns (ghost order: seq<string>)
      requires IndexesAgree()
      modifies this
      ensures IndexesAgree() && order == keys
      ensures View() == ReleaseAll(old(View()), keys)
      ensures locks == map k | k in old(locks) && (k == "" || k !in keys) :: old(locks)[k]
      ensures nextExpireCheck == old(nextExpireCheck) || (nextExpireCheck == None && locks == map[])
    {
      for i := 0 to |keys|
        invariant IndexesAgree()
        invariant View() == ReleaseAll(old(View()), keys[..i])
        invariant nextExpireCheck == old(nextExpireCheck) || (nextExpireCheck == None && locks == map[])
      {
        var _ := Release(keys[i]);
        ReleaseAllAppend(old(View()), keys[..i], keys[i]);
        assert keys[..i + 1] == keys[..i] + [keys[i]];
      }
      assert keys[..|keys|] == keys;
      ReleaseAllLocks(old(View()), keys);
      order := keys;
    }

    /** The domains of a zone that are to be left out of the next query; None when there are none. The cached
        list is always that of the current skip set. */
    method ListSkipDomains(zone: string) returns (list: Option<seq<string>>)
      requires Valid()
      modifies this`zones
      ensures Valid() && View() == old(View())
      ensures match list
              case None => forall d :: (zone, d) !in View().skip
              case Some(domains) => domains != [] && forall d :: d in domains <==> (zone, d) in View().skip
    {
      if zone !in zones {
        return None;
      }
      var data := zones[zone];
      assert ZoneAgrees(locks, zone, data);
      if data.skipCache == None {
        var cached := ArrayFrom(data.skip);
        data := data.(skipCache := Some(cached));
        SkipSetUpdate(zones, zone, data);
        zones := zones[zone := data];
        assert forall p: (string, string) :: p in SkipSet(zones) <==> p in SkipSet(old(zones));
      }
      list := if data.skipCache.value == [] then None else data.skipCache;
    }
  }

  /** A lock past its time still refuses its key, until the expiry check has run. */
  method LockPastItsTime(key: string, zone: string, domain: string, owner: string, limit: nat, ttl: int, late: int)
    returns (first: bool, second: bool, third: bool)
    requires key != "" && late >= if ttl == 0 then DEFAULT_TTL else ttl
    ensures first && !second && third
  {
    hide QueueLocker.Valid, QueueLocker.IndexesAgree;
    var locker := new QueueLocker();
    first := locker.Lock(key, zone, domain, owner, limit, ttl, 0);
    var lock := LockTable.Lock(key, zone, domain, owner, limit, if ttl == 0 then DEFAULT_TTL else ttl);
    assert locker.View().locks == Acquire(EMPTY, lock).locks == map[key := lock];
    second := locker.Lock(key, zone, domain, owner, limit, ttl, late);
    assert key in locker.View().locks && locker.View().locks[key] == lock;
    var order := locker.CheckExpired(late);
    assert key !in locker.View().locks;
    third := locker.Lock(key, zone, domain, owner, limit, ttl, late);
  }
}
