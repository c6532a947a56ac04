/** The addresses a domain has disabled: what its configuration says, and what was blacklisted for a time. */
module Blacklist {
  import opened Collections
  import opened Options
  import opened TtlCaching
  import opened DomainSettings

  /** What an entry of the blacklist cache is for; the source joins the two into one string. */
  datatype Block = Block(domain: Domain, address: Address)

  /** A list is its configured part and then exactly the addresses blacklisted for a time, each once. */
  ghost predicate ListAgrees(base: seq<Address>, list: seq<Address>, domain: Domain,
                             live: set<Block>, pending: seq<Block>) {
    && base <= list
    && NoRepeats(list[|base|..])
    && (forall a :: a in list[|base|..] ==> a !in base)
    && (forall a :: a in list[|base|..] <==> Block(domain, a) in live || Block(domain, a) in pending)
  }

  /** `lists` are the lists set for domains, `base` those the configuration set; `live` are the cache entries and
      `pending` the expiry callbacks still to run. */
  ghost predicate Agrees(lists: Lists, base: Lists, defaults: seq<Address>, live: set<Block>, pending: seq<Block>) {
    && (forall d :: ListAgrees(ListOf(base, defaults, d), ListOf(lists, defaults, d), d, live, pending))
    && NoRepeats(pending)
    && (forall b :: b in pending ==> b !in live)
  }

  lemma ConfiguredAgrees(base: Lists, defaults: seq<Address>)
    ensures Agrees(base, base, defaults, {}, [])
  {}

  /** Blacklisting an address that is not disabled yet. */
  lemma BlockAgrees(lists: Lists, base: Lists, defaults: seq<Address>, live: set<Block>, pending: seq<Block>, b: Block)
    requires Agrees(lists, base, defaults, live, pending)
    requires b.address !in ListOf(lists, defaults, b.domain)
    ensures Agrees(lists[b.domain := ListOf(lists, defaults, b.domain) + [b.address]], base, defaults,
                   live + {b}, pending)
  {
    var list := ListOf(lists, defaults, b.domain);
    var lists' := lists[b.domain := list + [b.address]];
    forall d
      ensures ListAgrees(ListOf(base, defaults, d), ListOf(lists', defaults, d), d, live + {b}, pending)
    {
      var base := ListOf(base, defaults, d);
      assert ListAgrees(base, ListOf(lists, defaults, d), d, live, pending);
      if d == b.domain {
        assert (list + [b.address])[|base|..] == list[|base|..] + [b.address];
      }
    }
    assert ListAgrees(ListOf(base, defaults, b.domain), list, b.domain, live, pending);
    assert b.address !in list[|ListOf(base, defaults, b.domain)|..];
  }

  /** An entry that leaves the cache has its callback scheduled. */
  lemma LeaveAgrees(lists: Lists, base: Lists, defaults: seq<Address>, live: set<Block>, pending: seq<Block>, b: Block)
    requires Agrees(lists, base, defaults, live, pending) && b in live
    ensures Agrees(lists, base, defaults, live - {b}, pending + [b])
  {
    forall d
      ensures ListAgrees(ListOf(base, defaults, d), ListOf(lists, defaults, d), d, live - {b}, pending + [b])
    {
      assert ListAgrees(ListOf(base, defaults, d), ListOf(lists, defaults, d), d, live, pending);
    }
  }

  function Blocks(s: seq<Block>): set<Block> {
    set b | b in s
  }

  /** Several entries leave one after the other. */
  lemma {:induction false} LeaveAllAgree(lists: Lists, base: Lists, defaults: seq<Address>, live: set<Block>,
                                         pending: seq<Block>, gone: seq<Block>)
    requires Agrees(lists, base, defaults, live, pending) && NoRepeats(gone) && Blocks(gone) <= live
    ensures Agrees(lists, base, defaults, live - Blocks(gone), pending + gone)
    decreases |gone|
  {
    if gone == [] {
      assert live - Blocks(gone) == live && pending + gone == pending;
    } else {
      assert gone[0] in Blocks(gone);
      LeaveAgrees(lists, base, defaults, live, pending, gone[0]);
      FirstIsOnce(gone);
      assert Blocks(gone[1..]) <= live - {gone[0]};
      LeaveAllAgree(lists, base, defaults, live - {gone[0]}, pending + [gone[0]], gone[1..]);
      assert pending + [gone[0]] + gone[1..] == pending + gone;
      assert live - {gone[0]} - Blocks(gone[1..]) == live - Blocks(gone);
    }
  }

  function FirstIndex(list: seq<Address>, address: Address): (i: nat)
    ensures i <= |list| && (i < |list| ==> list[i] == address)
  {
    if list == [] || list[0] == address then 0 else 1 + FirstIndex(list[1..], address)
  }

  lemma {:induction false} FirstIndexIs(before: seq<Address>, address: Address, after: seq<Address>)
    requires address !in before
    ensures FirstIndex(before + [address] + after, address) == |before|
  {
    var list := before + [address] + after;
    if before != [] {
      assert list[1..] == before[1..] + [address] + after;
      FirstIndexIs(before[1..], address, after);
    }
  }

  /** What removing an address leaves of the list of a domain; nothing left means the defaults again. */
  function Unblock(lists: Lists, defaults: seq<Address>, b: Block): Lists {
    var list := ListOf(lists, defaults, b.domain);
    var i := FirstIndex(list, b.address);
    if i == |list| then lists
    else
      var rest := list[..i] + list[i + 1..];
      if rest != [] then lists[b.domain := rest] else lists - {b.domain}
  }

  /** No list was configured to be empty where the defaults are not. */
  predicate NotEmptied(base: Lists, defaults: seq<Address>) {
    forall d :: d in base && base[d] == [] ==> defaults == []
  }

  /** Taking one element out of a sequence without repetitions. */
  lemma TakeOne<T(!new)>(before: seq<T>, x: T, after: seq<T>)
    requires NoRepeats(before + [x] + after)
    ensures NoRepeats(before + after)
    ensures forall y :: y in before + after <==> y in before + [x] + after && y != x
  {
    var s, t := before + [x] + after, before + after;
    assert forall i :: 0 <= i < |t| ==> t[i] == s[if i < |before| then i else i + 1];
    assert s[|before|] == x;
  }

  lemma FirstIsOnce<T(!new)>(s: seq<T>)
    requires s != [] && NoRepeats(s)
    ensures NoRepeats(s[1..])
    ensures forall y :: y in s[1..] <==> y in s && y != s[0]
  {}

  lemma ListWithout(base: seq<Address>, t1: seq<Address>, a: Address, t2: seq<Address>, domain: Domain,
                    live: set<Block>, pending: seq<Block>)
    requires pending != [] && pending[0] == Block(domain, a) && NoRepeats(pending) && pending[0] !in live
    requires ListAgrees(base, base + (t1 + [a] + t2), domain, live, pending)
    ensures ListAgrees(base, base + (t1 + t2), domain, live, pending[1..])
  {
    assert (base + (t1 + [a] + t2))[|base|..] == t1 + [a] + t2;
    assert (base + (t1 + t2))[|base|..] == t1 + t2;
    TakeOne(t1, a, t2);
    FirstIsOnce(pending);
    hide NoRepeats;
  }

  lemma UnblockedList(base: seq<Address>, list: seq<Address>, domain: Domain, live: set<Block>, pending: seq<Block>)
    requires pending != [] && pending[0].domain == domain && NoRepeats(pending) && pending[0] !in live
    requires ListAgrees(base, list, domain, live, pending)
    ensures var i := FirstIndex(list, pending[0].address);
            i < |list| && ListAgrees(base, list[..i] + list[i + 1..], domain, live, pending[1..])
  {
    hide NoRepeats, ListAgrees, FirstIndex;
    var t1, t2 := WhereBlocked(base, list, domain, live, pending);
    SpliceOut(base, t1, pending[0].address, t2);
    ListWithout(base, t1, pending[0].address, t2, domain, live, pending);
  }

  lemma WhereBlocked(base: seq<Address>, list: seq<Address>, domain: Domain, live: set<Block>, pending: seq<Block>)
    returns (t1: seq<Address>, t2: seq<Address>)
    requires pending != [] && pending[0].domain == domain && ListAgrees(base, list, domain, live, pending)
    ensures list == base + (t1 + [pending[0].address] + t2)
    ensures pending[0].address !in base && pending[0].address !in t1
  {
    var a, tail := pending[0].address, list[|base|..];
    assert Block(domain, a) == pending[0] && a in tail;
    var k :| 0 <= k < |tail| && tail[k] == a;
    t1, t2 := tail[..k], tail[k + 1..];
    assert tail == t1 + [a] + t2;
  }

  lemma SpliceOut(base: seq<Address>, t1: seq<Address>, a: Address, t2: seq<Address>)
    requires a !in base && a !in t1
    ensures var list := base + (t1 + [a] + t2);
            var i := FirstIndex(list, a);
            i < |list| && list[..i] + list[i + 1..] == base + (t1 + t2)
  {
    var list := base + (t1 + [a] + t2);
    FirstIndexIs(base + t1, a, t2);
    hide FirstIndex;
    assert list == (base + t1) + [a] + t2;
  }

  /** Running the callback of an entry that left takes its address off the list again. */
  lemma UnblockAgrees(lists: Lists, base: Lists, defaults: seq<Address>, live: set<Block>, pending: seq<Block>)
    requires Agrees(lists, base, defaults, live, pending) && pending != [] && NotEmptied(base, defaults)
    ensures Agrees(Unblock(lists, defaults, pending[0]), base, defaults, live, pending[1..])
  {
    FirstIsOnce(pending);
    hide ListAgrees, NoRepeats, Unblock, NotEmptied;
    forall d
      ensures ListAgrees(ListOf(base, defaults, d), ListOf(Unblock(lists, defaults, pending[0]), defaults, d), d, live,
                         pending[1..])
    {
      var p := pending[0].domain;
      assert ListAgrees(ListOf(base, defaults, d), ListOf(lists, defaults, d), d, live, pending);
      assert ListAgrees(ListOf(base, defaults, p), ListOf(lists, defaults, p), p, live, pending);
      UnblockAgreesAt(lists, base, defaults, live, pending, d);
    }
  }

  lemma UnblockAgreesAt(lists: Lists, base: Lists, defaults: seq<Address>, live: set<Block>, pending: seq<Block>,
                        d: Domain)
    requires pending != [] && NoRepeats(pending) && pending[0] !in live && NotEmptied(base, defaults)
    requires ListAgrees(ListOf(base, defaults, d), ListOf(lists, defaults, d), d, live, pending)
    requires ListAgrees(ListOf(base, defaults, pending[0].domain), ListOf(lists, defaults, pending[0].domain),
                        pending[0].domain, live, pending)
    ensures ListAgrees(ListOf(base, defaults, d), ListOf(Unblock(lists, defaults, pending[0]), defaults, d), d, live,
                       pending[1..])
  {
    var was, list := ListOf(base, defaults, d), ListOf(lists, defaults, d);
    hide ListAgrees, FirstIndex, NoRepeats;
    if d == pending[0].domain {
      UnblockedList(was, list, d, live, pending);
      var i := FirstIndex(list, pending[0].address);
      EmptiedIsBase(was, list[..i] + list[i + 1..], d, live, pending[1..]);
    } else {
      OtherDomain(was, list, d, live, pending);
    }
  }

  lemma EmptiedIsBase(base: seq<Address>, list: seq<Address>, domain: Domain, live: set<Block>, pending: seq<Block>)
    requires ListAgrees(base, list, domain, live, pending)
    ensures list == [] ==> base == []
  {}

  lemma OtherDomain(base: seq<Address>, list: seq<Address>, domain: Domain, live: set<Block>, pending: seq<Block>)
    requires pending != [] && pending[0].domain != domain && ListAgrees(base, list, domain, live, pending)
    ensures ListAgrees(base, list, domain, live, pending[1..])
  {
    assert forall a :: Block(domain, a) in pending <==> Block(domain, a) in pending[1..];
    hide NoRepeats;
  }

  /** The hypothesis is exact: blacklisting an address for a time gives a domain its list back if and only if the
      domain was not configured to have an empty one in place of defaults that are not. */
  lemma RoundTripOfBlock(base: Lists, defaults: seq<Address>, b: Block)
    requires b.address !in ListOf(base, defaults, b.domain)
    ensures var list := ListOf(base, defaults, b.domain);
            var lists := Unblock(base[b.domain := list + [b.address]], defaults, b);
            ListOf(lists, defaults, b.domain) == list
            <==> !(b.domain in base && base[b.domain] == [] && defaults != [])
  {
    var list := ListOf(base, defaults, b.domain);
    FirstIndexIs(list, b.address, []);
    assert list + [b.address] + [] == list + [b.address];
    assert (list + [b.address])[..|list|] + (list + [b.address])[|list| + 1..] == list;
  }

  // ----- Choosing an address -----

  function Usable(pool: seq<Address>, disabled: seq<Address>): seq<Address> {
    if pool == [] then
      []
    else
      (if pool[0] in disabled then [] else [pool[0]]) + Usable(pool[1..], disabled)
  }

  lemma {:induction false} UsableIs(pool: seq<Address>, disabled: seq<Address>)
    ensures forall a :: a in Usable(pool, disabled) <==> a in pool && a !in disabled
  {
    if pool != [] {
      UsableIs(pool[1..], disabled);
      assert forall a :: a in pool <==> a == pool[0] || a in pool[1..];
    }
  }

  /** The entries keep the order they have in the pool, each as often as it is there: where the usable ones among the
      first k end, the k-th comes if it is usable. */
  lemma {:induction false} UsableInOrder(pool: seq<Address>, disabled: seq<Address>, k: nat)
    requires k < |pool|
    ensures |Usable(pool[..k + 1], disabled)| == |Usable(pool[..k], disabled)| + if pool[k] in disabled then 0 else 1
    ensures pool[k] !in disabled ==>
              |Usable(pool[..k], disabled)| < |Usable(pool, disabled)|
              && Usable(pool, disabled)[|Usable(pool[..k], disabled)|] == pool[k]
    ensures pool[..|pool|] == pool && Usable(pool[..0], disabled) == []
  {
    if k > 0 {
      UsableInOrder(pool[1..], disabled, k - 1);
      assert pool[..k][1..] == pool[1..][..k - 1] && pool[..k + 1][1..] == pool[1..][..k];
    } else {
      assert pool[..1] == [pool[0]] && [pool[0]][1..] == [];
    }
  }

  /** JavaScript's remainder, which has the sign of its left operand, and then the absolute value. */
  function PoolIndex(hash: int, n: nat): (i: nat)
    requires n > 0
    ensures i < n
  {
    if hash >= 0 then hash % n else -hash % n
  }

  /** An entry of the pool for a hash of the delivery, which an empty pool cannot give, and whether the blacklist had
      to be ignored. */
  function GetAddress(pool: seq<Address>, disabled: seq<Address>, hash: int): (r: (Option<Address>, bool))
    ensures r.0 == None <==> pool == []
    ensures r.0.Some? ==> r.0.value in pool && (r.0.value in disabled <==> r.1)
    ensures r.1 <==> disabled != [] && forall a :: a in pool ==> a in disabled
    ensures pool != [] ==>
              var candidates := if r.1 then pool else Usable(pool, disabled);
              candidates != [] && r.0 == Some(candidates[(if hash < 0 then -hash else hash) % |candidates|])
  {
    UsableIs(pool, disabled);
    var usable := Usable(pool, disabled);
    if disabled != [] && usable == [] then
      assert forall a :: a in pool ==> a !in usable;
      (EntryAt(pool, hash), true)
    else
      assert disabled == [] && pool != [] ==> pool[0] in usable;
      assert usable != [] ==> usable[0] in usable;
      (EntryAt(usable, hash), false)
  }

  /** Every usable address is chosen for some hash, and the same one whenever the hash is the same. */
  lemma EachIsReached(pool: seq<Address>, disabled: seq<Address>, a: Address)
    requires a in pool && a !in disabled
    ensures exists hash: nat :: GetAddress(pool, disabled, hash) == (Some(a), false)
  {
    UsableIs(pool, disabled);
    var usable := Usable(pool, disabled);
    var k: nat :| k < |usable| && usable[k] == a;
    var chosen := GetAddress(pool, disabled, k);
    hide Usable, GetAddress;
    assert !chosen.1;
    SmallRemainder(k, |usable|);
  }

  lemma SmallRemainder(k: nat, n: nat)
    requires k < n
    ensures k % n == k
  {}

  function EntryAt(pool: seq<Address>, hash: int): (entry: Option<Address>)
    ensures entry == None <==> pool == []
    ensures entry.Some? ==> entry.value in pool
  {
    if pool == [] then None else Some(pool[PoolIndex(hash, |pool|)])
  }

  // ----- The objects -----

  function Keys(entries: seq<Entry<Block, Block>>): seq<Block> {
    seq(|entries|, i requires 0 <= i < |entries| => entries[i].key)
  }

  lemma KeysAppend(entries: seq<Entry<Block, Block>>, entry: Entry<Block, Block>)
    ensures Keys(entries + [entry]) == Keys(entries) + [entry.key]
  {}

  lemma FirstKey(entries: seq<Entry<Block, Block>>)
    requires entries != []
    ensures Keys(entries) != [] && Keys(entries)[0] == entries[0].key && Keys(entries[1..]) == Keys(entries)[1..]
  {}

  // ----- The list of the defaults -----

  /** The lists, what stands for a missing one, and whether the list of the domain called `defaults` is that one. */
  datatype ListState = ListState(lists: Lists, defaults: seq<Address>, shared: bool) {
    function At(domain: Domain): seq<Address> {
      ListOf(lists, defaults, domain)
    }

    predicate Consistent() {
      shared ==> DEFAULTS in lists && lists[DEFAULTS] == defaults
    }
  }

  /** Blacklisting an address that is not disabled yet: the list is changed in place. */
  function BlockAt(st: ListState, b: Block): ListState {
    var list := st.At(b.domain) + [b.address];
    ListState(st.lists[b.domain := list], if st.shared && b.domain == DEFAULTS then list else st.defaults, st.shared)
  }

  /** And its end. An emptied list is no more stored, and so no more shared. */
  function UnblockAt(st: ListState, b: Block): ListState {
    var list := st.At(b.domain);
    var i := FirstIndex(list, b.address);
    if i == |list| then st
    else
      var rest := list[..i] + list[i + 1..];
      var common := st.shared && b.domain == DEFAULTS;
      ListState(if rest != [] then st.lists[b.domain := rest] else st.lists - {b.domain},
                if common then rest else st.defaults, st.shared && (common ==> rest != []))
  }

  lemma {:induction false} LongerThanAll(s: set<string>) returns (n: nat)
    ensures forall x :: x in s ==> |x| < n
    decreases |s|
  {
    if s == {} {
      n := 0;
    } else {
      var y :| y in s;
      var m := LongerThanAll(s - {y});
      n := if |y| < m then m else |y| + 1;
      assert forall x :: x in s ==> x == y || x in s - {y};
    }
  }

  /** Blacklisting for one domain leaves the lists of all others alone if and only if the domain is not the one that has
      its list in common with the defaults. */
  lemma OthersStay(st: ListState, b: Block)
    requires st.Consistent() && b.address !in st.At(b.domain)
    ensures (forall d :: d != b.domain ==> BlockAt(st, b).At(d) == st.At(d)) <==> !(st.shared && b.domain == DEFAULTS)
  {
    if st.shared && b.domain == DEFAULTS {
      var n := LongerThanAll(st.lists.Keys + {b.domain});
      var d := seq(n, _ => 'x');
      assert d !in st.lists && d != b.domain;
      assert |BlockAt(st, b).At(d)| == |st.At(d)| + 1;
    }
  }

  /** Otherwise a domain that is blacklisted meanwhile copies the address, and keeps it for good when both times are
      over. */
  lemma AddressStays(other: Domain, a: Address, b: Address)
    requires other != DEFAULTS && a != b
    ensures var start := ListState(map[DEFAULTS := []], [], true);
            var both := BlockAt(BlockAt(start, Block(DEFAULTS, a)), Block(other, b));
            var end := UnblockAt(UnblockAt(both, Block(DEFAULTS, a)), Block(other, b));
            start.At(other) == [] && end.At(other) == [a]
  {
    var start := ListState(map[DEFAULTS := []], [], true);
    var one := BlockAt(start, Block(DEFAULTS, a));
    assert [] + [a] == [a] && start.lists[DEFAULTS := [a]] == map[DEFAULTS := [a]];
    assert one == ListState(map[DEFAULTS := [a]], [a], true);
    var both := BlockAt(one, Block(other, b));
    assert both.lists[other] == [a, b] && both.lists[DEFAULTS] == [a];
    FirstIndexIs([], a, []);
    assert [] + [a] + [] == [a] && [a][..0] + [a][1..] == [];
    var third := UnblockAt(both, Block(DEFAULTS, a));
    assert third.lists[other] == [a, b] && !third.shared;
    FirstIndexIs([a], b, []);
    assert [a] + [b] + [] == [a, b] && [a, b][..1] + [a, b][2..] == [a];
  }

  /** As long as the list of the defaults has not been changed, every domain's list is what its configuration says and
      then the addresses whose cache entry is live or whose callback has still to run. */
  ghost predicate Clean(st: ListState, base: Lists, defaults: seq<Address>, live: set<Block>, pending: seq<Block>) {
    && NotEmptied(base, defaults) && st.defaults == defaults
    && Agrees(st.lists, base, defaults, live, pending)
    && (st.shared ==> NoneOf(DEFAULTS, live, pending))
  }

  ghost predicate NoneOf(domain: Domain, live: set<Block>, pending: seq<Block>) {
    forall b :: b in live || b in pending ==> b.domain != domain
  }

  lemma BlockIsClean(st: ListState, base: Lists, defaults: seq<Address>, live: set<Block>, pending: seq<Block>,
                     b: Block)
    requires Clean(st, base, defaults, live, pending) && b.address !in st.At(b.domain)
    requires !(st.shared && b.domain == DEFAULTS)
    ensures Clean(BlockAt(st, b), base, defaults, live + {b}, pending)
  {
    hide Agrees, NotEmptied;
    BlockAgrees(st.lists, base, defaults, live, pending, b);
  }

  lemma UnblockIsClean(st: ListState, base: Lists, defaults: seq<Address>, live: set<Block>, pending: seq<Block>)
    requires Clean(st, base, defaults, live, pending) && pending != []
    ensures Clean(UnblockAt(st, pending[0]), base, defaults, live, pending[1..])
  {
    hide Agrees, NotEmptied;
    UnblockAgrees(st.lists, base, defaults, live, pending);
    assert pending[0] in pending && forall b :: b in pending[1..] ==> b in pending;
  }

  lemma LeaveIsClean(st: ListState, base: Lists, defaults: seq<Address>, live: set<Block>, pending: seq<Block>,
                     b: Block)
    requires Clean(st, base, defaults, live, pending) && b in live
    ensures Clean(st, base, defaults, live - {b}, pending + [b])
  {
    hide Agrees, NotEmptied;
    LeaveAgrees(st.lists, base, defaults, live, pending, b);
  }

  // ----- The zone -----

  class SendingZone {
    const domainConfig: DomainConfig
    const cache: TtlCache<Block, Block>
    const ttl: int
    /** How many of the scheduled callbacks have run. */
    var ran: nat

    /** The configured lists, and whether the list of the defaults has stayed as it was, no domain being configured with
        an empty list over defaults that are not. */
    ghost const base: Lists
    ghost const baseDefaults: seq<Address>
    ghost var clean: bool

    ghost function View(): ListState
      reads domainConfig
      requires domainConfig.Valid()
    {
      ListState(ListsOf(domainConfig.domains), domainConfig.DefaultList(), domainConfig.shared)
    }

    ghost function Pending(): seq<Block>
      reads this, cache
      requires ran <= |cache.scheduled|
    {
      Keys(cache.scheduled[ran..])
    }

    ghost predicate Valid()
      reads this, domainConfig, cache
    {
      && ttl > 0
      && domainConfig.Valid()
      && cache.Valid()
      && ran <= |cache.scheduled|
      && (forall k :: k in cache.data ==> cache.data[k].callback && cache.data[k].value == k)
      && (forall i :: ran <= i < |cache.scheduled| ==> cache.scheduled[i].value == cache.scheduled[i].key)
      && (clean ==> Clean(View(), base, baseDefaults, cache.data.Keys, Pending()))
    }

    constructor (options: Domains, ttl: int)
      requires ttl > 0 && WellTyped(options)
      ensures Valid() && fresh(domainConfig) && fresh(cache)
      ensures forall d, k :: Lookup(domainConfig.domains, d, k) == Configured(options, d, k)
      ensures View() == ListState(base, baseDefaults, DEFAULTS in options)
      ensures clean <==> NotEmptied(base, baseDefaults)
    {
      var config := new DomainConfig(options);
      domainConfig := config;
      cache := new TtlCache<Block, Block>(0);
      this.ttl, ran, base, baseDefaults := ttl, 0, ListsOf(config.domains), config.DefaultList();
      clean := NotEmptied(ListsOf(config.domains), config.DefaultList());
      new;
      ConfiguredAgrees(base, baseDefaults);
      assert Pending() == [];
    }

    /** `blacklisted` says that the response names the category, the address and the domain is known. A deferral because
        of a blacklist disables the address for the domain and has it enabled again later. */
    method DeferDelivery(domain: Domain, address: Address, blacklisted: bool, now: int)
      requires Valid()
      modifies this`clean, domainConfig, cache
      ensures Valid()
      ensures var b, before := Block(domain, address), old(View());
              if blacklisted && address !in before.At(domain) then
                && View() == BlockAt(before, b)
                && cache.data == old(cache.data)[b := Entry(b, b, now + ttl, true)]
                && clean == (old(clean) && !(before.shared && domain == DEFAULTS))
              else
                View() == before && cache.data == old(cache.data) && clean == old(clean)
    {
      hide Clean, Indexes, CallbacksAdd, WithCallback, Tidy, ListsOf, Keys, BlockAt;
      if !blacklisted {
        return;
      }
      var b := Block(domain, address);
      ghost var before := View();
      var added := AddAddress(b);
      if added {
        if clean && !(before.shared && domain == DEFAULTS) {
          BlockIsClean(before, base, baseDefaults, cache.data.Keys, Pending(), b);
        }
        clean := clean && !(before.shared && domain == DEFAULTS);
        cache.Set(b, Some(b), Some(ttl), true, now);
        assert cache.data.Keys == old(cache.data.Keys) + {b};
      }
    }

    /** Takes the list of the domain, and if the address is not on it, puts it there and stores the list. */
    method AddAddress(b: Block) returns (added: bool)
      requires domainConfig.Valid()
      modifies domainConfig
      ensures domainConfig.Valid() && (added <==> b.address !in old(View()).At(b.domain))
      ensures View() == if added then BlockAt(old(View()), b) else old(View())
    {
      hide Tidy, Lookup, ListsOf;
      SharedIsStored(domainConfig);
      var value, own := domainConfig.Get(b.domain, DISABLED);
      var disabled := value.value.list;
      added := b.address !in disabled;
      if added {
        disabled := disabled + [b.address];
        if own {
          domainConfig.ChangeList(b.domain, disabled);
          StoredList(domainConfig, b.domain);
        }
        domainConfig.Set(b.domain, DISABLED, Addresses(disabled), own);
      }
    }

    /** The callback of a cache entry. */
    method RemoveFromBlacklist(b: Block)
      requires domainConfig.Valid()
      modifies domainConfig
      ensures domainConfig.Valid() && View() == UnblockAt(old(View()), b)
    {
      hide Tidy, Lookup, ListsOf;
      SharedIsStored(domainConfig);
      var value, own := domainConfig.Get(b.domain, DISABLED);
      var disabled := value.value.list;
      var i := FirstIndex(disabled, b.address);
      if i < |disabled| {
        var rest := disabled[..i] + disabled[i + 1..];
        if own {
          domainConfig.ChangeList(b.domain, rest);
          StoredList(domainConfig, b.domain);
        }
        if rest != [] {
          domainConfig.Set(b.domain, DISABLED, Addresses(rest), own);
        } else {
          domainConfig.Remove(b.domain, DISABLED);
        }
        var lists := old(ListsOf(domainConfig.domains));
        assert lists[b.domain := rest] - {b.domain} == lists - {b.domain};
      }
    }

    method RunCallback()
      requires Valid() && ran < |cache.scheduled|
      modifies this`ran, domainConfig
      ensures Valid() && ran == old(ran) + 1
      ensures View() == UnblockAt(old(View()), old(cache.scheduled[ran]).key)
    {
      hide Clean, UnblockAt, Indexes, CallbacksAdd, Keys, Tidy, Lookup, ListsOf;
      FirstKey(cache.scheduled[ran..]);
      assert cache.scheduled[ran..][1..] == cache.scheduled[ran + 1..];
      if clean {
        UnblockIsClean(View(), base, baseDefaults, cache.data.Keys, Pending());
      }
      RemoveFromBlacklist(cache.scheduled[ran].value);
      ran := ran + 1;
    }

    /** An entry is removed from the cache before its time. */
    method RemoveEntry(b: Block)
      requires Valid()
      modifies cache
      ensures Valid() && cache.data == old(cache.data) - {b}
    {
      hide Clean, Indexes, CallbacksAdd, Keys, Tidy, ListsOf;
      if b in cache.data {
        if clean {
          LeaveIsClean(View(), base, baseDefaults, cache.data.Keys, Pending(), b);
        }
        EntriesKnowTheirKeys(cache.sorted, cache.data);
      }
      cache.Remove(b);
      if b in old(cache.data) {
        assert cache.scheduled[ran..] == old(cache.scheduled[ran..]) + [old(cache.data)[b]];
        KeysAppend(old(cache.scheduled[ran..]), old(cache.data)[b]);
        assert cache.data.Keys == old(cache.data.Keys) - {b};
      } else {
        assert cache.data == old(cache.data) && cache.scheduled == old(cache.scheduled);
      }
    }

    /** The expiry check of the cache. */
    method CheckExpired(now: int)
      requires Valid()
      modifies cache
      ensures Valid()
      ensures forall b :: b in cache.data <==> b in old(cache.data) && old(cache.data)[b].expires > now
      ensures forall b :: b in cache.data ==> cache.data[b] == old(cache.data)[b]
    {
      hide Indexes, CallbacksAdd, Clean, WithCallback, Tidy, ListsOf, Keys;
      var expired := cache.CheckExpired(now);
      ExpiredCallbacks(old(cache.sorted), old(cache.data), expired, cache.data, old(cache.scheduled), ran);
      if clean {
        ExpiredIsClean(View(), base, baseDefaults, old(cache.sorted), old(cache.data), expired, cache.data,
                       old(cache.scheduled), ran);
      }
    }
  }

  lemma SharedIsStored(config: DomainConfig)
    requires config.Valid()
    ensures config.shared ==>
              DEFAULTS in ListsOf(config.domains) && ListsOf(config.domains)[DEFAULTS] == config.DefaultList()
  {}

  lemma StoredList(config: DomainConfig, domain: Domain)
    requires config.Valid() && domain in ListsOf(config.domains)
    ensures Lookup(config.domains, domain, DISABLED) == Some(Addresses(ListsOf(config.domains)[domain]))
  {}

  /** What the expiry check schedules. */
  lemma ExpiredCallbacks(sorted: seq<Entry<Block, Block>>, data: map<Block, Entry<Block, Block>>, count: nat,
                         left: map<Block, Entry<Block, Block>>, scheduled: seq<Entry<Block, Block>>, ran: nat)
    requires Indexes(sorted, data) && count <= |sorted| && Indexes(sorted[count..], left) && ran <= |scheduled|
    requires forall k :: k in data ==> data[k].callback && data[k].value == k
    requires forall i :: ran <= i < |scheduled| ==> scheduled[i].value == scheduled[i].key
    ensures var scheduled' := scheduled + WithCallback(sorted[..count]);
            forall i :: ran <= i < |scheduled'| ==> scheduled'[i].value == scheduled'[i].key
  {
    hide Indexes, NoRepeats, WithCallback, Blocks, Keys;
    var due := sorted[..count];
    Leaving(sorted, data, count, left);
    assert forall i :: 0 <= i < |due| ==> due[i] in due;
  }

  /** What the expiry check leaves, and schedules, agrees with the lists. */
  lemma ExpiredIsClean(st: ListState, base: Lists, defaults: seq<Address>, sorted: seq<Entry<Block, Block>>,
                       data: map<Block, Entry<Block, Block>>, count: nat, left: map<Block, Entry<Block, Block>>,
                       scheduled: seq<Entry<Block, Block>>, ran: nat)
    requires Indexes(sorted, data) && count <= |sorted| && Indexes(sorted[count..], left) && ran <= |scheduled|
    requires forall k :: k in data ==> data[k].callback && data[k].value == k
    requires Clean(st, base, defaults, data.Keys, Keys(scheduled[ran..]))
    ensures var scheduled' := scheduled + WithCallback(sorted[..count]);
            Clean(st, base, defaults, left.Keys, Keys(scheduled'[ran..]))
  {
    hide Agrees, Indexes, NotEmptied, NoRepeats, WithCallback;
    var due, pending := sorted[..count], scheduled[ran..];
    Leaving(sorted, data, count, left);
    LeaveAllAgree(st.lists, base, defaults, data.Keys, Keys(pending), Keys(due));
    assert (scheduled + due)[ran..] == pending + due;
    assert Keys(pending + due) == Keys(pending) + Keys(due);
    assert forall b :: b in Keys(due) ==> b in Blocks(Keys(due));
  }

  lemma EntriesKnowTheirKeys(sorted: seq<Entry<Block, Block>>, data: map<Block, Entry<Block, Block>>)
    requires Indexes(sorted, data)
    ensures forall k :: k in data ==> data[k].key == k
  {}

  /** The entries that leave when the first ones of the array are due. */
  lemma Leaving(sorted: seq<Entry<Block, Block>>, data: map<Block, Entry<Block, Block>>, count: nat,
                left: map<Block, Entry<Block, Block>>)
    requires Indexes(sorted, data) && count <= |sorted| && Indexes(sorted[count..], left)
    requires forall k :: k in data ==> data[k].callback && data[k].value == k
    ensures var due := sorted[..count];
            && WithCallback(due) == due
            && (forall e :: e in due ==> e.value == e.key)
            && NoRepeats(Keys(due)) && Blocks(Keys(due)) <= data.Keys
            && left.Keys == data.Keys - Blocks(Keys(due))
  {
    var due := sorted[..count];
    KeysLeft(sorted, data, count, left);
    DueEntries(sorted, data, count);
    hide Indexes, NoRepeats, Keys, Blocks, WithCallback;
    AllHaveCallbacks(due);
    KeysAsBlocks(due);
  }

  lemma DueEntries(sorted: seq<Entry<Block, Block>>, data: map<Block, Entry<Block, Block>>, count: nat)
    requires Indexes(sorted, data) && count <= |sorted|
    requires forall k :: k in data ==> data[k].callback && data[k].value == k
    ensures forall e :: e in sorted[..count] ==> e.key in data && e.callback && e.value == e.key
    ensures NoRepeats(Keys(sorted[..count]))
  {
    hide Ordered;
    assert forall e :: e in sorted[..count] ==> e in sorted;
  }

  lemma KeysAsBlocks(entries: seq<Entry<Block, Block>>)
    ensures (set e | e in entries :: e.key) == Blocks(Keys(entries))
  {
    assert forall i :: 0 <= i < |entries| ==> entries[i].key == Keys(entries)[i];
  }
}
