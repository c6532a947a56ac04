/** The DomainConfig object: settings by domain and key, with defaults. */
module DomainSettings {
  import opened Options

  type Domain = string
  type Address = string

  datatype Setting = Addresses(list: seq<Address>) | Number(n: int) | Text(value: string)

  type Settings = map<string, Setting>

  type Domains = map<Domain, Settings>

  const DISABLED := "disabledAddresses"
  const MAX_CONNECTIONS := "maxConnections"
  const DEFAULTS := "defaults"
  const IGNORED := "default"

  function Lookup(domains: Domains, domain: Domain, key: string): Option<Setting> {
    if domain in domains && key in domains[domain] then Some(domains[domain][key]) else None
  }

  /** The disabled addresses of the domains that have such a setting of their own. */
  type Lists = map<Domain, seq<Address>>

  function ListsOf(domains: Domains): Lists {
    map d | d in domains && DISABLED in domains[d] && domains[d][DISABLED].Addresses? :: domains[d][DISABLED].list
  }

  function ListOf(lists: Lists, defaults: seq<Address>, domain: Domain): seq<Address> {
    if domain in lists then lists[domain] else defaults
  }

  /** No domain is left with no settings, and disabled addresses are lists. */
  ghost predicate Tidy(domains: Domains) {
    forall d :: d in domains ==> domains[d] != map[] && (DISABLED in domains[d] ==> domains[d][DISABLED].Addresses?)
  }

  // ----- Changes -----

  function Put(domains: Domains, domain: Domain, key: string, value: Setting): Domains {
    domains[domain := (if domain in domains then domains[domain] else map[])[key := value]]
  }

  function Drop(domains: Domains, domain: Domain, key: string): Domains {
    if domain !in domains || key !in domains[domain] then domains
    else if domains[domain] - {key} == map[] then domains - {domain}
    else domains[domain := domains[domain] - {key}]
  }

  lemma AfterPut(domains: Domains, domain: Domain, key: string, value: Setting)
    requires Tidy(domains) && (key == DISABLED ==> value.Addresses?)
    ensures Tidy(Put(domains, domain, key, value))
    ensures forall d, k :: Lookup(Put(domains, domain, key, value), d, k)
                           == if d == domain && k == key then Some(value) else Lookup(domains, d, k)
    ensures ListsOf(Put(domains, domain, key, value))
            == if key == DISABLED then ListsOf(domains)[domain := value.list] else ListsOf(domains)
  {
    hide ListsOf;
    assert key in Put(domains, domain, key, value)[domain];
    ListsAfterPut(domains, domain, key, value);
  }

  lemma ListsAfterPut(domains: Domains, domain: Domain, key: string, value: Setting)
    requires key == DISABLED ==> value.Addresses?
    ensures ListsOf(Put(domains, domain, key, value))
            == if key == DISABLED then ListsOf(domains)[domain := value.list] else ListsOf(domains)
  {}

  lemma AfterDrop(domains: Domains, domain: Domain, key: string)
    requires Tidy(domains)
    ensures Tidy(Drop(domains, domain, key))
    ensures forall d, k :: Lookup(Drop(domains, domain, key), d, k)
                           == if d == domain && k == key then None else Lookup(domains, d, k)
    ensures ListsOf(Drop(domains, domain, key))
            == if key == DISABLED then ListsOf(domains) - {domain} else ListsOf(domains)
  {
    hide ListsOf;
    NoOtherKey(domains, domain, key);
    ListsAfterDrop(domains, domain, key);
  }

  lemma NoOtherKey(domains: Domains, domain: Domain, key: string)
    ensures domain in domains && domains[domain] - {key} == map[] ==> forall k :: k in domains[domain] ==> k == key
  {
    if domain in domains {
      assert forall k :: k in domains[domain] && k != key ==> k in domains[domain] - {key};
    }
  }

  lemma ListsAfterDrop(domains: Domains, domain: Domain, key: string)
    ensures ListsOf(Drop(domains, domain, key))
            == if key == DISABLED then ListsOf(domains) - {domain} else ListsOf(domains)
  {
    NoOtherKey(domains, domain, key);
  }

  // ----- What the configuration file says -----

  /** What the source reads as defaults. */
  function DefaultsOf(options: Domains): Settings {
    if DEFAULTS in options then options[DEFAULTS] else map[]
  }

  predicate IsUnset(settings: Settings, key: string) {
    key !in settings || settings[key] == Number(0) || settings[key] == Text("")
  }

  /** The defaults with what is missing in them. */
  function Complete(defaults: Settings): Settings {
    var limited := if IsUnset(defaults, MAX_CONNECTIONS) then defaults[MAX_CONNECTIONS := Number(5)] else defaults;
    if IsUnset(defaults, DISABLED) then limited[DISABLED := Addresses([])]
    else if defaults[DISABLED].Text? then limited[DISABLED := Addresses([defaults[DISABLED].value])]
    else limited
  }

  /** The settings of one entry of the file: the defaults, completed in place, are an entry too. */
  function EntryOf(options: Domains, domain: Domain): Settings
    requires domain in options
  {
    if domain == DEFAULTS then Complete(options[DEFAULTS]) else options[domain]
  }

  function Configured(options: Domains, domain: Domain, key: string): Option<Setting> {
    if domain == IGNORED || domain !in options || key !in EntryOf(options, domain) then None
    else Some(EntryOf(options, domain)[key])
  }

  /** Disabled addresses are lists where the source takes them for lists. */
  ghost predicate WellTyped(options: Domains) {
    && (forall d :: d in options && d != DEFAULTS && DISABLED in options[d] ==> options[d][DISABLED].Addresses?)
    && (DISABLED in DefaultsOf(options) && DefaultsOf(options)[DISABLED].Number?
        ==> IsUnset(DefaultsOf(options), DISABLED))
  }

  lemma CompleteHas(defaults: Settings)
    requires DISABLED in defaults && defaults[DISABLED].Number? ==> IsUnset(defaults, DISABLED)
    ensures MAX_CONNECTIONS in Complete(defaults) && DISABLED in Complete(defaults)
    ensures var given := if "maxConnections" in defaults then defaults["maxConnections"] else Number(0);
            Complete(defaults)[MAX_CONNECTIONS] == if given == Number(0) || given == Text("") then Number(5) else given
    ensures var given := if DISABLED in defaults then defaults["disabledAddresses"] else Number(0);
            Complete(defaults)[DISABLED]
            == match given
               case Addresses(_) => given
               case Number(_) => Addresses([])
               case Text(address) => Addresses(if address == "" then [] else [address])
    ensures forall k :: k != "maxConnections" && k != "disabledAddresses" ==>
              (k in Complete(defaults) <==> k in defaults)
              && (k in defaults ==> Complete(defaults)[k] == defaults[k])
  {
    assert MAX_CONNECTIONS[0] != DISABLED[0];
  }

  /** What is stored of the file: of the entry `defaults` its completion, of `default` nothing, and of every other
      what it says. */
  lemma ConfiguredIs(options: Domains, d: Domain, k: string)
    ensures Configured(options, d, k)
            == if d == "default" || d !in options then None
               else
                 var entry := if d == "defaults" then Complete(options["defaults"]) else options[d];
                 if k in entry then Some(entry[k]) else None
    ensures DefaultsOf(options) == if "defaults" in options then options["defaults"] else map[]
  {}

  /** The entry that the sample configuration calls required has no effect. */
  lemma DefaultEntryIsIgnored(options: Domains, settings: Settings)
    ensures DefaultsOf(options["default" := settings]) == DefaultsOf(options)
    ensures forall d, k :: Configured(options["default" := settings], d, k) == Configured(options, d, k)
  {
    assert |IGNORED| != |DEFAULTS|;
  }

  lemma EntriesTyped(options: Domains)
    requires WellTyped(options)
    ensures Tidy(map[]) && |IGNORED| != |DEFAULTS|
    ensures forall d :: d in options && DISABLED in EntryOf(options, d) ==> EntryOf(options, d)[DISABLED].Addresses?
    ensures forall d :: d in options ==>
              EntryOf(options, d) == if d == DEFAULTS then Complete(options[DEFAULTS]) else options[d]
  {
    CompleteHas(DefaultsOf(options));
  }

  class DomainConfig {
    var defaults: Settings
    var domains: Domains
    /** Lists are changed in place, so it matters which are the same: the list stored for the domain called `defaults`
        is the one of the defaults, as long as this says so. No other two are. */
    var shared: bool

    ghost predicate Valid()
      reads this
    {
      && Tidy(domains) && DISABLED in defaults && defaults[DISABLED].Addresses?
      && (shared ==> Lookup(domains, DEFAULTS, DISABLED) == Some(defaults[DISABLED]))
    }

    function DefaultList(): seq<Address>
      reads this
      requires Valid()
    {
      defaults[DISABLED].list
    }

    /** Everything in the file is stored, but for the entry called `default`. */
    constructor (options: Domains)
      requires WellTyped(options)
      ensures Valid() && defaults == Complete(DefaultsOf(options)) && (shared <==> DEFAULTS in options)
      ensures forall d, k :: Lookup(domains, d, k) == Configured(options, d, k)
    {
      var complete := FillDefaults(if DEFAULTS in options then options[DEFAULTS] else map[]);
      var entries := if DEFAULTS in options then options[DEFAULTS := complete] else options;
      defaults, domains, shared := complete, map[], false;
      CompleteHas(DefaultsOf(options));
      EntriesTyped(options);
      new;
      hide Complete, EntryOf, WellTyped, Tidy;
      var rest := entries.Keys;
      while rest != {}
        invariant rest <= entries.Keys && Valid() && !shared && defaults == complete
        invariant forall d, k :: Lookup(domains, d, k) == if d in rest then None else Configured(options, d, k)
        decreases |rest|
      {
        var domain :| domain in rest;
        if domain != IGNORED {
          SetAll(domain, entries[domain]);
          assert entries[domain] == EntryOf(options, domain);
        }
        rest := rest - {domain};
      }
      shared := DEFAULTS in options;
    }

    /** The keys of one entry. */
    method SetAll(domain: Domain, settings: Settings)
      requires Valid() && !shared && (DISABLED in settings ==> settings[DISABLED].Addresses?)
      modifies this
      ensures Valid() && !shared && defaults == old(defaults)
      ensures forall d, k :: Lookup(domains, d, k)
                             == if d == domain && k in settings then Some(settings[k]) else old(Lookup(domains, d, k))
    {
      hide Tidy, Lookup;
      var rest := settings.Keys;
      while rest != {}
        invariant rest <= settings.Keys && Valid() && !shared && defaults == old(defaults)
        invariant forall d, k :: Lookup(domains, d, k)
                    == if d == domain && k in settings && k !in rest then Some(settings[k])
                       else old(Lookup(domains, d, k))
        decreases |rest|
      {
        var key :| key in rest;
        Set(domain, key, settings[key], false);
        rest := rest - {key};
      }
    }

    /** One setting changes and no other, whether the domain had settings before or not. `same` says that the value is
        the very list that is stored already. */
    method Set(domain: Domain, key: string, value: Setting, same: bool)
      requires Valid() && (key == DISABLED ==> value.Addresses?)
      requires same ==> Lookup(domains, domain, key) == Some(value)
      modifies this
      ensures Valid() && defaults == old(defaults)
      ensures shared == (old(shared) && (same || (domain, key) != (DEFAULTS, DISABLED)))
      ensures forall d, k :: Lookup(domains, d, k)
                             == if d == domain && k == key then Some(value) else old(Lookup(domains, d, k))
      ensures ListsOf(domains)
              == if key == DISABLED then old(ListsOf(domains))[domain := value.list] else old(ListsOf(domains))
    {
      AfterPut(domains, domain, key, value);
      hide Tidy, Lookup, ListsOf;
      if domain !in domains {
        domains := domains[domain := map[]];
      }
      domains := domains[domain := domains[domain][key := value]];
      assert domains == Put(old(domains), domain, key, value);
      shared := shared && (same || (domain, key) != (DEFAULTS, DISABLED));
    }

    /** The domain's own setting, which is handed out itself, or else a copy of the default, or else nothing. */
    method Get(domain: Domain, key: string) returns (value: Option<Setting>, own: bool)
      requires Valid()
      ensures value == match Lookup(domains, domain, key)
                       case Some(stored) => Some(stored)
                       case None => if key in defaults then Some(defaults[key]) else None
      ensures own <==> Lookup(domains, domain, key).Some?
      ensures key == DISABLED ==>
                && value == Some(Addresses(ListOf(ListsOf(domains), DefaultList(), domain)))
                && (own <==> domain in ListsOf(domains))
    {
      if domain !in domains || key !in domains[domain] {
        return if key in defaults then Some(defaults[key]) else None, false;
      }
      value, own := Some(domains[domain][key]), true;
    }

    /** The list stored for a domain is changed in place by one who has it, and with it the defaults if they share it.
        */
    method ChangeList(domain: Domain, list: seq<Address>)
      requires Valid() && domain in ListsOf(domains)
      modifies this
      ensures Valid() && shared == old(shared)
      ensures forall d, k :: Lookup(domains, d, k)
                             == if d == domain && k == DISABLED then Some(Addresses(list))
                                 else old(Lookup(domains, d, k))
      ensures ListsOf(domains) == old(ListsOf(domains))[domain := list]
      ensures defaults
              == if shared && domain == DEFAULTS then old(defaults)[DISABLED := Addresses(list)] else old(defaults)
    {
      AfterPut(domains, domain, DISABLED, Addresses(list));
      assert domain in domains;
      hide Tidy, Lookup, ListsOf;
      domains := domains[domain := domains[domain][DISABLED := Addresses(list)]];
      assert domains == Put(old(domains), domain, DISABLED, Addresses(list));
      if shared && domain == DEFAULTS {
        defaults := defaults[DISABLED := Addresses(list)];
      }
    }

    /** One setting goes and no other. */
    method Remove(domain: Domain, key: string)
      requires Valid()
      modifies this
      ensures Valid() && defaults == old(defaults)
      ensures shared == (old(shared) && (domain, key) != (DEFAULTS, DISABLED))
      ensures forall d, k :: Lookup(domains, d, k)
                             == if d == domain && k == key then None else old(Lookup(domains, d, k))
      ensures ListsOf(domains) == if key == DISABLED then old(ListsOf(domains)) - {domain} else old(ListsOf(domains))
    {
      AfterDrop(domains, domain, key);
      assert domain !in domains || key !in domains[domain] ==> Lookup(domains, domain, key) == None;
      hide Tidy, Lookup, ListsOf;
      if domain !in domains || key !in domains[domain] {
        return;
      }
      domains := domains[domain := domains[domain] - {key}];
      if domains[domain] == map[] {
        domains := domains - {domain};
      }
      assert domains == Drop(old(domains), domain, key);
      shared := shared && (domain, key) != (DEFAULTS, DISABLED);
    }
  }

  method FillDefaults(defaults: Settings) returns (complete: Settings)
    ensures complete == Complete(defaults)
  {
    complete := defaults;
    assert MAX_CONNECTIONS[0] != DISABLED[0];
    if MAX_CONNECTIONS !in complete || complete[MAX_CONNECTIONS] == Number(0) || complete[MAX_CONNECTIONS] == Text("") {
      complete := complete[MAX_CONNECTIONS := Number(5)];
    }
    if DISABLED !in complete || complete[DISABLED] == Number(0) || complete[DISABLED] == Text("") {
      complete := complete[DISABLED := Addresses([])];
    } else if complete[DISABLED].Text? {
      complete := complete[DISABLED := Addresses([complete[DISABLED].value])];
    }
  }
}
