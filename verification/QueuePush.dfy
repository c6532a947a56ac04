/** The rows that one push makes: one for each recipient, told apart by their numbers. */
module QueuePush {
  import opened Options
  import opened QueueProtocol
  import opened Strings

  const DIGITS := "0123456789abcdef"

  /** toString(16) */
  function Hex(n: nat): string {
    if n < 16 then [DIGITS[n]] else Hex(n / 16) + [DIGITS[n % 16]]
  }

  /** Hexadecimal, with zeros in front to make it three digits at least. */
  function Number(n: nat): string {
    (if n < 0x100 then "0" else "") + (if n < 0x10 then "0" else "") + Hex(n)
  }

  function Digit(c: char): nat {
    if '0' <= c <= '9' then (c as int) - ('0' as int)
    else if 'a' <= c <= 'f' then (c as int) - ('a' as int) + 10
    else 0
  }

  function Read(s: string): nat {
    if s == "" then 0 else 16 * Read(s[..|s| - 1]) + Digit(s[|s| - 1])
  }

  lemma DigitsReadBack(n: nat)
    requires n < 16
    ensures Digit(DIGITS[n]) == n
  {}

  lemma {:induction false} HexReadsBack(n: nat)
    ensures Read(Hex(n)) == n && Hex(n) != ""
  {
    DigitsReadBack(n % 16);
    if n < 16 {
      assert Hex(n)[..0] == "";
    } else {
      HexReadsBack(n / 16);
      assert Hex(n)[..|Hex(n)| - 1] == Hex(n / 16);
    }
  }

  lemma {:induction false} LeadingZero(s: string)
    ensures Read("0" + s) == Read(s)
  {
    if s != "" {
      assert ("0" + s)[..|s|] == "0" + s[..|s| - 1];
      LeadingZero(s[..|s| - 1]);
    }
  }

  /** Numbers are at least three characters long, and can be read back, so no two are alike. */
  lemma NumberReadsBack(n: nat)
    ensures Read(Number(n)) == n && |Number(n)| >= 3
  {
    HexReadsBack(n);
    LeadingZero(Hex(n));
    LeadingZero("0" + Hex(n));
    assert n < 0x10 ==> Number(n) == "0" + ("0" + Hex(n));
    assert 0x10 <= n < 0x100 ==> Number(n) == "0" + Hex(n);
    assert n >= 0x100 ==> Number(n) == Hex(n);
    HexLength(n);
  }

  lemma HexLength(n: nat)
    ensures |Hex(n)| >= if n >= 0x100 then 3 else if n >= 0x10 then 2 else 1
  {
    if n >= 0x10 {
      assert |Hex(n / 16)| >= 1 + if n >= 0x100 then 1 else 0 by {
        assert n >= 0x100 ==> n / 16 >= 16;
      }
    }
  }

  lemma NumbersDiffer(a: nat, b: nat)
    requires Number(a) == Number(b)
    ensures a == b
  {
    NumberReadsBack(a);
    NumberReadsBack(b);
  }

  /** The numbers 1, 10, 255 and 4096. */
  lemma NumbersWritten()
    ensures Number(1) == "001" && Number(10) == "00a" && Number(255) == "0ff" && Number(4096) == "1000"
  {
    assert Hex(1) == "1" && Hex(10) == "a" && Hex(15) == "f" && Hex(255) == Hex(15) + "f" && Hex(0) == "0";
    assert Hex(16) == Hex(1) + "0" && Hex(256) == Hex(16) + "0" && Hex(4096) == Hex(256) + "0";
  }

  /** A recipient with what the zones' routing tables say: the zones for the domain of the sender, for that of the
      recipient, and for the origin, each empty if there is none. */
  datatype Recipient = Recipient(address: string, domain: string, bySender: string,
                                 byRecipient: string, byOrigin: string)

  /** The zone asked for, if there is one by that name, or else the first that routing has. */
  function Route(asked: string, r: Recipient, fallback: string): string {
    if asked != "" then asked
    else if r.bySender != "" then r.bySender
    else if r.byRecipient != "" then r.byRecipient
    else if r.byOrigin != "" then r.byOrigin
    else fallback
  }

  function FirstNamed(names: seq<string>): string {
    if names == [] then "" else if names[0] != "" then names[0] else FirstNamed(names[1..])
  }

  /** The zone of the envelope goes before that of the sender's domain, the recipient's, and the origin. */
  lemma RouteInOrder(asked: string, r: Recipient, fallback: string)
    ensures Route(asked, r, fallback) == FirstNamed([asked, r.bySender, r.byRecipient, r.byOrigin, fallback])
  {
    var names := [asked, r.bySender, r.byRecipient, r.byOrigin, fallback];
    assert names[4..] == [fallback] && FirstNamed(names[4..]) == fallback;
    assert FirstNamed(names[3..]) == if r.byOrigin != "" then r.byOrigin else FirstNamed(names[3..][1..]);
    assert FirstNamed(names[2..]) == if r.byRecipient != "" then r.byRecipient else FirstNamed(names[2..][1..]);
    assert FirstNamed(names[1..]) == if r.bySender != "" then r.bySender else FirstNamed(names[1..][1..]);
    assert names[1..][1..] == names[2..] && names[2..][1..] == names[3..] && names[3..][1..] == names[4..];
  }

  /** What the routing hook makes of the zone of the recipient at a position; None if it fails. */
  type Hook = (nat, string) -> Option<string>

  predicate Routed(recipients: seq<Recipient>, asked: string, fallback: string, hook: Hook) {
    forall i :: 0 <= i < |recipients| ==> hook(i, Route(asked, recipients[i], fallback)).Some?
  }

  /** The row to be for a recipient: due at once, or later if the envelope says so. */
  function TargetFor(i: nat, r: Recipient, asked: string, fallback: string, hook: Hook, due: int): Target
    requires hook(i, Route(asked, r, fallback)).Some?
  {
    Target(hook(i, Route(asked, r, fallback)).value, r.domain, due)
  }

  /** `targets` has a row to be for each recipient, under the numbers from 1 up. */
  predicate HasAll(targets: map<string, Target>, recipients: seq<Recipient>, asked: string, fallback: string,
                   hook: Hook, due: int)
    requires Routed(recipients, asked, fallback, hook)
  {
    && targets.Keys == Numbers(|recipients|)
    && forall n :: 1 <= n <= |recipients| ==>
                     && Number(n) in targets
                     && targets[Number(n)] == TargetFor(n - 1, recipients[n - 1], asked, fallback, hook, due)
  }

  function Due(deferUntil: int, now: int): int {
    if deferUntil > now then deferUntil else now
  }

  lemma NextRow(rows: map<string, Target>, recipients: seq<Recipient>, pos: nat, asked: string, fallback: string,
                hook: Hook, due: int)
    requires pos < |recipients| && Routed(recipients[..pos], asked, fallback, hook)
    requires HasAll(rows, recipients[..pos], asked, fallback, hook, due)
    ensures Routed(recipients[..pos + 1], asked, fallback, hook)
            <==> hook(pos, Route(asked, recipients[pos], fallback)).Some?
    ensures hook(pos, Route(asked, recipients[pos], fallback)).Some? ==>
              HasAll(rows[Number(pos + 1) := TargetFor(pos, recipients[pos], asked, fallback, hook, due)],
                     recipients[..pos + 1], asked, fallback, hook, due)
  {
    hide Number, Route, Numbers;
    var shorter, longer := recipients[..pos], recipients[..pos + 1];
    assert longer[pos] == recipients[pos] && forall i :: 0 <= i < pos ==> longer[i] == shorter[i];
    forall n | 1 <= n <= pos
      ensures Number(n) != Number(pos + 1)
    {
      if Number(n) == Number(pos + 1) {
        NumbersDiffer(n, pos + 1);
      }
    }
    NumbersGrow(pos);
  }

  lemma RoutedPrefix(recipients: seq<Recipient>, pos: nat, asked: string, fallback: string, hook: Hook)
    requires pos <= |recipients| && Routed(recipients, asked, fallback, hook)
    ensures Routed(recipients[..pos], asked, fallback, hook)
  {}

  lemma NoRows(asked: string, fallback: string, hook: Hook, due: int)
    ensures Routed([], asked, fallback, hook) && HasAll(map[], [], asked, fallback, hook, due)
  {
    assert Numbers(0) == {};
  }

  /** The zone an envelope asks for, if the look-up of its normal form finds one; the name stays as it is. */
  function ZoneAskedFor(asked: string, names: set<string>): string {
    if asked != "" && Normal(asked) in names then asked else ""
  }

  /** The documents of a push, which fails for an empty list of recipients and with the hook. `names` are the names of
      the zones in the configuration. */
  method PrepareDocuments(recipients: seq<Recipient>, asked: string, names: set<string>, fallback: string, hook: Hook,
                          deferUntil: int, now: int)
    returns (documents: Option<map<string, Target>>)
    ensures var zone := ZoneAskedFor(asked, names);
            && (documents.Some? <==> recipients != [] && Routed(recipients, zone, fallback, hook))
            && (documents.Some? ==> HasAll(documents.value, recipients, zone, fallback, hook, Due(deferUntil, now)))
    ensures documents.Some? ==>
              forall n :: 1 <= n <= |recipients| ==>
                            && Number(n) in documents.value
                            && documents.value[Number(n)].domain == recipients[n - 1].domain
                            && documents.value[Number(n)].queued == if deferUntil > now then deferUntil else now
  {
    hide Number, Numbers, HasAll, Routed;
    var zone := asked;
    if zone != "" && Normal(zone) !in names {
      zone := "";
    }
    if recipients == [] {
      return None;
    }
    var rows: map<string, Target> := map[];
    NoRows(zone, fallback, hook, Due(deferUntil, now));
    var number := 0;
    assert recipients[..0] == [];
    for pos := 0 to |recipients|
      invariant number == pos
      invariant Routed(recipients[..pos], zone, fallback, hook)
      invariant HasAll(rows, recipients[..pos], zone, fallback, hook, Due(deferUntil, now))
    {
      var recipient := recipients[pos];
      var deliveryZone := zone;
      if deliveryZone == "" {
        deliveryZone := recipient.bySender;
      }
      if deliveryZone == "" {
        deliveryZone := recipient.byRecipient;
      }
      if deliveryZone == "" {
        deliveryZone := recipient.byOrigin;
      }
      if deliveryZone == "" {
        deliveryZone := fallback;
      }
      var routed := hook(pos, deliveryZone);
      NextRow(rows, recipients, pos, zone, fallback, hook, Due(deferUntil, now));
      if routed == None {
        if Routed(recipients, zone, fallback, hook) {
          RoutedPrefix(recipients, pos + 1, zone, fallback, hook);
          assert false;
        }
        return None;
      }
      number := number + 1;
      rows := rows[Number(number) := Target(routed.value, recipient.domain,
                              if deferUntil > now then deferUntil else now)];
    }
    assert recipients[..|recipients|] == recipients;
    DomainsAndTimes(rows, recipients, zone, fallback, hook, Due(deferUntil, now));
    documents := Some(rows);
  }

  lemma DomainsAndTimes(rows: map<string, Target>, recipients: seq<Recipient>, asked: string, fallback: string,
                        hook: Hook, due: int)
    requires Routed(recipients, asked, fallback, hook) && HasAll(rows, recipients, asked, fallback, hook, due)
    ensures forall n :: 1 <= n <= |recipients| ==>
                          && Number(n) in rows
                          && rows[Number(n)].domain == recipients[n - 1].domain && rows[Number(n)].queued == due
  {
    hide Number, Numbers, Route;
  }

  // ----- Zones that are served -----

  /** A client says the name of a zone; the zone found by its normal form asks under the normal form of its own name. */
  function ZoneOfClient(name: string, names: set<string>): Option<string> {
    if Normal(name) in names then Some(Normal(Normal(name))) else None
  }

  /** The zones that clients can ask for. A zone whose configured name is not normal is not among them. */
  function ServedZones(names: set<string>): set<string> {
    set n | n in names && Normal(n) == n
  }

  lemma ClientsAskForServed(zone: string, names: set<string>)
    ensures (exists name :: ZoneOfClient(name, names) == Some(zone)) <==> zone in ServedZones(names)
  {
    hide Normal;
    if zone in ServedZones(names) {
      assert ZoneOfClient(zone, names) == Some(zone);
    }
    forall name | ZoneOfClient(name, names) == Some(zone)
      ensures zone in ServedZones(names)
    {
      NormalIsNormal(name);
    }
  }

  /** The name that an envelope asks for and that is known makes rows that are served if and only if it is normal. */
  lemma AskedIsServed(asked: string, names: set<string>)
    requires ZoneAskedFor(asked, names) != ""
    ensures ZoneAskedFor(asked, names) in ServedZones(names) <==> asked == Normal(asked)
  {
    hide Normal;
    NormalIsNormal(asked);
  }

  /** A zone that routing tables name makes rows that are served if and only if its normal name is configured. */
  lemma RoutedIsServed(name: string, names: set<string>)
    requires name in names
    ensures Normal(name) in ServedZones(names) <==> Normal(name) in names
  {
    hide Normal;
    NormalIsNormal(name);
  }

  /** A name that is known, and whose rows nobody asks for. */
  lemma CapitalLetter()
    ensures ZoneAskedFor("Default", {"default"}) == "Default" && "Default" !in ServedZones({"default"})
  {
    hide Trim, Lower;
    LowerAt("Default");
    assert Lower("Default") == "default";
    BareIsTrimmed("default");
    assert "Default"[0] != "default"[0];
  }

  // ----- The push -----

  /** One row more for each recipient, told apart by its number, free, not assigned, in the recipient's zone and domain;
      nothing else changes. */
  ghost predicate RowsMade(rows: map<RowId, Row>, rows': map<RowId, Row>, id: string, recipients: seq<Recipient>,
                           zone: string, fallback: string, hook: Hook, due: int, now: int)
    requires Routed(recipients, zone, fallback, hook)
  {
    && (forall row :: row in rows' <==> row in rows || (row.id == id && row.number in Numbers(|recipients|)))
    && (forall n :: 1 <= n <= |recipients| ==>
          && RowId(id, Number(n)) in rows'
          && rows'[RowId(id, Number(n))] == NewRow(TargetFor(n - 1, recipients[n - 1], zone, fallback, hook, due), now))
    && (forall row :: row in rows && row.id != id ==> row in rows' && rows'[row] == rows[row])
  }

  lemma NewRowsMade(rows: map<RowId, Row>, id: string, documents: map<string, Target>, recipients: seq<Recipient>,
                    zone: string, fallback: string, hook: Hook, due: int, now: int)
    requires Routed(recipients, zone, fallback, hook) && HasAll(documents, recipients, zone, fallback, hook, due)
    ensures RowsMade(rows, rows + NewRows(id, documents, now), id, recipients, zone, fallback, hook, due, now)
  {
    hide Numbers, Number, TargetFor, Routed;
    forall n | 1 <= n <= |recipients|
      ensures RowId(id, Number(n)) in NewRows(id, documents, now)
    {
      assert Number(n) in documents;
    }
  }

  /** What the push of the documents does to the collection. */
  lemma PushMakesRows(s: State, id: string, documents: map<string, Target>, recipients: seq<Recipient>, zone: string,
                      fallback: string, hook: Hook, due: int, gap: int)
    requires Routed(recipients, zone, fallback, hook) && HasAll(documents, recipients, zone, fallback, hook, due)
    requires Enabled(s, Push(id, documents), gap)
    ensures RowsMade(s.rows, Apply(s, Push(id, documents), gap).rows, id, recipients, zone, fallback, hook, due, s.now)
  {
    hide RowsMade, HasAll, Routed, MemoryAfter, BodiesAfter;
    NewRowsMade(s.rows, id, documents, recipients, zone, fallback, hook, due, s.now);
  }

  function Numbers(count: nat): set<string> {
    set n | 1 <= n <= count :: Number(n)
  }

  lemma NumbersGrow(count: nat)
    ensures Numbers(count + 1) == Numbers(count) + {Number(count + 1)}
    ensures Number(count + 1) !in Numbers(count)
  {
    forall n | 1 <= n <= count
      ensures Number(n) != Number(count + 1)
    {
      if Number(n) == Number(count + 1) {
        NumbersDiffer(n, count + 1);
      }
    }
  }
}
