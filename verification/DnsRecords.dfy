/**
 Automatic and custom DNS records in two stores (internal/activity/dns.go and powerdns_db.go): the core
 database holds every record, PowerDNS holds what is served. Each SQL statement is one atomic step, and
 an activity may die between any two of them and be run again from the start.
 */
module DnsRecords {
  import opened Text
  import opened DnsZones

  // The stores. Row ids and timestamps are never read, so tables are kept up to them, and a zone, whose
  // name is unique, is known by its name.

  datatype Manager = Auto | Custom

  /** A row of zone_records. */
  datatype Row = Row(
    zone: string, rtype: string, name: string, content: string, ttl: int, priority: Option<int>,
    manager: Manager, sourceType: string, sourceId: string, active: bool)

  /** The columns a delete in PowerDNS can name, and the rest of such a row. */
  datatype Key = Key(domain: nat, name: string, rtype: string, content: string)
  datatype Val = Val(ttl: int, priority: Option<int>)

  type Served = map<Key, seq<Val>>

  /** `active` are the active zones, `domains` the zones PowerDNS has, `served` its rows at each key. */
  datatype Stores = Stores(active: set<string>, domains: map<string, nat>, core: multiset<Row>, served: Served)

  /** Domain ids are positive, and every served row is in a domain. */
  ghost predicate Valid(s: Stores) {
    && (forall z :: z in s.domains ==> s.domains[z] > 0)
    && (forall k :: k in s.served ==> k.domain in s.domains.Values && s.served[k] != [])
  }

  // What the activities read. None of it is changed by what they write.

  datatype View = View(active: set<string>, domains: map<string, nat>, custom: set<(string, string)>)

  function CustomNames(core: multiset<Row>): set<(string, string)> {
    set r | r in core && r.manager == Custom && r.active :: (r.name, r.rtype)
  }

  function ViewOf(s: Stores): View { View(s.active, s.domains, CustomNames(s.core)) }

  /** `hasCustomRecord` for one type. */
  predicate Overridden(v: View, name: string, rtype: string) { (name, rtype) in v.custom }

  /** `GetDNSZoneIDByName`: 0 when PowerDNS does not have the zone. */
  function DomainId(domains: map<string, nat>, zone: string): nat {
    if zone in domains then domains[zone] else 0
  }

  // What the activities write.

  /** An insert into zone_records guarded by NOT EXISTS. */
  datatype Insert = Insert(
    zone: string, ifActive: bool, rtype: string, name: string, content: string, ttl: int, priority: Option<int>,
    sourceType: string, sourceId: string, byContent: bool)

  /** `Write` is the two statements of `WriteDNSRecord`, delete then insert; `Record` is one. */
  datatype Action = Write(key: Key, val: Val) | Record(ins: Insert)

  function RowOf(ins: Insert): Row {
    Row(ins.zone, ins.rtype, ins.name, ins.content, ins.ttl, ins.priority, Auto, ins.sourceType, ins.sourceId, true)
  }

  /** The rows that keep the insert from being made. */
  predicate Clashes(r: Row, ins: Insert) {
    && r.zone == ins.zone && r.rtype == ins.rtype && r.name == ins.name && r.manager == Auto
    && if ins.byContent then r.content == ins.content else r.sourceType == ins.sourceType
  }

  predicate Made(core: multiset<Row>, active: set<string>, ins: Insert) {
    (ins.ifActive && ins.zone !in active) || exists r :: r in core && Clashes(r, ins)
  }

  function InsertIfAbsent(core: multiset<Row>, active: set<string>, ins: Insert): multiset<Row> {
    if Made(core, active, ins) then core else core + multiset{RowOf(ins)}
  }

  datatype Outcome = Done | Failed | Crashed

  /** One action with `budget` statements to go before the worker dies; a foreign key guards the insert. */
  function RunAction(a: Action, s: Stores, budget: nat): (Stores, Outcome, nat) {
    match a
    case Write(key, val) =>
      if budget == 0 then (s, Crashed, 0)
      else
        var cleared := s.(served := s.served - {key});
        if budget == 1 then (cleared, Crashed, 0)
        else if key.domain !in s.domains.Values then (cleared, Failed, budget - 2)
        else (cleared.(served := cleared.served[key := [val]]), Done, budget - 2)
    case Record(ins) =>
      if budget == 0 then (s, Crashed, 0)
      else (s.(core := InsertIfAbsent(s.core, s.active, ins)), Done, budget - 1)
  }

  function RunActions(actions: seq<Action>, s: Stores, budget: nat): (Stores, Outcome, nat) {
    if actions == [] then (s, Done, budget)
    else
      var (next, outcome, left) := RunAction(actions[0], s, budget);
      if outcome.Done? then RunActions(actions[1..], next, left) else (next, outcome, left)
  }

  // Which actions each activity takes.

  const TTL := 300

  datatype Address = Address(family: int, address: string)

  function TypeOf(a: Address): Option<string> {
    if a.family == 4 then Some("A") else if a.family == 6 then Some("AAAA") else None
  }

  datatype FqdnParams = FqdnParams(fqdn: string, addresses: seq<Address>, sourceId: string)

  function AddressActions(zone: string, domain: nat, custom: bool, p: FqdnParams, a: Address): seq<Action> {
    match TypeOf(a)
    case None => []
    case Some(t) =>
      (if custom then [] else [Write(Key(domain, p.fqdn, t, a.address), Val(TTL, None))])
      + [Record(Insert(zone, true, t, p.fqdn, a.address, TTL, None, "fqdn", p.sourceId, true))]
  }

  function AddressesActions(zone: string, domain: nat, custom: bool, p: FqdnParams, n: nat): seq<Action>
    requires n <= |p.addresses|
    decreases |p.addresses| - n
  {
    if n == |p.addresses| then []
    else AddressActions(zone, domain, custom, p, p.addresses[n]) + AddressesActions(zone, domain, custom, p, n + 1)
  }

  /** `AutoCreateDNSRecords`: a custom A or AAAA record keeps both types out of PowerDNS. */
  function FqdnActions(v: View, p: FqdnParams): seq<Action> {
    var zone := FindZone(v.active, p.fqdn);
    if zone == "" then []
    else AddressesActions(zone, DomainId(v.domains, zone), Overridden(v, p.fqdn, "A") || Overridden(v, p.fqdn, "AAAA"), p, 0)
  }

  datatype Def = Def(
    zone: string, domain: nat, name: string, rtype: string, content: string, priority: Option<int>,
    sourceType: string, sourceId: string)

  /** `createAutoRecord` */
  function AutoActions(v: View, d: Def): seq<Action> {
    (if Overridden(v, d.name, d.rtype) || d.domain == 0 then []
     else [Write(Key(d.domain, d.name, d.rtype, d.content), Val(TTL, d.priority))])
    + [Record(Insert(d.zone, true, d.rtype, d.name, d.content, TTL, d.priority, d.sourceType, d.sourceId, false))]
  }

  datatype EmailParams = EmailParams(
    fqdn: string, mailHostname: string, spfIncludes: string, dkimSelector: string, dkimPublicKey: string,
    dmarcPolicy: string, sourceId: string)

  function Includes(parts: seq<string>): seq<string> {
    if parts == [] then []
    else (if TrimSpace(parts[0]) == "" then [] else ["include:" + TrimSpace(parts[0])]) + Includes(parts[1..])
  }

  const SPF_START := "v=spf1 mx "
  const SPF_END := "~all"

  /** `buildSPFRecord` */
  function SpfContent(includes: string): string {
    var list := Includes(Split(includes, ','));
    if includes == "" || list == [] then SPF_START + SPF_END else SPF_START + Join(list, " ") + " " + SPF_END
  }

  function DkimName(p: EmailParams): string { p.dkimSelector + "._domainkey." + p.fqdn }

  function DmarcName(p: EmailParams): string { "_dmarc." + p.fqdn }

  function MxDefs(zone: string, domain: nat, p: EmailParams): seq<Def> {
    if p.mailHostname == "" then []
    else [Def(zone, domain, p.fqdn, "MX", p.mailHostname, Some(10), "email-mx", p.sourceId)]
  }

  function SpfDefs(zone: string, domain: nat, p: EmailParams): seq<Def> {
    [Def(zone, domain, p.fqdn, "TXT", SpfContent(p.spfIncludes), None, "email-spf", p.sourceId)]
  }

  function DkimDefs(zone: string, domain: nat, p: EmailParams): seq<Def> {
    if p.dkimSelector == "" || p.dkimPublicKey == "" then []
    else [Def(zone, domain, DkimName(p), "TXT", "v=DKIM1; k=rsa; p=" + p.dkimPublicKey, None, "email-dkim", p.sourceId)]
  }

  function DmarcDefs(zone: string, domain: nat, p: EmailParams): seq<Def> {
    if p.dmarcPolicy == "" then []
    else [Def(zone, domain, DmarcName(p), "TXT", p.dmarcPolicy, None, "email-dmarc", p.sourceId)]
  }

  /** The records an email domain gets, in the order they are created. */
  function EmailDefs(zone: string, domain: nat, p: EmailParams): seq<Def> {
    MxDefs(zone, domain, p) + (SpfDefs(zone, domain, p) + (DkimDefs(zone, domain, p) + DmarcDefs(zone, domain, p)))
  }

  function DefsActions(v: View, defs: seq<Def>): seq<Action> {
    if defs == [] then [] else AutoActions(v, defs[0]) + DefsActions(v, defs[1..])
  }

  /** `AutoCreateEmailDNSRecords` */
  function EmailActions(v: View, p: EmailParams): seq<Action> {
    var zone := FindZone(v.active, p.fqdn);
    if zone == "" then [] else DefsActions(v, EmailDefs(zone, DomainId(v.domains, zone), p))
  }

  /** What the queries of `RetroactiveAutoRecords` answered. */
  datatype RetroParams = RetroParams(
    zone: string, addresses: seq<Address>, fqdns: seq<(string, string)>, emails: seq<EmailParams>)

  /** Here each type is checked on its own. */
  function RetroAddressActions(
    v: View, domain: nat, p: RetroParams, id: string, fqdn: string, a: Address): seq<Action> {
    match TypeOf(a)
    case None => []
    case Some(t) =>
      (if Overridden(v, fqdn, t) then [] else [Write(Key(domain, fqdn, t, a.address), Val(TTL, None))])
      + [Record(Insert(p.zone, false, t, fqdn, a.address, TTL, None, "fqdn", id, true))]
  }

  function RetroFqdnActions(
    v: View, domain: nat, p: RetroParams, id: string, fqdn: string, addresses: seq<Address>): seq<Action> {
    if addresses == [] then []
    else RetroAddressActions(v, domain, p, id, fqdn, addresses[0])
         + RetroFqdnActions(v, domain, p, id, fqdn, addresses[1..])
  }

  function RetroFqdnsActions(v: View, domain: nat, p: RetroParams, fqdns: seq<(string, string)>): seq<Action> {
    if fqdns == [] then []
    else RetroFqdnActions(v, domain, p, fqdns[0].0, fqdns[0].1, p.addresses) + RetroFqdnsActions(v, domain, p, fqdns[1..])
  }

  function EmailsActions(v: View, emails: seq<EmailParams>): seq<Action> {
    if emails == [] then [] else EmailActions(v, emails[0]) + EmailsActions(v, emails[1..])
  }

  function RetroActions(v: View, p: RetroParams): seq<Action> {
    var domain := DomainId(v.domains, p.zone);
    if domain == 0 then [] else RetroFqdnsActions(v, domain, p, p.fqdns) + EmailsActions(v, p.emails)
  }

  /** The activities that create automatic records. */
  datatype Activity = AutoFqdn(f: FqdnParams) | AutoEmail(e: EmailParams) | Retroactive(r: RetroParams)

  function Plan(v: View, act: Activity): seq<Action> {
    match act
    case AutoFqdn(p) => FqdnActions(v, p)
    case AutoEmail(p) => EmailActions(v, p)
    case Retroactive(p) => RetroActions(v, p)
  }

  /** An attempt at an activity that dies after `budget` statements. */
  function Attempt(act: Activity, s: Stores, budget: nat): (Stores, Outcome, nat) {
    RunActions(Plan(ViewOf(s), act), s, budget)
  }

  /** A run that does not die: an action takes at most two statements. */
  function Clean(act: Activity, s: Stores): (Stores, Outcome) {
    var (s', outcome, _) := Attempt(act, s, 2 * |Plan(ViewOf(s), act)|);
    (s', outcome)
  }

  // Writing does not disturb what is read.

  lemma {:induction false} InsertKeepsCustom(core: multiset<Row>, active: set<string>, ins: Insert)
    ensures CustomNames(InsertIfAbsent(core, active, ins)) == CustomNames(core)
  {
    var after := InsertIfAbsent(core, active, ins);
    assert forall r :: r in after && r.manager == Custom <==> r in core && r.manager == Custom;
    assert forall n :: n in CustomNames(after) <==> n in CustomNames(core);
  }

  lemma {:induction false} ActionKeepsView(a: Action, s: Stores, budget: nat)
    ensures ViewOf(RunAction(a, s, budget).0) == ViewOf(s)
    ensures Valid(s) ==> Valid(RunAction(a, s, budget).0)
  {
    if a.Record? && budget > 0 { InsertKeepsCustom(s.core, s.active, a.ins); }
  }

  lemma {:induction false} ActionsKeepView(actions: seq<Action>, s: Stores, budget: nat)
    ensures ViewOf(RunActions(actions, s, budget).0) == ViewOf(s)
    ensures Valid(s) ==> Valid(RunActions(actions, s, budget).0)
    decreases |actions|
  {
    if actions == [] {
    } else {
      var (next, outcome, left) := RunAction(actions[0], s, budget);
      ActionKeepsView(actions[0], s, budget);
      if outcome.Done? { ActionsKeepView(actions[1..], next, left); }
    }
  }

  // The effect of a run, store by store.

  function Keys(actions: seq<Action>): set<Key> {
    set a | a in actions && a.Write? :: a.key
  }

  lemma {:induction false} KeysFirst(actions: seq<Action>)
    requires actions != []
    ensures Keys(actions) == (if actions[0].Write? then {actions[0].key} else {}) + Keys(actions[1..])
  {
    assert actions == [actions[0]] + actions[1..];
  }

  /** What PowerDNS holds at the written keys after a full run: the last write wins. */
  function Final(actions: seq<Action>): Served {
    if actions == [] then map[]
    else if actions[0].Write? then map[actions[0].key := [actions[0].val]] + Final(actions[1..])
    else Final(actions[1..])
  }

  lemma {:induction false} FinalKeys(actions: seq<Action>)
    ensures Final(actions).Keys == Keys(actions)
  {
    if actions == [] {
    } else {
      FinalKeys(actions[1..]);
      KeysFirst(actions);
    }
  }

  function Inserted(actions: seq<Action>, active: set<string>, core: multiset<Row>): multiset<Row>
    decreases |actions|
  {
    if actions == [] then core
    else Inserted(actions[1..], active,
      if actions[0].Record? then InsertIfAbsent(core, active, actions[0].ins) else core)
  }

  predicate Writable(actions: seq<Action>, domains: map<string, nat>) {
    forall a :: a in actions && a.Write? ==> a.key.domain in domains.Values
  }

  lemma {:induction false} WriteThenFinal(w: Action, rest: Served, served: Served)
    requires w.Write?
    ensures (served - {w.key})[w.key := [w.val]] + rest == served + (map[w.key := [w.val]] + rest)
  {
  }

  lemma {:induction false} FullRun(actions: seq<Action>, s: Stores, budget: nat)
    requires Writable(actions, s.domains) && budget >= 2 * |actions|
    ensures RunActions(actions, s, budget).0
         == Stores(s.active, s.domains, Inserted(actions, s.active, s.core), s.served + Final(actions))
    ensures RunActions(actions, s, budget).1 == Done
    decreases |actions|
  {
    if actions == [] {
      assert s.served + map[] == s.served;
    } else {
      var (next, outcome, left) := RunAction(actions[0], s, budget);
      assert outcome == Done && left >= 2 * |actions[1..]|;
      FullRun(actions[1..], next, left);
      if actions[0].Write? { WriteThenFinal(actions[0], Final(actions[1..]), s.served); }
    }
  }

  /** Two served tables that differ at most at the given keys. */
  predicate SameOutside(a: Served, b: Served, keys: set<Key>) {
    && (forall k :: k in a && k !in keys ==> k in b && a[k] == b[k])
    && (forall k :: k in b && k !in keys ==> k in a)
  }

  lemma {:induction false} SameOutsideTwice(a: Served, b: Served, c: Served, first: set<Key>, second: set<Key>)
    requires SameOutside(b, c, first) && SameOutside(a, b, second)
    ensures SameOutside(a, c, first + second)
  {
  }

  lemma {:induction false} ActionTouches(a: Action, s: Stores, budget: nat)
    ensures SameOutside(RunAction(a, s, budget).0.served, s.served, if a.Write? then {a.key} else {})
    ensures RunAction(a, s, budget).0.active == s.active
    ensures RunAction(a, s, budget).1.Done? ==>
      RunAction(a, s, budget).0.core == if a.Record? then InsertIfAbsent(s.core, s.active, a.ins) else s.core
    ensures !RunAction(a, s, budget).1.Done? ==> RunAction(a, s, budget).0.core == s.core
  {
  }

  /** However far a run got, it touched only its keys. */
  lemma {:induction false} RunTouches(actions: seq<Action>, s: Stores, budget: nat)
    ensures SameOutside(RunActions(actions, s, budget).0.served, s.served, Keys(actions))
    decreases |actions|
  {
    if actions == [] {
    } else {
      var a := actions[0];
      var (next, outcome, left) := RunAction(a, s, budget);
      KeysFirst(actions);
      ActionTouches(a, s, budget);
      if outcome.Done? {
        RunTouches(actions[1..], next, left);
        SameOutsideTwice(RunActions(actions[1..], next, left).0.served, next.served, s.served,
                         if a.Write? then {a.key} else {}, Keys(actions[1..]));
      }
    }
  }

  /** And it made the inserts of some prefix of its actions. */
  lemma {:induction false} PartialRun(actions: seq<Action>, s: Stores, budget: nat) returns (n: nat)
    ensures n <= |actions|
    ensures RunActions(actions, s, budget).0.core == Inserted(actions[..n], s.active, s.core)
    decreases |actions|
  {
    n := 0;
    if actions == [] {
    } else {
      var (next, outcome, left) := RunAction(actions[0], s, budget);
      ActionTouches(actions[0], s, budget);
      if outcome.Done? {
        n := PartialRun(actions[1..], next, left);
        n := n + 1;
        assert actions[..n][1..] == actions[1..][..n - 1] && actions[..n][0] == actions[0];
      }
    }
  }

  // Making the core inserts again after any prefix of them changes nothing.

  lemma {:induction false} InsertSettles(core: multiset<Row>, active: set<string>, ins: Insert)
    ensures core <= InsertIfAbsent(core, active, ins)
    ensures Made(InsertIfAbsent(core, active, ins), active, ins)
  {
    if !Made(core, active, ins) {
      assert RowOf(ins) in InsertIfAbsent(core, active, ins) && Clashes(RowOf(ins), ins);
    }
  }

  lemma {:induction false} MadeGrows(core: multiset<Row>, more: multiset<Row>, active: set<string>, ins: Insert)
    requires core <= more && Made(core, active, ins)
    ensures Made(more, active, ins)
  {
    if !(ins.ifActive && ins.zone !in active) {
      var r :| r in core && Clashes(r, ins);
      assert r in more;
    }
  }

  lemma {:induction false} InsertedGrows(actions: seq<Action>, active: set<string>, core: multiset<Row>)
    ensures core <= Inserted(actions, active, core)
    decreases |actions|
  {
    if actions == [] {
    } else {
      var next := if actions[0].Record? then InsertIfAbsent(core, active, actions[0].ins) else core;
      if actions[0].Record? { InsertSettles(core, active, actions[0].ins); }
      InsertedGrows(actions[1..], active, next);
    }
  }

  lemma {:induction false} PrefixAbsorbed(actions: seq<Action>, n: nat, active: set<string>, core: multiset<Row>)
    requires n <= |actions|
    ensures Inserted(actions, active, Inserted(actions[..n], active, core)) == Inserted(actions, active, core)
    decreases |actions|
  {
    if n == 0 {
    } else {
      var next := if actions[0].Record? then InsertIfAbsent(core, active, actions[0].ins) else core;
      assert actions[..n][0] == actions[0] && actions[..n][1..] == actions[1..][..n - 1];
      PrefixAbsorbed(actions[1..], n - 1, active, next);
      if actions[0].Record? {
        InsertSettles(core, active, actions[0].ins);
        InsertedGrows(actions[1..][..n - 1], active, next);
        MadeGrows(next, Inserted(actions[1..][..n - 1], active, next), active, actions[0].ins);
      }
    }
  }

  // What every plan keeps to.

  /** Writes go to a known domain and to names and types nobody has overridden; all names are expected ones. */
  predicate Fine(a: Action, v: View, names: set<string>) {
    match a
    case Write(k, _) => k.domain in v.domains.Values && !Overridden(v, k.name, k.rtype) && k.name in names
    case Record(ins) => ins.name in names
  }

  predicate AllFine(actions: seq<Action>, v: View, names: set<string>) {
    forall a :: a in actions ==> Fine(a, v, names)
  }

  /** The first action is a write the foreign key refuses. */
  predicate FailsFirst(actions: seq<Action>, domains: map<string, nat>) {
    actions != [] && actions[0].Write? && actions[0].key.domain !in domains.Values
  }

  function EmailNames(p: EmailParams): set<string> { {p.fqdn, DkimName(p), DmarcName(p)} }

  /** The names an activity is about. */
  function Names(act: Activity): set<string> {
    match act
    case AutoFqdn(p) => {p.fqdn}
    case AutoEmail(p) => EmailNames(p)
    case Retroactive(p) =>
      (set f | f in p.fqdns :: f.1) + (set e, n | e in p.emails && n in EmailNames(e) :: n)
  }

  lemma {:induction false} AddressFine(v: View, zone: string, domain: nat, custom: bool, p: FqdnParams, a: Address)
    requires custom == (Overridden(v, p.fqdn, "A") || Overridden(v, p.fqdn, "AAAA"))
    requires domain in v.domains.Values || custom
    ensures AllFine(AddressActions(zone, domain, custom, p, a), v, {p.fqdn})
  {
  }

  lemma {:induction false} AddressesFine(v: View, zone: string, domain: nat, custom: bool, p: FqdnParams, n: nat)
    requires n <= |p.addresses|
    requires custom == (Overridden(v, p.fqdn, "A") || Overridden(v, p.fqdn, "AAAA"))
    requires domain in v.domains.Values || custom
    ensures AllFine(AddressesActions(zone, domain, custom, p, n), v, {p.fqdn})
    decreases |p.addresses| - n
  {
    if n == |p.addresses| {
    } else {
      AddressFine(v, zone, domain, custom, p, p.addresses[n]);
      AddressesFine(v, zone, domain, custom, p, n + 1);
    }
  }

  lemma {:induction false} AddressesFail(v: View, zone: string, domain: nat, p: FqdnParams, n: nat)
    requires n <= |p.addresses| && domain !in v.domains.Values
    ensures var plan := AddressesActions(zone, domain, false, p, n); plan == [] || FailsFirst(plan, v.domains)
    decreases |p.addresses| - n
  {
    if n < |p.addresses| && TypeOf(p.addresses[n]).None? { AddressesFail(v, zone, domain, p, n + 1); }
  }

  lemma {:induction false} DefsFine(v: View, defs: seq<Def>, names: set<string>)
    requires forall d :: d in defs ==> d.name in names && (d.domain == 0 || d.domain in v.domains.Values)
    ensures AllFine(DefsActions(v, defs), v, names)
    decreases |defs|
  {
    if defs == [] {
    } else {
      DefsFine(v, defs[1..], names);
    }
  }

  lemma {:induction false} EmailDefsNamed(zone: string, domain: nat, p: EmailParams)
    ensures forall d :: d in EmailDefs(zone, domain, p) ==> d.name in EmailNames(p) && d.domain == domain
  {
  }

  lemma {:induction false} EmailFine(v: View, p: EmailParams, names: set<string>)
    requires EmailNames(p) <= names
    ensures AllFine(EmailActions(v, p), v, names)
  {
    var zone := FindZone(v.active, p.fqdn);
    if zone != "" {
      var domain := DomainId(v.domains, zone);
      EmailDefsNamed(zone, domain, p);
      DefsFine(v, EmailDefs(zone, domain, p), names);
    }
  }

  lemma {:induction false} EmailsFine(v: View, emails: seq<EmailParams>, names: set<string>)
    requires forall e :: e in emails ==> EmailNames(e) <= names
    ensures AllFine(EmailsActions(v, emails), v, names)
    decreases |emails|
  {
    if emails == [] {
    } else {
      EmailFine(v, emails[0], names);
      EmailsFine(v, emails[1..], names);
    }
  }

  lemma {:induction false} RetroFqdnFine(
    v: View, domain: nat, p: RetroParams, id: string, fqdn: string, addresses: seq<Address>, names: set<string>)
    requires domain in v.domains.Values && fqdn in names
    ensures AllFine(RetroFqdnActions(v, domain, p, id, fqdn, addresses), v, names)
    decreases |addresses|
  {
    if addresses == [] {
    } else {
      RetroFqdnFine(v, domain, p, id, fqdn, addresses[1..], names);
    }
  }

  lemma {:induction false} RetroFqdnsFine(
    v: View, domain: nat, p: RetroParams, fqdns: seq<(string, string)>, names: set<string>)
    requires domain in v.domains.Values && forall f :: f in fqdns ==> f.1 in names
    ensures AllFine(RetroFqdnsActions(v, domain, p, fqdns), v, names)
    decreases |fqdns|
  {
    if fqdns == [] {
    } else {
      RetroFqdnFine(v, domain, p, fqdns[0].0, fqdns[0].1, p.addresses, names);
      RetroFqdnsFine(v, domain, p, fqdns[1..], names);
    }
  }

  /** A plan is fine throughout, or its very first statement pair is refused and nothing else happens. */
  lemma {:induction false} PlanFineOrFails(v: View, act: Activity)
    ensures AllFine(Plan(v, act), v, Names(act)) || FailsFirst(Plan(v, act), v.domains)
  {
    match act {
      case AutoFqdn(p) =>
        var zone := FindZone(v.active, p.fqdn);
        if zone != "" {
          var custom := Overridden(v, p.fqdn, "A") || Overridden(v, p.fqdn, "AAAA");
          var domain := DomainId(v.domains, zone);
          if domain in v.domains.Values || custom {
            AddressesFine(v, zone, domain, custom, p, 0);
          } else {
            AddressesFail(v, zone, domain, p, 0);
          }
        }
      case AutoEmail(p) => EmailFine(v, p, EmailNames(p));
      case Retroactive(p) =>
        if DomainId(v.domains, p.zone) != 0 {
          RetroFqdnsFine(v, DomainId(v.domains, p.zone), p, p.fqdns, Names(act));
          EmailsFine(v, p.emails, Names(act));
        }
    }
  }

  // Crash and retry.

  lemma {:induction false} OverrideHides(a: Served, b: Served, f: Served)
    requires SameOutside(a, b, f.Keys)
    ensures a + f == b + f
  {
  }

  lemma {:induction false} RetryWritable(actions: seq<Action>, s: Stores, budget: nat, full: nat)
    requires Writable(actions, s.domains) && full >= 2 * |actions|
    ensures RunActions(actions, RunActions(actions, s, budget).0, full).0 == RunActions(actions, s, full).0
    ensures RunActions(actions, RunActions(actions, s, budget).0, full).1 == RunActions(actions, s, full).1
  {
    var s1 := RunActions(actions, s, budget).0;
    ActionsKeepView(actions, s, budget);
    var n := PartialRun(actions, s, budget);
    RunTouches(actions, s, budget);
    FullRun(actions, s, full);
    FullRun(actions, s1, full);
    PrefixAbsorbed(actions, n, s.active, s.core);
    FinalKeys(actions);
    OverrideHides(s1.served, s.served, Final(actions));
  }

  /** A refused write leaves no trace: its delete finds nothing in a domain that is not there. */
  lemma {:induction false} FailingRun(actions: seq<Action>, s: Stores, budget: nat)
    requires Valid(s) && FailsFirst(actions, s.domains)
    ensures RunActions(actions, s, budget).0 == s
    ensures RunActions(actions, s, budget).1 == if budget < 2 then Crashed else Failed
  {
    assert actions[0].key !in s.served;
    assert s.served - {actions[0].key} == s.served;
  }

  /**
   Convergence: an attempt that dies after any number of statements, even between the delete and the
   insert of one record, followed by a run with the same parameters, leaves both stores and reports the
   outcome as one clean run would.
   */
  lemma {:induction false} RetryConverges(act: Activity, s: Stores, budget: nat)
    requires Valid(s)
    ensures Clean(act, Attempt(act, s, budget).0) == Clean(act, s)
  {
    var plan := Plan(ViewOf(s), act);
    ActionsKeepView(plan, s, budget);
    PlanFineOrFails(ViewOf(s), act);
    if FailsFirst(plan, s.domains) {
      FailingRun(plan, s, budget);
    } else {
      RetryWritable(plan, s, budget, 2 * |plan|);
    }
  }

  /** Any number of attempts that died. */
  function Attempts(act: Activity, s: Stores, budgets: seq<nat>): Stores
    decreases |budgets|
  {
    if budgets == [] then s else Attempts(act, Attempt(act, s, budgets[0]).0, budgets[1..])
  }

  lemma {:induction false} RetriesConverge(act: Activity, s: Stores, budgets: seq<nat>)
    requires Valid(s)
    ensures Clean(act, Attempts(act, s, budgets)) == Clean(act, s)
    decreases |budgets|
  {
    if budgets == [] {
    } else {
      ActionsKeepView(Plan(ViewOf(s), act), s, budgets[0]);
      RetryConverges(act, s, budgets[0]);
      RetriesConverge(act, Attempt(act, s, budgets[0]).0, budgets[1..]);
    }
  }

  // The same reading and writing, in literal terms.

  /** A custom record of the name and type is active. */
  ghost predicate CustomActive(core: multiset<Row>, name: string, rtype: string) {
    exists r :: r in core && r.manager == Custom && r.active && r.name == name && r.rtype == rtype
  }

  lemma {:induction false} OverriddenIff(s: Stores, name: string, rtype: string)
    ensures Overridden(ViewOf(s), name, rtype) <==> CustomActive(s.core, name, rtype)
  {
  }

  /** The record type of an address: A for family 4, AAAA for family 6, none for any other. */
  predicate IsType(a: Address, t: string) {
    (a.family == 4 && t == "A") || (a.family == 6 && t == "AAAA")
  }

  // What a clean run achieves.

  lemma {:induction false} FinalVal(actions: seq<Action>, val: Val)
    requires forall a :: a in actions && a.Write? ==> a.val == val
    ensures forall k :: k in Final(actions) ==> Final(actions)[k] == [val]
  {
    if actions == [] {
    } else {
      FinalVal(actions[1..], val);
    }
  }

  lemma {:induction false} InsertedMakes(actions: seq<Action>, active: set<string>, core: multiset<Row>, ins: Insert)
    requires Record(ins) in actions
    ensures Made(Inserted(actions, active, core), active, ins)
    decreases |actions|
  {
    var next := if actions[0].Record? then InsertIfAbsent(core, active, actions[0].ins) else core;
    if actions[0] == Record(ins) {
      InsertSettles(core, active, ins);
      InsertedGrows(actions[1..], active, next);
      MadeGrows(next, Inserted(actions[1..], active, next), active, ins);
    } else {
      InsertedMakes(actions[1..], active, next, ins);
    }
  }

  lemma {:induction false} AddressPlanned(zone: string, domain: nat, custom: bool, p: FqdnParams, n: nat, i: nat)
    requires n <= i < |p.addresses|
    ensures forall a :: a in AddressActions(zone, domain, custom, p, p.addresses[i]) ==>
      a in AddressesActions(zone, domain, custom, p, n)
    decreases |p.addresses| - n
  {
    if n < i { AddressPlanned(zone, domain, custom, p, n + 1, i); }
  }

  lemma {:induction false} AddressesVal(zone: string, domain: nat, custom: bool, p: FqdnParams, n: nat)
    requires n <= |p.addresses|
    ensures forall a :: a in AddressesActions(zone, domain, custom, p, n) && a.Write? ==> a.val == Val(TTL, None)
    ensures custom ==> forall a :: a in AddressesActions(zone, domain, custom, p, n) ==> a.Record?
    decreases |p.addresses| - n
  {
    if n == |p.addresses| {
    } else {
      AddressesVal(zone, domain, custom, p, n + 1);
    }
  }

  /** The automatic address record of a name in the core database. */
  predicate Recorded(core: multiset<Row>, zone: string, name: string, rtype: string, content: string) {
    exists r :: r in core && r.zone == zone && r.manager == Auto && r.name == name && r.rtype == rtype && r.content == content
  }

  lemma {:induction false} AddressWritten(zone: string, domain: nat, p: FqdnParams, i: nat, t: string)
    requires i < |p.addresses| && IsType(p.addresses[i], t)
    ensures var k := Key(domain, p.fqdn, t, p.addresses[i].address);
      var final := Final(AddressesActions(zone, domain, false, p, 0));
      k in final && final[k] == [Val(TTL, None)]
  {
    var plan := AddressesActions(zone, domain, false, p, 0);
    AddressPlanned(zone, domain, false, p, 0, i);
    AddressesVal(zone, domain, false, p, 0);
    FinalVal(plan, Val(TTL, None));
    FinalKeys(plan);
    var w := Write(Key(domain, p.fqdn, t, p.addresses[i].address), Val(TTL, None));
    assert w in AddressActions(zone, domain, false, p, p.addresses[i]);
    assert w.key in Keys(plan);
  }

  lemma {:induction false} OverriddenWritesNothing(zone: string, domain: nat, p: FqdnParams)
    ensures Final(AddressesActions(zone, domain, true, p, 0)) == map[]
  {
    var plan := AddressesActions(zone, domain, true, p, 0);
    AddressesVal(zone, domain, true, p, 0);
    FinalKeys(plan);
    assert Final(plan).Keys == {};
  }

  lemma {:induction false} AddressRecorded(
    s: Stores, zone: string, domain: nat, custom: bool, p: FqdnParams, i: nat, t: string)
    requires i < |p.addresses| && IsType(p.addresses[i], t) && zone in s.active
    ensures Recorded(Inserted(AddressesActions(zone, domain, custom, p, 0), s.active, s.core),
                     zone, p.fqdn, t, p.addresses[i].address)
  {
    var ins := Insert(zone, true, t, p.fqdn, p.addresses[i].address, TTL, None, "fqdn", p.sourceId, true);
    AddressPlanned(zone, domain, custom, p, 0, i);
    assert Record(ins) in AddressActions(zone, domain, custom, p, p.addresses[i]);
    InsertedMakes(AddressesActions(zone, domain, custom, p, 0), s.active, s.core, ins);
  }

  /** What a clean run leaves of one address: a core row, and a served row unless the name is overridden. */
  ghost predicate AddressInPlace(before: Stores, after: Stores, zone: string, fqdn: string, t: string, address: string)
    requires zone in before.domains
  {
    && Recorded(after.core, zone, fqdn, t, address)
    && if CustomActive(before.core, fqdn, "A") || CustomActive(before.core, fqdn, "AAAA")
       then after.served == before.served
       else var k := Key(before.domains[zone], fqdn, t, address);
         k in after.served && after.served[k] == [Val(300, None)]
  }

  /**
   A clean run for a name whose zone both stores have: every address is known to the core database; it is
   served once, for 300 seconds, unless a custom address record overrides the name, and then what is
   served does not change at all.
   */
  lemma {:induction false} CleanServesAddresses(s: Stores, p: FqdnParams, i: nat, zone: string, t: string)
    requires i < |p.addresses| && IsType(p.addresses[i], t)
    requires zone == FindZone(s.active, p.fqdn) && zone != "" && zone in s.active && zone in s.domains
    ensures Clean(AutoFqdn(p), s).1 == Done
    ensures AddressInPlace(s, Clean(AutoFqdn(p), s).0, zone, p.fqdn, t, p.addresses[i].address)
  {
    var v := ViewOf(s);
    var domain := s.domains[zone];
    var custom := Overridden(v, p.fqdn, "A") || Overridden(v, p.fqdn, "AAAA");
    var plan := AddressesActions(zone, domain, custom, p, 0);
    AddressesFine(v, zone, domain, custom, p, 0);
    FullRun(plan, s, 2 * |plan|);
    AddressRecorded(s, zone, domain, custom, p, i, t);
    OverriddenIff(s, p.fqdn, "A");
    OverriddenIff(s, p.fqdn, "AAAA");
    if custom {
      OverriddenWritesNothing(zone, domain, p);
      assert s.served + map[] == s.served;
    } else {
      AddressWritten(zone, domain, p, i, t);
    }
  }

  /** Of the mail records only the mail exchanger has a priority. */
  function PriorityFor(rtype: string): Option<int> { if rtype == "MX" then Some(10) else None }

  lemma {:induction false} FinalByType(actions: seq<Action>)
    requires forall a :: a in actions && a.Write? ==> a.val == Val(TTL, PriorityFor(a.key.rtype))
    ensures forall k :: k in Final(actions) ==> Final(actions)[k] == [Val(TTL, PriorityFor(k.rtype))]
  {
    if actions == [] {
    } else {
      FinalByType(actions[1..]);
    }
  }

  lemma {:induction false} DefsVal(v: View, defs: seq<Def>)
    requires forall d :: d in defs ==> d.priority == PriorityFor(d.rtype)
    ensures forall a :: a in DefsActions(v, defs) && a.Write? ==> a.val == Val(TTL, PriorityFor(a.key.rtype))
    decreases |defs|
  {
    if defs == [] {
    } else {
      DefsVal(v, defs[1..]);
    }
  }

  lemma {:induction false} DefPlanned(v: View, defs: seq<Def>, d: Def)
    requires d in defs
    ensures forall a :: a in AutoActions(v, d) ==> a in DefsActions(v, defs)
    decreases |defs|
  {
    if defs[0] != d {
      assert defs == [defs[0]] + defs[1..];
      DefPlanned(v, defs[1..], d);
    }
  }

  lemma {:induction false} EmailDefsPriority(zone: string, domain: nat, p: EmailParams)
    ensures forall d :: d in EmailDefs(zone, domain, p) ==> d.priority == PriorityFor(d.rtype) && d.zone == zone
  {
  }

  /** The record is known by what it is for, and served unless overridden. */
  ghost predicate MailRecordInPlace(before: Stores, after: Stores, d: Def) {
    && (exists r :: r in after.core && r.zone == d.zone && r.manager == Auto && r.name == d.name && r.rtype == d.rtype
                    && r.sourceType == d.sourceType)
    && (!Overridden(ViewOf(before), d.name, d.rtype) ==>
        var k := Key(d.domain, d.name, d.rtype, d.content);
        k in after.served && after.served[k] == [Val(TTL, d.priority)])
  }

  /** A clean run for a mail domain whose zone both stores have puts every one of its records in place. */
  lemma {:induction false} CleanServesMail(s: Stores, p: EmailParams, zone: string, d: Def)
    requires zone == FindZone(s.active, p.fqdn) && zone != "" && zone in s.active
    requires zone in s.domains && s.domains[zone] > 0 && d in EmailDefs(zone, s.domains[zone], p)
    ensures Clean(AutoEmail(p), s).1 == Done
    ensures MailRecordInPlace(s, Clean(AutoEmail(p), s).0, d)
  {
    var v, defs := ViewOf(s), EmailDefs(zone, s.domains[zone], p);
    var plan := DefsActions(v, defs);
    EmailFine(v, p, EmailNames(p));
    FullRun(plan, s, 2 * |plan|);
    EmailDefsNamed(zone, s.domains[zone], p);
    EmailDefsPriority(zone, s.domains[zone], p);
    DefPlanned(v, defs, d);
    MailRecorded(v, s, plan, d);
    DefsVal(v, defs);
    FinalByType(plan);
    FinalKeys(plan);
    if !Overridden(v, d.name, d.rtype) {
      var w := Write(Key(d.domain, d.name, d.rtype, d.content), Val(TTL, d.priority));
      assert w in AutoActions(v, d) && w.key in Keys(plan);
    }
  }

  lemma {:induction false} MailRecorded(v: View, s: Stores, plan: seq<Action>, d: Def)
    requires (forall a :: a in AutoActions(v, d) ==> a in plan) && d.zone in s.active
    ensures exists r :: r in Inserted(plan, s.active, s.core) && r.zone == d.zone && r.manager == Auto
                        && r.name == d.name && r.rtype == d.rtype && r.sourceType == d.sourceType
  {
    var ins := Insert(d.zone, true, d.rtype, d.name, d.content, TTL, d.priority, d.sourceType, d.sourceId, false);
    assert Record(ins) in AutoActions(v, d);
    InsertedMakes(plan, s.active, s.core, ins);
    var r :| r in Inserted(plan, s.active, s.core) && Clashes(r, ins);
  }

  // The retroactive run.

  lemma {:induction false} RetroAddressVal(
    v: View, domain: nat, p: RetroParams, id: string, fqdn: string, addresses: seq<Address>)
    ensures forall a :: a in RetroFqdnActions(v, domain, p, id, fqdn, addresses) && a.Write? ==>
      a.val == Val(TTL, PriorityFor(a.key.rtype))
    decreases |addresses|
  {
    if addresses == [] {
    } else {
      RetroAddressVal(v, domain, p, id, fqdn, addresses[1..]);
    }
  }

  lemma {:induction false} RetroFqdnsVal(v: View, domain: nat, p: RetroParams, fqdns: seq<(string, string)>)
    ensures forall a :: a in RetroFqdnsActions(v, domain, p, fqdns) && a.Write? ==>
      a.val == Val(TTL, PriorityFor(a.key.rtype))
    decreases |fqdns|
  {
    if fqdns == [] {
    } else {
      RetroAddressVal(v, domain, p, fqdns[0].0, fqdns[0].1, p.addresses);
      RetroFqdnsVal(v, domain, p, fqdns[1..]);
    }
  }

  lemma {:induction false} EmailsVal(v: View, emails: seq<EmailParams>)
    ensures forall a :: a in EmailsActions(v, emails) && a.Write? ==> a.val == Val(TTL, PriorityFor(a.key.rtype))
    decreases |emails|
  {
    if emails == [] {
    } else {
      var zone := FindZone(v.active, emails[0].fqdn);
      EmailDefsPriority(zone, DomainId(v.domains, zone), emails[0]);
      DefsVal(v, EmailDefs(zone, DomainId(v.domains, zone), emails[0]));
      EmailsVal(v, emails[1..]);
    }
  }

  lemma {:induction false} RetroAddressPlanned(
    v: View, domain: nat, p: RetroParams, id: string, fqdn: string, addresses: seq<Address>, a: Address)
    requires a in addresses
    ensures forall x :: x in RetroAddressActions(v, domain, p, id, fqdn, a) ==>
      x in RetroFqdnActions(v, domain, p, id, fqdn, addresses)
    decreases |addresses|
  {
    if addresses[0] != a {
      assert addresses == [addresses[0]] + addresses[1..];
      RetroAddressPlanned(v, domain, p, id, fqdn, addresses[1..], a);
    }
  }

  lemma {:induction false} RetroFqdnPlanned(
    v: View, domain: nat, p: RetroParams, fqdns: seq<(string, string)>, f: (string, string), a: Address)
    requires f in fqdns && a in p.addresses
    ensures forall x :: x in RetroAddressActions(v, domain, p, f.0, f.1, a) ==> x in RetroFqdnsActions(v, domain, p, fqdns)
    decreases |fqdns|
  {
    if fqdns[0] == f {
      RetroAddressPlanned(v, domain, p, f.0, f.1, p.addresses, a);
    } else {
      assert fqdns == [fqdns[0]] + fqdns[1..];
      RetroFqdnPlanned(v, domain, p, fqdns[1..], f, a);
    }
  }

  /** The address record of a name found for a new zone. */
  ghost predicate FoundInPlace(before: Stores, after: Stores, zone: string, fqdn: string, t: string, address: string)
    requires zone in before.domains
  {
    && Recorded(after.core, zone, fqdn, t, address)
    && (!CustomActive(before.core, fqdn, t) ==>
        var k := Key(before.domains[zone], fqdn, t, address);
        k in after.served && after.served[k] == [Val(300, None)])
  }

  /** A clean retroactive run puts the address records of every name found in place, each type on its own. */
  lemma {:induction false} CleanServesFound(s: Stores, p: RetroParams, f: (string, string), a: Address, t: string)
    requires p.zone in s.domains && s.domains[p.zone] > 0
    requires f in p.fqdns && a in p.addresses && IsType(a, t)
    ensures Clean(Retroactive(p), s).1 == Done
    ensures FoundInPlace(s, Clean(Retroactive(p), s).0, p.zone, f.1, t, a.address)
  {
    var v, domain := ViewOf(s), s.domains[p.zone];
    var first, second := RetroFqdnsActions(v, domain, p, p.fqdns), EmailsActions(v, p.emails);
    var plan := first + second;
    assert Plan(v, Retroactive(p)) == plan;
    PlanFineOrFails(v, Retroactive(p));
    RetroFqdnsFine(v, domain, p, p.fqdns, Names(Retroactive(p)));
    EmailsFine(v, p.emails, Names(Retroactive(p)));
    FullRun(plan, s, 2 * |plan|);
    RetroFqdnPlanned(v, domain, p, p.fqdns, f, a);
    var ins := Insert(p.zone, false, t, f.1, a.address, TTL, None, "fqdn", f.0, true);
    assert Record(ins) in RetroAddressActions(v, domain, p, f.0, f.1, a);
    InsertedMakes(plan, s.active, s.core, ins);
    OverriddenIff(s, f.1, t);
    if !Overridden(v, f.1, t) {
      RetroFqdnsVal(v, domain, p, p.fqdns);
      EmailsVal(v, p.emails);
      FinalByType(plan);
      FinalKeys(plan);
      var w := Write(Key(domain, f.1, t, a.address), Val(TTL, None));
      assert w in RetroAddressActions(v, domain, p, f.0, f.1, a) && w.key in Keys(plan);
    }
  }
}
