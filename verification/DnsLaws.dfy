/**
 What the automatic DNS activities put into the two stores, in terms of their parameters and literal record
 types, contents and times to live alone (internal/activity/dns.go:33-89, 137-219 and 390-516).
 */
module DnsLaws {
  import opened Text
  import opened DnsZones
  import opened DnsRecords

  // What is read.

  lemma {:induction false} FoundIsActive(zones: set<string>, f: string, i: nat)
    requires i <= |Split(f, '.')|
    ensures FindFrom(zones, f, i) != "" ==> FindFrom(zones, f, i) in zones
    decreases |Split(f, '.')| - i
  {
    if i < |Split(f, '.')| && Candidate(f, i) !in zones { FoundIsActive(zones, f, i + 1); }
  }

  // Which actions are planned.

  /** The action is about this address of this name. */
  predicate AddressAction(
    zone: string, domain: nat, ifActive: bool, name: string, id: string, a: Address, x: Action) {
    match x
    case Write(k, v) =>
      && IsType(a, k.rtype) && k.domain == domain && k.name == name && k.content == a.address
      && v.ttl == 300 && v.priority == None
    case Record(i) =>
      && IsType(a, i.rtype) && i.zone == zone && i.ifActive == ifActive && i.name == name && i.content == a.address
      && i.ttl == 300 && i.priority == None && i.sourceType == "fqdn" && i.sourceId == id && i.byContent
  }

  lemma {:induction false} AddressActionsAre(
    zone: string, domain: nat, custom: bool, p: FqdnParams, a: Address, x: Action)
    ensures x in AddressActions(zone, domain, custom, p, a)
       <==> AddressAction(zone, domain, true, p.fqdn, p.sourceId, a, x) && (x.Write? ==> !custom)
  {
    if a.family == 4 || a.family == 6 {
      var t := if a.family == 4 then "A" else "AAAA";
      var w := Write(Key(domain, p.fqdn, t, a.address), Val(300, None));
      var r := Record(Insert(zone, true, t, p.fqdn, a.address, 300, None, "fqdn", p.sourceId, true));
      assert AddressActions(zone, domain, custom, p, a) == if custom then [r] else [w, r];
      assert AddressAction(zone, domain, true, p.fqdn, p.sourceId, a, x) <==> x == w || x == r;
    }
  }

  lemma {:induction false} AddressesActionsAre(
    zone: string, domain: nat, custom: bool, p: FqdnParams, n: nat, x: Action)
    requires n <= |p.addresses|
    ensures x in AddressesActions(zone, domain, custom, p, n)
       <==> (x.Write? ==> !custom)
            && exists i :: n <= i < |p.addresses|
                           && AddressAction(zone, domain, true, p.fqdn, p.sourceId, p.addresses[i], x)
    decreases |p.addresses| - n
  {
    if n == |p.addresses| {
    } else {
      AddressActionsAre(zone, domain, custom, p, p.addresses[n], x);
      AddressesActionsAre(zone, domain, custom, p, n + 1, x);
    }
  }

  /** What a creation for a host name plans in its zone. */
  ghost predicate HostPlanned(zone: string, domain: nat, custom: bool, p: FqdnParams, x: Action) {
    && (x.Write? ==> !custom)
    && exists a :: a in p.addresses && AddressAction(zone, domain, true, p.fqdn, p.sourceId, a, x)
  }

  lemma {:induction false} HostPlanIs(s: Stores, p: FqdnParams, x: Action)
    ensures var zone := FindZone(s.active, p.fqdn);
      var custom := CustomActive(s.core, p.fqdn, "A") || CustomActive(s.core, p.fqdn, "AAAA");
      x in Plan(ViewOf(s), AutoFqdn(p)) <==> zone != "" && HostPlanned(zone, DomainId(s.domains, zone), custom, p, x)
  {
    var zone := FindZone(s.active, p.fqdn);
    var custom := CustomActive(s.core, p.fqdn, "A") || CustomActive(s.core, p.fqdn, "AAAA");
    OverriddenIff(s, p.fqdn, "A");
    OverriddenIff(s, p.fqdn, "AAAA");
    AddressesActionsAre(zone, DomainId(s.domains, zone), custom, p, 0, x);
    if a :| a in p.addresses && AddressAction(zone, DomainId(s.domains, zone), true, p.fqdn, p.sourceId, a, x) {
      var i :| 0 <= i < |p.addresses| && p.addresses[i] == a;
    }
  }

  /** The four records of a mail domain: the mail exchanger, the senders, the signing key, the policy. */
  predicate MailRecord(p: EmailParams, name: string, rtype: string, content: string, priority: Option<int>, source: string) {
    || (p.mailHostname != "" && name == p.fqdn && rtype == "MX" && content == p.mailHostname
        && priority == Some(10) && source == "email-mx")
    || (name == p.fqdn && rtype == "TXT" && content == SendersText(p.spfIncludes)
        && priority == None && source == "email-spf")
    || (p.dkimSelector != "" && p.dkimPublicKey != "" && name == p.dkimSelector + "._domainkey." + p.fqdn
        && rtype == "TXT" && content == "v=DKIM1; k=rsa; p=" + p.dkimPublicKey && priority == None && source == "email-dkim")
    || (p.dmarcPolicy != "" && name == "_dmarc." + p.fqdn && rtype == "TXT" && content == p.dmarcPolicy
        && priority == None && source == "email-dmarc")
  }

  /** The term of one entry of the list, white space around it dropped; a blank entry has none. */
  function Term(part: string): string { if TrimSpace(part) == "" then "" else "include:" + TrimSpace(part) + " " }

  function Terms(parts: seq<string>): string {
    if parts == [] then "" else Term(parts[0]) + Terms(parts[1..])
  }

  function SendersText(includes: string): string { "v=spf1 mx " + Terms(Split(includes, ',')) + "~all" }

  /** The terms of a list that has been joined. */
  function Spaced(list: seq<string>): string { if list == [] then "" else Join(list, " ") + " " }

  lemma {:induction false} SpacedFirst(first: string, rest: seq<string>)
    ensures Spaced([first] + rest) == first + " " + Spaced(rest)
  {
    assert ([first] + rest)[1..] == rest;
    if rest != [] {
      var tail := Join(rest, " ");
      assert (first + " " + tail) + " " == first + " " + (tail + " ");
    }
  }

  lemma {:induction false} JoinedTerms(parts: seq<string>)
    ensures Terms(parts) == Spaced(Includes(parts))
    decreases |parts|
  {
    if parts == [] {
    } else {
      JoinedTerms(parts[1..]);
      if TrimSpace(parts[0]) == "" {
        assert Includes(parts) == [] + Includes(parts[1..]) == Includes(parts[1..]);
      } else {
        var first := "include:" + TrimSpace(parts[0]);
        SpacedFirst(first, Includes(parts[1..]));
        assert Includes(parts) == [first] + Includes(parts[1..]);
        assert Term(parts[0]) == first + " ";
      }
    }
  }

  lemma {:induction false} SendersAre(includes: string)
    ensures SpfContent(includes) == SendersText(includes)
  {
    var parts := Split(includes, ',');
    JoinedTerms(parts);
    if includes == "" { NoSenders(); }
  }

  lemma {:induction false} NoSenders()
    ensures Terms(Split("", ',')) == ""
  {
    assert Split("", ',') == [""];
    assert TrimSpace("") == "" && [""][1..] == [];
  }

  lemma {:induction false} MailDefsAre(zone: string, domain: nat, p: EmailParams, d: Def)
    ensures d in EmailDefs(zone, domain, p)
       <==> d.zone == zone && d.domain == domain && d.sourceId == p.sourceId
            && MailRecord(p, d.name, d.rtype, d.content, d.priority, d.sourceType)
  {
    SendersAre(p.spfIncludes);
    assert d in MxDefs(zone, domain, p) <==>
      p.mailHostname != "" && d == Def(zone, domain, p.fqdn, "MX", p.mailHostname, Some(10), "email-mx", p.sourceId);
    assert d in DkimDefs(zone, domain, p) <==>
      p.dkimSelector != "" && p.dkimPublicKey != ""
      && d == Def(zone, domain, p.dkimSelector + "._domainkey." + p.fqdn, "TXT",
                  "v=DKIM1; k=rsa; p=" + p.dkimPublicKey, None, "email-dkim", p.sourceId);
  }

  /** The action is about this record of a mail domain. */
  predicate MailAction(zone: string, domain: nat, p: EmailParams, source: string, x: Action) {
    match x
    case Write(k, v) =>
      domain > 0 && k.domain == domain && v.ttl == 300 && MailRecord(p, k.name, k.rtype, k.content, v.priority, source)
    case Record(i) =>
      && i.zone == zone && i.ifActive && i.ttl == 300 && i.sourceType == source && i.sourceId == p.sourceId && !i.byContent
      && MailRecord(p, i.name, i.rtype, i.content, i.priority, source)
  }

  lemma {:induction false} DefActionsAre(v: View, d: Def, x: Action)
    ensures x in AutoActions(v, d)
       <==> match x
            case Write(k, val) =>
              && !Overridden(v, d.name, d.rtype) && d.domain > 0
              && k == Key(d.domain, d.name, d.rtype, d.content) && val == Val(300, d.priority)
            case Record(i) =>
              i == Insert(d.zone, true, d.rtype, d.name, d.content, 300, d.priority, d.sourceType, d.sourceId, false)
  {
  }

  lemma {:induction false} DefsActionsAre(v: View, defs: seq<Def>, x: Action)
    ensures x in DefsActions(v, defs) <==> exists d :: d in defs && x in AutoActions(v, d)
    decreases |defs|
  {
    if defs == [] {
    } else {
      DefsActionsAre(v, defs[1..], x);
      assert defs == [defs[0]] + defs[1..];
    }
  }

  /** What a creation for a mail domain plans in its zone. */
  ghost predicate MailPlanned(s: Stores, zone: string, domain: nat, p: EmailParams, x: Action) {
    && (x.Write? ==> !CustomActive(s.core, x.key.name, x.key.rtype))
    && exists source :: MailAction(zone, domain, p, source, x)
  }

  lemma {:induction false} DefsAreMail(s: Stores, zone: string, domain: nat, p: EmailParams, x: Action)
    ensures x in DefsActions(ViewOf(s), EmailDefs(zone, domain, p)) <==> MailPlanned(s, zone, domain, p, x)
  {
    var v, defs := ViewOf(s), EmailDefs(zone, domain, p);
    DefsActionsAre(v, defs, x);
    if x.Write? { OverriddenIff(s, x.key.name, x.key.rtype); }
    if d :| d in defs && x in AutoActions(v, d) {
      MailDefsAre(zone, domain, p, d);
      DefActionsAre(v, d, x);
      assert MailAction(zone, domain, p, d.sourceType, x);
    }
    if MailPlanned(s, zone, domain, p, x) {
      var source :| MailAction(zone, domain, p, source, x);
      var d := DefOf(zone, domain, p, source, x);
      MailDefsAre(zone, domain, p, d);
      DefActionsAre(v, d, x);
    }
  }

  function DefOf(zone: string, domain: nat, p: EmailParams, source: string, x: Action): Def {
    match x
    case Write(k, v) => Def(zone, domain, k.name, k.rtype, k.content, v.priority, source, p.sourceId)
    case Record(i) => Def(zone, domain, i.name, i.rtype, i.content, i.priority, source, p.sourceId)
  }

  lemma {:induction false} MailPlanIs(s: Stores, p: EmailParams, x: Action)
    ensures var zone := FindZone(s.active, p.fqdn);
      x in Plan(ViewOf(s), AutoEmail(p)) <==> zone != "" && MailPlanned(s, zone, DomainId(s.domains, zone), p, x)
  {
    var zone := FindZone(s.active, p.fqdn);
    DefsAreMail(s, zone, DomainId(s.domains, zone), p, x);
  }

  // The retroactive run.

  ghost predicate FoundPlanned(s: Stores, p: RetroParams, domain: nat, x: Action) {
    && (x.Write? ==> !CustomActive(s.core, x.key.name, x.key.rtype))
    && exists f, a :: f in p.fqdns && a in p.addresses && AddressAction(p.zone, domain, false, f.1, f.0, a, x)
  }

  lemma {:induction false} FoundAddressIs(
    s: Stores, domain: nat, p: RetroParams, id: string, fqdn: string, a: Address, x: Action)
    ensures x in RetroAddressActions(ViewOf(s), domain, p, id, fqdn, a)
       <==> AddressAction(p.zone, domain, false, fqdn, id, a, x)
            && (x.Write? ==> !CustomActive(s.core, x.key.name, x.key.rtype))
  {
    if a.family == 4 || a.family == 6 {
      var t := if a.family == 4 then "A" else "AAAA";
      OverriddenIff(s, fqdn, t);
      var w := Write(Key(domain, fqdn, t, a.address), Val(300, None));
      var r := Record(Insert(p.zone, false, t, fqdn, a.address, 300, None, "fqdn", id, true));
      assert RetroAddressActions(ViewOf(s), domain, p, id, fqdn, a)
          == if CustomActive(s.core, fqdn, t) then [r] else [w, r];
      assert AddressAction(p.zone, domain, false, fqdn, id, a, x) <==> x == w || x == r;
    }
  }

  lemma {:induction false} FoundNameIs(
    s: Stores, domain: nat, p: RetroParams, id: string, fqdn: string, addresses: seq<Address>, x: Action)
    ensures x in RetroFqdnActions(ViewOf(s), domain, p, id, fqdn, addresses)
       <==> (x.Write? ==> !CustomActive(s.core, x.key.name, x.key.rtype))
            && exists a :: a in addresses && AddressAction(p.zone, domain, false, fqdn, id, a, x)
    decreases |addresses|
  {
    if addresses == [] {
    } else {
      FoundAddressIs(s, domain, p, id, fqdn, addresses[0], x);
      FoundNameIs(s, domain, p, id, fqdn, addresses[1..], x);
      assert addresses == [addresses[0]] + addresses[1..];
    }
  }

  lemma {:induction false} FoundNamesAre(
    s: Stores, domain: nat, p: RetroParams, fqdns: seq<(string, string)>, x: Action)
    ensures x in RetroFqdnsActions(ViewOf(s), domain, p, fqdns)
       <==> (x.Write? ==> !CustomActive(s.core, x.key.name, x.key.rtype))
            && exists f, a :: f in fqdns && a in p.addresses && AddressAction(p.zone, domain, false, f.1, f.0, a, x)
    decreases |fqdns|
  {
    if fqdns == [] {
    } else {
      FoundNameIs(s, domain, p, fqdns[0].0, fqdns[0].1, p.addresses, x);
      FoundNamesAre(s, domain, p, fqdns[1..], x);
      assert fqdns == [fqdns[0]] + fqdns[1..];
    }
  }

  /** The mail domain has a zone, and the action is planned there. */
  ghost predicate MailDomainPlanned(s: Stores, e: EmailParams, x: Action) {
    var zone := FindZone(s.active, e.fqdn);
    zone != "" && MailPlanned(s, zone, DomainId(s.domains, zone), e, x)
  }

  /** The action is in the plan of the mail domain. */
  ghost predicate InMailPlan(v: View, e: EmailParams, x: Action) { x in EmailActions(v, e) }

  lemma {:induction false} EmailsActionsAre(v: View, emails: seq<EmailParams>, x: Action)
    ensures x in EmailsActions(v, emails) <==> exists i :: 0 <= i < |emails| && InMailPlan(v, emails[i], x)
    decreases |emails|
  {
    if emails == [] {
    } else {
      var first, rest := EmailActions(v, emails[0]), EmailsActions(v, emails[1..]);
      EmailsActionsAre(v, emails[1..], x);
      assert x in first + rest <==> x in first || x in rest;
      forall i | 0 <= i < |emails| - 1 ensures InMailPlan(v, emails[1..][i], x) <==> InMailPlan(v, emails[i + 1], x) {}
      if i :| 0 <= i < |emails| && InMailPlan(v, emails[i], x) {
        if i > 0 { assert InMailPlan(v, emails[1..][i - 1], x); }
      }
    }
  }

  lemma {:induction false} MailDomainsAre(s: Stores, emails: seq<EmailParams>, x: Action)
    ensures x in EmailsActions(ViewOf(s), emails) <==> exists e :: e in emails && MailDomainPlanned(s, e, x)
  {
    EmailsActionsAre(ViewOf(s), emails, x);
    forall e | e in emails ensures InMailPlan(ViewOf(s), e, x) <==> MailDomainPlanned(s, e, x) {
      MailPlanIs(s, e, x);
    }
  }

  lemma {:induction false} RetroPlanIs(s: Stores, p: RetroParams, x: Action)
    ensures x in Plan(ViewOf(s), Retroactive(p))
       <==> DomainId(s.domains, p.zone) > 0
            && (FoundPlanned(s, p, DomainId(s.domains, p.zone), x) || exists e :: e in p.emails && MailDomainPlanned(s, e, x))
  {
    FoundNamesAre(s, DomainId(s.domains, p.zone), p, p.fqdns, x);
    MailDomainsAre(s, p.emails, x);
  }

  // What a run leaves in the core database.

  /** An insert of the plan that nothing in the core database keeps from being made, and its row. */
  ghost predicate Adds(actions: seq<Action>, active: set<string>, core: multiset<Row>, r: Row) {
    exists ins :: Record(ins) in actions && RowOf(ins) == r && !Made(core, active, ins)
  }

  /** No insert of the plan is kept from being made by the row of another. */
  ghost predicate Apart(actions: seq<Action>) {
    forall i, j :: Record(i) in actions && Record(j) in actions && Clashes(RowOf(i), j) ==> i == j
  }

  lemma {:induction false} InsertedExactly(actions: seq<Action>, active: set<string>, core: multiset<Row>, r: Row)
    requires Apart(actions)
    ensures Inserted(actions, active, core)[r] == core[r] + if Adds(actions, active, core, r) then 1 else 0
    decreases |actions|
  {
    if actions == [] {
    } else {
      var rest := actions[1..];
      assert actions == [actions[0]] + rest;
      var next := if actions[0].Record? then InsertIfAbsent(core, active, actions[0].ins) else core;
      InsertedExactly(rest, active, next, r);
      if actions[0].Record? { FirstAdds(actions[0].ins, rest, active, core, r); }
      assert Adds(actions, active, core, r) <==>
        (actions[0].Record? && RowOf(actions[0].ins) == r && !Made(core, active, actions[0].ins)) || Adds(rest, active, core, r);
    }
  }

  lemma {:induction false} FirstAdds(ins: Insert, rest: seq<Action>, active: set<string>, core: multiset<Row>, r: Row)
    requires Apart([Record(ins)] + rest)
    ensures var next := InsertIfAbsent(core, active, ins);
      && (Made(core, active, ins) ==> next == core)
      && (!Made(core, active, ins) && RowOf(ins) == r ==> next[r] == core[r] + 1 && !Adds(rest, active, next, r))
      && (!Made(core, active, ins) && RowOf(ins) != r ==>
            next[r] == core[r] && (Adds(rest, active, next, r) <==> Adds(rest, active, core, r)))
  {
    if !Made(core, active, ins) {
      var next := InsertIfAbsent(core, active, ins);
      assert RowOf(ins) in next;
      forall j | Record(j) in rest ensures RowOf(j) == RowOf(ins) ==> Made(next, active, j) {
        assert Clashes(RowOf(j), j);
      }
      forall j | Record(j) in rest && RowOf(j) != RowOf(ins) ensures Made(next, active, j) <==> Made(core, active, j) {
        assert Record(ins) in [Record(ins)] + rest && Record(j) in [Record(ins)] + rest;
        assert !Clashes(RowOf(ins), j);
        assert forall q :: q in next <==> q in core || q == RowOf(ins);
      }
    }
  }

  lemma {:induction false} InsertedOnlyPlanned(actions: seq<Action>, active: set<string>, core: multiset<Row>, r: Row)
    ensures core[r] <= Inserted(actions, active, core)[r]
    ensures Inserted(actions, active, core)[r] > core[r] ==> exists ins :: Record(ins) in actions && RowOf(ins) == r
    decreases |actions|
  {
    if actions == [] {
    } else {
      var next := if actions[0].Record? then InsertIfAbsent(core, active, actions[0].ins) else core;
      InsertedOnlyPlanned(actions[1..], active, next, r);
      assert actions == [actions[0]] + actions[1..];
    }
  }

  // What the activities achieve.

  lemma {:induction false} MailPriority(p: EmailParams, name: string, rtype: string, content: string, pr: Option<int>, source: string)
    requires MailRecord(p, name, rtype, content, pr, source)
    ensures pr == if rtype == "MX" then Some(10) else None
    ensures rtype != "A" && rtype != "AAAA"
  {
  }

  lemma {:induction false} PlannedValue(s: Stores, act: Activity, x: Action)
    requires x in Plan(ViewOf(s), act) && x.Write?
    ensures x.val.ttl == 300 && x.val.priority == if x.key.rtype == "MX" then Some(10) else None
  {
    match act {
      case AutoFqdn(p) => HostPlanIs(s, p, x);
      case AutoEmail(p) =>
        MailPlanIs(s, p, x);
        MailValue(s, p, x);
      case Retroactive(p) =>
        RetroPlanIs(s, p, x);
        forall e | e in p.emails && MailDomainPlanned(s, e, x)
          ensures x.val.ttl == 300 && x.val.priority == if x.key.rtype == "MX" then Some(10) else None
        {
          MailValue(s, e, x);
        }
    }
  }

  lemma {:induction false} MailValue(s: Stores, p: EmailParams, x: Action)
    requires MailDomainPlanned(s, p, x) && x.Write?
    ensures x.val.ttl == 300 && x.val.priority == if x.key.rtype == "MX" then Some(10) else None
  {
    var zone := FindZone(s.active, p.fqdn);
    var source :| MailAction(zone, DomainId(s.domains, zone), p, source, x);
    MailPriority(p, x.key.name, x.key.rtype, x.key.content, x.val.priority, source);
  }

  lemma {:induction false} FinalValues(actions: seq<Action>)
    requires forall x :: x in actions && x.Write? ==>
      x.val == Val(300, if x.key.rtype == "MX" then Some(10) else None)
    ensures forall k :: k in Final(actions) ==> Final(actions)[k] == [Val(300, if k.rtype == "MX" then Some(10) else None)]
  {
    if actions == [] {
    } else {
      FinalValues(actions[1..]);
    }
  }

  /** A planned key is served with the fixed time to live, a mail exchanger with priority 10; others stay as they are. */
  ghost predicate ServedAfter(before: Served, after: Served, planned: bool, k: Key) {
    && (k in after <==> k in before || planned)
    && (k in after ==> after[k] == if planned then [Val(300, if k.rtype == "MX" then Some(10) else None)] else before[k])
  }

  ghost predicate Writes(actions: seq<Action>, k: Key) { exists v :: Write(k, v) in actions }

  /** A complete run of any of the activities, unless its first write is refused. */
  lemma {:induction false} CleanRun(s: Stores, act: Activity, k: Key)
    requires Valid(s) && !FailsFirst(Plan(ViewOf(s), act), s.domains)
    ensures var (after, outcome) := Clean(act, s);
      && outcome == Done && ServedAfter(s.served, after.served, Writes(Plan(ViewOf(s), act), k), k)
      && after.core == Inserted(Plan(ViewOf(s), act), s.active, s.core)
  {
    var plan := Plan(ViewOf(s), act);
    PlanFineOrFails(ViewOf(s), act);
    assert Writable(plan, s.domains) by { assert forall a :: a in plan ==> Fine(a, ViewOf(s), Names(act)); }
    FullRun(plan, s, 2 * |plan|);
    FinalKeys(plan);
    forall x | x in plan && x.Write? ensures x.val == Val(300, if x.key.rtype == "MX" then Some(10) else None) {
      PlannedValue(s, act, x);
    }
    FinalValues(plan);
    assert k in Keys(plan) <==> Writes(plan, k);
  }

  /** The name's addresses of that type and content in its zone. */
  ghost predicate HostKey(s: Stores, p: FqdnParams, zone: string, k: Key) {
    && k.domain == DomainId(s.domains, zone) && k.name == p.fqdn
    && exists a :: a in p.addresses && IsType(a, k.rtype) && a.address == k.content
  }

  /** An automatic row for the record is there, whatever it came from. */
  ghost predicate AutoKnown(core: multiset<Row>, zone: string, name: string, rtype: string, content: string) {
    exists q :: q in core && q.manager == Auto && q.zone == zone && q.name == name && q.rtype == rtype && q.content == content
  }

  /** The row an address of the name gets, unless it has one. */
  ghost predicate HostRow(s: Stores, p: FqdnParams, zone: string, r: Row) {
    && r.zone == zone && r.name == p.fqdn && r.ttl == 300 && r.priority == None && r.manager == Auto && r.active
    && r.sourceType == "fqdn" && r.sourceId == p.sourceId
    && (exists a :: a in p.addresses && IsType(a, r.rtype) && a.address == r.content)
    && !AutoKnown(s.core, zone, p.fqdn, r.rtype, r.content)
  }

  ghost predicate NameOverridden(s: Stores, name: string) {
    CustomActive(s.core, name, "A") || CustomActive(s.core, name, "AAAA")
  }

  lemma {:induction false} HostWrites(s: Stores, p: FqdnParams, k: Key)
    ensures var zone := FindZone(s.active, p.fqdn);
      Writes(Plan(ViewOf(s), AutoFqdn(p)), k) <==> zone != "" && !NameOverridden(s, p.fqdn) && HostKey(s, p, zone, k)
  {
    var zone, plan := FindZone(s.active, p.fqdn), Plan(ViewOf(s), AutoFqdn(p));
    forall v ensures Write(k, v) in plan ==> v == Val(300, None) && zone != "" && !NameOverridden(s, p.fqdn) && HostKey(s, p, zone, k) {
      HostPlanIs(s, p, Write(k, v));
    }
    if zone != "" && !NameOverridden(s, p.fqdn) && HostKey(s, p, zone, k) {
      var w := Write(k, Val(300, None));
      HostPlanIs(s, p, w);
      var a :| a in p.addresses && IsType(a, k.rtype) && a.address == k.content;
      assert AddressAction(zone, DomainId(s.domains, zone), true, p.fqdn, p.sourceId, a, w);
      assert w in plan;
    }
  }

  lemma {:induction false} HostAdds(s: Stores, p: FqdnParams, r: Row)
    ensures var zone := FindZone(s.active, p.fqdn);
      Adds(Plan(ViewOf(s), AutoFqdn(p)), s.active, s.core, r) <==> zone != "" && HostRow(s, p, zone, r)
  {
    var zone, plan := FindZone(s.active, p.fqdn), Plan(ViewOf(s), AutoFqdn(p));
    FoundIsActive(s.active, p.fqdn, 0);
    var ins := Insert(zone, true, r.rtype, p.fqdn, r.content, 300, None, "fqdn", p.sourceId, true);
    assert Made(s.core, s.active, ins) <==> (zone !in s.active || AutoKnown(s.core, zone, p.fqdn, r.rtype, r.content));
    HostPlanIs(s, p, Record(ins));
    if zone != "" && HostRow(s, p, zone, r) {
      var a :| a in p.addresses && IsType(a, r.rtype) && a.address == r.content;
      assert AddressAction(zone, DomainId(s.domains, zone), true, p.fqdn, p.sourceId, a, Record(ins));
      assert RowOf(ins) == r;
    }
    forall i | Record(i) in plan && RowOf(i) == r ensures i == ins && zone != "" {
      HostPlanIs(s, p, Record(i));
    }
  }

  lemma {:induction false} HostApart(s: Stores, p: FqdnParams)
    ensures Apart(Plan(ViewOf(s), AutoFqdn(p)))
  {
    var plan := Plan(ViewOf(s), AutoFqdn(p));
    forall i, j | Record(i) in plan && Record(j) in plan && Clashes(RowOf(i), j) ensures i == j {
      HostPlanIs(s, p, Record(i));
      HostPlanIs(s, p, Record(j));
    }
  }

  lemma {:induction false} HostFails(s: Stores, p: FqdnParams)
    requires Valid(s)
    ensures FailsFirst(Plan(ViewOf(s), AutoFqdn(p)), s.domains)
       <==> HostRefused(s, p)
  {
    var v, zone := ViewOf(s), FindZone(s.active, p.fqdn);
    var plan := Plan(v, AutoFqdn(p));
    if FailsFirst(plan, s.domains) { HostPlanIs(s, p, plan[0]); }
    if HostRefused(s, p) {
      OverriddenIff(s, p.fqdn, "A");
      OverriddenIff(s, p.fqdn, "AAAA");
      AddressesFail(v, zone, 0, p, 0);
      var a :| a in p.addresses && (a.family == 4 || a.family == 6);
      var w := Write(Key(0, p.fqdn, if a.family == 4 then "A" else "AAAA", a.address), Val(300, None));
      HostPlanIs(s, p, w);
      assert AddressAction(zone, 0, true, p.fqdn, p.sourceId, a, w) && w in plan;
    }
  }

  /** PowerDNS does not have the name's zone, and there is an address to write. */
  ghost predicate HostRefused(s: Stores, p: FqdnParams) {
    var zone := FindZone(s.active, p.fqdn);
    && zone != "" && zone !in s.domains && !NameOverridden(s, p.fqdn)
    && exists a :: a in p.addresses && (a.family == 4 || a.family == 6)
  }

  /**
   `AutoCreateDNSRecords` on any stores. It fails, changing nothing, exactly when PowerDNS lacks the zone and
   there is an address to write. Otherwise, if the name has a zone: the addresses of family 4 as A, those of
   family 6 as AAAA, each served for 300 seconds unless a custom address record of the name is active, and
   each recorded once unless an automatic row has it; nothing else changes in either store.
   */
  lemma {:induction false} HostNameLaw(s: Stores, p: FqdnParams, k: Key, r: Row)
    requires Valid(s)
    ensures var (after, outcome) := Clean(AutoFqdn(p), s);
      var zone := FindZone(s.active, p.fqdn);
      if HostRefused(s, p) then outcome == Failed && after == s
      else
        && outcome == Done
        && ServedAfter(s.served, after.served, zone != "" && !NameOverridden(s, p.fqdn) && HostKey(s, p, zone, k), k)
        && after.core[r] == s.core[r] + if zone != "" && HostRow(s, p, zone, r) then 1 else 0
  {
    var plan := Plan(ViewOf(s), AutoFqdn(p));
    HostFails(s, p);
    if HostRefused(s, p) {
      FailingRun(plan, s, 2 * |plan|);
    } else {
      CleanRun(s, AutoFqdn(p), k);
      HostWrites(s, p, k);
      HostApart(s, p);
      InsertedExactly(plan, s.active, s.core, r);
      HostAdds(s, p, r);
    }
  }

  // Mail domains.

  /** One of the mail domain's records that no custom record overrides, in a zone PowerDNS has. */
  ghost predicate MailKey(s: Stores, p: EmailParams, zone: string, k: Key) {
    && k.domain == DomainId(s.domains, zone) > 0 && !CustomActive(s.core, k.name, k.rtype)
    && exists pr, source :: MailRecord(p, k.name, k.rtype, k.content, pr, source)
  }

  /** An automatic row for the same purpose is there, whatever its content. */
  ghost predicate PurposeKnown(core: multiset<Row>, zone: string, name: string, rtype: string, source: string) {
    exists q :: q in core && q.manager == Auto && q.zone == zone && q.name == name && q.rtype == rtype && q.sourceType == source
  }

  /** The row a record of the mail domain gets, unless there is one for its purpose. */
  ghost predicate MailRow(s: Stores, p: EmailParams, zone: string, r: Row) {
    && r.zone == zone && r.ttl == 300 && r.manager == Auto && r.active && r.sourceId == p.sourceId
    && MailRecord(p, r.name, r.rtype, r.content, r.priority, r.sourceType)
    && !PurposeKnown(s.core, zone, r.name, r.rtype, r.sourceType)
  }

  lemma {:induction false} MailWrites(s: Stores, p: EmailParams, k: Key)
    ensures var zone := FindZone(s.active, p.fqdn);
      Writes(Plan(ViewOf(s), AutoEmail(p)), k) <==> zone != "" && MailKey(s, p, zone, k)
  {
    var zone, plan := FindZone(s.active, p.fqdn), Plan(ViewOf(s), AutoEmail(p));
    var domain := DomainId(s.domains, zone);
    forall v | Write(k, v) in plan ensures zone != "" && MailKey(s, p, zone, k) {
      MailPlanIs(s, p, Write(k, v));
      var source :| MailAction(zone, domain, p, source, Write(k, v));
    }
    if zone != "" && MailKey(s, p, zone, k) {
      var pr, source :| MailRecord(p, k.name, k.rtype, k.content, pr, source);
      var w := Write(k, Val(300, pr));
      MailPlanIs(s, p, w);
      assert MailAction(zone, domain, p, source, w);
      assert w in plan;
    }
  }

  lemma {:induction false} MailInsertIs(s: Stores, p: EmailParams, i: Insert)
    ensures var zone := FindZone(s.active, p.fqdn);
      Record(i) in Plan(ViewOf(s), AutoEmail(p))
      <==> zone != "" && MailAction(zone, DomainId(s.domains, zone), p, i.sourceType, Record(i))
  {
    MailPlanIs(s, p, Record(i));
  }

  lemma {:induction false} MailAdds(s: Stores, p: EmailParams, r: Row)
    ensures var zone := FindZone(s.active, p.fqdn);
      Adds(Plan(ViewOf(s), AutoEmail(p)), s.active, s.core, r) <==> zone != "" && MailRow(s, p, zone, r)
  {
    var zone, plan := FindZone(s.active, p.fqdn), Plan(ViewOf(s), AutoEmail(p));
    FoundIsActive(s.active, p.fqdn, 0);
    var ins := Insert(zone, true, r.rtype, r.name, r.content, 300, r.priority, r.sourceType, p.sourceId, false);
    assert Made(s.core, s.active, ins) <==> (zone !in s.active || PurposeKnown(s.core, zone, r.name, r.rtype, r.sourceType));
    MailInsertIs(s, p, ins);
    if zone != "" && MailRow(s, p, zone, r) { assert RowOf(ins) == r; }
    forall i | Record(i) in plan && RowOf(i) == r ensures i == ins && zone != "" {
      MailInsertIs(s, p, i);
    }
  }

  lemma {:induction false} OneRecordOfAKind(
    p: EmailParams, name: string, t: string, c1: string, p1: Option<int>, c2: string, p2: Option<int>, source: string)
    requires MailRecord(p, name, t, c1, p1, source) && MailRecord(p, name, t, c2, p2, source)
    ensures c1 == c2 && p1 == p2
  {
  }

  lemma {:induction false} MailApart(s: Stores, p: EmailParams)
    ensures Apart(Plan(ViewOf(s), AutoEmail(p)))
  {
    var plan := Plan(ViewOf(s), AutoEmail(p));
    forall i, j | Record(i) in plan && Record(j) in plan && Clashes(RowOf(i), j) ensures i == j {
      MailInsertIs(s, p, i);
      MailInsertIs(s, p, j);
      OneRecordOfAKind(p, i.name, i.rtype, i.content, i.priority, j.content, j.priority, i.sourceType);
    }
  }

  lemma {:induction false} MailNeverFails(s: Stores, p: EmailParams)
    ensures !FailsFirst(Plan(ViewOf(s), AutoEmail(p)), s.domains)
  {
    var plan := Plan(ViewOf(s), AutoEmail(p));
    EmailFine(ViewOf(s), p, EmailNames(p));
    assert plan != [] ==> Fine(plan[0], ViewOf(s), EmailNames(p));
  }

  /**
   `AutoCreateEmailDNSRecords` on any stores: if the name has a zone, the records of the mail domain are
   served unless overridden or PowerDNS lacks the zone, and each is recorded once unless an automatic row
   has its purpose; nothing else changes in either store.
   */
  lemma {:induction false} MailLaw(s: Stores, p: EmailParams, k: Key, r: Row)
    requires Valid(s)
    ensures var (after, outcome) := Clean(AutoEmail(p), s);
      var zone := FindZone(s.active, p.fqdn);
      && outcome == Done && ServedAfter(s.served, after.served, zone != "" && MailKey(s, p, zone, k), k)
      && after.core[r] == s.core[r] + if zone != "" && MailRow(s, p, zone, r) then 1 else 0
  {
    MailNeverFails(s, p);
    CleanRun(s, AutoEmail(p), k);
    MailWrites(s, p, k);
    MailApart(s, p);
    InsertedExactly(Plan(ViewOf(s), AutoEmail(p)), s.active, s.core, r);
    MailAdds(s, p, r);
  }

  // Names and mail domains found for a new zone.

  /** An address of a name found, of a type that no custom record overrides. */
  ghost predicate FoundKey(s: Stores, p: RetroParams, k: Key) {
    && k.domain == DomainId(s.domains, p.zone) && !CustomActive(s.core, k.name, k.rtype)
    && exists f, a :: f in p.fqdns && a in p.addresses && f.1 == k.name && IsType(a, k.rtype) && a.address == k.content
  }

  ghost predicate FoundMailKey(s: Stores, p: RetroParams, k: Key) {
    exists e :: e in p.emails && FindZone(s.active, e.fqdn) != "" && MailKey(s, e, FindZone(s.active, e.fqdn), k)
  }

  /** The row of an address of a name found, or of a record of a mail domain found. */
  ghost predicate FoundRow(s: Stores, p: RetroParams, r: Row) {
    && r.ttl == 300 && r.manager == Auto && r.active
    && (|| (r.zone == p.zone && r.priority == None && r.sourceType == "fqdn"
            && exists f, a :: f in p.fqdns && a in p.addresses && f == (r.sourceId, r.name)
                              && IsType(a, r.rtype) && a.address == r.content)
        || (exists e :: e in p.emails && r.zone == FindZone(s.active, e.fqdn) != "" && r.sourceId == e.sourceId
                        && MailRecord(e, r.name, r.rtype, r.content, r.priority, r.sourceType)))
  }

  lemma {:induction false} FoundWrites(s: Stores, p: RetroParams, k: Key)
    requires DomainId(s.domains, p.zone) > 0
    ensures Writes(Plan(ViewOf(s), Retroactive(p)), k) <==> FoundKey(s, p, k) || FoundMailKey(s, p, k)
  {
    var plan, domain := Plan(ViewOf(s), Retroactive(p)), DomainId(s.domains, p.zone);
    forall v | Write(k, v) in plan ensures FoundKey(s, p, k) || FoundMailKey(s, p, k) {
      RetroPlanIs(s, p, Write(k, v));
      if !FoundPlanned(s, p, domain, Write(k, v)) {
        var e :| e in p.emails && MailDomainPlanned(s, e, Write(k, v));
        MailPlanIs(s, e, Write(k, v));
        MailWrites(s, e, k);
      }
    }
    if FoundKey(s, p, k) {
      var f, a :| f in p.fqdns && a in p.addresses && f.1 == k.name && IsType(a, k.rtype) && a.address == k.content;
      var w := Write(k, Val(300, None));
      RetroPlanIs(s, p, w);
      assert AddressAction(p.zone, domain, false, f.1, f.0, a, w);
      assert w in plan;
    }
    if FoundMailKey(s, p, k) {
      var e :| e in p.emails && FindZone(s.active, e.fqdn) != "" && MailKey(s, e, FindZone(s.active, e.fqdn), k);
      MailWrites(s, e, k);
      var v :| Write(k, v) in Plan(ViewOf(s), AutoEmail(e));
      MailPlanIs(s, e, Write(k, v));
      RetroPlanIs(s, p, Write(k, v));
    }
  }

  lemma {:induction false} FoundRowsOnly(s: Stores, p: RetroParams, i: Insert)
    requires Record(i) in Plan(ViewOf(s), Retroactive(p))
    ensures FoundRow(s, p, RowOf(i))
  {
    var domain := DomainId(s.domains, p.zone);
    RetroPlanIs(s, p, Record(i));
    if FoundPlanned(s, p, domain, Record(i)) {
      var f, a :| f in p.fqdns && a in p.addresses && AddressAction(p.zone, domain, false, f.1, f.0, a, Record(i));
      assert f == (i.sourceId, i.name);
    } else {
      var e :| e in p.emails && MailDomainPlanned(s, e, Record(i));
      var source :| MailAction(FindZone(s.active, e.fqdn), DomainId(s.domains, FindZone(s.active, e.fqdn)), e, source, Record(i));
    }
  }

  /**
   `RetroactiveAutoRecords` on any stores: without the zone in PowerDNS nothing happens; otherwise exactly the
   addresses of the names found, A for family 4 and AAAA for family 6, and the records of the mail domains
   found are served, each unless overridden by its own type, and only rows for those are added.
   */
  lemma {:induction false} FoundLaw(s: Stores, p: RetroParams, k: Key, r: Row)
    requires Valid(s)
    ensures var (after, outcome) := Clean(Retroactive(p), s);
      if p.zone !in s.domains then outcome == Done && after == s
      else
        && outcome == Done && ServedAfter(s.served, after.served, FoundKey(s, p, k) || FoundMailKey(s, p, k), k)
        && s.core[r] <= after.core[r] && (s.core[r] < after.core[r] ==> FoundRow(s, p, r))
  {
    var plan := Plan(ViewOf(s), Retroactive(p));
    if p.zone in s.domains {
      assert s.domains[p.zone] > 0;
      RetroNeverFails(s, p);
      CleanRun(s, Retroactive(p), k);
      FoundWrites(s, p, k);
      InsertedOnlyPlanned(plan, s.active, s.core, r);
      if s.core[r] < Inserted(plan, s.active, s.core)[r] {
        var ins :| Record(ins) in plan && RowOf(ins) == r;
        FoundRowsOnly(s, p, ins);
      }
    }
  }

  lemma {:induction false} RetroNeverFails(s: Stores, p: RetroParams)
    requires DomainId(s.domains, p.zone) > 0
    ensures !FailsFirst(Plan(ViewOf(s), Retroactive(p)), s.domains)
  {
    var v, plan := ViewOf(s), Plan(ViewOf(s), Retroactive(p));
    RetroFqdnsFine(v, DomainId(v.domains, p.zone), p, p.fqdns, Names(Retroactive(p)));
    EmailsFine(v, p.emails, Names(Retroactive(p)));
    assert plan != [] ==> plan[0] in plan && Fine(plan[0], v, Names(Retroactive(p)));
  }

  /** And every address of every name found has its row afterwards. */
  lemma {:induction false} FoundRecorded(s: Stores, p: RetroParams, f: (string, string), a: Address, t: string)
    requires Valid(s) && p.zone in s.domains && f in p.fqdns && a in p.addresses && IsType(a, t)
    ensures AutoKnown(Clean(Retroactive(p), s).0.core, p.zone, f.1, t, a.address)
  {
    assert s.domains[p.zone] > 0;
    CleanServesFound(s, p, f, a, t);
  }

  /** And every record of every mail domain found, by its purpose. */
  lemma {:induction false} FoundMailRecorded(
    s: Stores, p: RetroParams, e: EmailParams, name: string, t: string, content: string, pr: Option<int>, source: string)
    requires Valid(s) && p.zone in s.domains && e in p.emails && FindZone(s.active, e.fqdn) != ""
    requires MailRecord(e, name, t, content, pr, source)
    ensures PurposeKnown(Clean(Retroactive(p), s).0.core, FindZone(s.active, e.fqdn), name, t, source)
  {
    var zone, plan := FindZone(s.active, e.fqdn), Plan(ViewOf(s), Retroactive(p));
    assert s.domains[p.zone] > 0;
    FoundIsActive(s.active, e.fqdn, 0);
    var ins := Insert(zone, true, t, name, content, 300, pr, source, e.sourceId, false);
    assert MailAction(zone, DomainId(s.domains, zone), e, source, Record(ins));
    RetroPlanIs(s, p, Record(ins));
    assert MailDomainPlanned(s, e, Record(ins));
    RetroNeverFails(s, p);
    CleanRun(s, Retroactive(p), Key(0, "", "", ""));
    InsertedMakes(plan, s.active, s.core, ins);
  }
}
