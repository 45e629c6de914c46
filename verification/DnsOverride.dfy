/**
 Custom records override automatic ones (internal/activity/dns.go:278-377 and the record workflows of
 internal/workflow/zone_record.go): what PowerDNS serves for a name and type while a custom record is
 active, and what it serves once the last one goes.
 */
module DnsOverride {
  import opened Text
  import opened DnsZones
  import opened DnsRecords

  // The automatic records behind a name and type.

  predicate IsAuto(r: Row, name: string, rtype: string) {
    r.name == name && r.rtype == rtype && r.manager == Auto && r.active
  }

  /** The domains in which an active automatic record of this name and type is known. */
  function AutoDomains(s: Stores, name: string, rtype: string): set<nat> {
    set r | r in s.core && IsAuto(r, name, rtype) && DomainId(s.domains, r.zone) > 0 :: DomainId(s.domains, r.zone)
  }

  /** `DeleteDNSRecord` in each of the domains: the whole record set goes, whatever put it there. */
  function Without(served: Served, domains: set<nat>, name: string, rtype: string): Served {
    map k | k in served && !(k.domain in domains && k.name == name && k.rtype == rtype) :: served[k]
  }

  /** `DeactivateAutoRecords` */
  function Deactivated(s: Stores, name: string, rtype: string): Stores {
    s.(served := Without(s.served, AutoDomains(s, name, rtype), name, rtype))
  }

  /** Where a row of the core database is served. */
  function KeyFor(domains: map<string, nat>, r: Row): Key {
    Key(DomainId(domains, r.zone), r.name, r.rtype, r.content)
  }

  /** The answer to the query for the active automatic records, in some order. */
  ghost predicate Answers(recs: seq<Row>, core: multiset<Row>, name: string, rtype: string) {
    forall r: Row :: multiset(recs)[r]
      == if r.name == name && r.rtype == rtype && r.manager == Auto && r.active then core[r] else 0
  }

  /** Writing the rows to PowerDNS one after the other; a row whose zone is not there is passed over. */
  function Restored(served: Served, domains: map<string, nat>, recs: seq<Row>): Served {
    if recs == [] then served
    else
      var r := recs[|recs| - 1];
      var before := Restored(served, domains, recs[..|recs| - 1]);
      if DomainId(domains, r.zone) == 0 then before
      else (before - {KeyFor(domains, r)})[KeyFor(domains, r) := [Val(r.ttl, r.priority)]]
  }

  /** `ReactivateAutoRecords`, the query answered by `recs` */
  function Reactivated(s: Stores, name: string, rtype: string, recs: seq<Row>): Stores {
    if Overridden(ViewOf(s), name, rtype) then s else s.(served := Restored(s.served, s.domains, recs))
  }

  /** Some row is to be served at this key. */
  predicate Due(recs: seq<Row>, domains: map<string, nat>, k: Key) {
    exists r :: r in recs && DomainId(domains, r.zone) > 0 && KeyFor(domains, r) == k
  }

  /** The key holds one row, with the time to live and priority of one of the rows due there. */
  predicate HoldsOne(served: Served, recs: seq<Row>, domains: map<string, nat>, k: Key) {
    && k in served && |served[k]| == 1
    && exists r :: r in recs && DomainId(domains, r.zone) > 0 && KeyFor(domains, r) == k
                   && served[k][0] == Val(r.ttl, r.priority)
  }

  lemma {:induction false} RestoredAt(served: Served, domains: map<string, nat>, recs: seq<Row>, k: Key)
    ensures var after := Restored(served, domains, recs);
      if Due(recs, domains, k) then HoldsOne(after, recs, domains, k)
      else (k in after <==> k in served) && (k in after ==> after[k] == served[k])
    decreases |recs|
  {
    if recs == [] {
    } else {
      var n := |recs| - 1;
      var r := recs[n];
      assert recs == recs[..n] + [r];
      RestoredAt(served, domains, recs[..n], k);
      if DomainId(domains, r.zone) > 0 && KeyFor(domains, r) == k {
        assert r in recs;
      } else {
        assert Due(recs, domains, k) <==> Due(recs[..n], domains, k);
      }
    }
  }

  // Override safety.

  /** Two served tables agree on a record set, in every domain and for every content. */
  ghost predicate SameSet(a: Served, b: Served, name: string, rtype: string) {
    forall k: Key :: k.name == name && k.rtype == rtype ==> (k in a <==> k in b) && (k in a ==> a[k] == b[k])
  }

  /** What can happen while a custom record stays: attempts at activities, complete or not, and reactivations. */
  datatype Event = Run(act: Activity, budget: nat) | Reactivate(name: string, rtype: string, recs: seq<Row>)

  function After(s: Stores, e: Event): Stores {
    match e
    case Run(act, budget) => Attempt(act, s, budget).0
    case Reactivate(name, rtype, recs) => Reactivated(s, name, rtype, recs)
  }

  ghost predicate Possible(s: Stores, e: Event) {
    e.Reactivate? ==> Answers(e.recs, s.core, e.name, e.rtype)
  }

  lemma {:induction false} AttemptLeavesOverridden(s: Stores, act: Activity, budget: nat, name: string, rtype: string)
    requires Valid(s) && Overridden(ViewOf(s), name, rtype)
    ensures SameSet(Attempt(act, s, budget).0.served, s.served, name, rtype)
  {
    var plan := Plan(ViewOf(s), act);
    PlanFineOrFails(ViewOf(s), act);
    if FailsFirst(plan, s.domains) {
      FailingRun(plan, s, budget);
    } else {
      RunTouches(plan, s, budget);
      assert forall k: Key :: k.name == name && k.rtype == rtype ==> k !in Keys(plan);
    }
  }

  lemma {:induction false} ReactivationStaysInItsSet(s: Stores, e: Event, name: string, rtype: string)
    requires e.Reactivate? && Possible(s, e) && (e.name != name || e.rtype != rtype)
    ensures SameSet(After(s, e).served, s.served, name, rtype)
  {
    forall r | r in e.recs ensures IsAuto(r, e.name, e.rtype) {
      assert r in multiset(e.recs);
    }
    forall k: Key | k.name == name && k.rtype == rtype
      ensures (k in After(s, e).served <==> k in s.served)
      ensures k in s.served ==> After(s, e).served[k] == s.served[k]
    {
      RestoredAt(s.served, s.domains, e.recs, k);
    }
  }

  lemma {:induction false} EventKeepsOverride(s: Stores, e: Event, name: string, rtype: string)
    requires Valid(s) && Possible(s, e) && Overridden(ViewOf(s), name, rtype)
    ensures SameSet(After(s, e).served, s.served, name, rtype)
    ensures ViewOf(After(s, e)) == ViewOf(s) && Valid(After(s, e))
  {
    match e {
      case Run(act, budget) =>
        ActionsKeepView(Plan(ViewOf(s), act), s, budget);
        AttemptLeavesOverridden(s, act, budget, name, rtype);
      case Reactivate(n, t, recs) =>
        if (n, t) != (name, rtype) { ReactivationStaysInItsSet(s, e, name, rtype); }
        RestoredValid(s, recs);
    }
  }

  lemma {:induction false} RestoredValid(s: Stores, recs: seq<Row>)
    requires Valid(s)
    ensures Valid(s.(served := Restored(s.served, s.domains, recs)))
    decreases |recs|
  {
    if recs == [] {
    } else {
      RestoredValid(s, recs[..|recs| - 1]);
    }
  }

  /** A run of events from `s` with the states it goes through. */
  ghost predicate Course(states: seq<Stores>, events: seq<Event>) {
    && |states| == |events| + 1
    && forall i :: 0 <= i < |events| ==> Possible(states[i], events[i]) && states[i + 1] == After(states[i], events[i])
  }

  /**
   Override safety: while a custom record of a name and type is active, no run of automatic creations
   (of addresses, of mail records, after the fact for a new zone, each complete or cut short) and of
   reactivations changes what PowerDNS serves for that name and type.
   */
  lemma {:induction false} OverrideIsSafe(states: seq<Stores>, events: seq<Event>, name: string, rtype: string, n: nat)
    requires Course(states, events) && n <= |events|
    requires Valid(states[0]) && Overridden(ViewOf(states[0]), name, rtype)
    ensures SameSet(states[n].served, states[0].served, name, rtype)
    ensures Valid(states[n]) && Overridden(ViewOf(states[n]), name, rtype)
  {
    if n == 0 {
    } else {
      OverrideIsSafe(states, events, name, rtype, n - 1);
      EventKeepsOverride(states[n - 1], events[n - 1], name, rtype);
    }
  }

  /** An attempt, complete or not, leaves what PowerDNS serves for every name it is not about alone. */
  lemma {:induction false} OtherNamesServedAlike(s: Stores, act: Activity, budget: nat, k: Key)
    requires Valid(s) && k.name !in Names(act)
    ensures var after := Attempt(act, s, budget).0.served;
      (k in after <==> k in s.served) && (k in after ==> after[k] == s.served[k])
  {
    var plan := Plan(ViewOf(s), act);
    PlanFineOrFails(ViewOf(s), act);
    if FailsFirst(plan, s.domains) {
      FailingRun(plan, s, budget);
    } else {
      RunTouches(plan, s, budget);
      assert k !in Keys(plan);
    }
  }

  /** And so it does with the core rows of every other name. */
  lemma {:induction false} OtherNamesRecordedAlike(s: Stores, act: Activity, budget: nat, r: Row)
    requires Valid(s) && r.name !in Names(act)
    ensures Attempt(act, s, budget).0.core[r] == s.core[r]
  {
    var plan := Plan(ViewOf(s), act);
    PlanFineOrFails(ViewOf(s), act);
    if FailsFirst(plan, s.domains) {
      FailingRun(plan, s, budget);
    } else {
      var n := PartialRun(plan, s, budget);
      forall a | a in plan[..n] && a.Record? ensures a.ins.name != r.name {
        assert a in plan && Fine(a, ViewOf(s), Names(act));
      }
      InsertedElsewhere(plan[..n], s.active, s.core, r);
    }
  }

  lemma {:induction false} InsertedElsewhere(actions: seq<Action>, active: set<string>, core: multiset<Row>, r: Row)
    requires forall a :: a in actions && a.Record? ==> a.ins.name != r.name
    ensures Inserted(actions, active, core)[r] == core[r]
    decreases |actions|
  {
    if actions == [] {
    } else {
      var next := if actions[0].Record? then InsertIfAbsent(core, active, actions[0].ins) else core;
      InsertedElsewhere(actions[1..], active, next, r);
    }
  }

  // The record workflows.

  /** The key belongs to the record set of the row. */
  predicate InSet(k: Key, r: Row) { k.name == r.name && k.rtype == r.rtype }

  /** The first two steps for a custom record in a zone PowerDNS has: write it, deactivate the automatic ones. */
  function CustomCleared(s: Stores, r: Row): Stores {
    var k := KeyFor(s.domains, r);
    Deactivated(s.(served := (s.served - {k})[k := [Val(r.ttl, r.priority)]]), r.name, r.rtype)
  }

  /** The last step: only now does the row count as a custom record. */
  function CustomMarked(s: Stores, r: Row): Stores {
    s.(core := s.core + multiset{r.(active := true)})
  }

  /** `CreateZoneRecordWorkflow` for a custom record. Without the zone in PowerDNS the row is marked failed. */
  function CustomCreated(s: Stores, r: Row): Stores {
    if DomainId(s.domains, r.zone) == 0 then s.(core := s.core + multiset{r.(active := false)})
    else CustomMarked(CustomCleared(s, r), r)
  }

  lemma {:induction false} RowOverrides(core: multiset<Row>, r: Row)
    requires r.manager == Custom
    ensures CustomNames(core + multiset{r}) == CustomNames(core) + if r.active then {(r.name, r.rtype)} else {}
  {
    var after := core + multiset{r};
    assert forall x :: x in after <==> x in core || x == r;
    assert forall n :: n in CustomNames(after) <==> n in CustomNames(core) || (r.active && n == (r.name, r.rtype));
  }

  /**
   The order of the two steps matters. Deactivating removes the whole record set of the name and type, so
   the custom record is served afterwards if and only if PowerDNS has its zone and no active automatic
   record of that name and type is known in that domain. It overrides, all the same, once its zone is there.
   */
  lemma {:induction false} CustomServedIffNoAutoRecord(s: Stores, r: Row)
    requires Valid(s) && r.manager == Custom
    ensures KeyFor(s.domains, r) in CustomCreated(s, r).served
       <==> DomainId(s.domains, r.zone) > 0 && DomainId(s.domains, r.zone) !in AutoDomains(s, r.name, r.rtype)
    ensures Overridden(ViewOf(CustomCreated(s, r)), r.name, r.rtype)
       <==> DomainId(s.domains, r.zone) > 0 || Overridden(ViewOf(s), r.name, r.rtype)
    ensures DomainId(s.domains, r.zone) == 0 ==> CustomCreated(s, r).served == s.served
    ensures DomainId(s.domains, r.zone) > 0 ==>
      forall k: Key :: InSet(k, r) && k.domain in AutoDomains(s, r.name, r.rtype) ==> k !in CustomCreated(s, r).served
    ensures forall k: Key :: !InSet(k, r) ==> (k in CustomCreated(s, r).served <==> k in s.served)
  {
    RowOverrides(s.core, r.(active := DomainId(s.domains, r.zone) > 0));
  }

  // An automatic creation in between.

  /** The creation for a host name writes this key: its zone is served, nobody overrides an address of the name. */
  ghost predicate Creates(s: Stores, p: FqdnParams, k: Key) {
    var zone := FindZone(s.active, p.fqdn);
    && zone != "" && k.domain == DomainId(s.domains, zone) > 0 && k.name == p.fqdn
    && !CustomActive(s.core, p.fqdn, "A") && !CustomActive(s.core, p.fqdn, "AAAA")
    && exists a :: a in p.addresses && IsType(a, k.rtype) && a.address == k.content
  }

  lemma {:induction false} AddressKeys(zone: string, domain: nat, p: FqdnParams, n: nat, k: Key)
    requires n <= |p.addresses|
    ensures k in Keys(AddressesActions(zone, domain, false, p, n))
       <==> k.domain == domain && k.name == p.fqdn
            && exists a :: a in p.addresses[n..] && IsType(a, k.rtype) && a.address == k.content
    decreases |p.addresses| - n
  {
    if n == |p.addresses| {
    } else {
      var first := AddressActions(zone, domain, false, p, p.addresses[n]);
      var rest := AddressesActions(zone, domain, false, p, n + 1);
      AddressKeys(zone, domain, p, n + 1, k);
      KeysOfBoth(first, rest);
      AddressKey(zone, domain, p, p.addresses[n], k);
      assert p.addresses[n..] == [p.addresses[n]] + p.addresses[n + 1..];
    }
  }

  lemma {:induction false} KeysOfBoth(first: seq<Action>, rest: seq<Action>)
    ensures Keys(first + rest) == Keys(first) + Keys(rest)
  {
  }

  lemma {:induction false} AddressKey(zone: string, domain: nat, p: FqdnParams, a: Address, k: Key)
    ensures k in Keys(AddressActions(zone, domain, false, p, a))
       <==> k.domain == domain && k.name == p.fqdn && IsType(a, k.rtype) && a.address == k.content
  {
    if TypeOf(a).Some? {
      var w := Write(Key(domain, p.fqdn, TypeOf(a).value, a.address), Val(TTL, None));
      assert AddressActions(zone, domain, false, p, a)[0] == w;
    }
  }

  lemma {:induction false} NoKeysOverridden(zone: string, domain: nat, p: FqdnParams, n: nat)
    requires n <= |p.addresses|
    ensures Keys(AddressesActions(zone, domain, true, p, n)) == {}
    decreases |p.addresses| - n
  {
    if n == |p.addresses| {
    } else {
      NoKeysOverridden(zone, domain, p, n + 1);
      KeysOfBoth(AddressActions(zone, domain, true, p, p.addresses[n]), AddressesActions(zone, domain, true, p, n + 1));
    }
  }

  /** The keys of the plan, wherever the zone is served. */
  lemma {:induction false} PlanKeys(s: Stores, p: FqdnParams, k: Key)
    requires FindZone(s.active, p.fqdn) == "" || DomainId(s.domains, FindZone(s.active, p.fqdn)) > 0
    ensures k in Keys(Plan(ViewOf(s), AutoFqdn(p))) <==> Creates(s, p, k)
  {
    var v, zone := ViewOf(s), FindZone(s.active, p.fqdn);
    OverriddenIff(s, p.fqdn, "A");
    OverriddenIff(s, p.fqdn, "AAAA");
    if zone != "" {
      if Overridden(v, p.fqdn, "A") || Overridden(v, p.fqdn, "AAAA") {
        NoKeysOverridden(zone, DomainId(s.domains, zone), p, 0);
      } else {
        AddressKeys(zone, DomainId(s.domains, zone), p, 0, k);
        assert p.addresses[0..] == p.addresses;
      }
    }
  }

  /** Without the zone in PowerDNS the plan writes nothing, or is refused at its first write. */
  lemma {:induction false} UnservedZoneAddsNothing(s: Stores, p: FqdnParams)
    requires Valid(s) && DomainId(s.domains, FindZone(s.active, p.fqdn)) == 0 && FindZone(s.active, p.fqdn) != ""
    ensures Clean(AutoFqdn(p), s).0.served == s.served
  {
    var v, zone := ViewOf(s), FindZone(s.active, p.fqdn);
    var plan := Plan(v, AutoFqdn(p));
    if Overridden(v, p.fqdn, "A") || Overridden(v, p.fqdn, "AAAA") {
      NoKeysOverridden(zone, 0, p, 0);
      RunTouches(plan, s, 2 * |plan|);
    } else {
      AddressesFail(v, zone, 0, p, 0);
      if plan != [] { FailingRun(plan, s, 2 * |plan|); }
    }
  }

  lemma {:induction false} PlanWritable(s: Stores, p: FqdnParams)
    requires FindZone(s.active, p.fqdn) == "" || DomainId(s.domains, FindZone(s.active, p.fqdn)) > 0
    ensures Writable(Plan(ViewOf(s), AutoFqdn(p)), s.domains)
  {
    var plan := Plan(ViewOf(s), AutoFqdn(p));
    forall a | a in plan && a.Write? ensures a.key.domain in s.domains.Values {
      assert a.key in Keys(plan);
      PlanKeys(s, p, a.key);
      assert s.domains[FindZone(s.active, p.fqdn)] in s.domains.Values;
    }
  }

  /** A creation for a host name that runs to its end adds exactly the keys it creates. */
  lemma {:induction false} CreationAdds(s: Stores, p: FqdnParams, k: Key)
    requires Valid(s)
    ensures k in Clean(AutoFqdn(p), s).0.served <==> k in s.served || Creates(s, p, k)
  {
    var v, zone := ViewOf(s), FindZone(s.active, p.fqdn);
    var plan := Plan(v, AutoFqdn(p));
    if zone != "" && DomainId(s.domains, zone) == 0 {
      UnservedZoneAddsNothing(s, p);
    } else {
      PlanKeys(s, p, k);
      PlanWritable(s, p);
      FullRun(plan, s, 2 * |plan|);
      FinalKeys(plan);
    }
  }

  /** Any activity that runs to its end adds the keys it plans, unless its first write is refused. */
  lemma {:induction false} ActivityAdds(s: Stores, act: Activity, k: Key)
    requires Valid(s)
    ensures var plan := Plan(ViewOf(s), act);
      k in Clean(act, s).0.served <==> k in s.served || (!FailsFirst(plan, s.domains) && k in Keys(plan))
  {
    var plan := Plan(ViewOf(s), act);
    PlanFineOrFails(ViewOf(s), act);
    if FailsFirst(plan, s.domains) {
      FailingRun(plan, s, 2 * |plan|);
    } else {
      assert Writable(plan, s.domains) by { assert forall a :: a in plan ==> Fine(a, ViewOf(s), Names(act)); }
      FullRun(plan, s, 2 * |plan|);
      FinalKeys(plan);
    }
  }

  /**
   An activity that runs after the deactivation and before the custom row is marked active does not see the
   custom record. What the record set serves afterwards is what the workflow alone would serve and, beside
   it, exactly the keys the activity adds on its own; and the override then holds both in place.
   */
  lemma {:induction false} CreationInBetween(s: Stores, r: Row, act: Activity, k: Key)
    requires Valid(s) && r.manager == Custom && DomainId(s.domains, r.zone) > 0 && InSet(k, r)
    ensures var end := CustomMarked(Clean(act, CustomCleared(s, r)).0, r);
      && (k in end.served <==>
          k in CustomCreated(s, r).served || (!FailsFirst(Plan(ViewOf(s), act), s.domains) && k in Keys(Plan(ViewOf(s), act))))
      && Overridden(ViewOf(end), r.name, r.rtype)
  {
    var mid := CustomCleared(s, r);
    assert ViewOf(mid) == ViewOf(s);
    ActivityAdds(mid, act, k);
    RowOverrides(Clean(act, mid).0.core, r.(active := true));
  }

  /** For a host name: the addresses of that type, if the zone is served and no address of the name is overridden. */
  lemma {:induction false} HostNameInBetween(s: Stores, r: Row, p: FqdnParams, k: Key)
    requires Valid(s) && r.manager == Custom && DomainId(s.domains, r.zone) > 0 && InSet(k, r)
    ensures k in CustomMarked(Clean(AutoFqdn(p), CustomCleared(s, r)).0, r).served
       <==> k in CustomCreated(s, r).served || Creates(s, p, k)
  {
    var mid := CustomCleared(s, r);
    assert ViewOf(mid) == ViewOf(s);
    CreationAdds(mid, p, k);
  }

  /** The record that is overridden is the very case the deactivation is for, and there it takes both away. */
  lemma {:induction false} OverridingRecordIsLost(s: Stores, r: Row, auto: Row)
    requires r.manager == Custom && auto in s.core && IsAuto(auto, r.name, r.rtype) && auto.zone == r.zone
    requires DomainId(s.domains, r.zone) > 0
    ensures forall k: Key :: InSet(k, r) && k.domain == DomainId(s.domains, r.zone) ==> k !in CustomCreated(s, r).served
  {
    assert DomainId(s.domains, auto.zone) in AutoDomains(s, r.name, r.rtype);
  }

  /** `DeleteZoneRecordWorkflow` for an active custom record; the reactivation query answers `recs`. */
  function CustomDeleted(s: Stores, r: Row, recs: seq<Row>): Stores {
    var d := DomainId(s.domains, r.zone);
    var cleared := Stores(s.active, s.domains, s.core - multiset{r} + multiset{r.(active := false)},
                          if d > 0 then Without(s.served, {d}, r.name, r.rtype) else s.served);
    Reactivated(cleared, r.name, r.rtype, recs)
  }

  /** Another custom record of the name and type is active, in whatever zone. */
  ghost predicate OtherCustom(s: Stores, r: Row) {
    exists c :: c in s.core - multiset{r} && c.manager == Custom && c.active && c.name == r.name && c.rtype == r.rtype
  }

  lemma {:induction false} OtherCustomOverrides(s: Stores, r: Row)
    requires r in s.core && r.active
    ensures (r.name, r.rtype) in CustomNames(s.core - multiset{r} + multiset{r.(active := false)}) <==> OtherCustom(s, r)
  {
    var core := s.core - multiset{r} + multiset{r.(active := false)};
    if OtherCustom(s, r) {
      var c :| c in s.core - multiset{r} && c.manager == Custom && c.active && c.name == r.name && c.rtype == r.rtype;
      assert c in core;
    }
  }

  /**
   What the domain serves for the name and type once a custom record is deleted: with another custom
   record still active, nothing at all; otherwise exactly the contents of the active automatic records,
   one row each.
   */
  lemma {:induction false} AfterCustomDeleted(s: Stores, r: Row, recs: seq<Row>, k: Key)
    requires r in s.core && r.manager == Custom && r.active && Answers(recs, s.core, r.name, r.rtype)
    requires InSet(k, r) && k.domain == DomainId(s.domains, r.zone) > 0
    ensures var after := CustomDeleted(s, r, recs);
      if OtherCustom(s, r) then k !in after.served
      else (k in after.served <==> exists a :: a in s.core && IsAuto(a, r.name, r.rtype) && KeyFor(s.domains, a) == k)
           && (k in after.served ==> HoldsOne(after.served, recs, s.domains, k))
  {
    var core := s.core - multiset{r} + multiset{r.(active := false)};
    var served := Without(s.served, {k.domain}, r.name, r.rtype);
    RestoredAt(served, s.domains, recs, k);
    forall a | a in recs ensures a in s.core && IsAuto(a, r.name, r.rtype) {
      assert a in multiset(recs);
    }
    forall a | a in s.core && IsAuto(a, r.name, r.rtype) ensures a in recs {
      assert a in multiset(recs);
    }
    OtherCustomOverrides(s, r);
    assert CustomDeleted(s, r, recs).core == core;
  }

  /**
   Reactivation on a record set that is clear everywhere: afterwards the served contents are exactly
   those of the active automatic records whose zone PowerDNS has, one row each.
   */
  lemma {:induction false} ReactivationServesAuto(s: Stores, name: string, rtype: string, recs: seq<Row>, k: Key)
    requires !Overridden(ViewOf(s), name, rtype) && Answers(recs, s.core, name, rtype)
    requires k.name == name && k.rtype == rtype && k !in s.served
    ensures var after := Reactivated(s, name, rtype, recs).served;
      && (k in after <==>
          exists a :: a in s.core && IsAuto(a, name, rtype) && DomainId(s.domains, a.zone) > 0 && KeyFor(s.domains, a) == k)
      && (k in after ==> HoldsOne(after, recs, s.domains, k))
  {
    RestoredAt(s.served, s.domains, recs, k);
    forall a | a in recs ensures a in s.core && IsAuto(a, name, rtype) {
      assert a in multiset(recs);
    }
    forall a | a in s.core && IsAuto(a, name, rtype) ensures a in recs {
      assert a in multiset(recs);
    }
  }

  // The same steps in terms of the rows alone.

  /** An active automatic row of the name and type is in the domain. */
  ghost predicate AutoIn(s: Stores, name: string, rtype: string, domain: nat) {
    exists r :: r in s.core && r.manager == Auto && r.active && r.name == name && r.rtype == rtype
                && r.zone in s.domains && s.domains[r.zone] == domain
  }

  lemma {:induction false} AutoDomainsAre(s: Stores, name: string, rtype: string, domain: nat)
    requires Valid(s)
    ensures domain in AutoDomains(s, name, rtype) <==> AutoIn(s, name, rtype, domain)
  {
    if AutoIn(s, name, rtype, domain) {
      var r :| r in s.core && r.manager == Auto && r.active && r.name == name && r.rtype == rtype
               && r.zone in s.domains && s.domains[r.zone] == domain;
      assert DomainId(s.domains, r.zone) > 0 && IsAuto(r, name, rtype);
    }
  }

  /** Two stores apart from what is served at the key, which stays or goes. */
  predicate KeptIf(before: Served, after: Served, k: Key, stays: bool) {
    (k in after <==> k in before && stays) && (k in after ==> after[k] == before[k])
  }

  /** Deactivation takes the record set from exactly the domains that have an active automatic row of it. */
  lemma {:induction false} DeactivationLaw(s: Stores, name: string, rtype: string, k: Key)
    requires Valid(s)
    ensures var after := Deactivated(s, name, rtype);
      && after.core == s.core && after.active == s.active && after.domains == s.domains
      && KeptIf(s.served, after.served, k, !(k.name == name && k.rtype == rtype && AutoIn(s, name, rtype, k.domain)))
  {
    AutoDomainsAre(s, name, rtype, k.domain);
  }

  /** An active automatic row of the name and type belongs at the key, with this time to live and priority. */
  ghost predicate AutoAt(s: Stores, name: string, rtype: string, k: Key, ttl: int, priority: Option<int>) {
    && k.name == name && k.rtype == rtype
    && exists r :: r in s.core && r.manager == Auto && r.active && r.name == name && r.rtype == rtype
                   && r.content == k.content && r.zone in s.domains && s.domains[r.zone] == k.domain
                   && r.ttl == ttl && r.priority == priority
  }

  /** Such rows are written where they belong, one at each key; other keys stay as they are. */
  ghost predicate AutoRestored(s: Stores, after: Served, name: string, rtype: string, k: Key) {
    if exists ttl, priority :: AutoAt(s, name, rtype, k, ttl, priority)
    then k in after && |after[k]| == 1 && AutoAt(s, name, rtype, k, after[k][0].ttl, after[k][0].priority)
    else KeptIf(s.served, after, k, true)
  }

  lemma {:induction false} RestoredLaw(s: Stores, name: string, rtype: string, recs: seq<Row>, k: Key)
    requires Valid(s) && Answers(recs, s.core, name, rtype)
    ensures AutoRestored(s, Restored(s.served, s.domains, recs), name, rtype, k)
  {
    RestoredAt(s.served, s.domains, recs, k);
    forall r ensures r in recs <==> r in s.core && r.manager == Auto && r.active && r.name == name && r.rtype == rtype {
      assert r in recs <==> r in multiset(recs);
    }
    if ttl, priority :| AutoAt(s, name, rtype, k, ttl, priority) {
      var r :| r in s.core && r.manager == Auto && r.active && r.name == name && r.rtype == rtype
               && r.content == k.content && r.zone in s.domains && s.domains[r.zone] == k.domain
               && r.ttl == ttl && r.priority == priority;
      assert r in recs && DomainId(s.domains, r.zone) > 0 && KeyFor(s.domains, r) == k;
    }
    forall r | r in recs && DomainId(s.domains, r.zone) > 0 && KeyFor(s.domains, r) == k
      ensures AutoAt(s, name, rtype, k, r.ttl, r.priority) {}
  }

  /** Reactivation does nothing while a custom record of the name and type is active, and else restores the automatic ones. */
  lemma {:induction false} ReactivationLaw(s: Stores, name: string, rtype: string, recs: seq<Row>, k: Key)
    requires Valid(s) && Answers(recs, s.core, name, rtype)
    ensures var after := Reactivated(s, name, rtype, recs);
      if CustomActive(s.core, name, rtype) then after == s
      else
        && after.core == s.core && after.active == s.active && after.domains == s.domains
        && AutoRestored(s, after.served, name, rtype, k)
  {
    OverriddenIff(s, name, rtype);
    RestoredLaw(s, name, rtype, recs, k);
  }

  /** The whole effect of creating a custom record. */
  lemma {:induction false} CustomCreatedLaw(s: Stores, r: Row, k: Key)
    requires Valid(s)
    ensures var after := CustomCreated(s, r);
      && after.active == s.active && after.domains == s.domains
      && if r.zone !in s.domains then after.served == s.served && after.core == s.core + multiset{r.(active := false)}
         else
           && after.core == s.core + multiset{r.(active := true)}
           && var own := Key(s.domains[r.zone], r.name, r.rtype, r.content);
              KeptIf(s.served[own := [Val(r.ttl, r.priority)]], after.served, k,
                     !(k.name == r.name && k.rtype == r.rtype && AutoIn(s, r.name, r.rtype, k.domain)))
  {
    if r.zone in s.domains {
      assert DomainId(s.domains, r.zone) > 0;
      AutoDomainsAre(s, r.name, r.rtype, k.domain);
    }
  }

  /** The whole effect of deleting a custom record: its record set goes from its domain, and automatic rows come back. */
  lemma {:induction false} CustomDeletedLaw(s: Stores, r: Row, recs: seq<Row>, k: Key)
    requires Valid(s) && r in s.core && r.manager == Custom && r.active && Answers(recs, s.core, r.name, r.rtype)
    ensures var after := CustomDeleted(s, r, recs);
      var own := r.zone in s.domains && k.domain == s.domains[r.zone] && k.name == r.name && k.rtype == r.rtype;
      && after.core == s.core - multiset{r} + multiset{r.(active := false)}
      && if OtherCustom(s, r) then KeptIf(s.served, after.served, k, !own)
         else if exists ttl, pr :: AutoAt(s, r.name, r.rtype, k, ttl, pr)
         then k in after.served && |after.served[k]| == 1
              && AutoAt(s, r.name, r.rtype, k, after.served[k][0].ttl, after.served[k][0].priority)
         else KeptIf(s.served, after.served, k, !own)
  {
    var d := DomainId(s.domains, r.zone);
    var core := s.core - multiset{r} + multiset{r.(active := false)};
    var cleared := Stores(s.active, s.domains, core, if d > 0 then Without(s.served, {d}, r.name, r.rtype) else s.served);
    OtherCustomOverrides(s, r);
    ClearedAlike(s, r, recs, cleared);
    RestoredLaw(cleared, r.name, r.rtype, recs, k);
    forall ttl, pr ensures AutoAt(cleared, r.name, r.rtype, k, ttl, pr) <==> AutoAt(s, r.name, r.rtype, k, ttl, pr) {
      AutoAtAlike(s, r, cleared, k, ttl, pr);
    }
  }

  lemma {:induction false} AutoAtAlike(s: Stores, r: Row, cleared: Stores, k: Key, ttl: int, pr: Option<int>)
    requires r in s.core && r.manager == Custom
    requires cleared.core == s.core - multiset{r} + multiset{r.(active := false)} && cleared.domains == s.domains
    ensures AutoAt(cleared, r.name, r.rtype, k, ttl, pr) <==> AutoAt(s, r.name, r.rtype, k, ttl, pr)
  {
    assert forall q: Row :: q.manager == Auto ==> (q in cleared.core <==> q in s.core);
  }

  lemma {:induction false} ClearedAlike(s: Stores, r: Row, recs: seq<Row>, cleared: Stores)
    requires Valid(s) && r in s.core && r.manager == Custom && Answers(recs, s.core, r.name, r.rtype)
    requires cleared.core == s.core - multiset{r} + multiset{r.(active := false)} && cleared.domains == s.domains
    requires forall k :: k in cleared.served ==> k in s.served && cleared.served[k] == s.served[k]
    ensures Valid(cleared) && Answers(recs, cleared.core, r.name, r.rtype)
  {
    forall q: Row | q.manager == Auto ensures cleared.core[q] == s.core[q] {}
  }
}
