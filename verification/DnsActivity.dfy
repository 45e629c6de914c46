/**
 The DNS activities themselves (internal/activity/dns.go, internal/activity/powerdns_db.go), as they
 update the two stores statement by statement. Each method takes the number of statements the worker has
 left before it dies and returns how many it did not use; each is proved to do what its plan says.
 */
module DnsActivity {
  import opened Text
  import opened DnsZones
  import opened DnsRecords
  import opened DnsOverride

  /** Running one list of actions after another. */
  lemma {:induction false} RunAppend(a: seq<Action>, b: seq<Action>, s: Stores, budget: nat)
    ensures RunActions(a + b, s, budget)
         == var (mid, outcome, left) := RunActions(a, s, budget);
            if outcome.Done? then RunActions(b, mid, left) else (mid, outcome, left)
    decreases |a|
  {
    if a == [] {
      assert a + b == b;
    } else {
      assert (a + b)[0] == a[0] && (a + b)[1..] == a[1..] + b;
      var (next, outcome, left) := RunAction(a[0], s, budget);
      if outcome.Done? { RunAppend(a[1..], b, next, left); }
    }
  }

  lemma {:induction false} RunOne(a: Action, s: Stores, budget: nat)
    ensures RunActions([a], s, budget) == RunAction(a, s, budget)
  {
    assert [a][1..] == [];
  }

  lemma {:induction false} DefsAppend(v: View, a: seq<Def>, b: seq<Def>)
    ensures DefsActions(v, a + b) == DefsActions(v, a) + DefsActions(v, b)
    decreases |a|
  {
    if a == [] {
      assert a + b == b;
    } else {
      assert (a + b)[0] == a[0] && (a + b)[1..] == a[1..] + b;
      DefsAppend(v, a[1..], b);
    }
  }

  /** Creating one list of records after another. */
  lemma {:induction false} RunDefs(v: View, a: seq<Def>, b: seq<Def>, s: Stores, budget: nat)
    ensures RunActions(DefsActions(v, a + b), s, budget)
         == var (mid, outcome, left) := RunActions(DefsActions(v, a), s, budget);
            if outcome.Done? then RunActions(DefsActions(v, b), mid, left) else (mid, outcome, left)
  {
    DefsAppend(v, a, b);
    RunAppend(DefsActions(v, a), DefsActions(v, b), s, budget);
  }

  lemma {:induction false} OneDef(v: View, d: Def, s: Stores, budget: nat)
    ensures DefsActions(v, [d]) == AutoActions(v, d)
    ensures ViewOf(RunActions(AutoActions(v, d), s, budget).0) == ViewOf(s)
  {
    assert [d][1..] == [];
    ActionsKeepView(AutoActions(v, d), s, budget);
  }

  lemma {:induction false} IncludesNext(before: seq<string>, parts: seq<string>, i: nat)
    requires i < |parts|
    ensures before + Includes(parts[i..])
         == (if TrimSpace(parts[i]) == "" then before else before + ["include:" + TrimSpace(parts[i])]) + Includes(parts[i + 1..])
  {
    var rest := Includes(parts[i + 1..]);
    assert parts[i..][0] == parts[i] && parts[i..][1..] == parts[i + 1..];
    if TrimSpace(parts[i]) != "" {
      var first := "include:" + TrimSpace(parts[i]);
      assert Includes(parts[i..]) == [first] + rest;
      assert before + ([first] + rest) == before + [first] + rest;
    } else {
      assert Includes(parts[i..]) == [] + rest == rest;
    }
  }

  /** The domains of the records, as far as PowerDNS has them. */
  ghost predicate Gone(gone: set<nat>, domains: map<string, nat>, recs: seq<Row>) {
    forall d :: d in gone <==> d > 0 && InDomain(recs, domains, d)
  }

  predicate InDomain(recs: seq<Row>, domains: map<string, nat>, d: nat) {
    exists r :: r in recs && DomainId(domains, r.zone) == d
  }

  lemma {:induction false} GoneNext(gone: set<nat>, domains: map<string, nat>, recs: seq<Row>, r: Row)
    requires Gone(gone, domains, recs)
    ensures Gone(if DomainId(domains, r.zone) == 0 then gone else gone + {DomainId(domains, r.zone)}, domains, recs + [r])
  {
    forall d ensures InDomain(recs + [r], domains, d) <==> DomainId(domains, r.zone) == d || InDomain(recs, domains, d) {
      assert r in recs + [r];
    }
  }

  lemma {:induction false} GoneAreAuto(gone: set<nat>, s: Stores, recs: seq<Row>, name: string, rtype: string)
    requires Gone(gone, s.domains, recs) && Answers(recs, s.core, name, rtype)
    ensures gone == AutoDomains(s, name, rtype)
  {
    AnswersCover(recs, s.core, name, rtype);
    forall d ensures d in gone <==> d in AutoDomains(s, name, rtype) {
      if d in gone { var r :| r in recs && DomainId(s.domains, r.zone) == d; }
    }
  }

  lemma {:induction false} WithoutNext(served: Served, gone: set<nat>, domain: nat, name: string, rtype: string)
    ensures var before := Without(served, gone, name, rtype);
      (map k | k in before && !(k.domain == domain && k.name == name && k.rtype == rtype) :: before[k])
      == Without(served, gone + {domain}, name, rtype)
  {
  }

  class DNS {
    var active: set<string>
    var domains: map<string, nat>
    var core: multiset<Row>
    var served: Served

    function State(): Stores
      reads this
    {
      Stores(active, domains, core, served)
    }

    /** `WriteDNSRecord`: delete, then insert, which the foreign key refuses outside a known domain. */
    method WriteDNSRecord(key: Key, val: Val, budget: nat) returns (outcome: Outcome, left: nat)
      modifies `served
      ensures (State(), outcome, left) == RunAction(Write(key, val), old(State()), budget)
    {
      if budget == 0 { return Crashed, 0; }
      served := served - {key};
      if budget == 1 { return Crashed, 0; }
      if key.domain !in domains.Values { return Failed, budget - 2; }
      served := served[key := [val]];
      return Done, budget - 2;
    }

    /** The guarded insert into zone_records. */
    method InsertRecord(ins: Insert, budget: nat) returns (outcome: Outcome, left: nat)
      modifies `core
      ensures (State(), outcome, left) == RunAction(Record(ins), old(State()), budget)
    {
      if budget == 0 { return Crashed, 0; }
      if (!ins.ifActive || ins.zone in active) && !exists r :: r in core && Clashes(r, ins) {
        core := core + multiset{RowOf(ins)};
      }
      return Done, budget - 1;
    }

    /** `hasCustomRecord` */
    method HasCustomRecord(name: string, types: seq<string>) returns (b: bool)
      ensures b <==> exists t :: t in types && Overridden(ViewOf(State()), name, t)
    {
      b := exists r :: r in core && r.name == name && r.manager == Custom && r.active && r.rtype in types;
      assert b <==> exists r :: r in core && r.manager == Custom && r.active && (r.name, r.rtype).1 in types && r.name == name;
    }

    /** `createAutoRecord` */
    method CreateAutoRecord(def: Def, budget: nat) returns (outcome: Outcome, left: nat)
      modifies `served, `core
      ensures (State(), outcome, left) == RunActions(AutoActions(ViewOf(old(State())), def), old(State()), budget)
    {
      var custom := HasCustomRecord(def.name, [def.rtype]);
      outcome, left := Done, budget;
      var key := Key(def.domain, def.name, def.rtype, def.content);
      var val := Val(TTL, def.priority);
      var ins := Insert(def.zone, true, def.rtype, def.name, def.content, TTL, def.priority,
                        def.sourceType, def.sourceId, false);
      if !custom && def.domain > 0 {
        outcome, left := WriteDNSRecord(key, val, left);
        RunOne(Write(key, val), old(State()), budget);
        RunAppend([Write(key, val)], [Record(ins)], old(State()), budget);
        if outcome != Done { return; }
      }
      RunOne(Record(ins), State(), left);
      outcome, left := InsertRecord(ins, left);
    }

    /** `AutoCreateDNSRecords` */
    method AutoCreateDNSRecords(p: FqdnParams, budget: nat) returns (outcome: Outcome, left: nat)
      modifies `served, `core
      ensures (State(), outcome, left) == Attempt(AutoFqdn(p), old(State()), budget)
    {
      var zone := FindZoneForFQDN(active, p.fqdn);
      if zone == "" { return Done, budget; }
      var domain := DomainId(domains, zone);
      var custom := HasCustomRecord(p.fqdn, ["A", "AAAA"]);
      assert custom == (Overridden(ViewOf(State()), p.fqdn, "A") || Overridden(ViewOf(State()), p.fqdn, "AAAA")) by {
        assert "A" in ["A", "AAAA"] && "AAAA" in ["A", "AAAA"];
      }
      outcome, left := CreateAddresses(zone, domain, custom, p, budget);
    }

    /** The loop over addresses. */
    method CreateAddresses(zone: string, domain: nat, custom: bool, p: FqdnParams, budget: nat)
      returns (outcome: Outcome, left: nat)
      modifies `served, `core
      ensures (State(), outcome, left) == RunActions(AddressesActions(zone, domain, custom, p, 0), old(State()), budget)
    {
      outcome, left := Done, budget;
      var i := 0;
      while i < |p.addresses|
        invariant 0 <= i <= |p.addresses| && outcome == Done
        invariant RunActions(AddressesActions(zone, domain, custom, p, i), State(), left)
               == RunActions(AddressesActions(zone, domain, custom, p, 0), old(State()), budget)
      {
        var a := p.addresses[i];
        RunAppend(AddressActions(zone, domain, custom, p, a), AddressesActions(zone, domain, custom, p, i + 1), State(), left);
        outcome, left := CreateAddress(zone, domain, custom, p, a, left);
        if outcome != Done { return; }
        i := i + 1;
      }
    }

    /** The body of the loop over addresses. */
    method CreateAddress(zone: string, domain: nat, custom: bool, p: FqdnParams, a: Address, budget: nat)
      returns (outcome: Outcome, left: nat)
      modifies `served, `core
      ensures (State(), outcome, left) == RunActions(AddressActions(zone, domain, custom, p, a), old(State()), budget)
    {
      outcome, left := Done, budget;
      var t := "A";
      if a.family == 6 {
        t := "AAAA";
      } else if a.family != 4 {
        return;
      }
      var key := Key(domain, p.fqdn, t, a.address);
      var ins := Insert(zone, true, t, p.fqdn, a.address, TTL, None, "fqdn", p.sourceId, true);
      if !custom {
        outcome, left := WriteDNSRecord(key, Val(TTL, None), left);
        RunOne(Write(key, Val(TTL, None)), old(State()), budget);
        RunAppend([Write(key, Val(TTL, None))], [Record(ins)], old(State()), budget);
        if outcome != Done { return; }
      }
      RunOne(Record(ins), State(), left);
      outcome, left := InsertRecord(ins, left);
    }

    /** `AutoCreateEmailDNSRecords`: up to four records, stopping at the first error. */
    method AutoCreateEmailDNSRecords(p: EmailParams, budget: nat) returns (outcome: Outcome, left: nat)
      modifies `served, `core
      ensures (State(), outcome, left) == Attempt(AutoEmail(p), old(State()), budget)
    {
      var zone := FindZoneForFQDN(active, p.fqdn);
      if zone == "" { return Done, budget; }
      outcome, left := CreateMailRecords(zone, DomainId(domains, zone), p, budget);
    }

    method CreateMailRecords(zone: string, d: nat, p: EmailParams, budget: nat) returns (outcome: Outcome, left: nat)
      modifies `served, `core
      ensures (State(), outcome, left)
           == RunActions(DefsActions(ViewOf(old(State())), EmailDefs(zone, d, p)), old(State()), budget)
    {
      ghost var v := ViewOf(State());
      RunDefs(v, MxDefs(zone, d, p), SpfDefs(zone, d, p) + (DkimDefs(zone, d, p) + DmarcDefs(zone, d, p)), State(), budget);
      outcome, left := CreateMX(zone, d, p, budget);
      if outcome != Done { return; }
      RunDefs(v, SpfDefs(zone, d, p), DkimDefs(zone, d, p) + DmarcDefs(zone, d, p), State(), left);
      outcome, left := CreateSPF(zone, d, p, left);
      if outcome != Done { return; }
      outcome, left := CreateSignatures(zone, d, p, left);
    }

    /** The records that only some brands have. */
    method CreateSignatures(zone: string, d: nat, p: EmailParams, budget: nat) returns (outcome: Outcome, left: nat)
      modifies `served, `core
      ensures (State(), outcome, left)
           == RunActions(DefsActions(ViewOf(old(State())), DkimDefs(zone, d, p) + DmarcDefs(zone, d, p)), old(State()), budget)
    {
      RunDefs(ViewOf(State()), DkimDefs(zone, d, p), DmarcDefs(zone, d, p), State(), budget);
      outcome, left := CreateDKIM(zone, d, p, budget);
      if outcome != Done { return; }
      outcome, left := CreateDMARC(zone, d, p, left);
    }

    method CreateMX(zone: string, domain: nat, p: EmailParams, budget: nat) returns (outcome: Outcome, left: nat)
      modifies `served, `core
      ensures (State(), outcome, left)
           == RunActions(DefsActions(ViewOf(old(State())), MxDefs(zone, domain, p)), old(State()), budget)
      ensures ViewOf(State()) == ViewOf(old(State()))
    {
      if p.mailHostname == "" { return Done, budget; }
      var def := Def(zone, domain, p.fqdn, "MX", p.mailHostname, Some(10), "email-mx", p.sourceId);
      OneDef(ViewOf(State()), def, State(), budget);
      outcome, left := CreateAutoRecord(def, budget);
    }

    method CreateSPF(zone: string, domain: nat, p: EmailParams, budget: nat) returns (outcome: Outcome, left: nat)
      modifies `served, `core
      ensures (State(), outcome, left)
           == RunActions(DefsActions(ViewOf(old(State())), SpfDefs(zone, domain, p)), old(State()), budget)
      ensures ViewOf(State()) == ViewOf(old(State()))
    {
      var content := BuildSPFRecord(p.spfIncludes);
      var def := Def(zone, domain, p.fqdn, "TXT", content, None, "email-spf", p.sourceId);
      OneDef(ViewOf(State()), def, State(), budget);
      outcome, left := CreateAutoRecord(def, budget);
    }

    method CreateDKIM(zone: string, domain: nat, p: EmailParams, budget: nat) returns (outcome: Outcome, left: nat)
      modifies `served, `core
      ensures (State(), outcome, left)
           == RunActions(DefsActions(ViewOf(old(State())), DkimDefs(zone, domain, p)), old(State()), budget)
      ensures ViewOf(State()) == ViewOf(old(State()))
    {
      if p.dkimSelector == "" || p.dkimPublicKey == "" { return Done, budget; }
      var name := p.dkimSelector + "._domainkey." + p.fqdn;
      var content := "v=DKIM1; k=rsa; p=" + p.dkimPublicKey;
      var def := Def(zone, domain, name, "TXT", content, None, "email-dkim", p.sourceId);
      OneDef(ViewOf(State()), def, State(), budget);
      outcome, left := CreateAutoRecord(def, budget);
    }

    method CreateDMARC(zone: string, domain: nat, p: EmailParams, budget: nat) returns (outcome: Outcome, left: nat)
      modifies `served, `core
      ensures (State(), outcome, left)
           == RunActions(DefsActions(ViewOf(old(State())), DmarcDefs(zone, domain, p)), old(State()), budget)
      ensures ViewOf(State()) == ViewOf(old(State()))
    {
      if p.dmarcPolicy == "" { return Done, budget; }
      var def := Def(zone, domain, "_dmarc." + p.fqdn, "TXT", p.dmarcPolicy, None, "email-dmarc", p.sourceId);
      OneDef(ViewOf(State()), def, State(), budget);
      outcome, left := CreateAutoRecord(def, budget);
    }

    /** `buildSPFRecord`: blank entries of the list are dropped. */
    static method BuildSPFRecord(spfIncludes: string) returns (content: string)
      ensures content == SpfContent(spfIncludes)
    {
      if spfIncludes == "" { return SPF_START + SPF_END; }
      var parts := Split(spfIncludes, ',');
      var includes := CollectIncludes(parts);
      if |includes| == 0 { return SPF_START + SPF_END; }
      return SPF_START + Join(includes, " ") + " " + SPF_END;
    }

    static method CollectIncludes(parts: seq<string>) returns (includes: seq<string>)
      ensures includes == Includes(parts)
    {
      includes := [];
      for i := 0 to |parts|
        invariant includes + Includes(parts[i..]) == Includes(parts)
      {
        IncludesNext(includes, parts, i);
        var p := TrimSpace(parts[i]);
        if p != "" { includes := includes + ["include:" + p]; }
      }
    }

    /** `RetroactiveAutoRecords`, from what its queries answered; errors of the address records are ignored. */
    method RetroactiveAutoRecords(p: RetroParams, budget: nat) returns (outcome: Outcome, left: nat)
      modifies `served, `core
      ensures (State(), outcome, left) == Attempt(Retroactive(p), old(State()), budget)
    {
      var domain := DomainId(domains, p.zone);
      if domain == 0 { return Done, budget; }
      ghost var v := ViewOf(State());
      ghost var first := RetroFqdnsActions(v, domain, p, p.fqdns);
      RunAppend(first, EmailsActions(v, p.emails), State(), budget);
      ActionsKeepView(first, State(), budget);
      outcome, left := RetroactiveFqdns(p, domain, budget);
      if outcome != Done { return; }
      outcome, left := RetroactiveEmails(p.emails, left);
    }

    /** The loop over names. */
    method RetroactiveFqdns(p: RetroParams, domain: nat, budget: nat) returns (outcome: Outcome, left: nat)
      requires domain in domains.Values
      modifies `served, `core
      ensures (State(), outcome, left)
           == RunActions(RetroFqdnsActions(ViewOf(old(State())), domain, p, p.fqdns), old(State()), budget)
    {
      ghost var v := ViewOf(State());
      outcome, left := Done, budget;
      var todo := p.fqdns;
      while todo != []
        invariant outcome == Done && ViewOf(State()) == v
        invariant RunActions(RetroFqdnsActions(v, domain, p, todo), State(), left)
               == RunActions(RetroFqdnsActions(v, domain, p, p.fqdns), old(State()), budget)
        decreases |todo|
      {
        ghost var first := RetroFqdnActions(v, domain, p, todo[0].0, todo[0].1, p.addresses);
        RunAppend(first, RetroFqdnsActions(v, domain, p, todo[1..]), State(), left);
        ActionsKeepView(first, State(), left);
        outcome, left := RetroactiveFqdn(p, domain, todo[0].0, todo[0].1, left);
        if outcome != Done { return; }
        todo := todo[1..];
      }
    }

    /** The loop over names with mail. */
    method RetroactiveEmails(emails: seq<EmailParams>, budget: nat) returns (outcome: Outcome, left: nat)
      modifies `served, `core
      ensures (State(), outcome, left) == RunActions(EmailsActions(ViewOf(old(State())), emails), old(State()), budget)
    {
      ghost var v := ViewOf(State());
      outcome, left := Done, budget;
      var todo := emails;
      while todo != []
        invariant outcome == Done && ViewOf(State()) == v
        invariant RunActions(EmailsActions(v, todo), State(), left)
               == RunActions(EmailsActions(v, emails), old(State()), budget)
        decreases |todo|
      {
        RunAppend(EmailActions(v, todo[0]), EmailsActions(v, todo[1..]), State(), left);
        ActionsKeepView(EmailActions(v, todo[0]), State(), left);
        outcome, left := AutoCreateEmailDNSRecords(todo[0], left);
        if outcome != Done { return; }
        todo := todo[1..];
      }
    }

    /** The loop over the addresses of one name. */
    method RetroactiveFqdn(p: RetroParams, domain: nat, id: string, fqdn: string, budget: nat)
      returns (outcome: Outcome, left: nat)
      requires domain in domains.Values
      modifies `served, `core
      ensures (State(), outcome, left)
           == RunActions(RetroFqdnActions(ViewOf(old(State())), domain, p, id, fqdn, p.addresses), old(State()), budget)
    {
      ghost var v := ViewOf(State());
      outcome, left := Done, budget;
      var todo := p.addresses;
      while todo != []
        invariant outcome == Done && ViewOf(State()) == v
        invariant RunActions(RetroFqdnActions(v, domain, p, id, fqdn, todo), State(), left)
               == RunActions(RetroFqdnActions(v, domain, p, id, fqdn, p.addresses), old(State()), budget)
        decreases |todo|
      {
        ghost var first := RetroAddressActions(v, domain, p, id, fqdn, todo[0]);
        RunAppend(first, RetroFqdnActions(v, domain, p, id, fqdn, todo[1..]), State(), left);
        ActionsKeepView(first, State(), left);
        outcome, left := RetroactiveAddress(p, domain, id, fqdn, todo[0], left);
        if outcome != Done { return; }
        todo := todo[1..];
      }
    }

    method RetroactiveAddress(p: RetroParams, domain: nat, id: string, fqdn: string, a: Address, budget: nat)
      returns (outcome: Outcome, left: nat)
      requires domain in domains.Values
      modifies `served, `core
      ensures (State(), outcome, left)
           == RunActions(RetroAddressActions(ViewOf(old(State())), domain, p, id, fqdn, a), old(State()), budget)
    {
      outcome, left := Done, budget;
      var t := "A";
      if a.family == 6 {
        t := "AAAA";
      } else if a.family != 4 {
        return;
      }
      var custom := HasCustomRecord(fqdn, [t]);
      var key := Key(domain, fqdn, t, a.address);
      var ins := Insert(p.zone, false, t, fqdn, a.address, TTL, None, "fqdn", id, true);
      if !custom {
        outcome, left := WriteDNSRecord(key, Val(TTL, None), left);
        RunOne(Write(key, Val(TTL, None)), old(State()), budget);
        RunAppend([Write(key, Val(TTL, None))], [Record(ins)], old(State()), budget);
        if outcome == Crashed { return; }
      }
      RunOne(Record(ins), State(), left);
      outcome, left := InsertRecord(ins, left);
    }

    /** The query for the active automatic records of a name and type. */
    method AutoRecords(name: string, rtype: string) returns (recs: seq<Row>)
      ensures Answers(recs, core, name, rtype)
    {
      recs := [];
      var todo := core;
      while todo != multiset{}
        invariant forall r: Row :: multiset(recs)[r] + (if IsAuto(r, name, rtype) then todo[r] else 0)
                                == if IsAuto(r, name, rtype) then core[r] else 0
        decreases |todo|
      {
        var r :| r in todo;
        todo := todo - multiset{r};
        if IsAuto(r, name, rtype) { recs := recs + [r]; }
      }
    }

    /** `DeactivateAutoRecords` */
    method DeactivateAutoRecords(name: string, rtype: string)
      modifies `served
      ensures State() == Deactivated(old(State()), name, rtype)
    {
      var recs := AutoRecords(name, rtype);
      ghost var gone: set<nat> := {};
      for i := 0 to |recs|
        invariant Gone(gone, domains, recs[..i])
        invariant served == Without(old(served), gone, name, rtype)
      {
        var domain := DomainId(domains, recs[i].zone);
        GoneNext(gone, domains, recs[..i], recs[i]);
        assert recs[..i + 1] == recs[..i] + [recs[i]];
        if domain == 0 { continue; }
        WithoutNext(old(served), gone, domain, name, rtype);
        served := map k | k in served && !(k.domain == domain && k.name == name && k.rtype == rtype) :: served[k];
        gone := gone + {domain};
      }
      assert recs[..|recs|] == recs;
      GoneAreAuto(gone, old(State()), recs, name, rtype);
    }

    /** `ReactivateAutoRecords`: what the query answers is the only freedom. */
    method ReactivateAutoRecords(name: string, rtype: string) returns (ghost recs: seq<Row>)
      requires Valid(State())
      modifies `served
      ensures Answers(recs, core, name, rtype)
      ensures State() == Reactivated(old(State()), name, rtype, recs)
    {
      var rows := AutoRecords(name, rtype);
      recs := rows;
      var custom := HasCustomRecord(name, [rtype]);
      assert custom == Overridden(ViewOf(State()), name, rtype) by {
        assert rtype in [rtype];
      }
      if custom { return; }
      for i := 0 to |rows|
        invariant served == Restored(old(served), domains, rows[..i])
      {
        var r := rows[i];
        assert rows[..i + 1][..i] == rows[..i];
        var domain := DomainId(domains, r.zone);
        if domain == 0 { continue; }
        var outcome, left := WriteDNSRecord(Key(domain, r.name, r.rtype, r.content), Val(r.ttl, r.priority), 2);
      }
      assert rows[..|rows|] == rows;
    }
  }

  lemma {:induction false} AnswersCover(recs: seq<Row>, core: multiset<Row>, name: string, rtype: string)
    requires Answers(recs, core, name, rtype)
    ensures forall r :: r in recs <==> r in core && IsAuto(r, name, rtype)
  {
    assert forall r: Row :: r in recs <==> r in multiset(recs);
  }
}
