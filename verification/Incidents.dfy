/**
 Incidents: de-duplicated creation, the life cycle, and the claim by the agent
 (internal/core/incident.go:23-73 and 179-313, internal/activity/incident.go:31-138,
 internal/activity/agent.go:122-144). The table has a unique index on the de-duplication key over the rows
 that are neither resolved nor cancelled (migrations/core/00041_incidents.sql:23-24).
 */
module Incidents {
  import opened Text
  import DnsZones

  datatype Status = Open | Investigating | Remediating | Resolved | Escalated | Cancelled

  predicate Live(s: Status) { s != Resolved && s != Cancelled }

  datatype Incident = Incident(
    key: string, itype: string, resource: Option<(string, string)>, status: Status, owner: Option<string>)

  type Table = map<string, Incident>

  predicate LiveAt(t: Table, id: string) { id in t && Live(t[id].status) }

  /** At most one live incident for each key. */
  ghost predicate Unique(t: Table) {
    forall a, b :: LiveAt(t, a) && LiveAt(t, b) && t[a].key == t[b].key ==> a == b
  }

  // The statements, before the index has its say.

  const AGENT := "agent:incident-investigator"

  datatype Statement =
    | Insert(id: string, row: Incident)
    | Update(id: string, status: Option<Status>, assign: Option<string>)
    | Resolve(id: string)
    | Escalate(id: string)
    | Cancel(id: string)
    | AutoResolve(resource: (string, string), typePrefix: string)
    | Claim(id: string)

  predicate Matches(i: Incident, resource: (string, string), typePrefix: string) {
    i.resource == Some(resource) && DnsZones.Like(typePrefix + "%", i.itype) && Live(i.status)
  }

  predicate Claimable(t: Table, id: string) {
    id in t && t[id].owner.None? && t[id].status == Open
  }

  function WithStatus(t: Table, id: string, s: Status): Table {
    if id in t then t[id := t[id].(status := s)] else t
  }

  function Updated(i: Incident, status: Option<Status>, assign: Option<string>): Incident {
    i.(status := if status.Some? then status.value else i.status,
       owner := if assign.Some? then assign else i.owner)
  }

  function Raw(t: Table, s: Statement): Table {
    match s
    case Insert(id, row) => if id in t then t else t[id := row]
    case Update(id, status, assign) => if id in t then t[id := Updated(t[id], status, assign)] else t
    case Resolve(id) => WithStatus(t, id, Resolved)
    case Escalate(id) => WithStatus(t, id, Escalated)
    case Cancel(id) => WithStatus(t, id, Cancelled)
    case AutoResolve(resource, prefix) =>
      map id | id in t :: if Matches(t[id], resource, prefix) then t[id].(status := Resolved) else t[id]
    case Claim(id) => if Claimable(t, id) then t[id := t[id].(status := Investigating, owner := Some(AGENT))] else t
  }

  /** The statement makes a row live beside another live one of its key. */
  ghost predicate Rivals(t: Table, s: Statement) {
    match s
    case Insert(id, row) => id !in t && Live(row.status) && HasRival(t, id, row.key)
    case Update(id, status, _) =>
      id in t && !Live(t[id].status) && status.Some? && Live(status.value) && HasRival(t, id, t[id].key)
    case Escalate(id) => id in t && !Live(t[id].status) && HasRival(t, id, t[id].key)
    case _ => false
  }

  ghost predicate HasRival(t: Table, id: string, key: string) {
    exists b :: b != id && LiveAt(t, b) && t[b].key == key
  }

  lemma {:induction false} NotLiveMore(t: Table, t': Table)
    requires Unique(t) && t'.Keys == t.Keys
    requires forall id :: id in t ==> t'[id].key == t[id].key && (Live(t'[id].status) ==> Live(t[id].status))
    ensures Unique(t')
  {
    forall a, b | LiveAt(t', a) && LiveAt(t', b) && t'[a].key == t'[b].key ensures a == b {
      assert LiveAt(t, a) && LiveAt(t, b);
    }
  }

  lemma {:induction false} RowWritten(t: Table, id: string, row: Incident)
    requires Unique(t)
    ensures Unique(t[id := row]) <==> !(Live(row.status) && HasRival(t, id, row.key))
  {
    var t' := t[id := row];
    if Live(row.status) && HasRival(t, id, row.key) {
      var b :| b != id && LiveAt(t, b) && t[b].key == row.key;
      assert LiveAt(t', b) && LiveAt(t', id);
    } else {
      forall a, b | LiveAt(t', a) && LiveAt(t', b) && t'[a].key == t'[b].key ensures a == b {
        assert a != id ==> LiveAt(t, a);
        assert b != id ==> LiveAt(t, b);
      }
    }
  }

  lemma {:induction false} LiveHasNoRival(t: Table, id: string)
    requires Unique(t) && id in t
    ensures LiveAt(t, id) ==> !HasRival(t, id, t[id].key)
  {
  }

  /**
   The exact condition: from a table with at most one live incident for each key, a statement keeps it so
   if and only if it does not bring a row to life beside a live one of its key. Resolving, cancelling,
   claiming and auto-resolving always keep it.
   */
  lemma {:induction false} KeepsUniqueIff(t: Table, s: Statement)
    requires Unique(t)
    ensures Unique(Raw(t, s)) <==> !Rivals(t, s)
  {
    match s {
      case Insert(id, row) =>
        if id !in t { RowWritten(t, id, row); }
      case Update(id, status, assign) =>
        if id in t { LiveHasNoRival(t, id); RowWritten(t, id, Updated(t[id], status, assign)); }
      case Escalate(id) =>
        if id in t { LiveHasNoRival(t, id); RowWritten(t, id, t[id].(status := Escalated)); }
      case _ => NotLiveMore(t, Raw(t, s));
    }
  }

  // With the index.

  /** A statement the index refuses changes nothing. */
  ghost function Executed(t: Table, s: Statement): Table {
    if Unique(Raw(t, s)) then Raw(t, s) else t
  }

  /** A concurrent run: statements of any requests in any order. The log holds the successful claims. */
  ghost function Run(t: Table, steps: seq<Statement>): (Table, seq<string>) {
    if steps == [] then (t, [])
    else
      var (before, log) := Run(t, steps[..|steps| - 1]);
      var s := steps[|steps| - 1];
      (Executed(before, s), if s.Claim? && Claimable(before, s.id) then log + [s.id] else log)
  }

  /** The index lets only tables with at most one live incident for each key be reached. */
  lemma {:induction false} AlwaysUnique(t: Table, steps: seq<Statement>)
    requires Unique(t)
    ensures Unique(Run(t, steps).0)
  {
    if steps == [] {
    } else {
      AlwaysUnique(t, steps[..|steps| - 1]);
    }
  }

  /** The statement takes effect unless it makes a row live beside another live one of its key. */
  ghost function UnlessRival(t: Table, s: Statement): Table {
    if Rivals(t, s) then t else Raw(t, s)
  }

  /**
   In every interleaving, what the index refuses is exactly the statements that would bring a row to life
   beside a live one of its key; every other statement takes effect.
   */
  lemma {:induction false} RefusedIff(t: Table, steps: seq<Statement>, s: Statement)
    requires Unique(t)
    ensures Run(t, steps + [s]).0 == UnlessRival(Run(t, steps).0, s)
  {
    AlwaysUnique(t, steps);
    KeepsUniqueIff(Run(t, steps).0, s);
    assert (steps + [s])[..|steps|] == steps;
  }

  /** An incident once claimed is assigned for good. */
  lemma {:induction false} ClaimedStayAssigned(t: Table, steps: seq<Statement>)
    requires Unique(t)
    ensures forall id :: id in Run(t, steps).1 ==> id in Run(t, steps).0 && Run(t, steps).0[id].owner.Some?
  {
    if steps == [] {
    } else {
      var front := steps[..|steps| - 1];
      ClaimedStayAssigned(t, front);
      AlwaysUnique(t, front);
      KeepsUniqueIff(Run(t, front).0, steps[|steps| - 1]);
    }
  }

  /** Over every interleaving, at most one claim of an incident ever succeeds. */
  lemma {:induction false} ClaimedAtMostOnce(t: Table, steps: seq<Statement>)
    requires Unique(t)
    ensures forall i, j :: 0 <= i < j < |Run(t, steps).1| ==> Run(t, steps).1[i] != Run(t, steps).1[j]
  {
    if steps == [] {
    } else {
      var front := steps[..|steps| - 1];
      ClaimedAtMostOnce(t, front);
      ClaimedStayAssigned(t, front);
    }
  }

  // Serial use: the code alone, without the index.

  /** `Create` and `CreateIncident`: the live incident of the key, or a new one. */
  function Existing(t: Table, key: string): set<string> {
    set id | id in t && Live(t[id].status) && t[id].key == key
  }

  datatype Request = Create(id: string, row: Incident) | Do(s: Statement)

  /** A new id is new, a new incident is open; other requests do not insert. */
  predicate Sensible(t: Table, r: Request) {
    match r
    case Create(id, row) => id !in t && row.status == Open
    case Do(s) => !s.Insert?
  }

  function Handled(t: Table, r: Request): Table {
    match r
    case Create(id, row) => if Existing(t, row.key) != {} then t else Raw(t, Insert(id, row))
    case Do(s) => Raw(t, s)
  }

  /** `Update` and `Escalate` leave resolved and cancelled incidents alone. */
  predicate OnlyLive(t: Table, r: Request) {
    r.Do? && (r.s.Escalate? || (r.s.Update? && r.s.status.Some?)) && r.s.id in t ==> Live(t[r.s.id].status)
  }

  /** A look before the insert is enough when requests do not overlap. */
  lemma {:induction false} HandledKeepsUniqueIff(t: Table, r: Request)
    requires Unique(t) && Sensible(t, r)
    ensures Unique(Handled(t, r)) <==> !(r.Do? && Rivals(t, r.s))
    ensures OnlyLive(t, r) ==> Unique(Handled(t, r))
  {
    match r {
      case Create(id, row) =>
        if Existing(t, row.key) == {} {
          assert forall b :: LiveAt(t, b) && t[b].key == row.key ==> b in Existing(t, row.key);
          KeepsUniqueIff(t, Insert(id, row));
        }
      case Do(s) => KeepsUniqueIff(t, s);
    }
  }

  ghost predicate SerialRun(tables: seq<Table>, requests: seq<Request>) {
    && |tables| == |requests| + 1
    && forall i :: 0 <= i < |requests| ==>
      Sensible(tables[i], requests[i]) && tables[i + 1] == Handled(tables[i], requests[i])
  }

  /**
   In every serial run that applies `Update` and `Escalate` only to live incidents, across both ways of
   creating, at most one live incident exists for each key, and the index never refuses anything.
   */
  lemma {:induction false} SerialRunsAreUnique(tables: seq<Table>, requests: seq<Request>, n: nat)
    requires SerialRun(tables, requests) && n <= |requests| && Unique(tables[0])
    requires forall i :: 0 <= i < |requests| ==> OnlyLive(tables[i], requests[i])
    ensures Unique(tables[n])
  {
    if n == 0 {
    } else {
      SerialRunsAreUnique(tables, requests, n - 1);
      HandledKeepsUniqueIff(tables[n - 1], requests[n - 1]);
    }
  }

  /** Reopening a resolved incident while a newer one of its key is open is what breaks it. */
  lemma {:induction false} ReopeningBreaks(t: Table, closed: string, live: string)
    requires Unique(t) && closed in t && !Live(t[closed].status) && LiveAt(t, live) && t[live].key == t[closed].key
    ensures !Unique(Raw(t, Escalate(closed))) && !Unique(Raw(t, Update(closed, Some(Open), None)))
  {
    assert HasRival(t, closed, t[closed].key);
    KeepsUniqueIff(t, Escalate(closed));
    KeepsUniqueIff(t, Update(closed, Some(Open), None));
  }

  // The service.

  lemma {:induction false} HasRivalIsFound(t: Table, id: string, key: string)
    ensures HasRival(t, id, key) <==> exists b :: b in t && b != id && Live(t[b].status) && t[b].key == key
  {
    if b :| b in t && b != id && Live(t[b].status) && t[b].key == key { assert LiveAt(t, b); }
  }

  /** An incident that no longer counts. */
  predicate Closed(i: Incident) { i.status == Resolved || i.status == Cancelled }

  /** No row but this one changes. */
  ghost predicate OnlyRow(before: Table, after: Table, id: string) {
    forall n :: n != id ==> (n in after <==> n in before) && (n in before ==> after[n] == before[n])
  }

  /** At most one incident of a key is neither resolved nor cancelled, in every state of every interleaving. */
  lemma {:induction false} OneOpenIncident(t: Table, steps: seq<Statement>, a: string, b: string)
    requires Unique(t)
    ensures var now := Run(t, steps).0;
      a in now && b in now && now[a].key == now[b].key && !Closed(now[a]) && !Closed(now[b]) ==> a == b
  {
    AlwaysUnique(t, steps);
    var now := Run(t, steps).0;
    assert a in now && !Closed(now[a]) ==> LiveAt(now, a);
    assert b in now && !Closed(now[b]) ==> LiveAt(now, b);
  }

  /** Auto-resolving resolves what is open for the resource and of a type with the prefix, and changes nothing else. */
  lemma {:induction false} AutoResolveLaw(t: Table, resource: (string, string), prefix: string, id: string)
    requires DnsZones.Plain(prefix) && id in t
    ensures var after := Raw(t, Statement.AutoResolve(resource, prefix));
      id in after && after[id]
        == if t[id].resource == Some(resource) && prefix <= t[id].itype && !Closed(t[id]) then t[id].(status := Resolved) else t[id]
  {
    DnsZones.LikePrefix(prefix, t[id].itype);
  }

  /** The columns each statement writes, and when. */
  lemma {:induction false} StatementsLaw(t: Table, id: string)
    requires id in t
    ensures Raw(t, Statement.Resolve(id)) == t[id := t[id].(status := Resolved)]
    ensures Raw(t, Statement.Cancel(id)) == t[id := t[id].(status := Cancelled)]
    ensures Raw(t, Statement.Escalate(id)) == t[id := t[id].(status := Escalated)]
    ensures Raw(t, Claim(id))
      == if t[id].status == Open && t[id].owner == None
         then t[id := t[id].(status := Investigating, owner := Some("agent:incident-investigator"))] else t
    ensures Live(t[id].status) <==> !Closed(t[id])
  {
  }

  class IncidentService {
    var incidents: Table

    /** Writes a row; the index refuses a second live one of its key. */
    method Put(id: string, row: Incident) returns (ok: bool)
      requires Unique(incidents)
      modifies this
      ensures ok == !(Live(row.status) && HasRival(old(incidents), id, row.key))
      ensures incidents == if ok then old(incidents)[id := row] else old(incidents)
      ensures Unique(incidents)
    {
      RowWritten(incidents, id, row);
      ok := !Live(row.status)
        || !exists b :: b in incidents && b != id && Live(incidents[b].status) && incidents[b].key == row.key;
      assert ok == !(Live(row.status) && HasRival(incidents, id, row.key)) by { HasRivalIsFound(incidents, id, row.key); }
      if ok { incidents := incidents[id := row]; }
    }

    /** Returns the id of the live incident of the key and whether it is new. */
    method Create(newId: string, row: Incident) returns (id: string, created: bool)
      requires Unique(incidents) && newId !in incidents
      modifies this
      ensures incidents == Handled(old(incidents), Request.Create(newId, row.(status := Open)))
      ensures created == (Existing(old(incidents), row.key) == {})
      ensures created <==> forall e :: e in old(incidents) && old(incidents)[e].key == row.key ==> Closed(old(incidents)[e])
      ensures incidents == if created then old(incidents)[newId := row.(status := Open)] else old(incidents)
      ensures created ==> id == newId
      ensures id in incidents && LiveAt(incidents, id) && incidents[id].key == row.key
      ensures Unique(incidents)
    {
      if exists e :: e in incidents && Live(incidents[e].status) && incidents[e].key == row.key {
        id :| id in incidents && Live(incidents[id].status) && incidents[id].key == row.key;
        assert id in Existing(incidents, row.key);
        return id, false;
      }
      assert Existing(incidents, row.key) == {};
      created := Put(newId, row.(status := Open));
      id := newId;
    }

    /** Only the given fields are written; an unknown id is no error, a second live row of the key is. */
    method Update(id: string, status: Option<Status>, assignedTo: Option<string>) returns (ok: bool)
      requires Unique(incidents)
      modifies this
      ensures ok == !Rivals(old(incidents), Statement.Update(id, status, assignedTo))
      ensures incidents == UnlessRival(old(incidents), Statement.Update(id, status, assignedTo))
      ensures ok && id in old(incidents) ==>
        && id in incidents
        && incidents[id] == old(incidents)[id].(
             status := if status.Some? then status.value else old(incidents)[id].status,
             owner := if assignedTo.Some? then assignedTo else old(incidents)[id].owner)
      ensures OnlyRow(old(incidents), incidents, id)
      ensures Unique(incidents)
    {
      if id !in incidents { return true; }
      var row := incidents[id];
      if status.Some? { row := row.(status := status.value); }
      if assignedTo.Some? { row := row.(owner := assignedTo); }
      LiveHasNoRival(incidents, id);
      ok := Put(id, row);
    }

    /** Closed for good or for the time being, whatever the incident was. */
    method Resolve(id: string)
      requires Unique(incidents)
      modifies this
      ensures incidents == Raw(old(incidents), Statement.Resolve(id))
      ensures id in old(incidents) ==> id in incidents && incidents[id] == old(incidents)[id].(status := Resolved)
      ensures OnlyRow(old(incidents), incidents, id)
      ensures !LiveAt(incidents, id) && Unique(incidents)
    {
      if id in incidents {
        var _ := Put(id, incidents[id].(status := Resolved));
      }
    }

    method Cancel(id: string)
      requires Unique(incidents)
      modifies this
      ensures incidents == Raw(old(incidents), Statement.Cancel(id))
      ensures id in old(incidents) ==> id in incidents && incidents[id] == old(incidents)[id].(status := Cancelled)
      ensures OnlyRow(old(incidents), incidents, id)
      ensures !LiveAt(incidents, id) && Unique(incidents)
    {
      if id in incidents {
        var _ := Put(id, incidents[id].(status := Cancelled));
      }
    }

    /** There is no guard but the index: a closed incident comes back to life unless another of its key is live. */
    method Escalate(id: string) returns (ok: bool)
      requires Unique(incidents)
      modifies this
      ensures ok == !Rivals(old(incidents), Statement.Escalate(id))
      ensures incidents == UnlessRival(old(incidents), Statement.Escalate(id))
      ensures LiveAt(incidents, id) <==> id in old(incidents) && ok
      ensures ok && id in old(incidents) ==> incidents[id] == old(incidents)[id].(status := Escalated)
      ensures OnlyRow(old(incidents), incidents, id)
      ensures Unique(incidents)
    {
      if id !in incidents { return true; }
      LiveHasNoRival(incidents, id);
      ok := Put(id, incidents[id].(status := Escalated));
    }

    method ClaimIncidentForAgent(id: string) returns (claimed: bool)
      requires Unique(incidents)
      modifies this
      ensures claimed == Claimable(old(incidents), id)
      ensures claimed <==> id in old(incidents) && old(incidents)[id].status == Open && old(incidents)[id].owner == None
      ensures claimed ==>
        && id in incidents
        && incidents[id] == old(incidents)[id].(status := Investigating, owner := Some("agent:incident-investigator"))
      ensures OnlyRow(old(incidents), incidents, id) && (!claimed ==> incidents == old(incidents))
      ensures incidents == Raw(old(incidents), Claim(id))
      ensures Unique(incidents)
    {
      claimed := id in incidents && incidents[id].owner.None? && incidents[id].status == Open;
      if claimed {
        LiveHasNoRival(incidents, id);
        var _ := Put(id, incidents[id].(status := Investigating, owner := Some(AGENT)));
      }
    }

    /** The ids that changed come back one by one and are counted. */
    method AutoResolve(resource: (string, string), typePrefix: string) returns (count: nat)
      requires Unique(incidents)
      modifies this
      ensures incidents == Raw(old(incidents), Statement.AutoResolve(resource, typePrefix))
      ensures count == |set id | id in old(incidents) && Matches(old(incidents)[id], resource, typePrefix)|
      ensures Unique(incidents)
    {
      var hits := set id | id in incidents && Matches(incidents[id], resource, typePrefix);
      KeepsUniqueIff(incidents, Statement.AutoResolve(resource, typePrefix));
      incidents := map id | id in incidents ::
        if Matches(incidents[id], resource, typePrefix) then incidents[id].(status := Resolved) else incidents[id];
      count := 0;
      var rows := hits;
      while rows != {}
        invariant count + |rows| == |hits|
        decreases |rows|
      {
        var id :| id in rows;
        rows := rows - {id};
        count := count + 1;
      }
    }
  }
}
