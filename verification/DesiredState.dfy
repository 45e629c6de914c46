/**
 The desired state of a web shard (internal/core/desired_state.go:90-322). The loader fetches tenants,
 webroots, variables, names, cron jobs and SSH keys in six batches and joins them through index maps and a
 cache of data keys; it is proved to give what the plain nested definition gives.
 */
module DesiredState {
  import opened Text
  import opened Ordering
  import opened Envelope
  import opened EnvVars

  // The tables, by primary key; names, being unique among the rows that are not being deleted, by name.

  datatype TenantRow = TenantRow(shard: string, uid: int, sftp: bool, ssh: bool, status: string)
  datatype WebrootRow = WebrootRow(
    tenant: string, runtime: string, version: string, config: string, folder: string, envFile: string, status: string)
  datatype FqdnRow = FqdnRow(webroot: Option<string>, ssl: bool, status: string)
  datatype CronRow = CronRow(webroot: string, enabled: bool, status: string)
  datatype SshRow = SshRow(tenant: string, key: string, status: string)

  datatype Tables = Tables(
    tenants: map<string, TenantRow>, webroots: map<string, WebrootRow>, fqdns: map<string, FqdnRow>,
    crons: map<string, CronRow>, sshKeys: map<string, SshRow>,
    keys: map<string, string>, vars: map<string, map<string, Var>>)

  // What the node is told.

  datatype DesiredFqdn = DesiredFqdn(fqdn: string, ssl: bool, status: string)
  datatype DesiredCron = DesiredCron(id: string, enabled: bool)
  datatype DesiredWebroot = DesiredWebroot(
    id: string, runtime: string, version: string, config: string, folder: string, envVars: map<string, string>,
    envFile: string, status: string, fqdns: seq<DesiredFqdn>, crons: seq<DesiredCron>)
  datatype DesiredTenant = DesiredTenant(
    id: string, uid: int, sftp: bool, ssh: bool, status: string, webroots: seq<DesiredWebroot>, sshKeys: seq<string>)

  // The nested definition: for each tenant its webroots, for each webroot what belongs to it.

  function TenantsOf(db: Tables, shard: string): set<string> {
    set t | t in db.tenants && db.tenants[t].shard == shard
            && (db.tenants[t].status == "active" || db.tenants[t].status == "suspended")
  }

  function WebrootsOf(db: Tables, tenant: string): set<string> {
    set w | w in db.webroots && db.webroots[w].tenant == tenant && db.webroots[w].status == "active"
  }

  function FqdnsOf(db: Tables, webroot: string): set<string> {
    set f | f in db.fqdns && db.fqdns[f].webroot == Some(webroot) && db.fqdns[f].status == "active"
  }

  function CronsOf(db: Tables, webroot: string): set<string> {
    set c | c in db.crons && db.crons[c].webroot == webroot
            && (db.crons[c].status == "active" || db.crons[c].status == "auto_disabled")
  }

  function SshKeysOf(db: Tables, tenant: string): set<string> {
    set k | k in db.sshKeys && db.sshKeys[k].tenant == tenant && db.sshKeys[k].status == "active"
  }

  /** The variable tables as the loader reads them: without a master key it takes every value as it is. */
  function EnvDb(x: Secrets, db: Tables): Db {
    Db(map w | w in db.webroots :: db.webroots[w].tenant, db.keys,
       if x.kek == "" then Unsealed(db.vars) else db.vars)
  }

  function Unsealed(vars: map<string, map<string, Var>>): map<string, map<string, Var>> {
    map w | w in vars :: (map n | n in vars[w] :: Var(vars[w][n].value, false))
  }

  /** The image of a list of keys. */
  function Image<T>(ids: seq<string>, item: map<string, T>): (r: seq<T>)
    requires forall id :: id in ids ==> id in item
    ensures |r| == |ids| && forall i :: 0 <= i < |ids| ==> r[i] == item[ids[i]]
  {
    seq(|ids|, i requires 0 <= i < |ids| => item[ids[i]])
  }

  function FqdnItems(db: Tables): map<string, DesiredFqdn> {
    map f | f in db.fqdns :: DesiredFqdn(f, db.fqdns[f].ssl, db.fqdns[f].status)
  }

  function CronItems(db: Tables): map<string, DesiredCron> {
    map c | c in db.crons :: DesiredCron(c, db.crons[c].enabled)
  }

  function SshItems(db: Tables): map<string, string> {
    map k | k in db.sshKeys :: db.sshKeys[k].key
  }

  ghost function WebrootItem(x: Secrets, db: Tables, w: string): DesiredWebroot
    requires w in db.webroots
  {
    var r := db.webroots[w];
    DesiredWebroot(w, r.runtime, r.version, r.config, r.folder, EnvOf(x, EnvDb(x, db), w), r.envFile, r.status,
                   Image(Sorted(FqdnsOf(db, w)), FqdnItems(db)), Image(Sorted(CronsOf(db, w)), CronItems(db)))
  }

  ghost function WebrootItems(x: Secrets, db: Tables): map<string, DesiredWebroot> {
    map w | w in db.webroots :: WebrootItem(x, db, w)
  }

  /** The keys are those of the tenant's active SSH keys, one for each, in some order. */
  ghost predicate ListsKeys(keys: seq<string>, db: Tables, tenant: string) {
    exists ids: seq<string> :: ListsRows(ids, SshKeysOf(db, tenant)) && keys == Image(ids, SshItems(db))
  }

  ghost predicate ListsRows(ids: seq<string>, rows: set<string>) {
    && (forall id :: id in ids <==> id in rows)
    && (forall i, j :: 0 <= i < j < |ids| ==> ids[i] != ids[j])
  }

  ghost function TenantItem(x: Secrets, db: Tables, t: string, sshKeys: seq<string>): DesiredTenant
    requires t in db.tenants
  {
    var r := db.tenants[t];
    DesiredTenant(t, r.uid, r.sftp, r.ssh, r.status, Image(Sorted(WebrootsOf(db, t)), WebrootItems(x, db)), sshKeys)
  }

  /** One tenant with its webroots by id; only the order of its SSH keys, which nothing fixes, is left open. */
  ghost predicate NestedTenant(x: Secrets, db: Tables, t: string, r: DesiredTenant) {
    t in db.tenants && r == TenantItem(x, db, t, r.sshKeys) && ListsKeys(r.sshKeys, db, t)
  }

  /** The whole nested state, tenants by id. */
  ghost predicate Nested(x: Secrets, db: Tables, shard: string, r: seq<DesiredTenant>) {
    var ids := Sorted(TenantsOf(db, shard));
    && |r| == |ids|
    && forall i :: 0 <= i < |ids| ==> NestedTenant(x, db, ids[i], r[i])
  }

  /** Every value that will be read opens. */
  ghost predicate Loadable(x: Secrets, db: Tables, shard: string) {
    forall t, w :: t in TenantsOf(db, shard) && w in WebrootsOf(db, t) ==> AllOpen(x, EnvDb(x, db), w)
  }

  // Grouping the rows of a batch by their parent.

  /** The listed ids that have the given parent, in order. */
  function Having(ids: seq<string>, parent: map<string, string>, p: string): (r: seq<string>)
    requires forall id :: id in ids ==> id in parent
    ensures forall id :: id in r <==> id in ids && parent[id] == p
  {
    if ids == [] then []
    else
      var last := ids[|ids| - 1];
      Having(ids[..|ids| - 1], parent, p) + (if parent[last] == p then [last] else [])
  }

  function Group<T>(groups: map<string, seq<T>>, p: string): seq<T> {
    if p in groups then groups[p] else []
  }

  lemma {:induction false} HavingIncreasing(ids: seq<string>, parent: map<string, string>, p: string)
    requires Increasing(ids) && forall id :: id in ids ==> id in parent
    ensures Increasing(Having(ids, parent, p))
  {
    if ids == [] {
    } else {
      var n := |ids| - 1;
      HavingIncreasing(ids[..n], parent, p);
      var front := Having(ids[..n], parent, p);
      forall k | k in front ensures Less(k, ids[n]) {
        var i :| 0 <= i < n && ids[i] == k;
      }
    }
  }

  /** The group of a sorted batch is the sorted listing of the rows with that parent. */
  lemma {:induction false} HavingSorted(all: set<string>, parent: map<string, string>, p: string, some: set<string>)
    requires forall id :: id in all ==> id in parent
    requires forall id :: id in some <==> id in all && parent[id] == p
    ensures Having(Sorted(all), parent, p) == Sorted(some)
  {
    SortedIncreasing(all);
    HavingIncreasing(Sorted(all), parent, p);
    IncreasingIsSorted(Having(Sorted(all), parent, p), some);
  }

  lemma {:induction false} HavingDistinct(ids: seq<string>, parent: map<string, string>, p: string)
    requires forall id :: id in ids ==> id in parent
    requires forall i, j :: 0 <= i < j < |ids| ==> ids[i] != ids[j]
    ensures var r := Having(ids, parent, p); forall i, j :: 0 <= i < j < |r| ==> r[i] != r[j]
  {
    if ids == [] {
    } else {
      var n := |ids| - 1;
      HavingDistinct(ids[..n], parent, p);
      assert ids[n] !in ids[..n];
      assert ids[n] !in Having(ids[..n], parent, p);
    }
  }

  /** The groups of the first rows, as items. */
  ghost predicate Grouped<T>(
    groups: map<string, seq<T>>, ids: seq<string>, parent: map<string, string>, item: map<string, T>) {
    && (forall id :: id in ids ==> id in parent && id in item)
    && forall p :: Group(groups, p) == Image(Having(ids, parent, p), item)
  }

  lemma {:induction false} HavingNext<T>(
    ids: seq<string>, id: string, parent: map<string, string>, item: map<string, T>, p: string)
    requires forall k :: k in ids + [id] ==> k in parent && k in item
    ensures Image(Having(ids + [id], parent, p), item)
         == if parent[id] == p then Image(Having(ids, parent, p), item) + [item[id]] else Image(Having(ids, parent, p), item)
  {
    assert (ids + [id])[..|ids|] == ids;
  }

  lemma {:induction false} GroupNext<T>(groups: map<string, seq<T>>, q: string, x: T, p: string)
    ensures Group(groups[q := Group(groups, q) + [x]], p) == if q == p then Group(groups, p) + [x] else Group(groups, p)
  {
  }

  lemma {:induction false} GroupedAt<T>(
    groups: map<string, seq<T>>, ids: seq<string>, id: string, parent: map<string, string>, item: map<string, T>, p: string)
    requires forall k :: k in ids + [id] ==> k in parent && k in item
    requires (forall k :: k in ids ==> k in parent && k in item) && id in parent && id in item
    requires Group(groups, p) == Image(Having(ids, parent, p), item)
    ensures Group(groups[parent[id] := Group(groups, parent[id]) + [item[id]]], p)
         == Image(Having(ids + [id], parent, p), item)
  {
    HavingNext(ids, id, parent, item, p);
    GroupNext(groups, parent[id], item[id], p);
  }

  lemma {:induction false} GroupedStep<T>(
    groups: map<string, seq<T>>, ids: seq<string>, id: string, parent: map<string, string>, item: map<string, T>)
    requires id in parent && id in item && Grouped(groups, ids, parent, item)
    ensures Grouped(groups[parent[id] := Group(groups, parent[id]) + [item[id]]], ids + [id], parent, item)
  {
    var next := groups[parent[id] := Group(groups, parent[id]) + [item[id]]];
    assert forall k :: k in ids + [id] ==> k in parent && k in item;
    forall p ensures Group(next, p) == Image(Having(ids + [id], parent, p), item) {
      GroupedAt(groups, ids, id, parent, item, p);
    }
  }

  /** The row loops that fill a map from parent to children. */
  method GroupRows<T>(ids: seq<string>, parent: map<string, string>, item: map<string, T>)
    returns (groups: map<string, seq<T>>)
    requires forall id :: id in ids ==> id in parent && id in item
    ensures Grouped(groups, ids, parent, item)
  {
    groups := map[];
    for i := 0 to |ids|
      invariant Grouped(groups, ids[..i], parent, item)
    {
      GroupedStep(groups, ids[..i], ids[i], parent, item);
      assert ids[..i] + [ids[i]] == ids[..i + 1];
      groups := groups[parent[ids[i]] := Group(groups, parent[ids[i]]) + [item[ids[i]]]];
    }
    assert ids[..|ids|] == ids;
  }

  // The queries.

  /** Rows in no particular order. */
  method Unordered(keys: set<string>) returns (q: seq<string>)
    ensures ListsRows(q, keys)
  {
    var todo := keys;
    q := [];
    while todo != {}
      invariant todo <= keys && ListsRows(q, keys - todo)
      decreases |todo|
    {
      var a :| a in todo;
      q, todo := q + [a], todo - {a};
    }
    assert keys - {} == keys;
  }

  // Variables, with the data keys cached.

  function TenantOf(db: Tables): map<string, string> {
    map w | w in db.webroots :: db.webroots[w].tenant
  }

  /** The tables as stored. */
  function RawDb(db: Tables): Db { Db(TenantOf(db), db.keys, db.vars) }

  /** The rows as the loader takes them. */
  function Seen(x: Secrets, r: EnvRow): EnvRow {
    if x.kek == "" then r.(v := Var(r.v.value, false)) else r
  }

  function AllSeen(x: Secrets, rows: seq<EnvRow>): (r: seq<EnvRow>)
    ensures |r| == |rows| && forall i :: 0 <= i < |rows| ==> r[i] == Seen(x, rows[i])
  {
    seq(|rows|, i requires 0 <= i < |rows| => Seen(x, rows[i]))
  }

  lemma {:induction false} SeenFromDb(x: Secrets, db: Tables, r: EnvRow)
    requires FromDb(r, RawDb(db))
    ensures FromDb(Seen(x, r), EnvDb(x, db))
  {
    if x.kek == "" {
      assert r.w in db.vars && r.name in db.vars[r.w];
      assert Unsealed(db.vars)[r.w][r.name] == Var(db.vars[r.w][r.name].value, false);
    }
  }

  lemma {:induction false} SeenAnswers(x: Secrets, db: Tables, ids: seq<string>, rows: seq<EnvRow>)
    requires BatchAnswer(rows, RawDb(db), ids)
    ensures BatchAnswer(AllSeen(x, rows), EnvDb(x, db), ids)
  {
    var seen := AllSeen(x, rows);
    forall r | r in seen ensures FromDb(r, EnvDb(x, db)) && r.w in ids {
      var i :| 0 <= i < |rows| && r == Seen(x, rows[i]);
      assert rows[i] in rows;
      SeenFromDb(x, db, rows[i]);
    }
    forall w, n | w in ids && w in EnvDb(x, db).webroots && n in VarsOf(EnvDb(x, db), w) ensures Present(seen, w, n) {
      assert n in VarsOf(RawDb(db), w) && Present(rows, w, n);
      var r :| r in rows && r.w == w && r.name == n;
      var i :| 0 <= i < |rows| && rows[i] == r;
      assert seen[i] in seen && seen[i].w == w && seen[i].name == n;
    }
  }

  ghost predicate AllFrom(rows: seq<EnvRow>, db: Tables, ids: seq<string>) {
    forall r :: r in rows ==> FromDb(r, RawDb(db)) && r.w in ids
  }

  /** Every listed webroot that has a variable of this name has its row. */
  ghost predicate Complete(rows: seq<EnvRow>, db: Tables, ids: seq<string>, name: string) {
    forall w :: w in ids && name in VarsOf(RawDb(db), w) ==> Present(rows, w, name)
  }

  ghost predicate AllComplete(rows: seq<EnvRow>, db: Tables, ids: seq<string>, names: seq<string>) {
    forall n :: n in names ==> Complete(rows, db, ids, n)
  }

  /** The rows of one name. */
  method QueryName(db: Tables, ids: seq<string>, name: string) returns (rows: seq<EnvRow>)
    requires forall w :: w in ids ==> w in db.webroots
    ensures AllFrom(rows, db, ids) && Complete(rows, db, ids, name)
  {
    rows := [];
    for k := 0 to |ids|
      invariant AllFrom(rows, db, ids) && Complete(rows, db, ids[..k], name)
    {
      var w := ids[k];
      assert ids[..k + 1] == ids[..k] + [w];
      if w in db.vars && name in db.vars[w] {
        var r := EnvRow(w, name, db.vars[w][name], db.webroots[w].tenant);
        PresentGrows(rows, r);
        rows := rows + [r];
      }
    }
    assert ids[..|ids|] == ids;
  }

  function NamesOf(db: Tables, ids: seq<string>): set<string> {
    set w, n | w in ids && w in db.vars && n in db.vars[w] :: n
  }

  /** The variables of the listed webroots, ordered by name. */
  method QueryVars(db: Tables, ids: seq<string>) returns (rows: seq<EnvRow>)
    requires forall w :: w in ids ==> w in db.webroots
    ensures BatchAnswer(rows, RawDb(db), ids)
  {
    var names := Ordered(NamesOf(db, ids));
    rows := [];
    for i := 0 to |names|
      invariant AllFrom(rows, db, ids) && AllComplete(rows, db, ids, names[..i])
    {
      var more := QueryName(db, ids, names[i]);
      CompleteBoth(rows, more, db, ids, names[..i], names[i]);
      assert names[..i + 1] == names[..i] + [names[i]];
      rows := rows + more;
    }
    assert names[..|names|] == names;
    CompleteAnswers(rows, db, ids, names);
  }

  lemma {:induction false} CompleteBoth(
    a: seq<EnvRow>, b: seq<EnvRow>, db: Tables, ids: seq<string>, names: seq<string>, name: string)
    requires AllFrom(a, db, ids) && AllComplete(a, db, ids, names)
    requires AllFrom(b, db, ids) && Complete(b, db, ids, name)
    ensures AllFrom(a + b, db, ids) && AllComplete(a + b, db, ids, names + [name])
  {
    PresentBoth(a, b);
  }

  lemma {:induction false} CompleteAnswers(rows: seq<EnvRow>, db: Tables, ids: seq<string>, names: seq<string>)
    requires AllFrom(rows, db, ids) && AllComplete(rows, db, ids, names)
    requires forall n :: n in NamesOf(db, ids) ==> n in names
    ensures BatchAnswer(rows, RawDb(db), ids)
  {
    forall w, n | w in ids && w in RawDb(db).webroots && n in VarsOf(RawDb(db), w) ensures Present(rows, w, n) {
      assert n in NamesOf(db, ids);
    }
  }

  lemma {:induction false} PresentBoth(a: seq<EnvRow>, b: seq<EnvRow>)
    ensures forall w, n :: Present(a, w, n) || Present(b, w, n) ==> Present(a + b, w, n)
  {
    PresentStill(a, a + b);
    forall w, n | Present(b, w, n) ensures Present(a + b, w, n) {
      var r :| r in b && r.w == w && r.name == n;
      assert r in a + b;
    }
  }

  lemma {:induction false} PresentStill(before: seq<EnvRow>, rows: seq<EnvRow>)
    requires before <= rows
    ensures forall w, n :: Present(before, w, n) ==> Present(rows, w, n)
  {
    forall w, n | Present(before, w, n) ensures Present(rows, w, n) {
      var r :| r in before && r.w == w && r.name == n;
      assert r in rows;
    }
  }

  lemma {:induction false} PresentGrows(rows: seq<EnvRow>, r: EnvRow)
    ensures Present(rows + [r], r.w, r.name)
    ensures forall w, n :: Present(rows, w, n) ==> Present(rows + [r], w, n)
  {
    assert r in rows + [r];
    PresentStill(rows, rows + [r]);
  }

  /** The decryption loop: it fails exactly when a row does not open. */
  method LoadVars(x: Secrets, db: Tables, rows: seq<EnvRow>) returns (r: Option<map<string, map<string, string>>>)
    ensures r.Some? <==> RowsOpen(x, EnvDb(x, db), AllSeen(x, rows))
    ensures r.Some? ==> r.value == Collected(x, EnvDb(x, db), AllSeen(x, rows))
  {
    ghost var edb, seen := EnvDb(x, db), AllSeen(x, rows);
    var result: map<string, map<string, string>> := map[];
    var deks: map<string, string> := map[];
    for i := 0 to |rows|
      invariant RowsOpen(x, edb, seen[..i]) && result == Collected(x, edb, seen[..i]) && CacheFits(x, edb, deks)
    {
      var row := rows[i];
      var value := row.v.value;
      assert seen[i] in seen;
      if row.v.secret && x.kek != "" {
        var dek;
        if row.tenant in deks {
          dek := deks[row.tenant];
        } else {
          if row.tenant !in db.keys { return None; }
          var unwrapped := x.c.open(db.keys[row.tenant], x.kek);
          if unwrapped.None? { return None; }
          dek := unwrapped.value;
          deks := deks[row.tenant := dek];
        }
        var plain := x.c.open(row.v.value, dek);
        if plain.None? { return None; }
        value := plain.value;
      }
      RowsOpenStep(x, edb, seen, i);
      result := result[row.w := At(result, row.w)[row.name := value]];
    }
    assert seen[..|rows|] == seen;
    return Some(result);
  }

  /** Step 3: the environment of each listed webroot. */
  method LoadEnvs(x: Secrets, db: Tables, ids: seq<string>) returns (r: Option<map<string, map<string, string>>>)
    requires forall w :: w in ids ==> w in db.webroots
    ensures r.Some? <==> forall w :: w in ids ==> AllOpen(x, EnvDb(x, db), w)
    ensures r.Some? ==> forall w :: w in ids ==> At(r.value, w) == EnvOf(x, EnvDb(x, db), w)
  {
    var rows := QueryVars(db, ids);
    SeenAnswers(x, db, ids, rows);
    r := LoadVars(x, db, rows);
    if r.Some? {
      forall w | w in ids ensures AllOpen(x, EnvDb(x, db), w) && At(r.value, w) == EnvOf(x, EnvDb(x, db), w) {
        CollectedIsEnv(x, EnvDb(x, db), ids, AllSeen(x, rows), w);
      }
    } else {
      BatchOpensIff(x, EnvDb(x, db), ids, AllSeen(x, rows));
    }
  }

  // Names and cron jobs.

  function FqdnParents(db: Tables): map<string, string> {
    map f | f in db.fqdns && db.fqdns[f].webroot.Some? :: db.fqdns[f].webroot.value
  }

  function CronParents(db: Tables): map<string, string> {
    map c | c in db.crons :: db.crons[c].webroot
  }

  /** Step 4: the active names of each listed webroot, by name. */
  method LoadFqdns(db: Tables, ids: seq<string>) returns (groups: map<string, seq<DesiredFqdn>>)
    ensures forall w :: w in ids ==> Group(groups, w) == Image(Sorted(FqdnsOf(db, w)), FqdnItems(db))
    ensures forall w :: w in ids ==> NamesTold(db, w, Group(groups, w))
  {
    var all := set f | f in db.fqdns && db.fqdns[f].webroot.Some? && db.fqdns[f].webroot.value in ids
                       && db.fqdns[f].status == "active";
    var q := Ordered(all);
    groups := GroupRows(q, FqdnParents(db), FqdnItems(db));
    forall w | w in ids ensures Group(groups, w) == Image(Sorted(FqdnsOf(db, w)), FqdnItems(db)) {
      HavingSorted(all, FqdnParents(db), w, FqdnsOf(db, w));
    }
    forall w | w in ids ensures NamesTold(db, w, Group(groups, w)) { NamesAreTold(db, w); }
  }

  /** Step 5: the live cron jobs of each listed webroot, by id. */
  method LoadCrons(db: Tables, ids: seq<string>) returns (groups: map<string, seq<DesiredCron>>)
    ensures forall w :: w in ids ==> Group(groups, w) == Image(Sorted(CronsOf(db, w)), CronItems(db))
    ensures forall w :: w in ids ==> CronsTold(db, w, Group(groups, w))
  {
    var all := set c | c in db.crons && db.crons[c].webroot in ids
                       && (db.crons[c].status == "active" || db.crons[c].status == "auto_disabled");
    var q := Ordered(all);
    groups := GroupRows(q, CronParents(db), CronItems(db));
    forall w | w in ids ensures Group(groups, w) == Image(Sorted(CronsOf(db, w)), CronItems(db)) {
      HavingSorted(all, CronParents(db), w, CronsOf(db, w));
    }
    forall w | w in ids ensures CronsTold(db, w, Group(groups, w)) { CronsAreTold(db, w); }
  }

  /** Steps 2 to 5: the listed webroots with everything that belongs to them. */
  method LoadWebroots(x: Secrets, db: Tables, ids: seq<string>) returns (r: Option<seq<DesiredWebroot>>)
    requires forall w :: w in ids ==> w in db.webroots
    ensures r.Some? <==> forall w :: w in ids ==> AllOpen(x, EnvDb(x, db), w)
    ensures r.Some? ==> r.value == Image(ids, WebrootItems(x, db))
    ensures r.Some? ==> forall i :: 0 <= i < |ids| ==> r.value[i].id == ids[i] && WebrootTold(x, db, r.value[i])
  {
    if ids == [] { return Some([]); }
    var envs := LoadEnvs(x, db, ids);
    if envs.None? { return None; }
    var fqdns := LoadFqdns(db, ids);
    var crons := LoadCrons(db, ids);
    var webroots := AssembleWebroots(x, db, ids, envs.value, fqdns, crons);
    forall i | 0 <= i < |ids| ensures webroots[i].id == ids[i] && WebrootTold(x, db, webroots[i]) {
      assert ids[i] in ids;
      WebrootIsTold(x, db, ids[i]);
    }
    return Some(webroots);
  }

  /** The loop that puts the parts of each webroot together. */
  method AssembleWebroots(
    x: Secrets, db: Tables, ids: seq<string>, envs: map<string, map<string, string>>,
    fqdns: map<string, seq<DesiredFqdn>>, crons: map<string, seq<DesiredCron>>)
    returns (r: seq<DesiredWebroot>)
    requires forall w :: w in ids ==> w in db.webroots
    requires forall w :: w in ids ==> At(envs, w) == EnvOf(x, EnvDb(x, db), w)
    requires forall w :: w in ids ==> Group(fqdns, w) == Image(Sorted(FqdnsOf(db, w)), FqdnItems(db))
    requires forall w :: w in ids ==> Group(crons, w) == Image(Sorted(CronsOf(db, w)), CronItems(db))
    ensures r == Image(ids, WebrootItems(x, db))
  {
    r := [];
    for i := 0 to |ids|
      invariant |r| == i && forall j :: 0 <= j < i ==> r[j] == WebrootItem(x, db, ids[j])
    {
      var w := ids[i];
      var row := db.webroots[w];
      r := r + [DesiredWebroot(w, row.runtime, row.version, row.config, row.folder, At(envs, w),
                               row.envFile, row.status, Group(fqdns, w), Group(crons, w))];
    }
  }

  // The index of webroots by tenant.

  /** The positions point at exactly the ids with this parent, in order. */
  ghost predicate Picks(at: seq<nat>, ids: seq<string>, parent: map<string, string>, p: string)
    requires forall id :: id in ids ==> id in parent
  {
    && |at| == |Having(ids, parent, p)|
    && forall k :: 0 <= k < |at| ==> at[k] < |ids| && ids[at[k]] == Having(ids, parent, p)[k]
  }

  lemma {:induction false} PicksNext(at: seq<nat>, ids: seq<string>, id: string, parent: map<string, string>, p: string)
    requires (forall k :: k in ids + [id] ==> k in parent) && Picks(at, ids, parent, p)
    ensures Picks(if parent[id] == p then at + [|ids|] else at, ids + [id], parent, p)
  {
    assert (ids + [id])[..|ids|] == ids;
  }

  /** The loop that remembers the positions of each tenant's webroots. */
  method IndexByParent(ids: seq<string>, parent: map<string, string>) returns (index: map<string, seq<nat>>)
    requires forall id :: id in ids ==> id in parent
    ensures forall p :: Picks(Group(index, p), ids, parent, p)
  {
    index := map[];
    for i := 0 to |ids|
      invariant forall p :: Picks(Group(index, p), ids[..i], parent, p)
    {
      var id := ids[i];
      var next := index[parent[id] := Group(index, parent[id]) + [i]];
      assert ids[..i] + [id] == ids[..i + 1];
      forall p ensures Picks(Group(next, p), ids[..i + 1], parent, p) {
        PicksNext(Group(index, p), ids[..i], id, parent, p);
      }
      index := next;
    }
    assert ids[..|ids|] == ids;
  }

  /** The webroots at the given positions. */
  method Gather(at: seq<nat>, webroots: seq<DesiredWebroot>) returns (r: seq<DesiredWebroot>)
    requires forall k :: 0 <= k < |at| ==> at[k] < |webroots|
    ensures |r| == |at| && forall k :: 0 <= k < |at| ==> r[k] == webroots[at[k]]
  {
    r := [];
    for k := 0 to |at|
      invariant |r| == k && forall j :: 0 <= j < k ==> r[j] == webroots[at[j]]
    {
      r := r + [webroots[at[k]]];
    }
  }

  lemma {:induction false} GatheredIsNested(
    x: Secrets, db: Tables, t: string, all: set<string>, at: seq<nat>, webroots: seq<DesiredWebroot>, r: seq<DesiredWebroot>)
    requires forall w :: w in all ==> w in db.webroots
    requires forall w :: w in WebrootsOf(db, t) <==> w in all && db.webroots[w].tenant == t
    requires webroots == Image(Sorted(all), WebrootItems(x, db)) && Picks(at, Sorted(all), TenantOf(db), t)
    requires |r| == |at| && forall k :: 0 <= k < |at| ==> r[k] == webroots[at[k]]
    ensures r == Image(Sorted(WebrootsOf(db, t)), WebrootItems(x, db))
  {
    HavingSorted(all, TenantOf(db), t, WebrootsOf(db, t));
  }

  // SSH keys.

  function SshParents(db: Tables): map<string, string> {
    map k | k in db.sshKeys :: db.sshKeys[k].tenant
  }

  /** Step 6: the active SSH keys of each listed tenant, in whatever order they come. */
  method LoadSshKeys(db: Tables, ids: seq<string>) returns (groups: map<string, seq<string>>)
    ensures forall t :: t in ids ==> ListsKeys(Group(groups, t), db, t)
  {
    var all := set k | k in db.sshKeys && db.sshKeys[k].tenant in ids && db.sshKeys[k].status == "active";
    var q := Unordered(all);
    groups := GroupRows(q, SshParents(db), SshItems(db));
    forall t | t in ids ensures ListsKeys(Group(groups, t), db, t) {
      HavingDistinct(q, SshParents(db), t);
      assert ListsRows(Having(q, SshParents(db), t), SshKeysOf(db, t));
    }
  }

  // What the node is told, column by column and in terms of the tables alone.

  /** A name of the webroot that the node is told. */
  predicate OwnName(db: Tables, w: string, n: string) {
    n in db.fqdns && db.fqdns[n].webroot == Some(w) && db.fqdns[n].status == "active"
  }

  predicate NameTold(db: Tables, w: string, f: DesiredFqdn) {
    OwnName(db, w, f.fqdn) && f.ssl == db.fqdns[f.fqdn].ssl && f.status == db.fqdns[f.fqdn].status
  }

  /** The names of a webroot: its active ones, in order, each with its own columns. */
  ghost predicate NamesTold(db: Tables, w: string, names: seq<DesiredFqdn>) {
    && (forall i :: 0 <= i < |names| ==> NameTold(db, w, names[i]))
    && (forall n :: OwnName(db, w, n) ==> exists i :: 0 <= i < |names| && names[i].fqdn == n)
    && (forall i, j :: 0 <= i < j < |names| ==> Less(names[i].fqdn, names[j].fqdn))
  }

  predicate OwnCron(db: Tables, w: string, n: string) {
    n in db.crons && db.crons[n].webroot == w && (db.crons[n].status == "active" || db.crons[n].status == "auto_disabled")
  }

  predicate CronTold(db: Tables, w: string, c: DesiredCron) {
    OwnCron(db, w, c.id) && c.enabled == db.crons[c.id].enabled
  }

  /** Its cron jobs: the active and the auto-disabled ones. */
  ghost predicate CronsTold(db: Tables, w: string, crons: seq<DesiredCron>) {
    && (forall i :: 0 <= i < |crons| ==> CronTold(db, w, crons[i]))
    && (forall n :: OwnCron(db, w, n) ==> exists i :: 0 <= i < |crons| && crons[i].id == n)
    && (forall i, j :: 0 <= i < j < |crons| ==> Less(crons[i].id, crons[j].id))
  }

  /** What a stored value is told as: without a master key as it is, otherwise opened. */
  predicate ValueTold(x: Secrets, keys: map<string, string>, tenant: string, v: Var, told: string) {
    if x.kek == "" then told == v.value else OpensAs(x, keys, tenant, v, told)
  }

  ghost predicate VarsTold(x: Secrets, db: Tables, w: string, env: map<string, string>)
    requires w in db.webroots
  {
    && (forall n :: n in env <==> w in db.vars && n in db.vars[w])
    && (forall n :: n in env ==> ValueTold(x, db.keys, db.webroots[w].tenant, db.vars[w][n], env[n]))
  }

  ghost predicate WebrootTold(x: Secrets, db: Tables, r: DesiredWebroot) {
    && r.id in db.webroots
    && r.runtime == db.webroots[r.id].runtime && r.version == db.webroots[r.id].version
    && r.config == db.webroots[r.id].config && r.folder == db.webroots[r.id].folder
    && r.envFile == db.webroots[r.id].envFile && r.status == db.webroots[r.id].status
    && VarsTold(x, db, r.id, r.envVars) && NamesTold(db, r.id, r.fqdns) && CronsTold(db, r.id, r.crons)
  }

  predicate OwnWebroot(db: Tables, t: string, n: string) {
    n in db.webroots && db.webroots[n].tenant == t && db.webroots[n].status == "active"
  }

  /** The webroots of a tenant: its active ones, by id. */
  ghost predicate WebrootsTold(x: Secrets, db: Tables, t: string, webroots: seq<DesiredWebroot>) {
    && (forall i :: 0 <= i < |webroots| ==> OwnWebroot(db, t, webroots[i].id) && WebrootTold(x, db, webroots[i]))
    && (forall n :: OwnWebroot(db, t, n) ==> exists i :: 0 <= i < |webroots| && webroots[i].id == n)
    && (forall i, j :: 0 <= i < j < |webroots| ==> Less(webroots[i].id, webroots[j].id))
  }

  predicate OwnKey(db: Tables, t: string, k: string) {
    k in db.sshKeys && db.sshKeys[k].tenant == t && db.sshKeys[k].status == "active"
  }

  /** Its SSH keys: the texts of its active ones, each row taken once. */
  ghost predicate KeysTold(db: Tables, t: string, keys: seq<string>) {
    exists rows: seq<string> :: KeysFrom(db, t, keys, rows)
  }

  ghost predicate KeysFrom(db: Tables, t: string, keys: seq<string>, rows: seq<string>) {
    && |rows| == |keys|
    && (forall i :: 0 <= i < |keys| ==> OwnKey(db, t, rows[i]) && keys[i] == db.sshKeys[rows[i]].key)
    && (forall k :: OwnKey(db, t, k) ==> k in rows)
    && (forall i, j :: 0 <= i < j < |rows| ==> rows[i] != rows[j])
  }

  predicate OwnTenant(db: Tables, shard: string, n: string) {
    n in db.tenants && db.tenants[n].shard == shard
    && (db.tenants[n].status == "active" || db.tenants[n].status == "suspended")
  }

  ghost predicate TenantTold(x: Secrets, db: Tables, r: DesiredTenant) {
    && r.id in db.tenants
    && r.uid == db.tenants[r.id].uid && r.sftp == db.tenants[r.id].sftp && r.ssh == db.tenants[r.id].ssh
    && r.status == db.tenants[r.id].status
    && WebrootsTold(x, db, r.id, r.webroots) && KeysTold(db, r.id, r.sshKeys)
  }

  /** The tenants of the shard: the active and the suspended ones, by id. */
  ghost predicate ShardTold(x: Secrets, db: Tables, shard: string, r: seq<DesiredTenant>) {
    && (forall i :: 0 <= i < |r| ==> OwnTenant(db, shard, r[i].id) && TenantTold(x, db, r[i]))
    && (forall n :: OwnTenant(db, shard, n) ==> exists i :: 0 <= i < |r| && r[i].id == n)
    && (forall i, j :: 0 <= i < j < |r| ==> Less(r[i].id, r[j].id))
  }

  lemma {:induction false} NamesAreTold(db: Tables, w: string)
    ensures NamesTold(db, w, Image(Sorted(FqdnsOf(db, w)), FqdnItems(db)))
  {
    var ids, names := Sorted(FqdnsOf(db, w)), Image(Sorted(FqdnsOf(db, w)), FqdnItems(db));
    SortedIncreasing(FqdnsOf(db, w));
    forall i | 0 <= i < |ids| ensures NameTold(db, w, names[i]) && names[i].fqdn == ids[i] {
      assert ids[i] in ids;
    }
    forall n | OwnName(db, w, n) ensures exists i :: 0 <= i < |names| && names[i].fqdn == n {
      var i := InSorted(FqdnsOf(db, w), n);
      assert names[i].fqdn == n;
    }
  }

  lemma {:induction false} CronsAreTold(db: Tables, w: string)
    ensures CronsTold(db, w, Image(Sorted(CronsOf(db, w)), CronItems(db)))
  {
    var ids, crons := Sorted(CronsOf(db, w)), Image(Sorted(CronsOf(db, w)), CronItems(db));
    SortedIncreasing(CronsOf(db, w));
    forall i | 0 <= i < |ids| ensures CronTold(db, w, crons[i]) && crons[i].id == ids[i] {
      assert ids[i] in ids;
    }
    forall n | OwnCron(db, w, n) ensures exists i :: 0 <= i < |crons| && crons[i].id == n {
      var i := InSorted(CronsOf(db, w), n);
      assert crons[i].id == n;
    }
  }

  lemma {:induction false} VarsAreTold(x: Secrets, db: Tables, w: string)
    requires w in db.webroots && AllOpen(x, EnvDb(x, db), w)
    ensures VarsTold(x, db, w, EnvOf(x, EnvDb(x, db), w))
  {
    var edb := EnvDb(x, db);
    forall n | w in db.vars && n in db.vars[w]
      ensures n in VarsOf(edb, w)
      ensures VarsOf(edb, w)[n] == if x.kek == "" then Var(db.vars[w][n].value, false) else db.vars[w][n]
    {
    }
  }

  lemma {:induction false} WebrootIsTold(x: Secrets, db: Tables, w: string)
    requires w in db.webroots && AllOpen(x, EnvDb(x, db), w)
    ensures WebrootTold(x, db, WebrootItem(x, db, w)) && WebrootItem(x, db, w).id == w
  {
    VarsAreTold(x, db, w);
    NamesAreTold(db, w);
    CronsAreTold(db, w);
  }

  lemma {:induction false} InSorted(rows: set<string>, n: string) returns (i: nat)
    requires n in rows
    ensures i < |Sorted(rows)| && Sorted(rows)[i] == n
  {
    assert n in Sorted(rows);
    i :| 0 <= i < |Sorted(rows)| && Sorted(rows)[i] == n;
  }

  lemma {:induction false} WebrootsCovered(db: Tables, t: string, r: seq<DesiredWebroot>)
    requires |r| == |Sorted(WebrootsOf(db, t))|
    requires forall i :: 0 <= i < |r| ==> r[i].id == Sorted(WebrootsOf(db, t))[i]
    ensures forall i :: 0 <= i < |r| ==> OwnWebroot(db, t, r[i].id)
    ensures forall n :: OwnWebroot(db, t, n) ==> exists i :: 0 <= i < |r| && r[i].id == n
    ensures forall i, j :: 0 <= i < j < |r| ==> Less(r[i].id, r[j].id)
  {
    SortedIncreasing(WebrootsOf(db, t));
    forall i | 0 <= i < |r| ensures OwnWebroot(db, t, r[i].id) {
      assert r[i].id in Sorted(WebrootsOf(db, t));
    }
    forall n | OwnWebroot(db, t, n) ensures exists i :: 0 <= i < |r| && r[i].id == n {
      var i := InSorted(WebrootsOf(db, t), n);
      assert r[i].id == n;
    }
  }

  lemma {:induction false} WebrootsAreTold(x: Secrets, db: Tables, t: string)
    requires forall w :: w in WebrootsOf(db, t) ==> AllOpen(x, EnvDb(x, db), w)
    ensures WebrootsTold(x, db, t, Image(Sorted(WebrootsOf(db, t)), WebrootItems(x, db)))
  {
    var ids, webroots := Sorted(WebrootsOf(db, t)), Image(Sorted(WebrootsOf(db, t)), WebrootItems(x, db));
    forall i | 0 <= i < |webroots| ensures WebrootTold(x, db, webroots[i]) && webroots[i].id == ids[i] {
      assert ids[i] in ids;
      WebrootIsTold(x, db, ids[i]);
    }
    WebrootsCovered(db, t, webroots);
  }

  lemma {:induction false} KeysAreTold(db: Tables, t: string, keys: seq<string>)
    requires ListsKeys(keys, db, t)
    ensures KeysTold(db, t, keys)
  {
    var ids: seq<string> :| ListsRows(ids, SshKeysOf(db, t)) && keys == Image(ids, SshItems(db));
    forall i | 0 <= i < |ids| ensures OwnKey(db, t, ids[i]) && keys[i] == db.sshKeys[ids[i]].key {
      assert ids[i] in ids;
    }
    assert KeysFrom(db, t, keys, ids);
  }

  lemma {:induction false} TenantIsTold(x: Secrets, db: Tables, t: string, r: DesiredTenant)
    requires NestedTenant(x, db, t, r) && forall w :: w in WebrootsOf(db, t) ==> AllOpen(x, EnvDb(x, db), w)
    ensures TenantTold(x, db, r) && r.id == t
  {
    WebrootsAreTold(x, db, t);
    KeysAreTold(db, t, r.sshKeys);
  }

  lemma {:induction false} TenantsCovered(db: Tables, shard: string, r: seq<DesiredTenant>)
    requires |r| == |Sorted(TenantsOf(db, shard))|
    requires forall i :: 0 <= i < |r| ==> r[i].id == Sorted(TenantsOf(db, shard))[i]
    ensures forall i :: 0 <= i < |r| ==> OwnTenant(db, shard, r[i].id)
    ensures forall n :: OwnTenant(db, shard, n) ==> exists i :: 0 <= i < |r| && r[i].id == n
    ensures forall i, j :: 0 <= i < j < |r| ==> Less(r[i].id, r[j].id)
  {
    SortedIncreasing(TenantsOf(db, shard));
    forall i | 0 <= i < |r| ensures OwnTenant(db, shard, r[i].id) {
      assert r[i].id in Sorted(TenantsOf(db, shard));
    }
    forall n | OwnTenant(db, shard, n) ensures exists i :: 0 <= i < |r| && r[i].id == n {
      var i := InSorted(TenantsOf(db, shard), n);
      assert r[i].id == n;
    }
  }

  /** The nested state tells the node exactly what the tables say. */
  lemma {:induction false} NestedIsTold(x: Secrets, db: Tables, shard: string, r: seq<DesiredTenant>)
    requires Nested(x, db, shard, r) && Loadable(x, db, shard)
    ensures ShardTold(x, db, shard, r)
  {
    var ids := Sorted(TenantsOf(db, shard));
    forall i | 0 <= i < |r| ensures TenantTold(x, db, r[i]) && r[i].id == ids[i] {
      assert ids[i] in ids;
      TenantIsTold(x, db, ids[i], r[i]);
    }
    TenantsCovered(db, shard, r);
  }

  predicate ValueOpens(x: Secrets, keys: map<string, string>, tenant: string, v: Var) {
    x.kek == "" || Opens(x, keys, tenant, v)
  }

  /** Every secret of an active webroot of an active or suspended tenant of the shard opens. */
  ghost predicate ShardOpens(x: Secrets, db: Tables, shard: string) {
    forall t, w, n :: OwnTenant(db, shard, t) && OwnWebroot(db, t, w) && w in db.vars && n in db.vars[w] ==>
      ValueOpens(x, db.keys, t, db.vars[w][n])
  }

  lemma {:induction false} WebrootOpensIff(x: Secrets, db: Tables, w: string)
    requires w in db.webroots
    ensures AllOpen(x, EnvDb(x, db), w)
       <==> forall n :: w in db.vars && n in db.vars[w] ==> ValueOpens(x, db.keys, db.webroots[w].tenant, db.vars[w][n])
  {
    var edb := EnvDb(x, db);
    forall n | w in db.vars && n in db.vars[w]
      ensures n in VarsOf(edb, w)
      ensures Plain(x, edb, edb.webroots[w], VarsOf(edb, w)[n]).Some?
         <==> ValueOpens(x, db.keys, db.webroots[w].tenant, db.vars[w][n])
    {
    }
  }

  lemma {:induction false} LoadableIff(x: Secrets, db: Tables, shard: string)
    ensures Loadable(x, db, shard) <==> ShardOpens(x, db, shard)
  {
    forall t, w | OwnTenant(db, shard, t) && OwnWebroot(db, t, w)
      ensures t in TenantsOf(db, shard) && w in WebrootsOf(db, t)
      ensures AllOpen(x, EnvDb(x, db), w)
         <==> forall n :: w in db.vars && n in db.vars[w] ==> ValueOpens(x, db.keys, t, db.vars[w][n])
    {
      WebrootOpensIff(x, db, w);
    }
    assert forall t :: t in TenantsOf(db, shard) ==> OwnTenant(db, shard, t);
    assert forall t, w :: w in WebrootsOf(db, t) ==> OwnWebroot(db, t, w);
  }

  // The loader.

  /** The active webroots of the listed tenants. */
  function WebrootsOfAll(db: Tables, tenants: seq<string>): set<string> {
    set w | w in db.webroots && db.webroots[w].tenant in tenants && db.webroots[w].status == "active"
  }

  /**
   `loadWebState`: it fails exactly when a variable that belongs to the shard does not open; otherwise the
   batches, index maps and cache give exactly the nested state.
   */
  method LoadWebState(x: Secrets, db: Tables, shard: string) returns (r: Option<seq<DesiredTenant>>)
    ensures r.Some? <==> Loadable(x, db, shard)
    ensures r.Some? <==> ShardOpens(x, db, shard)
    ensures r.Some? ==> Nested(x, db, shard, r.value) && ShardTold(x, db, shard, r.value)
  {
    LoadableIff(x, db, shard);
    var ids := Ordered(TenantsOf(db, shard));
    if ids == [] {
      assert forall t :: t in TenantsOf(db, shard) ==> t in ids;
      NestedIsTold(x, db, shard, []);
      return Some([]);
    }
    var all := WebrootsOfAll(db, ids);
    var webrootIds := Ordered(all);
    var index := IndexByParent(webrootIds, TenantOf(db));
    var webroots := LoadWebroots(x, db, webrootIds);
    LoadableInBatch(x, db, shard, ids);
    if webroots.None? { return None; }
    var sshKeys := LoadSshKeys(db, ids);
    var tenants := Assemble(x, db, ids, index, webroots.value, sshKeys);
    NestedIsTold(x, db, shard, tenants);
    return Some(tenants);
  }

  lemma {:induction false} LoadableInBatch(x: Secrets, db: Tables, shard: string, ids: seq<string>)
    requires ids == Sorted(TenantsOf(db, shard))
    ensures Loadable(x, db, shard) <==> forall w :: w in Sorted(WebrootsOfAll(db, ids)) ==> AllOpen(x, EnvDb(x, db), w)
  {
    forall w | w in WebrootsOfAll(db, ids)
      ensures db.webroots[w].tenant in TenantsOf(db, shard) && w in WebrootsOf(db, db.webroots[w].tenant) {}
    forall t, w | t in TenantsOf(db, shard) && w in WebrootsOf(db, t) ensures w in WebrootsOfAll(db, ids) {
      assert t in ids;
    }
  }

  /** What the last loop works from. */
  ghost predicate Fetched(
    x: Secrets, db: Tables, ids: seq<string>, index: map<string, seq<nat>>, webroots: seq<DesiredWebroot>,
    sshKeys: map<string, seq<string>>)
  {
    var all := Sorted(WebrootsOfAll(db, ids));
    && webroots == Image(all, WebrootItems(x, db))
    && (forall p :: Picks(Group(index, p), all, TenantOf(db), p))
    && (forall t :: t in ids ==> t in db.tenants && ListsKeys(Group(sshKeys, t), db, t))
  }

  /** The last loop: each tenant with its webroots and keys. */
  method Assemble(
    x: Secrets, db: Tables, ids: seq<string>, index: map<string, seq<nat>>, webroots: seq<DesiredWebroot>,
    sshKeys: map<string, seq<string>>)
    returns (r: seq<DesiredTenant>)
    requires Fetched(x, db, ids, index, webroots, sshKeys)
    ensures |r| == |ids| && forall i :: 0 <= i < |ids| ==> NestedTenant(x, db, ids[i], r[i])
  {
    r := [];
    for i := 0 to |ids|
      invariant |r| == i && forall j :: 0 <= j < i ==> NestedTenant(x, db, ids[j], r[j])
    {
      var tenant := AssembleTenant(x, db, ids, index, webroots, sshKeys, ids[i]);
      r := r + [tenant];
    }
  }

  method AssembleTenant(
    x: Secrets, db: Tables, ids: seq<string>, index: map<string, seq<nat>>, webroots: seq<DesiredWebroot>,
    sshKeys: map<string, seq<string>>, t: string)
    returns (r: DesiredTenant)
    requires Fetched(x, db, ids, index, webroots, sshKeys) && t in ids
    ensures NestedTenant(x, db, t, r)
  {
    var at := Group(index, t);
    assert Picks(at, Sorted(WebrootsOfAll(db, ids)), TenantOf(db), t);
    var own := Gather(at, webroots);
    GatheredIsNested(x, db, t, WebrootsOfAll(db, ids), at, webroots, own);
    var row := db.tenants[t];
    r := DesiredTenant(t, row.uid, row.sftp, row.ssh, row.status, own, Group(sshKeys, t));
  }

  // The three readers together.

  /** Without a master key nothing secret that opens is stored, so taking the values as they are changes nothing. */
  lemma {:induction false} KeylessReadsAlike(x: Secrets, db: Tables, w: string)
    requires Lawful(x.c) && w in db.webroots && AllOpen(x, RawDb(db), w)
    ensures AllOpen(x, EnvDb(x, db), w) && EnvOf(x, EnvDb(x, db), w) == EnvOf(x, RawDb(db), w)
  {
    if x.kek == "" {
      var raw, seen := VarsOf(RawDb(db), w), VarsOf(EnvDb(x, db), w);
      forall n | n in raw ensures n in seen && raw[n] == seen[n] {
        assert Plain(x, RawDb(db), db.webroots[w].tenant, raw[n]).Some?;
        assert !ValidKey(x.kek);
        assert !raw[n].secret;
      }
      assert raw == seen;
    }
  }

  /**
   After every serial run of the variable service: the list, the batch reader and the loader give the same
   names and plaintexts, which are what was set; only the batch reader, without a master key, gives nothing.
   */
  method ReadThreeWays(
    x: Secrets, db: Tables, ids: seq<string>, w: string, listing: seq<(string, Var)>, rows: seq<EnvRow>,
    ghost s: World, ghost ops: seq<Op>)
    returns (
      list: Option<seq<(string, string)>>, batch: Option<map<string, map<string, string>>>,
      loaded: Option<map<string, map<string, string>>>)
    requires Lawful(x.c) && Sound(x, s) && (forall op :: op in ops ==> Sensible(op)) && RawDb(db) == Run(x, s, ops).db
    requires w in ids && forall v :: v in ids ==> v in db.webroots
    requires Listing(listing, VarsOf(RawDb(db), w)) && BatchAnswer(rows, RawDb(db), ids)
    ensures list.Some? && AsMap(list.value) == MeantOf(Run(x, s, ops).meant, w)
    ensures loaded.Some? && At(loaded.value, w) == MeantOf(Run(x, s, ops).meant, w)
    ensures batch.Some? && At(batch.value, w) == if x.kek == "" then map[] else MeantOf(Run(x, s, ops).meant, w)
  {
    ReadersReadBack(x, s, ops, RawDb(db), ids, rows, w, listing);
    var service := new WebrootEnvVarService(x, RawDb(db));
    list := service.ListDecrypted(w, listing);
    batch := DecryptEnvVars(x, RawDb(db), ids, rows);
    forall v | v in ids
      ensures AllOpen(x, EnvDb(x, db), v) && EnvOf(x, EnvDb(x, db), v) == MeantOf(Run(x, s, ops).meant, v)
    {
      RunsReadBack(x, s, ops, v);
      KeylessReadsAlike(x, db, v);
    }
    loaded := LoadEnvs(x, db, ids);
  }
}
