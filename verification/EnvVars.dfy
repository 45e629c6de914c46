/**
 The environment-variable service (internal/core/webroot_env_var.go) and the readers of what it stores:
 `ListDecrypted`, which fetches the data key for every secret, and the batch readers that cache it
 (`decryptEnvVars` in internal/activity/core_db_context.go; the desired-state loader is in DesiredState).
 */
module EnvVars {
  import opened Text
  import opened Ordering
  import opened Envelope

  /** The names and plaintexts of a webroot, as far as they open. */
  function EnvOf(x: Secrets, db: Db, w: string): map<string, string>
    requires w in db.webroots
  {
    map n | n in VarsOf(db, w) && Plain(x, db, db.webroots[w], VarsOf(db, w)[n]).Some?
      :: Plain(x, db, db.webroots[w], VarsOf(db, w)[n]).value
  }

  /** Everything stored for the webroot opens. */
  ghost predicate AllOpen(x: Secrets, db: Db, w: string)
    requires w in db.webroots
  {
    forall n :: n in VarsOf(db, w) ==> Plain(x, db, db.webroots[w], VarsOf(db, w)[n]).Some?
  }

  // One webroot, ordered by name.

  /** The answer to the query for one webroot's variables, ordered by name. */
  ghost predicate Listing(rows: seq<(string, Var)>, vars: map<string, Var>) {
    && (forall i :: 0 <= i < |rows| ==> rows[i].0 in vars && rows[i].1 == vars[rows[i].0])
    && (forall n :: n in vars ==> exists i :: 0 <= i < |rows| && rows[i].0 == n)
    && (forall i, j :: 0 <= i < j < |rows| ==> Less(rows[i].0, rows[j].0))
  }

  /** The list in name order with its values opened, or nothing if one does not open. */
  function Listed(x: Secrets, db: Db, w: string, rows: seq<(string, Var)>): Option<seq<(string, string)>> {
    if w !in db.webroots then None
    else if exists i :: 0 <= i < |rows| && Plain(x, db, db.webroots[w], rows[i].1).None? then None
    else Some(seq(|rows|, i requires 0 <= i < |rows| => (rows[i].0, Plain(x, db, db.webroots[w], rows[i].1).value)))
  }

  function AsMap(list: seq<(string, string)>): map<string, string> {
    if list == [] then map[] else AsMap(list[..|list| - 1])[list[|list| - 1].0 := list[|list| - 1].1]
  }

  // Many webroots at once.

  datatype EnvRow = EnvRow(w: string, name: string, v: Var, tenant: string)

  /** The answer to the batch query: the variables of the listed webroots, in any order. */
  ghost predicate BatchAnswer(rows: seq<EnvRow>, db: Db, ids: seq<string>) {
    && (forall r :: r in rows ==> FromDb(r, db) && r.w in ids)
    && (forall w, n :: w in ids && w in db.webroots && n in VarsOf(db, w) ==> Present(rows, w, n))
  }

  predicate FromDb(r: EnvRow, db: Db) {
    && r.w in db.webroots && r.tenant == db.webroots[r.w]
    && r.name in VarsOf(db, r.w) && r.v == VarsOf(db, r.w)[r.name]
  }

  predicate Present(rows: seq<EnvRow>, w: string, n: string) {
    exists r :: r in rows && r.w == w && r.name == n
  }

  function RowPlain(x: Secrets, db: Db, r: EnvRow): Option<string> { Plain(x, db, r.tenant, r.v) }

  predicate RowsOpen(x: Secrets, db: Db, rows: seq<EnvRow>) {
    forall r :: r in rows ==> RowPlain(x, db, r).Some?
  }

  function At(m: map<string, map<string, string>>, w: string): map<string, string> {
    if w in m then m[w] else map[]
  }

  /** The rows sorted into a map for each webroot. */
  function Collected(x: Secrets, db: Db, rows: seq<EnvRow>): map<string, map<string, string>>
    requires RowsOpen(x, db, rows)
  {
    if rows == [] then map[]
    else
      var r := rows[|rows| - 1];
      var m := Collected(x, db, rows[..|rows| - 1]);
      m[r.w := At(m, r.w)[r.name := RowPlain(x, db, r).value]]
  }

  lemma {:induction false} CollectedAt(x: Secrets, db: Db, rows: seq<EnvRow>, w: string)
    requires RowsOpen(x, db, rows) && w in db.webroots && forall r :: r in rows ==> FromDb(r, db)
    ensures forall n :: n in At(Collected(x, db, rows), w) <==> Present(rows, w, n)
    ensures forall n :: n in At(Collected(x, db, rows), w) ==>
      n in EnvOf(x, db, w) && At(Collected(x, db, rows), w)[n] == EnvOf(x, db, w)[n]
    decreases |rows|
  {
    if rows == [] {
    } else {
      var rest, r := rows[..|rows| - 1], rows[|rows| - 1];
      assert rows == rest + [r];
      CollectedAt(x, db, rest, w);
      forall n ensures Present(rows, w, n) <==> Present(rest, w, n) || (r.w == w && r.name == n) {
        if Present(rest, w, n) { var q :| q in rest && q.w == w && q.name == n; assert q in rows; }
        if r.w == w && r.name == n { assert r in rows; }
      }
      assert FromDb(r, db);
    }
  }

  /** What a batch collects for each webroot is that webroot's environment. */
  lemma {:induction false} CollectedIsEnv(x: Secrets, db: Db, ids: seq<string>, rows: seq<EnvRow>, w: string)
    requires BatchAnswer(rows, db, ids) && RowsOpen(x, db, rows) && w in ids && w in db.webroots
    ensures AllOpen(x, db, w) && At(Collected(x, db, rows), w) == EnvOf(x, db, w)
  {
    CollectedAt(x, db, rows, w);
    forall n | n in VarsOf(db, w) ensures Plain(x, db, db.webroots[w], VarsOf(db, w)[n]).Some? {
      assert Present(rows, w, n);
      var r :| r in rows && r.w == w && r.name == n;
      assert FromDb(r, db) && RowPlain(x, db, r).Some?;
    }
  }

  /** The cached data keys are the stored ones. */
  ghost predicate CacheFits(x: Secrets, db: Db, cache: map<string, string>) {
    forall t :: t in cache ==> Dek(x, db, t) == Some(cache[t])
  }

  lemma {:induction false} RowsOpenStep(x: Secrets, db: Db, rows: seq<EnvRow>, i: nat)
    requires i < |rows| && RowsOpen(x, db, rows[..i]) && RowPlain(x, db, rows[i]).Some?
    ensures RowsOpen(x, db, rows[..i + 1]) && rows[..i + 1][..i] == rows[..i]
    ensures Collected(x, db, rows[..i + 1])
         == var m := Collected(x, db, rows[..i]);
            m[rows[i].w := At(m, rows[i].w)[rows[i].name := RowPlain(x, db, rows[i]).value]]
  {
    assert rows[..i + 1] == rows[..i] + [rows[i]];
    assert rows[..i + 1][..i] == rows[..i];
  }

  /**
   `decryptEnvVars`: with no master key or no webroots the map is empty. Otherwise it fails exactly when
   some row does not open, and else every webroot gets its rows.
   */
  method DecryptEnvVars(x: Secrets, db: Db, ids: seq<string>, rows: seq<EnvRow>)
    returns (r: Option<map<string, map<string, string>>>)
    ensures x.kek == "" || ids == [] ==> r == Some(map[])
    ensures x.kek != "" && ids != [] ==> (r.Some? <==> RowsOpen(x, db, rows))
    ensures x.kek != "" && ids != [] && r.Some? ==> r.value == Collected(x, db, rows)
  {
    if ids == [] || x.kek == "" { return Some(map[]); }
    var result: map<string, map<string, string>> := map[];
    var cache: map<string, string> := map[];
    for i := 0 to |rows|
      invariant RowsOpen(x, db, rows[..i]) && result == Collected(x, db, rows[..i]) && CacheFits(x, db, cache)
    {
      var row := rows[i];
      var value := row.v.value;
      assert row in rows;
      if row.v.secret {
        var dek;
        if row.tenant in cache {
          dek := cache[row.tenant];
        } else {
          if row.tenant !in db.keys { return None; }
          var unwrapped := x.c.open(db.keys[row.tenant], x.kek);
          if unwrapped.None? { return None; }
          dek := unwrapped.value;
          cache := cache[row.tenant := dek];
        }
        var plain := x.c.open(row.v.value, dek);
        if plain.None? { return None; }
        value := plain.value;
      }
      RowsOpenStep(x, db, rows, i);
      result := result[row.w := At(result, row.w)[row.name := value]];
    }
    assert rows[..|rows|] == rows;
    return Some(result);
  }

  // The service.

  class WebrootEnvVarService {
    const x: Secrets
    var webroots: map<string, string>
    var keys: map<string, string>
    var vars: map<string, map<string, Var>>

    constructor (x: Secrets, db: Db)
      ensures this.x == x && State() == db
    {
      this.x, webroots, keys, vars := x, db.webroots, db.keys, db.vars;
    }

    function State(): Db
      reads this
    {
      Db(webroots, keys, vars)
    }

    method GetTenantDEK(tenant: string) returns (dek: Option<string>)
      ensures dek == Dek(x, State(), tenant)
    {
      if tenant !in keys { return None; }
      dek := x.c.open(keys[tenant], x.kek);
    }

    method GetOrCreateTenantDEK(tenant: string, d: Draw) returns (dek: Option<string>)
      modifies `keys
      ensures (State(), dek) == KeyMade(x, old(State()), tenant, d)
    {
      if tenant in keys {
        dek := x.c.open(keys[tenant], x.kek);
        return;
      }
      var wrapped := x.c.seal(d.dek, x.kek, d.wrapNonce);
      if wrapped.None? { return None; }
      keys := keys[tenant := wrapped.value];
      return Some(d.dek);
    }

    method BulkSet(w: string, inputs: seq<Input>, draws: seq<Draw>) returns (ok: bool)
      requires |draws| == |inputs|
      modifies `keys, `vars
      ensures (State(), ok) == Envelope.BulkSet(x, old(State()), w, inputs, draws)
    {
      if w !in webroots { return false; }
      var tenant := webroots[w];
      vars := vars - {w};
      ghost var cleared := State();
      var i := 0;
      while i < |inputs|
        invariant 0 <= i <= |inputs| && webroots == old(webroots)
        invariant SetVars(x, State(), w, tenant, inputs[i..], draws[i..]) == SetVars(x, cleared, w, tenant, inputs, draws)
      {
        assert inputs[i..][1..] == inputs[i + 1..] && draws[i..][1..] == draws[i + 1..];
        ok := SetOneVar(w, tenant, inputs[i], draws[i]);
        if !ok { return; }
        i := i + 1;
      }
      return true;
    }

    /** The body of the insert loop. */
    method SetOneVar(w: string, tenant: string, input: Input, d: Draw) returns (ok: bool)
      modifies `keys, `vars
      ensures (State(), ok) == SetOne(x, old(State()), w, tenant, input, d)
    {
      var value := input.value;
      if input.secret {
        var dek := GetOrCreateTenantDEK(tenant, d);
        if dek.None? { return false; }
        var blob := x.c.seal(value, dek.value, d.nonce);
        if blob.None? { return false; }
        value := blob.value;
      }
      if input.name in VarsOf(State(), w) { return false; }
      vars := vars[w := VarsOf(State(), w)[input.name := Var(value, input.secret)]];
      return true;
    }

    method DeleteByName(w: string, name: string) returns (ok: bool)
      modifies `vars
      ensures (State(), ok) == Envelope.DeleteByName(old(State()), w, name)
    {
      if name !in VarsOf(State(), w) { return false; }
      vars := vars[w := VarsOf(State(), w) - {name}];
      return true;
    }

    method VaultEncrypt(w: string, plain: string, d: Draw) returns (token: Option<string>)
      modifies `keys
      ensures (State(), token) == Envelope.VaultEncrypt(x, old(State()), w, plain, d)
    {
      if w !in webroots { return None; }
      var dek := GetOrCreateTenantDEK(webroots[w], d);
      if dek.None? { return None; }
      var blob := x.c.seal(plain, dek.value, d.nonce);
      if blob.None? { return None; }
      return Some(PREFIX + blob.value);
    }

    method VaultDecrypt(w: string, token: string) returns (plain: Option<string>)
      requires |token| >= |PREFIX|
      ensures plain == Envelope.VaultDecrypt(x, State(), w, token)
    {
      if w !in webroots { return None; }
      var dek := GetTenantDEK(webroots[w]);
      if dek.None? { return None; }
      plain := x.c.open(token[|PREFIX|..], dek.value);
    }

    /** `ListDecrypted` on what the query answered: the data key is fetched for every secret. */
    method ListDecrypted(w: string, rows: seq<(string, Var)>) returns (r: Option<seq<(string, string)>>)
      ensures r == Listed(x, State(), w, rows)
    {
      if w !in webroots { return None; }
      var tenant := webroots[w];
      var list: seq<(string, string)> := [];
      for i := 0 to |rows|
        invariant |list| == i
        invariant forall j :: 0 <= j < i ==>
          Plain(x, State(), tenant, rows[j].1) == Some(list[j].1) && list[j].0 == rows[j].0
      {
        var value := rows[i].1.value;
        if rows[i].1.secret {
          var dek := GetTenantDEK(tenant);
          if dek.None? { return None; }
          var plain := x.c.open(value, dek.value);
          if plain.None? { return None; }
          value := plain.value;
        }
        list := list + [(rows[i].0, value)];
      }
      assert list == Listed(x, State(), w, rows).value;
      return Some(list);
    }
  }

  // The readers agree.

  lemma {:induction false} AsMapAt(list: seq<(string, string)>)
    requires forall i, j :: 0 <= i < j < |list| ==> list[i].0 != list[j].0
    ensures forall n :: n in AsMap(list) <==> exists i :: 0 <= i < |list| && list[i].0 == n
    ensures forall i :: 0 <= i < |list| ==> AsMap(list)[list[i].0] == list[i].1
  {
    if list == [] {
    } else {
      AsMapAt(list[..|list| - 1]);
    }
  }

  /** The list fails exactly when some value does not open. */
  lemma {:induction false} ListedIffOpen(x: Secrets, db: Db, w: string, rows: seq<(string, Var)>)
    requires w in db.webroots && Listing(rows, VarsOf(db, w))
    ensures Listed(x, db, w, rows).Some? <==> AllOpen(x, db, w)
  {
    if Listed(x, db, w, rows).Some? {
      forall n | n in VarsOf(db, w) ensures Plain(x, db, db.webroots[w], VarsOf(db, w)[n]).Some? {
        var i :| 0 <= i < |rows| && rows[i].0 == n;
      }
    }
  }

  /** And else it is the webroot's environment. */
  lemma {:induction false} ListedIsEnv(
    x: Secrets, db: Db, w: string, rows: seq<(string, Var)>, list: seq<(string, string)>)
    requires w in db.webroots && Listing(rows, VarsOf(db, w)) && Listed(x, db, w, rows) == Some(list)
    ensures AsMap(list) == EnvOf(x, db, w)
  {
    forall i, j | 0 <= i < j < |list| ensures list[i].0 != list[j].0 {
      assert Less(rows[i].0, rows[j].0);
      LessIrreflexive(list[i].0);
    }
    AsMapAt(list);
    forall n | n in EnvOf(x, db, w) ensures n in AsMap(list) {
      var i :| 0 <= i < |rows| && rows[i].0 == n;
      assert list[i].0 == n;
    }
    forall n | n in AsMap(list) ensures n in EnvOf(x, db, w) && AsMap(list)[n] == EnvOf(x, db, w)[n] {
      var i :| 0 <= i < |list| && list[i].0 == n;
    }
  }

  /** A batch read of some webroots succeeds exactly when the list of each of them does. */
  lemma {:induction false} BatchOpensIff(x: Secrets, db: Db, ids: seq<string>, rows: seq<EnvRow>)
    requires BatchAnswer(rows, db, ids)
    ensures RowsOpen(x, db, rows) <==> forall w :: w in ids && w in db.webroots ==> AllOpen(x, db, w)
  {
    if RowsOpen(x, db, rows) {
      forall w | w in ids && w in db.webroots ensures AllOpen(x, db, w) {
        CollectedIsEnv(x, db, ids, rows, w);
      }
    } else {
      var r :| r in rows && RowPlain(x, db, r).None?;
      assert FromDb(r, db) && !AllOpen(x, db, r.w);
    }
  }

  /**
   In every database state, reachable or not, and with a master key configured: where a batch read of some
   webroots succeeds the list of each of them does too, with the same names and plaintexts.
   */
  lemma {:induction false} ReadersAgree(
    x: Secrets, db: Db, ids: seq<string>, rows: seq<EnvRow>, w: string, listing: seq<(string, Var)>)
    requires BatchAnswer(rows, db, ids) && RowsOpen(x, db, rows)
    requires w in ids && w in db.webroots && Listing(listing, VarsOf(db, w))
    ensures Listed(x, db, w, listing).Some?
    ensures At(Collected(x, db, rows), w) == AsMap(Listed(x, db, w, listing).value)
  {
    CollectedIsEnv(x, db, ids, rows, w);
    ListedIffOpen(x, db, w, listing);
    ListedIsEnv(x, db, w, listing, Listed(x, db, w, listing).value);
  }

  // What the readers return, in terms of the stored columns alone.

  /** A secret opens with the tenant's data key, itself opened with the master key; anything else is as it is. */
  predicate OpensAs(x: Secrets, keys: map<string, string>, tenant: string, v: Var, plain: string) {
    if v.secret then
      && tenant in keys && x.c.open(keys[tenant], x.kek).Some?
      && x.c.open(v.value, x.c.open(keys[tenant], x.kek).value) == Some(plain)
    else plain == v.value
  }

  predicate Opens(x: Secrets, keys: map<string, string>, tenant: string, v: Var) {
    v.secret ==>
      && tenant in keys && x.c.open(keys[tenant], x.kek).Some?
      && x.c.open(v.value, x.c.open(keys[tenant], x.kek).value).Some?
  }

  lemma {:induction false} PlainOpens(x: Secrets, db: Db, tenant: string, v: Var)
    ensures Plain(x, db, tenant, v).Some? <==> Opens(x, db.keys, tenant, v)
    ensures Plain(x, db, tenant, v).Some? ==> OpensAs(x, db.keys, tenant, v, Plain(x, db, tenant, v).value)
  {
  }

  /** The list has the rows in their order, each opened; it fails without the webroot or where a row does not open. */
  lemma {:induction false} ListedLaw(x: Secrets, db: Db, w: string, rows: seq<(string, Var)>)
    ensures var list := Listed(x, db, w, rows);
      && (list.Some? <==> w in db.webroots && forall i :: 0 <= i < |rows| ==> Opens(x, db.keys, db.webroots[w], rows[i].1))
      && (list.Some? ==> |list.value| == |rows| && forall i :: 0 <= i < |rows| ==>
            list.value[i].0 == rows[i].0 && OpensAs(x, db.keys, db.webroots[w], rows[i].1, list.value[i].1))
  {
    if w in db.webroots {
      forall i | 0 <= i < |rows| ensures Plain(x, db, db.webroots[w], rows[i].1).Some? <==> Opens(x, db.keys, db.webroots[w], rows[i].1) {
        PlainOpens(x, db, db.webroots[w], rows[i].1);
      }
    }
  }

  /** The variables of the webroot, each opened. */
  ghost predicate Opened(x: Secrets, db: Db, w: string, env: map<string, string>)
    requires w in db.webroots
  {
    && (forall n :: n in env <==> w in db.vars && n in db.vars[w])
    && (forall n :: n in env ==> OpensAs(x, db.keys, db.webroots[w], db.vars[w][n], env[n]))
  }

  /** The batch gives each webroot its own variables; it fails where one of them does not open. */
  lemma {:induction false} BatchLaw(x: Secrets, db: Db, ids: seq<string>, rows: seq<EnvRow>)
    requires BatchAnswer(rows, db, ids)
    ensures RowsOpen(x, db, rows)
       <==> forall w, n :: w in ids && w in db.webroots && w in db.vars && n in db.vars[w] ==>
              Opens(x, db.keys, db.webroots[w], db.vars[w][n])
    ensures RowsOpen(x, db, rows) ==>
      forall w :: w in ids && w in db.webroots ==> Opened(x, db, w, At(Collected(x, db, rows), w))
  {
    BatchOpensIff(x, db, ids, rows);
    forall w, n | w in db.webroots && w in db.vars && n in db.vars[w]
      ensures Plain(x, db, db.webroots[w], db.vars[w][n]).Some? <==> Opens(x, db.keys, db.webroots[w], db.vars[w][n])
    {
      PlainOpens(x, db, db.webroots[w], db.vars[w][n]);
    }
    if RowsOpen(x, db, rows) {
      forall w | w in ids && w in db.webroots ensures Opened(x, db, w, At(Collected(x, db, rows), w)) {
        CollectedIsEnv(x, db, ids, rows, w);
      }
    }
  }

  /** After every serial run what is stored for a webroot opens, and is exactly what was set. */
  lemma {:induction false} RunsReadBack(x: Secrets, s: World, ops: seq<Op>, w: string)
    requires Lawful(x.c) && Sound(x, s) && forall op :: op in ops ==> Sensible(op)
    requires w in Run(x, s, ops).db.webroots
    ensures AllOpen(x, Run(x, s, ops).db, w)
    ensures EnvOf(x, Run(x, s, ops).db, w) == MeantOf(Run(x, s, ops).meant, w)
  {
    RunsAreSound(x, s, ops);
    var last := Run(x, s, ops);
    assert Stands(x, last.db, last.db.webroots[w], VarsOf(last.db, w), MeantOf(last.meant, w));
  }

  /** So the list of each webroot, and each webroot's part of any batch, is what was set. */
  lemma {:induction false} ReadersReadBack(
    x: Secrets, s: World, ops: seq<Op>, db: Db, ids: seq<string>, rows: seq<EnvRow>, w: string, listing: seq<(string, Var)>)
    requires Lawful(x.c) && Sound(x, s) && (forall op :: op in ops ==> Sensible(op)) && db == Run(x, s, ops).db
    requires BatchAnswer(rows, db, ids) && w in ids && w in db.webroots && Listing(listing, VarsOf(db, w))
    ensures RowsOpen(x, db, rows) && At(Collected(x, db, rows), w) == MeantOf(Run(x, s, ops).meant, w)
    ensures Listed(x, db, w, listing).Some?
    ensures AsMap(Listed(x, db, w, listing).value) == MeantOf(Run(x, s, ops).meant, w)
  {
    forall r | r in rows ensures RowPlain(x, db, r).Some? {
      assert FromDb(r, db);
      RunsReadBack(x, s, ops, r.w);
    }
    RunsReadBack(x, s, ops, w);
    CollectedIsEnv(x, db, ids, rows, w);
    ReadersAgree(x, db, ids, rows, w, listing);
  }
}
