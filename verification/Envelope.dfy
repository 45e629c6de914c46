/**
 Envelope encryption of webroot secrets (internal/core/webroot_env_var.go, internal/crypto/secrets.go,
 `decryptEnvVars` in internal/activity/core_db_context.go): each tenant has a data key, stored wrapped by a
 master key, and secret variables and vault tokens are sealed with the data key.
 */
module Envelope {
  import opened Text
  import opened Ordering

  // The cipher: whatever seals and opens, as long as opening undoes sealing.

  /** `seal` takes the plaintext, the key and the random nonce. */
  datatype Cipher = Cipher(
    seal: (string, string, string) -> Option<string>,
    open: (string, string) -> Option<string>)

  /** The key lengths AES accepts. No master key configured is the empty key. */
  predicate ValidKey(key: string) { |key| == 16 || |key| == 24 || |key| == 32 }

  ghost predicate Lawful(c: Cipher) {
    && (forall p, k, n :: ValidKey(k) ==> c.seal(p, k, n).Some? && c.open(c.seal(p, k, n).value, k) == Some(p))
    && (forall p, k, n :: !ValidKey(k) ==> c.seal(p, k, n).None?)
    && (forall e, k :: !ValidKey(k) ==> c.open(e, k).None?)
  }

  // The tables.

  datatype Var = Var(value: string, secret: bool)

  /** Webroots with their tenant, wrapped data keys by tenant, variables by webroot and name. */
  datatype Db = Db(webroots: map<string, string>, keys: map<string, string>, vars: map<string, map<string, Var>>)

  function VarsOf(db: Db, w: string): map<string, Var> {
    if w in db.vars then db.vars[w] else map[]
  }

  datatype Secrets = Secrets(c: Cipher, kek: string)

  /** `getTenantDEK` */
  function Dek(x: Secrets, db: Db, tenant: string): Option<string> {
    if tenant in db.keys then x.c.open(db.keys[tenant], x.kek) else None
  }

  /** What a stored value stands for: itself, or the secret under the tenant's data key. */
  function Plain(x: Secrets, db: Db, tenant: string, v: Var): Option<string> {
    if !v.secret then Some(v.value)
    else match Dek(x, db, tenant)
      case None => None
      case Some(dek) => x.c.open(v.value, dek)
  }

  // The operations.

  /** The randomness one operation may draw: a new data key (32 bytes) and two nonces. */
  datatype Draw = Draw(dek: string, wrapNonce: string, nonce: string)

  predicate Proper(d: Draw) { |d.dek| == 32 }

  datatype Input = Input(name: string, value: string, secret: bool)

  /** `getOrCreateTenantDEK` */
  function KeyMade(x: Secrets, db: Db, tenant: string, d: Draw): (Db, Option<string>) {
    if tenant in db.keys then (db, x.c.open(db.keys[tenant], x.kek))
    else match x.c.seal(d.dek, x.kek, d.wrapNonce)
      case None => (db, None)
      case Some(wrapped) => (db.(keys := db.keys[tenant := wrapped]), Some(d.dek))
  }

  /** A secret sealed under the tenant's data key, which is made if need be. */
  function Sealed(x: Secrets, db: Db, tenant: string, plain: string, d: Draw): (Db, Option<string>) {
    var (db', dek) := KeyMade(x, db, tenant, d);
    (db', if dek.None? then None else x.c.seal(plain, dek.value, d.nonce))
  }

  /** The value one input is stored as. */
  function StoredAs(x: Secrets, db: Db, tenant: string, input: Input, d: Draw): (Db, Option<string>) {
    if input.secret then Sealed(x, db, tenant, input.value, d) else (db, Some(input.value))
  }

  function Put(db: Db, w: string, name: string, v: Var): Db {
    db.(vars := db.vars[w := VarsOf(db, w)[name := v]])
  }

  /** One round of the insert loop of `BulkSet`; a name used before is an error. */
  function SetOne(x: Secrets, db: Db, w: string, tenant: string, input: Input, d: Draw): (Db, bool) {
    var (db', value) := StoredAs(x, db, tenant, input, d);
    if value.None? || input.name in VarsOf(db', w) then (db', false)
    else (Put(db', w, input.name, Var(value.value, input.secret)), true)
  }

  /** The insert loop stops at the first error. */
  function SetVars(x: Secrets, db: Db, w: string, tenant: string, inputs: seq<Input>, draws: seq<Draw>): (Db, bool)
    requires |draws| == |inputs|
    decreases |inputs|
  {
    if inputs == [] then (db, true)
    else
      var (next, ok) := SetOne(x, db, w, tenant, inputs[0], draws[0]);
      if !ok then (next, false) else SetVars(x, next, w, tenant, inputs[1..], draws[1..])
  }

  function BulkSet(x: Secrets, db: Db, w: string, inputs: seq<Input>, draws: seq<Draw>): (Db, bool)
    requires |draws| == |inputs|
  {
    if w !in db.webroots then (db, false)
    else SetVars(x, db.(vars := db.vars - {w}), w, db.webroots[w], inputs, draws)
  }

  function DeleteByName(db: Db, w: string, name: string): (Db, bool) {
    if name !in VarsOf(db, w) then (db, false)
    else (db.(vars := db.vars[w := VarsOf(db, w) - {name}]), true)
  }

  const PREFIX := "vault:v1:"

  function VaultEncrypt(x: Secrets, db: Db, w: string, plain: string, d: Draw): (Db, Option<string>) {
    if w !in db.webroots then (db, None)
    else
      var (db', blob) := Sealed(x, db, db.webroots[w], plain, d);
      (db', if blob.None? then None else Some(PREFIX + blob.value))
  }

  /** The request layer lets only tokens with the prefix through. */
  function VaultDecrypt(x: Secrets, db: Db, w: string, token: string): Option<string>
    requires |token| >= |PREFIX|
  {
    if w !in db.webroots then None
    else match Dek(x, db, db.webroots[w])
      case None => None
      case Some(dek) => x.c.open(token[|PREFIX|..], dek)
  }

  // Runs. Next to the database, a run keeps what was issued and what was meant.

  datatype Issued = Issued(w: string, plain: string, token: string)

  /** `meant` holds the plaintexts by webroot and name, without any cipher. */
  datatype World = World(db: Db, issued: seq<Issued>, meant: map<string, map<string, string>>)

  datatype Op =
    | AddWebroot(w: string, tenant: string)
    | Set(w: string, inputs: seq<Input>, draws: seq<Draw>)
    | Delete(w: string, name: string)
    | Issue(w: string, plain: string, draw: Draw)

  function MeantOf(meant: map<string, map<string, string>>, w: string): map<string, string> {
    if w in meant then meant[w] else map[]
  }

  /** What makes `BulkSet` stop. */
  predicate Refused(canSeal: bool, now: map<string, string>, input: Input) {
    (input.secret && !canSeal) || input.name in now
  }

  /** `BulkSet` as its caller sees it; `canSeal` says whether a master key is there to seal with. */
  function SetMeant(canSeal: bool, now: map<string, string>, inputs: seq<Input>): map<string, string>
    decreases |inputs|
  {
    if inputs == [] || Refused(canSeal, now, inputs[0]) then now
    else SetMeant(canSeal, now[inputs[0].name := inputs[0].value], inputs[1..])
  }

  predicate Sensible(op: Op) {
    match op
    case Set(_, inputs, draws) => |draws| == |inputs| && forall d :: d in draws ==> Proper(d)
    case Issue(_, _, draw) => Proper(draw)
    case _ => true
  }

  function Apply(x: Secrets, s: World, op: Op): World
    requires Sensible(op)
  {
    match op
    case AddWebroot(w, tenant) =>
      if w in s.db.webroots then s else s.(db := s.db.(webroots := s.db.webroots[w := tenant]))
    case Set(w, inputs, draws) =>
      if w !in s.db.webroots then s
      else World(BulkSet(x, s.db, w, inputs, draws).0, s.issued, s.meant[w := SetMeant(ValidKey(x.kek), map[], inputs)])
    case Delete(w, name) =>
      World(DeleteByName(s.db, w, name).0, s.issued, s.meant[w := MeantOf(s.meant, w) - {name}])
    case Issue(w, plain, draw) =>
      var (db, token) := VaultEncrypt(x, s.db, w, plain, draw);
      World(db, if token.None? then s.issued else s.issued + [Issued(w, plain, token.value)], s.meant)
  }

  function Run(x: Secrets, s: World, ops: seq<Op>): World
    requires forall op :: op in ops ==> Sensible(op)
    decreases |ops|
  {
    if ops == [] then s else Run(x, Apply(x, s, ops[0]), ops[1..])
  }

  // The invariant.

  /** Every stored data key opens under the master key. */
  ghost predicate KeysOpen(x: Secrets, db: Db) {
    forall t :: t in db.keys ==> Dek(x, db, t).Some? && |Dek(x, db, t).value| == 32
  }

  /** The webroot's variables are exactly the meant ones. */
  ghost predicate Stands(x: Secrets, db: Db, tenant: string, vars: map<string, Var>, meant: map<string, string>) {
    && vars.Keys == meant.Keys
    && forall n :: n in vars ==> Plain(x, db, tenant, vars[n]) == Some(meant[n])
  }

  ghost predicate AllStand(x: Secrets, db: Db, meant: map<string, map<string, string>>) {
    && (forall w :: w in db.vars && w !in db.webroots ==> db.vars[w] == map[])
    && (forall w :: w !in db.webroots ==> MeantOf(meant, w) == map[])
    && (forall w :: w in db.webroots ==> Stands(x, db, db.webroots[w], VarsOf(db, w), MeantOf(meant, w)))
  }

  predicate TokenOpens(x: Secrets, db: Db, i: Issued) {
    |i.token| >= |PREFIX| && VaultDecrypt(x, db, i.w, i.token) == Some(i.plain)
  }

  ghost predicate Sound(x: Secrets, s: World) {
    && KeysOpen(x, s.db)
    && AllStand(x, s.db, s.meant)
    && forall i :: i in s.issued ==> TokenOpens(x, s.db, i)
  }

  /** Data keys are only ever added, and webroots keep their tenant. */
  predicate Extends(later: Db, db: Db) {
    && (forall t :: t in db.keys ==> t in later.keys && later.keys[t] == db.keys[t])
    && (forall w :: w in db.webroots ==> w in later.webroots && later.webroots[w] == db.webroots[w])
  }

  lemma {:induction false} KeyMadeIsSound(x: Secrets, db: Db, tenant: string, d: Draw)
    requires Lawful(x.c) && KeysOpen(x, db) && Proper(d)
    ensures var (db', dek) := KeyMade(x, db, tenant, d);
      && KeysOpen(x, db') && Extends(db', db) && db'.vars == db.vars && db'.webroots == db.webroots
      && dek.Some? == ValidKey(x.kek)
      && (dek.Some? ==> Dek(x, db', tenant) == dek && ValidKey(dek.value))
  {
    var (db', dek) := KeyMade(x, db, tenant, d);
    if tenant in db.keys {
      assert Dek(x, db, tenant).Some?;
    } else if ValidKey(x.kek) {
      assert x.c.open(x.c.seal(d.dek, x.kek, d.wrapNonce).value, x.kek) == Some(d.dek);
      forall t | t in db'.keys ensures Dek(x, db', t).Some? && |Dek(x, db', t).value| == 32 {
        if t != tenant { assert Dek(x, db', t) == Dek(x, db, t); }
      }
    }
  }

  /** Sealing and opening again, with the data key made on the way. */
  lemma {:induction false} SealedOpens(x: Secrets, db: Db, tenant: string, plain: string, d: Draw)
    requires Lawful(x.c) && KeysOpen(x, db) && Proper(d)
    ensures var (db', blob) := Sealed(x, db, tenant, plain, d);
      && KeysOpen(x, db') && Extends(db', db) && db'.vars == db.vars && db'.webroots == db.webroots
      && blob.Some? == ValidKey(x.kek)
      && (blob.Some? ==> Dek(x, db', tenant).Some? && x.c.open(blob.value, Dek(x, db', tenant).value) == Some(plain))
  {
    KeyMadeIsSound(x, db, tenant, d);
    var (db', dek) := KeyMade(x, db, tenant, d);
    if dek.Some? {
      assert x.c.open(x.c.seal(plain, dek.value, d.nonce).value, dek.value) == Some(plain);
    }
  }

  lemma {:induction false} PlainKept(x: Secrets, db: Db, later: Db, tenant: string, v: Var)
    requires Extends(later, db) && Plain(x, db, tenant, v).Some?
    ensures Plain(x, later, tenant, v) == Plain(x, db, tenant, v)
  {
  }

  lemma {:induction false} StandsKept(
    x: Secrets, db: Db, later: Db, tenant: string, vars: map<string, Var>, meant: map<string, string>)
    requires Extends(later, db) && Stands(x, db, tenant, vars, meant)
    ensures Stands(x, later, tenant, vars, meant)
  {
    forall n | n in vars ensures Plain(x, later, tenant, vars[n]) == Some(meant[n]) {
      PlainKept(x, db, later, tenant, vars[n]);
    }
  }

  lemma {:induction false} TokensKept(x: Secrets, db: Db, later: Db, issued: seq<Issued>)
    requires Extends(later, db) && forall i :: i in issued ==> TokenOpens(x, db, i)
    ensures forall i :: i in issued ==> TokenOpens(x, later, i)
  {
    forall i | i in issued ensures TokenOpens(x, later, i) {
      assert TokenOpens(x, db, i);
    }
  }

  lemma {:induction false} StoredStandsFor(x: Secrets, db: Db, tenant: string, input: Input, d: Draw)
    requires Lawful(x.c) && KeysOpen(x, db) && Proper(d)
    ensures var (db', value) := StoredAs(x, db, tenant, input, d);
      && KeysOpen(x, db') && Extends(db', db) && db'.vars == db.vars && db'.webroots == db.webroots
      && (value.None? <==> input.secret && !ValidKey(x.kek))
      && (value.Some? ==> Plain(x, db', tenant, Var(value.value, input.secret)) == Some(input.value))
  {
    if input.secret { SealedOpens(x, db, tenant, input.value, d); }
  }

  lemma {:induction false} PutStands(
    x: Secrets, db: Db, w: string, tenant: string, name: string, v: Var, now: map<string, string>, plain: string)
    requires Stands(x, db, tenant, VarsOf(db, w), now) && Plain(x, db, tenant, v) == Some(plain)
    ensures Stands(x, Put(db, w, name, v), tenant, VarsOf(Put(db, w, name, v), w), now[name := plain])
  {
    var db' := Put(db, w, name, v);
    forall n | n in VarsOf(db', w) ensures Plain(x, db', tenant, VarsOf(db', w)[n]) == Some(now[name := plain][n]) {
      assert Plain(x, db', tenant, VarsOf(db', w)[n]) == Plain(x, db, tenant, VarsOf(db', w)[n]);
    }
  }

  /** What the insert loop leaves alone: other webroots, and the keys already there. */
  ghost predicate OnlyVarsOf(w: string, later: Db, db: Db) {
    && Extends(later, db) && later.webroots == db.webroots
    && forall u :: u != w ==> VarsOf(later, u) == VarsOf(db, u)
  }

  lemma {:induction false} PutOnly(x: Secrets, db': Db, db: Db, w: string, name: string, v: Var)
    requires KeysOpen(x, db') && Extends(db', db) && db'.vars == db.vars && db'.webroots == db.webroots
    ensures KeysOpen(x, Put(db', w, name, v)) && OnlyVarsOf(w, Put(db', w, name, v), db)
  {
    KeysOpenAlike(x, db', Put(db', w, name, v));
  }

  lemma {:induction false} ClearedOnly(later: Db, db: Db, w: string)
    requires OnlyVarsOf(w, later, db.(vars := db.vars - {w}))
    ensures OnlyVarsOf(w, later, db)
  {
    var cleared := db.(vars := db.vars - {w});
    assert forall u :: u != w ==> VarsOf(cleared, u) == VarsOf(db, u);
  }

  lemma {:induction false} SetOneStands(
    x: Secrets, db: Db, w: string, tenant: string, input: Input, d: Draw, now: map<string, string>)
    requires Lawful(x.c) && KeysOpen(x, db) && Proper(d) && Stands(x, db, tenant, VarsOf(db, w), now)
    ensures var (next, ok) := SetOne(x, db, w, tenant, input, d);
      && KeysOpen(x, next) && OnlyVarsOf(w, next, db)
      && ok == !Refused(ValidKey(x.kek), now, input)
      && Stands(x, next, tenant, VarsOf(next, w), if ok then now[input.name := input.value] else now)
  {
    StoredStandsFor(x, db, tenant, input, d);
    var (db', value) := StoredAs(x, db, tenant, input, d);
    StandsKept(x, db, db', tenant, VarsOf(db, w), now);
    if value.Some? && input.name !in now {
      var v := Var(value.value, input.secret);
      PutStands(x, db', w, tenant, input.name, v, now, input.value);
      PutOnly(x, db', db, w, input.name, v);
    }
  }

  lemma {:induction false} SetVarsStands(
    x: Secrets, db: Db, w: string, tenant: string, inputs: seq<Input>, draws: seq<Draw>, now: map<string, string>)
    requires Lawful(x.c) && KeysOpen(x, db) && |draws| == |inputs| && forall d :: d in draws ==> Proper(d)
    requires Stands(x, db, tenant, VarsOf(db, w), now)
    ensures var after := SetVars(x, db, w, tenant, inputs, draws).0;
      && KeysOpen(x, after) && OnlyVarsOf(w, after, db)
      && Stands(x, after, tenant, VarsOf(after, w), SetMeant(ValidKey(x.kek), now, inputs))
    decreases |inputs|
  {
    if inputs == [] {
    } else {
      var (next, ok) := SetOne(x, db, w, tenant, inputs[0], draws[0]);
      SetOneStands(x, db, w, tenant, inputs[0], draws[0], now);
      if ok {
        SetVarsStands(x, next, w, tenant, inputs[1..], draws[1..], now[inputs[0].name := inputs[0].value]);
        OnlyVarsTwice(w, SetVars(x, next, w, tenant, inputs[1..], draws[1..]).0, next, db);
      }
    }
  }

  lemma {:induction false} OnlyVarsTwice(w: string, last: Db, mid: Db, first: Db)
    requires OnlyVarsOf(w, last, mid) && OnlyVarsOf(w, mid, first)
    ensures OnlyVarsOf(w, last, first)
  {
  }

  lemma {:induction false} KeysOpenAlike(x: Secrets, db: Db, db': Db)
    requires KeysOpen(x, db) && db'.keys == db.keys
    ensures KeysOpen(x, db')
  {
    forall t | t in db'.keys ensures Dek(x, db', t).Some? && |Dek(x, db', t).value| == 32 {
      assert Dek(x, db', t) == Dek(x, db, t);
    }
  }

  /** Changing the variables of one webroot, with keys only added, disturbs nothing else. */
  lemma {:induction false} AllStandAfter(
    x: Secrets, db: Db, later: Db, w: string, meant: map<string, map<string, string>>, now: map<string, string>)
    requires AllStand(x, db, meant) && OnlyVarsOf(w, later, db) && w in db.webroots
    requires Stands(x, later, later.webroots[w], VarsOf(later, w), now)
    ensures AllStand(x, later, meant[w := now])
  {
    forall u | u in later.webroots
      ensures Stands(x, later, later.webroots[u], VarsOf(later, u), MeantOf(meant[w := now], u))
    {
      if u != w { StandsKept(x, db, later, db.webroots[u], VarsOf(db, u), MeantOf(meant, u)); }
    }
    forall u | u in later.vars && u !in later.webroots ensures later.vars[u] == map[] {
      assert VarsOf(later, u) == VarsOf(db, u);
    }
  }

  lemma {:induction false} BulkSetStands(x: Secrets, db: Db, w: string, inputs: seq<Input>, draws: seq<Draw>)
    requires Lawful(x.c) && KeysOpen(x, db) && w in db.webroots
    requires |draws| == |inputs| && forall d :: d in draws ==> Proper(d)
    ensures var later := BulkSet(x, db, w, inputs, draws).0;
      && KeysOpen(x, later) && OnlyVarsOf(w, later, db)
      && Stands(x, later, db.webroots[w], VarsOf(later, w), SetMeant(ValidKey(x.kek), map[], inputs))
  {
    var cleared := db.(vars := db.vars - {w});
    KeysOpenAlike(x, db, cleared);
    SetVarsStands(x, cleared, w, db.webroots[w], inputs, draws, map[]);
    ClearedOnly(BulkSet(x, db, w, inputs, draws).0, db, w);
  }

  // Success and failure, in terms of the inputs and the stored columns alone.

  /** The first `k` inputs can all be stored: no name twice, and nothing to seal without a master key. */
  predicate Acceptable(x: Secrets, inputs: seq<Input>, k: nat)
    requires k <= |inputs|
  {
    && (forall i, j :: 0 <= i < j < k ==> inputs[i].name != inputs[j].name)
    && (forall i :: 0 <= i < k ==> inputs[i].secret ==> ValidKey(x.kek))
  }

  /** The tenant's data key, 32 bytes, is stored under the master key. */
  predicate HasKey(x: Secrets, db: Db, tenant: string) {
    tenant in db.keys && x.c.open(db.keys[tenant], x.kek).Some? && |x.c.open(db.keys[tenant], x.kek).value| == 32
  }

  /** A row holds an input: in clear, or sealed with the tenant's data key and the nonce drawn for it. */
  predicate Holds(x: Secrets, db: Db, tenant: string, v: Var, input: Input, d: Draw) {
    && v.secret == input.secret
    && if input.secret then
         HasKey(x, db, tenant)
         && x.c.seal(input.value, x.c.open(db.keys[tenant], x.kek).value, d.nonce) == Some(v.value)
       else v.value == input.value
  }

  /** The webroot has a row for each of the first `k` inputs, and no other. */
  ghost predicate HoldsExactly(x: Secrets, db: Db, w: string, tenant: string, inputs: seq<Input>, draws: seq<Draw>, k: nat)
    requires k <= |inputs| == |draws|
  {
    && (forall i :: 0 <= i < k ==>
          inputs[i].name in VarsOf(db, w) && Holds(x, db, tenant, VarsOf(db, w)[inputs[i].name], inputs[i], draws[i]))
    && (forall n :: n in VarsOf(db, w) ==> exists i :: 0 <= i < k && inputs[i].name == n)
  }

  /** It has the inputs before the first that cannot be stored, or all of them. */
  ghost predicate StoredUpTo(x: Secrets, db: Db, w: string, tenant: string, inputs: seq<Input>, draws: seq<Draw>, n: nat)
    requires |inputs| == |draws|
  {
    && n <= |inputs| && Acceptable(x, inputs, n) && (n < |inputs| ==> !Acceptable(x, inputs, n + 1))
    && HoldsExactly(x, db, w, tenant, inputs, draws, n)
  }

  /** A data key is reused, or made from the draw and stored wrapped; without a valid master key there is none. */
  lemma {:induction false} KeyMadeLaw(x: Secrets, db: Db, tenant: string, d: Draw)
    requires Lawful(x.c) && KeysOpen(x, db) && Proper(d)
    ensures var (db', dek) := KeyMade(x, db, tenant, d);
      && (dek.Some? <==> ValidKey(x.kek)) && db'.vars == db.vars && db'.webroots == db.webroots
      && (dek.None? ==> db' == db)
      && (dek.Some? ==> HasKey(x, db', tenant) && x.c.open(db'.keys[tenant], x.kek) == dek)
      && (tenant in db.keys ==> db' == db)
      && (tenant !in db.keys && ValidKey(x.kek) ==> dek == Some(d.dek))
      && (forall t :: t != tenant ==> (t in db'.keys <==> t in db.keys) && (t in db.keys ==> db'.keys[t] == db.keys[t]))
  {
    KeyMadeIsSound(x, db, tenant, d);
    if tenant in db.keys { assert Dek(x, db, tenant).Some?; }
  }

  lemma {:induction false} StoredHolds(x: Secrets, db: Db, tenant: string, input: Input, d: Draw)
    requires Lawful(x.c) && KeysOpen(x, db) && Proper(d)
    ensures var (db', value) := StoredAs(x, db, tenant, input, d);
      && (value.Some? <==> (input.secret ==> ValidKey(x.kek)))
      && (value.Some? ==> Holds(x, db', tenant, Var(value.value, input.secret), input, d))
  {
    if input.secret { KeyMadeLaw(x, db, tenant, d); }
  }

  lemma {:induction false} HoldsStill(
    x: Secrets, db: Db, later: Db, w: string, tenant: string, inputs: seq<Input>, draws: seq<Draw>, k: nat)
    requires k <= |inputs| == |draws| && HoldsExactly(x, db, w, tenant, inputs, draws, k)
    requires Extends(later, db) && later.vars == db.vars
    ensures HoldsExactly(x, later, w, tenant, inputs, draws, k)
  {
    assert VarsOf(later, w) == VarsOf(db, w);
    forall i | 0 <= i < k
      ensures inputs[i].name in VarsOf(later, w)
      ensures Holds(x, later, tenant, VarsOf(later, w)[inputs[i].name], inputs[i], draws[i])
    {
      assert Holds(x, db, tenant, VarsOf(db, w)[inputs[i].name], inputs[i], draws[i]);
    }
  }

  lemma {:induction false} PutHolds(
    x: Secrets, db: Db, w: string, tenant: string, v: Var, inputs: seq<Input>, draws: seq<Draw>, k: nat)
    requires k < |inputs| == |draws| && HoldsExactly(x, db, w, tenant, inputs, draws, k)
    requires inputs[k].name !in VarsOf(db, w) && Holds(x, db, tenant, v, inputs[k], draws[k])
    ensures HoldsExactly(x, Put(db, w, inputs[k].name, v), w, tenant, inputs, draws, k + 1)
  {
    var later := Put(db, w, inputs[k].name, v);
    forall i | 0 <= i < k + 1
      ensures inputs[i].name in VarsOf(later, w)
      ensures Holds(x, later, tenant, VarsOf(later, w)[inputs[i].name], inputs[i], draws[i])
    {
      if i < k { assert Holds(x, db, tenant, VarsOf(db, w)[inputs[i].name], inputs[i], draws[i]); }
    }
    forall n | n in VarsOf(later, w) ensures exists i :: 0 <= i < k + 1 && inputs[i].name == n {
      if n != inputs[k].name {
        var i :| 0 <= i < k && inputs[i].name == n;
      }
    }
  }

  lemma {:induction false} AcceptableNext(
    x: Secrets, db: Db, w: string, tenant: string, inputs: seq<Input>, draws: seq<Draw>, k: nat)
    requires k < |inputs| == |draws| && Acceptable(x, inputs, k) && HoldsExactly(x, db, w, tenant, inputs, draws, k)
    ensures Acceptable(x, inputs, k + 1)
       <==> inputs[k].name !in VarsOf(db, w) && (inputs[k].secret ==> ValidKey(x.kek))
  {
    if inputs[k].name in VarsOf(db, w) {
      var i :| 0 <= i < k && inputs[i].name == inputs[k].name;
      assert !Acceptable(x, inputs, k + 1);
    }
  }

  lemma {:induction false} SetOneHolds(
    x: Secrets, db: Db, w: string, tenant: string, inputs: seq<Input>, draws: seq<Draw>, k: nat)
    requires Lawful(x.c) && KeysOpen(x, db) && k < |inputs| == |draws| && Proper(draws[k])
    requires Acceptable(x, inputs, k) && HoldsExactly(x, db, w, tenant, inputs, draws, k)
    ensures var (next, ok) := SetOne(x, db, w, tenant, inputs[k], draws[k]);
      && KeysOpen(x, next) && (ok <==> Acceptable(x, inputs, k + 1))
      && HoldsExactly(x, next, w, tenant, inputs, draws, if ok then k + 1 else k)
  {
    var (db', value) := StoredAs(x, db, tenant, inputs[k], draws[k]);
    StoredStandsFor(x, db, tenant, inputs[k], draws[k]);
    StoredHolds(x, db, tenant, inputs[k], draws[k]);
    HoldsStill(x, db, db', w, tenant, inputs, draws, k);
    AcceptableNext(x, db, w, tenant, inputs, draws, k);
    if value.Some? && inputs[k].name !in VarsOf(db', w) {
      var v := Var(value.value, inputs[k].secret);
      PutHolds(x, db', w, tenant, v, inputs, draws, k);
      PutOnly(x, db', db, w, inputs[k].name, v);
    }
  }

  lemma {:induction false} SetVarsHolds(
    x: Secrets, db: Db, w: string, tenant: string, inputs: seq<Input>, draws: seq<Draw>, k: nat) returns (n: nat)
    requires Lawful(x.c) && KeysOpen(x, db) && k <= |inputs| == |draws| && forall d :: d in draws ==> Proper(d)
    requires Acceptable(x, inputs, k) && HoldsExactly(x, db, w, tenant, inputs, draws, k)
    ensures k <= n <= |inputs| && Acceptable(x, inputs, n) && (n < |inputs| ==> !Acceptable(x, inputs, n + 1))
    ensures var (later, ok) := SetVars(x, db, w, tenant, inputs[k..], draws[k..]);
      (ok <==> n == |inputs|) && HoldsExactly(x, later, w, tenant, inputs, draws, n)
    decreases |inputs| - k
  {
    n := k;
    if k < |inputs| {
      SetOneHolds(x, db, w, tenant, inputs, draws, k);
      assert inputs[k..][1..] == inputs[k + 1..] && draws[k..][1..] == draws[k + 1..];
      var (next, ok) := SetOne(x, db, w, tenant, inputs[k], draws[k]);
      if ok { n := SetVarsHolds(x, next, w, tenant, inputs, draws, k + 1); }
    }
  }

  lemma {:induction false} AcceptableBelow(x: Secrets, inputs: seq<Input>, k: nat, n: nat)
    requires k <= n <= |inputs| && Acceptable(x, inputs, n)
    ensures Acceptable(x, inputs, k)
  {
  }

  /**
   `BulkSet` succeeds if and only if the webroot exists, no name is given twice, and there is a valid master
   key or nothing to seal. The old variables of the webroot are gone either way; it then has exactly the
   inputs, or, after a failure, those before the first that could not be stored.
   */
  lemma {:induction false} BulkSetLaw(x: Secrets, db: Db, w: string, inputs: seq<Input>, draws: seq<Draw>)
    requires Lawful(x.c) && KeysOpen(x, db) && |draws| == |inputs| && forall d :: d in draws ==> Proper(d)
    ensures var (later, ok) := BulkSet(x, db, w, inputs, draws);
      && (ok <==> w in db.webroots && Acceptable(x, inputs, |inputs|))
      && (w !in db.webroots ==> later == db)
      && (w in db.webroots ==> exists n :: StoredUpTo(x, later, w, db.webroots[w], inputs, draws, n))
      && (ok ==> HoldsExactly(x, later, w, db.webroots[w], inputs, draws, |inputs|))
  {
    if w in db.webroots {
      var cleared := db.(vars := db.vars - {w});
      KeysOpenAlike(x, db, cleared);
      var n := SetVarsHolds(x, cleared, w, db.webroots[w], inputs, draws, 0);
      assert inputs[0..] == inputs && draws[0..] == draws;
      if n < |inputs| && Acceptable(x, inputs, |inputs|) { AcceptableBelow(x, inputs, n + 1, |inputs|); }
      assert StoredUpTo(x, BulkSet(x, db, w, inputs, draws).0, w, db.webroots[w], inputs, draws, n);
    }
  }

  /** `DeleteByName` succeeds if and only if there is such a variable, and takes away that one alone. */
  lemma {:induction false} DeleteByNameLaw(db: Db, w: string, name: string, u: string, n: string)
    ensures var (later, ok) := DeleteByName(db, w, name);
      && (ok <==> w in db.vars && name in db.vars[w])
      && later.keys == db.keys && later.webroots == db.webroots
      && (u in later.vars && n in later.vars[u] <==> u in db.vars && n in db.vars[u] && (u, n) != (w, name))
      && (u in later.vars && n in later.vars[u] ==> later.vars[u][n] == db.vars[u][n])
  {
  }

  /** A token is issued if and only if the webroot exists and there is a valid master key; it is its prefix and a sealed text. */
  lemma {:induction false} VaultEncryptLaw(x: Secrets, db: Db, w: string, plain: string, d: Draw)
    requires Lawful(x.c) && KeysOpen(x, db) && Proper(d)
    ensures var (later, token) := VaultEncrypt(x, db, w, plain, d);
      && (token.Some? <==> w in db.webroots && ValidKey(x.kek))
      && later.vars == db.vars && later.webroots == db.webroots
      && (token.Some? ==>
            && HasKey(x, later, db.webroots[w])
            && x.c.seal(plain, x.c.open(later.keys[db.webroots[w]], x.kek).value, d.nonce).Some?
            && token.value == "vault:v1:" + x.c.seal(plain, x.c.open(later.keys[db.webroots[w]], x.kek).value, d.nonce).value)
  {
    if w in db.webroots { KeyMadeLaw(x, db, db.webroots[w], d); }
  }

  /** Opening a token takes the text after the prefix and the data key of the webroot's tenant. */
  lemma {:induction false} VaultDecryptLaw(x: Secrets, db: Db, w: string, blob: string)
    ensures VaultDecrypt(x, db, w, "vault:v1:" + blob)
         == if w in db.webroots && db.webroots[w] in db.keys && x.c.open(db.keys[db.webroots[w]], x.kek).Some?
            then x.c.open(blob, x.c.open(db.keys[db.webroots[w]], x.kek).value) else None
  {
    assert ("vault:v1:" + blob)[9..] == blob;
  }

  lemma {:induction false} SetKeepsSound(x: Secrets, s: World, op: Op)
    requires Lawful(x.c) && Sound(x, s) && op.Set? && Sensible(op) && op.w in s.db.webroots
    ensures Sound(x, Apply(x, s, op)) && Extends(Apply(x, s, op).db, s.db)
  {
    BulkSetStands(x, s.db, op.w, op.inputs, op.draws);
    var later := BulkSet(x, s.db, op.w, op.inputs, op.draws).0;
    AllStandAfter(x, s.db, later, op.w, s.meant, SetMeant(ValidKey(x.kek), map[], op.inputs));
    TokensKept(x, s.db, later, s.issued);
  }

  lemma {:induction false} DeleteStands(x: Secrets, db: Db, w: string, name: string, meant: map<string, string>)
    requires w in db.webroots && Stands(x, db, db.webroots[w], VarsOf(db, w), meant)
    ensures var later := DeleteByName(db, w, name).0;
      Stands(x, later, db.webroots[w], VarsOf(later, w), meant - {name})
  {
    var later := DeleteByName(db, w, name).0;
    assert VarsOf(later, w) == VarsOf(db, w) - {name};
    forall n | n in VarsOf(later, w) ensures Plain(x, later, db.webroots[w], VarsOf(later, w)[n]) == Some((meant - {name})[n]) {
      PlainKept(x, db, later, db.webroots[w], VarsOf(db, w)[n]);
    }
  }

  lemma {:induction false} DeleteKeepsSound(x: Secrets, s: World, op: Op)
    requires Sound(x, s) && op.Delete?
    ensures Sound(x, Apply(x, s, op)) && Extends(Apply(x, s, op).db, s.db)
  {
    var later := Apply(x, s, op).db;
    KeysOpenAlike(x, s.db, later);
    TokensKept(x, s.db, later, s.issued);
    if op.w in s.db.webroots {
      DeleteStands(x, s.db, op.w, op.name, MeantOf(s.meant, op.w));
      AllStandAfter(x, s.db, later, op.w, s.meant, MeantOf(s.meant, op.w) - {op.name});
    } else {
      assert later == s.db && MeantOf(s.meant, op.w) - {op.name} == map[];
      AllStandAlike(x, s.db, s.meant, Apply(x, s, op).meant);
    }
  }

  lemma {:induction false} AllStandAlike(
    x: Secrets, db: Db, meant: map<string, map<string, string>>, meant': map<string, map<string, string>>)
    requires AllStand(x, db, meant) && forall w :: MeantOf(meant, w) == MeantOf(meant', w)
    ensures AllStand(x, db, meant')
  {
  }

  lemma {:induction false} IssueKeepsSound(x: Secrets, s: World, op: Op)
    requires Lawful(x.c) && Sound(x, s) && op.Issue? && Sensible(op)
    ensures Sound(x, Apply(x, s, op)) && Extends(Apply(x, s, op).db, s.db)
  {
    if op.w in s.db.webroots {
      SealedOpens(x, s.db, s.db.webroots[op.w], op.plain, op.draw);
      var (later, token) := VaultEncrypt(x, s.db, op.w, op.plain, op.draw);
      TokensKept(x, s.db, later, s.issued);
      if token.Some? { TokenIsFresh(x, s.db, op, token.value); }
      forall u | u in later.webroots ensures Stands(x, later, later.webroots[u], VarsOf(later, u), MeantOf(s.meant, u)) {
        StandsKept(x, s.db, later, s.db.webroots[u], VarsOf(s.db, u), MeantOf(s.meant, u));
      }
    }
  }

  lemma {:induction false} TokenIsFresh(x: Secrets, db: Db, op: Op, token: string)
    requires Lawful(x.c) && KeysOpen(x, db) && op.Issue? && Proper(op.draw)
    requires VaultEncrypt(x, db, op.w, op.plain, op.draw).1 == Some(token)
    ensures TokenOpens(x, VaultEncrypt(x, db, op.w, op.plain, op.draw).0, Issued(op.w, op.plain, token))
  {
    SealedOpens(x, db, db.webroots[op.w], op.plain, op.draw);
    var (db', blob) := Sealed(x, db, db.webroots[op.w], op.plain, op.draw);
    assert token == PREFIX + blob.value && token[|PREFIX|..] == blob.value;
  }

  lemma {:induction false} AddKeepsSound(x: Secrets, s: World, op: Op)
    requires Sound(x, s) && op.AddWebroot? && op.w !in s.db.webroots
    ensures Sound(x, Apply(x, s, op)) && Extends(Apply(x, s, op).db, s.db)
  {
    var later := Apply(x, s, op).db;
    KeysOpenAlike(x, s.db, later);
    TokensKept(x, s.db, later, s.issued);
    forall u | u in later.webroots ensures Stands(x, later, later.webroots[u], VarsOf(later, u), MeantOf(s.meant, u)) {
      if u != op.w { StandsKept(x, s.db, later, s.db.webroots[u], VarsOf(s.db, u), MeantOf(s.meant, u)); }
    }
  }

  lemma {:induction false} ApplyKeepsSound(x: Secrets, s: World, op: Op)
    requires Lawful(x.c) && Sound(x, s) && Sensible(op)
    ensures Sound(x, Apply(x, s, op)) && Extends(Apply(x, s, op).db, s.db)
  {
    match op {
      case AddWebroot(w, _) => if w !in s.db.webroots { AddKeepsSound(x, s, op); }
      case Set(w, _, _) => if w in s.db.webroots { SetKeepsSound(x, s, op); }
      case Delete(_, _) => DeleteKeepsSound(x, s, op);
      case Issue(_, _, _) => IssueKeepsSound(x, s, op);
    }
  }

  /**
   Over every serial run: a data key once stored never changes; every vault token ever issued still opens
   to its plaintext; and every stored variable stands for exactly what was last set, whatever failed on
   the way.
   */
  lemma {:induction false} RunsAreSound(x: Secrets, s: World, ops: seq<Op>)
    requires Lawful(x.c) && Sound(x, s) && forall op :: op in ops ==> Sensible(op)
    ensures Sound(x, Run(x, s, ops)) && Extends(Run(x, s, ops).db, s.db)
    decreases |ops|
  {
    if ops == [] {
    } else {
      var next := Apply(x, s, ops[0]);
      ApplyKeepsSound(x, s, ops[0]);
      RunsAreSound(x, next, ops[1..]);
    }
  }

  lemma {:induction false} EmptyIsSound(x: Secrets, webroots: map<string, string>)
    ensures Sound(x, World(Db(webroots, map[], map[]), [], map[]))
  {
  }
}
