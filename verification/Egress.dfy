/**
 Per-tenant egress filtering (internal/agent/tenant_ula.go:350-439): a whitelist chain for each tenant user
 in an nftables table, reached by a jump rule in the output chain. The manager finds out whether the jump is
 there by searching the printed output chain for its text.
 */
module Egress {
  import opened Text
  import Ipv6

  // Printed numbers.

  function Digit(d: nat): char
    requires d < 10
  {
    '0' + d as char
  }

  function Digits(n: nat): (s: string)
    ensures s != ""
  {
    if n < 10 then [Digit(n)] else Digits(n / 10) + [Digit(n % 10)]
  }

  predicate IsDigits(s: string) {
    forall i :: 0 <= i < |s| ==> '0' <= s[i] <= '9'
  }

  lemma {:induction false} DigitsAreDigits(n: nat)
    ensures IsDigits(Digits(n))
  {
    if n >= 10 { DigitsAreDigits(n / 10); }
  }

  lemma {:induction false} DigitsReadBack(n: nat)
    ensures Ipv6.Decimal(Digits(n)) == Some(n)
  {
    var s := Digits(n);
    if n < 10 {
      assert s[..0] == "";
    } else {
      DigitsReadBack(n / 10);
      assert s[..|s| - 1] == Digits(n / 10);
    }
  }

  lemma {:induction false} DigitsInjective(m: nat, n: nat)
    requires Digits(m) == Digits(n)
    ensures m == n
  {
    DigitsReadBack(m);
    DigitsReadBack(n);
  }

  // nftables, as far as it is used.

  datatype Rule = Accept(v6: bool, cidr: string) | Reject

  /** What nft takes for an address match, and what such a match matches. */
  datatype Net = Net(accepts: (bool, string) -> bool, covers: (bool, string, string) -> bool)

  /** The tenants' chains by name, and the user ids of the jump rules of the output chain in order. */
  datatype Nft = Nft(chains: map<string, seq<Rule>>, jumps: seq<nat>)

  function ChainName(uid: nat): string { "tenant_" + Digits(uid) }

  lemma {:induction false} ChainNameInjective(m: nat, n: nat)
    requires ChainName(m) == ChainName(n)
    ensures m == n
  {
    assert ChainName(m)[7..] == Digits(m) && ChainName(n)[7..] == Digits(n);
    DigitsInjective(m, n);
  }

  function Chain(nft: Nft, uid: nat): seq<Rule> {
    if ChainName(uid) in nft.chains then nft.chains[ChainName(uid)] else []
  }

  datatype Verdict = Pass | Drop | Return

  /** A chain is left at the first rule that matches. */
  function ChainVerdict(net: Net, rules: seq<Rule>, dest: string): Verdict {
    if rules == [] then Return
    else match rules[0]
      case Reject => Drop
      case Accept(v6, cidr) => if net.covers(v6, cidr, dest) then Pass else ChainVerdict(net, rules[1..], dest)
  }

  /** The output chain: the jumps for the packet's user in order, then policy accept. */
  function Passes(net: Net, nft: Nft, uid: nat, dest: string, from: nat): bool
    requires from <= |nft.jumps|
    decreases |nft.jumps| - from
  {
    if from == |nft.jumps| then true
    else if nft.jumps[from] != uid then Passes(net, nft, uid, dest, from + 1)
    else match ChainVerdict(net, Chain(nft, uid), dest)
      case Pass => true
      case Drop => false
      case Return => Passes(net, nft, uid, dest, from + 1)
  }

  /** A packet of the user to the destination goes out. */
  predicate Allowed(net: Net, nft: Nft, uid: nat, dest: string) { Passes(net, nft, uid, dest, 0) }

  // The printed output chain.

  const HEAD := "table inet tenant_egress {" + "\n\tchain output {\n"
  const HOOK := "\t\ttype filter hook output " + "priority filter + 1; " + "policy accept;\n"
  const TAIL := "\t}\n}\n"

  function JumpText(uid: nat): string { "jump " + ChainName(uid) }

  function Lines(jumps: seq<nat>): string {
    if jumps == [] then TAIL
    else ("\t\tmeta skuid " + Digits(jumps[0]) + " ") + (JumpText(jumps[0]) + ("\n" + Lines(jumps[1..])))
  }

  function Listing(nft: Nft): string { HEAD + (HOOK + Lines(nft.jumps)) }

  /** Text in which no occurrence can start does not matter for the search. */
  lemma {:induction false} SearchSkips(a: string, s: string, pat: string)
    requires pat != "" && pat[0] !in a
    ensures Contains(a + s, pat) <==> Contains(s, pat)
  {
    if Contains(a + s, pat) {
      var at :| 0 <= at <= |a + s| && OccursAt(a + s, pat, at);
      assert (a + s)[at] == (a + s)[at..at + |pat|][0];
      assert at >= |a|;
      assert s[at - |a|..at - |a| + |pat|] == (a + s)[at..at + |pat|];
      assert OccursAt(s, pat, at - |a|);
    }
    if Contains(s, pat) {
      var at :| 0 <= at <= |s| && OccursAt(s, pat, at);
      assert (a + s)[at + |a|..at + |a| + |pat|] == s[at..at + |pat|];
      assert OccursAt(a + s, pat, at + |a|);
    }
  }

  /** An occurrence starts here or further on. */
  lemma {:induction false} SearchFirst(s: string, pat: string)
    requires s != ""
    ensures Contains(s, pat) <==> pat <= s || Contains(s[1..], pat)
  {
    if Contains(s, pat) {
      var at :| 0 <= at <= |s| && OccursAt(s, pat, at);
      if at > 0 {
        assert s[1..][at - 1..at - 1 + |pat|] == s[at..at + |pat|];
        assert OccursAt(s[1..], pat, at - 1);
      }
    }
    if pat <= s { assert OccursAt(s, pat, 0); }
    if Contains(s[1..], pat) {
      var at :| 0 <= at <= |s[1..]| && OccursAt(s[1..], pat, at);
      assert s[at + 1..at + 1 + |pat|] == s[1..][at..at + |pat|];
      assert OccursAt(s, pat, at + 1);
    }
  }

  /** Digits that start a text of digits and a line end start the digits. */
  lemma {:induction false} DigitsPrefix(d: string, e: string, rest: string)
    requires IsDigits(d)
    ensures d <= e + ("\n" + rest) <==> d <= e
  {
    var s := e + ("\n" + rest);
    assert s[|e|] == '\n';
    assert d <= s ==> |d| <= |e|;
  }

  lemma {:induction false} CommonStart(p: string, d: string, s: string)
    ensures p + d <= p + s <==> d <= s
  {
    if p + d <= p + s {
      assert (p + s)[..|p + d|] == p + d;
      assert forall i :: 0 <= i < |d| ==> d[i] == (p + d)[|p| + i] == (p + s)[|p| + i] == s[i];
    }
  }

  const JUMP := "jump tenant_"

  lemma {:induction false} JumpTextSplit(u: nat)
    ensures JumpText(u) == JUMP + Digits(u)
  {
  }

  lemma {:induction false} AfterJ(u: nat, rest: string) returns (skip: string)
    ensures (JUMP + (Digits(u) + ("\n" + rest)))[1..] == skip + rest && 'j' !in skip
  {
    var ump := JUMP[1..];
    assert 'j' !in ump;
    DigitsAreDigits(u);
    skip := ump + (Digits(u) + "\n");
  }

  /** The search at a jump: it stops there exactly when the sought user id is a prefix of the one there. */
  lemma {:induction false} SearchAtJump(uid: nat, u: nat, rest: string)
    ensures Contains(JumpText(u) + ("\n" + rest), JumpText(uid))
      <==> Digits(uid) <= Digits(u) || Contains(rest, JumpText(uid))
  {
    JumpTextSplit(u);
    JumpTextSplit(uid);
    var tail := Digits(u) + ("\n" + rest);
    assert JumpText(u) + ("\n" + rest) == JUMP + tail;
    CommonStart(JUMP, Digits(uid), tail);
    DigitsAreDigits(uid);
    DigitsPrefix(Digits(uid), Digits(u), rest);
    SearchFirst(JUMP + tail, JumpText(uid));
    var skip := AfterJ(u, rest);
    SearchSkips(skip, rest, JumpText(uid));
  }

  /** The user id of some jump starts with the digits of `uid`. */
  predicate Shadowed(jumps: seq<nat>, uid: nat) {
    exists u :: u in jumps && Digits(uid) <= Digits(u)
  }

  lemma {:induction false} LinesContain(jumps: seq<nat>, uid: nat)
    ensures Contains(Lines(jumps), JumpText(uid)) <==> Shadowed(jumps, uid)
  {
    var pat := JumpText(uid);
    assert pat[0] == 'j';
    if jumps == [] {
      SearchSkips(TAIL, "", pat);
      assert TAIL + "" == TAIL;
      assert !Contains("", pat);
    } else {
      LinesContain(jumps[1..], uid);
      var before := "\t\tmeta skuid " + Digits(jumps[0]) + " ";
      DigitsAreDigits(jumps[0]);
      assert 'j' !in before;
      SearchSkips(before, JumpText(jumps[0]) + ("\n" + Lines(jumps[1..])), pat);
      SearchAtJump(uid, jumps[0], Lines(jumps[1..]));
      assert jumps == [jumps[0]] + jumps[1..];
    }
  }

  /** The test for the jump rule succeeds exactly when some jump's user id starts with the sought digits. */
  lemma {:induction false} ListingContains(nft: Nft, uid: nat)
    ensures Contains(Listing(nft), JumpText(uid)) <==> Shadowed(nft.jumps, uid)
  {
    assert JumpText(uid)[0] == 'j';
    HeadHasNoJ();
    HookHasNoJ();
    SearchSkips(HEAD, HOOK + Lines(nft.jumps), JumpText(uid));
    SearchSkips(HOOK, Lines(nft.jumps), JumpText(uid));
    LinesContain(nft.jumps, uid);
  }

  lemma {:induction false} HeadHasNoJ()
    ensures 'j' !in HEAD
  {
    assert 'j' !in "table inet tenant_egress {";
  }

  lemma {:induction false} HookHasNoJ()
    ensures 'j' !in HOOK
  {
    assert 'j' !in "\t\ttype filter hook output ";
    assert 'j' !in "priority filter + 1; ";
  }

  // One sync.

  /** The test that chooses between the two address families. */
  predicate V6(cidr: string) { Contains(cidr, ":") }

  lemma {:induction false} V6Iff(cidr: string)
    ensures V6(cidr) <==> ':' in cidr
  {
    if V6(cidr) {
      var at :| 0 <= at <= |cidr| && OccursAt(cidr, ":", at);
      assert cidr[at] == cidr[at..at + 1][0];
    }
    if ':' in cidr {
      var at :| 0 <= at < |cidr| && cidr[at] == ':';
      assert cidr[at..at + 1] == ":";
      assert OccursAt(cidr, ":", at);
    }
  }

  function AcceptRules(cidrs: seq<string>): seq<Rule> {
    if cidrs == [] then []
    else AcceptRules(cidrs[..|cidrs| - 1]) + [Accept(V6(cidrs[|cidrs| - 1]), cidrs[|cidrs| - 1])]
  }

  function Whitelist(cidrs: seq<string>): seq<Rule> { AcceptRules(cidrs) + [Reject] }

  /** nft takes every rule of the script; otherwise it takes none of them. */
  predicate Valid(net: Net, cidrs: seq<string>) {
    forall c :: c in cidrs ==> net.accepts(':' in c, c)
  }

  /** `removeEgressChain`: the chain is emptied; it goes unless the output chain still jumps to it. */
  function Removed(nft: Nft, uid: nat): Nft {
    if ChainName(uid) !in nft.chains then nft
    else if uid in nft.jumps then nft.(chains := nft.chains[ChainName(uid) := []])
    else nft.(chains := nft.chains - {ChainName(uid)})
  }

  /** `SyncEgressRules` */
  function Synced(net: Net, nft: Nft, uid: nat, cidrs: seq<string>): (Nft, bool) {
    if cidrs == [] then (Removed(nft, uid), true)
    else if !Valid(net, cidrs) then (nft.(chains := nft.chains[ChainName(uid) := []]), false)
    else
      (Nft(nft.chains[ChainName(uid) := Whitelist(cidrs)],
           if Contains(Listing(nft), JumpText(uid)) then nft.jumps else nft.jumps + [uid]), true)
  }

  /** The manager, one nft command at a time. */
  class TenantULAManager {
    const net: Net
    var chains: map<string, seq<Rule>>
    var jumps: seq<nat>

    constructor (net: Net)
      ensures State() == Nft(map[], [])
    {
      this.net, chains, jumps := net, map[], [];
    }

    function State(): Nft
      reads this
    {
      Nft(chains, jumps)
    }

    method AddChain(name: string)
      modifies `chains
      ensures chains == if name in old(chains) then old(chains) else old(chains)[name := []]
    {
      if name !in chains { chains := chains[name := []]; }
    }

    /** Fails, without effect, when there is no such chain. */
    method FlushChain(name: string) returns (ok: bool)
      modifies `chains
      ensures ok == (name in old(chains)) && chains == if ok then old(chains)[name := []] else old(chains)
    {
      ok := name in chains;
      if ok { chains := chains[name := []]; }
    }

    /** Fails when there is no such chain or a jump refers to it. */
    method DeleteChain(uid: nat)
      modifies `chains
      ensures chains == if uid in jumps then old(chains) else old(chains) - {ChainName(uid)}
    {
      if uid !in jumps { chains := chains - {ChainName(uid)}; }
    }

    /** Runs a script that adds rules to one chain: all of it or nothing. */
    method AddRules(name: string, rules: seq<Rule>) returns (ok: bool)
      requires name in chains
      modifies `chains
      ensures ok == forall r :: r in rules && r.Accept? ==> net.accepts(r.v6, r.cidr)
      ensures chains == if ok then old(chains)[name := old(chains)[name] + rules] else old(chains)
    {
      ok := forall r :: r in rules && r.Accept? ==> net.accepts(r.v6, r.cidr);
      if ok { chains := chains[name := chains[name] + rules]; }
    }

    method RemoveEgressChain(uid: nat)
      modifies `chains
      ensures State() == Removed(old(State()), uid)
    {
      var flushed := FlushChain(ChainName(uid));
      DeleteChain(uid);
      assert ChainName(uid) !in old(chains) ==> old(chains) - {ChainName(uid)} == old(chains);
      assert old(chains)[ChainName(uid) := []] - {ChainName(uid)} == old(chains) - {ChainName(uid)};
    }

    method SyncEgressRules(uid: nat, cidrs: seq<string>) returns (ok: bool)
      modifies this
      ensures (State(), ok) == Synced(net, old(State()), uid, cidrs)
    {
      var name := ChainName(uid);
      if cidrs == [] {
        RemoveEgressChain(uid);
        return true;
      }
      AddChain(name);
      var flushed := FlushChain(name);
      assert chains == old(chains)[name := []];
      var script := BuildScript(cidrs);
      ScriptTakenIffValid(net, cidrs);
      ok := AddRules(name, script);
      assert [] + script == script;
      if !ok { return; }
      assert chains == old(chains)[name := Whitelist(cidrs)];
      if !Contains(Listing(State()), JumpText(uid)) {
        jumps := jumps + [uid];
      }
    }

    static method BuildScript(cidrs: seq<string>) returns (script: seq<Rule>)
      ensures script == Whitelist(cidrs)
    {
      script := [];
      for i := 0 to |cidrs|
        invariant script == AcceptRules(cidrs[..i])
      {
        var v6 := Contains(cidrs[i], ":");
        script := script + [Accept(v6, cidrs[i])];
        assert cidrs[..i + 1][..i] == cidrs[..i];
      }
      assert cidrs[..|cidrs|] == cidrs;
      script := script + [Reject];
    }
  }

  lemma {:induction false} AcceptRulesAre(cidrs: seq<string>)
    ensures |AcceptRules(cidrs)| == |cidrs|
    ensures forall i :: 0 <= i < |cidrs| ==> AcceptRules(cidrs)[i] == Accept(':' in cidrs[i], cidrs[i])
    ensures forall r :: r in AcceptRules(cidrs) <==> exists c :: c in cidrs && r == Accept(':' in c, c)
  {
    if cidrs == [] {
    } else {
      var n := |cidrs| - 1;
      AcceptRulesAre(cidrs[..n]);
      V6Iff(cidrs[n]);
      assert cidrs == cidrs[..n] + [cidrs[n]];
    }
  }

  lemma {:induction false} ScriptTakenIffValid(net: Net, cidrs: seq<string>)
    ensures Valid(net, cidrs) <==> forall r :: r in Whitelist(cidrs) && r.Accept? ==> net.accepts(r.v6, r.cidr)
  {
    AcceptRulesAre(cidrs);
    forall c | c in cidrs ensures Accept(':' in c, c) in Whitelist(cidrs) {
      assert Accept(':' in c, c) in AcceptRules(cidrs);
    }
  }

  /** A number is printed without leading zeros. */
  lemma {:induction false} DigitsHaveNoLeadingZero(n: nat)
    ensures n > 0 ==> Digits(n)[0] != '0'
    ensures n == 0 ==> Digits(n) == "0"
  {
    if n >= 10 { DigitsHaveNoLeadingZero(n / 10); }
  }

  /** The rules of a list: each network accepted under its own family, in order, and then everything rejected. */
  predicate Restricts(rules: seq<Rule>, cidrs: seq<string>) {
    && |rules| == |cidrs| + 1 && rules[|cidrs|] == Reject
    && forall i :: 0 <= i < |cidrs| ==> rules[i] == Accept(':' in cidrs[i], cidrs[i])
  }

  /**
   The whole effect of a sync. It fails exactly when nft refuses a network under its family, and then leaves
   the user's chain empty; a list that is taken becomes the user's chain; without a list the chain is gone, or
   empty where a jump still refers to it. At most the user's own jump is added, and no other chain changes.
   */
  lemma {:induction false} SyncLaw(net: Net, nft: Nft, uid: nat, cidrs: seq<string>)
    ensures var (after, ok) := Synced(net, nft, uid, cidrs);
      var name := "tenant_" + Digits(uid);
      && (ok <==> forall c :: c in cidrs ==> net.accepts(':' in c, c))
      && (cidrs != [] ==> name in after.chains && if ok then Restricts(after.chains[name], cidrs) else after.chains[name] == [])
      && (cidrs == [] ==> if name in nft.chains && uid in nft.jumps then name in after.chains && after.chains[name] == []
                          else name !in after.chains)
      && (forall n :: n != name ==> (n in after.chains <==> n in nft.chains) && (n in nft.chains ==> after.chains[n] == nft.chains[n]))
      && (after.jumps == if cidrs != [] && ok && !Shadowed(nft.jumps, uid) then nft.jumps + [uid] else nft.jumps)
  {
    AcceptRulesAre(cidrs);
    ListingContains(nft, uid);
  }

  // What the packets see.

  predicate Covered(net: Net, cidrs: seq<string>, dest: string) {
    exists c :: c in cidrs && net.covers(':' in c, c, dest)
  }

  lemma {:induction false} AcceptsThen(net: Net, cidrs: seq<string>, after: seq<Rule>, dest: string)
    ensures ChainVerdict(net, AcceptRules(cidrs) + after, dest)
         == if Covered(net, cidrs, dest) then Pass else ChainVerdict(net, after, dest)
    decreases |cidrs|
  {
    if cidrs == [] {
      assert AcceptRules(cidrs) + after == after;
    } else {
      var n := |cidrs| - 1;
      var last := Accept(':' in cidrs[n], cidrs[n]);
      V6Iff(cidrs[n]);
      assert cidrs == cidrs[..n] + [cidrs[n]];
      assert AcceptRules(cidrs) + after == AcceptRules(cidrs[..n]) + ([last] + after);
      AcceptsThen(net, cidrs[..n], [last] + after, dest);
      assert ([last] + after)[1..] == after;
    }
  }

  lemma {:induction false} WhitelistVerdict(net: Net, cidrs: seq<string>, dest: string)
    ensures ChainVerdict(net, Whitelist(cidrs), dest) == if Covered(net, cidrs, dest) then Pass else Drop
  {
    AcceptsThen(net, cidrs, [Reject], dest);
  }

  lemma {:induction false} PassesIff(net: Net, nft: Nft, uid: nat, dest: string, from: nat)
    requires from <= |nft.jumps|
    ensures Passes(net, nft, uid, dest, from)
      <==> uid !in nft.jumps[from..] || ChainVerdict(net, Chain(nft, uid), dest) != Drop
    decreases |nft.jumps| - from
  {
    if from == |nft.jumps| {
    } else {
      PassesIff(net, nft, uid, dest, from + 1);
      assert nft.jumps[from..] == [nft.jumps[from]] + nft.jumps[from + 1..];
    }
  }

  /** Only a jump for the user itself and a rejecting chain can stop a packet. */
  lemma {:induction false} AllowedIff(net: Net, nft: Nft, uid: nat, dest: string)
    ensures Allowed(net, nft, uid, dest)
      <==> uid !in nft.jumps || ChainVerdict(net, Chain(nft, uid), dest) != Drop
  {
    PassesIff(net, nft, uid, dest, 0);
    assert nft.jumps[0..] == nft.jumps;
  }

  /** No sync, successful or not, from any state, changes what another user may reach. */
  lemma {:induction false} OtherUsersUnaffected(
    net: Net, nft: Nft, uid: nat, cidrs: seq<string>, other: nat, dest: string)
    requires other != uid
    ensures Allowed(net, Synced(net, nft, uid, cidrs).0, other, dest) == Allowed(net, nft, other, dest)
  {
    var after := Synced(net, nft, uid, cidrs).0;
    AllowedIff(net, nft, other, dest);
    AllowedIff(net, after, other, dest);
    if ChainName(other) == ChainName(uid) { ChainNameInjective(other, uid); }
  }

  /**
   A sync that nft takes restricts its user to the listed networks if and only if the user already had
   its jump or its id is not the beginning of the id in some other jump: a destination outside the list
   stays reachable exactly when the search mistakes another user's jump for this one.
   */
  lemma {:induction false} SyncRestrictsIff(net: Net, nft: Nft, uid: nat, cidrs: seq<string>, dest: string)
    requires cidrs != [] && Valid(net, cidrs) && !Covered(net, cidrs, dest)
    ensures Allowed(net, Synced(net, nft, uid, cidrs).0, uid, dest) <==> uid !in nft.jumps && Shadowed(nft.jumps, uid)
  {
    AllowedIff(net, Synced(net, nft, uid, cidrs).0, uid, dest);
    ListingContains(nft, uid);
    WhitelistVerdict(net, cidrs, dest);
  }

  /** A listed destination is reachable after every sync that nft takes. */
  lemma {:induction false} SyncKeepsListed(net: Net, nft: Nft, uid: nat, cidrs: seq<string>, dest: string)
    requires cidrs != [] && Valid(net, cidrs) && Covered(net, cidrs, dest)
    ensures Allowed(net, Synced(net, nft, uid, cidrs).0, uid, dest)
  {
    AllowedIff(net, Synced(net, nft, uid, cidrs).0, uid, dest);
    WhitelistVerdict(net, cidrs, dest);
  }

  /** An empty list, and also a list nft refuses, leaves the user unrestricted. */
  lemma {:induction false} EmptyOrRefusedOpens(net: Net, nft: Nft, uid: nat, cidrs: seq<string>, dest: string)
    requires cidrs == [] || !Valid(net, cidrs)
    ensures Allowed(net, Synced(net, nft, uid, cidrs).0, uid, dest)
  {
    AllowedIff(net, Synced(net, nft, uid, cidrs).0, uid, dest);
  }

  // Whole runs.

  datatype Call = Call(uid: nat, cidrs: seq<string>)

  function RunCalls(net: Net, calls: seq<Call>): Nft {
    if calls == [] then Nft(map[], [])
    else
      var last := calls[|calls| - 1];
      Synced(net, RunCalls(net, calls[..|calls| - 1]), last.uid, last.cidrs).0
  }

  /** The list in force for a user: that of its last call, or none if nft refused it. */
  function InForce(net: Net, calls: seq<Call>, uid: nat): seq<string> {
    if calls == [] then []
    else
      var last := calls[|calls| - 1];
      if last.uid != uid then InForce(net, calls[..|calls| - 1], uid)
      else if Valid(net, last.cidrs) then last.cidrs else []
  }

  /** The users whose jump was added, computed on numbers alone. */
  function Jumped(net: Net, calls: seq<Call>): seq<nat> {
    if calls == [] then []
    else
      var last := calls[|calls| - 1];
      var before := Jumped(net, calls[..|calls| - 1]);
      if last.cidrs == [] || !Valid(net, last.cidrs) || Shadowed(before, last.uid) then before else before + [last.uid]
  }

  function ChainFor(cidrs: seq<string>): seq<Rule> { if cidrs == [] then [] else Whitelist(cidrs) }

  lemma {:induction false} RunState(net: Net, calls: seq<Call>, uid: nat)
    ensures RunCalls(net, calls).jumps == Jumped(net, calls)
    ensures Chain(RunCalls(net, calls), uid) == ChainFor(InForce(net, calls, uid))
    decreases |calls|
  {
    if calls == [] {
    } else {
      var last := calls[|calls| - 1];
      RunState(net, calls[..|calls| - 1], uid);
      ListingContains(RunCalls(net, calls[..|calls| - 1]), last.uid);
      if ChainName(uid) == ChainName(last.uid) { ChainNameInjective(uid, last.uid); }
    }
  }

  /** The exact verdict after any run of calls from an empty table. */
  lemma {:induction false} RunVerdict(net: Net, calls: seq<Call>, uid: nat, dest: string)
    ensures Allowed(net, RunCalls(net, calls), uid, dest)
      <==> uid !in Jumped(net, calls) || InForce(net, calls, uid) == [] || Covered(net, InForce(net, calls, uid), dest)
  {
    RunState(net, calls, uid);
    AllowedIff(net, RunCalls(net, calls), uid, dest);
    WhitelistVerdict(net, InForce(net, calls, uid), dest);
  }

  /** No managed user id is the beginning of another in decimal. */
  predicate PrefixFree(calls: seq<Call>) {
    forall a, b :: a in calls && b in calls && a.uid != b.uid ==> !(Digits(a.uid) <= Digits(b.uid))
  }

  lemma {:induction false} JumpedAreCalled(net: Net, calls: seq<Call>)
    ensures forall u :: u in Jumped(net, calls) ==> exists c :: c in calls && c.uid == u
  {
    if calls == [] {
    } else {
      var n := |calls| - 1;
      JumpedAreCalled(net, calls[..n]);
      assert calls == calls[..n] + [calls[n]];
    }
  }

  lemma {:induction false} RestrictedAreJumped(net: Net, calls: seq<Call>, uid: nat)
    requires PrefixFree(calls) && InForce(net, calls, uid) != []
    ensures uid in Jumped(net, calls)
    decreases |calls|
  {
    var n := |calls| - 1;
    var last := calls[n];
    assert calls == calls[..n] + [last];
    if last.uid != uid {
      RestrictedAreJumped(net, calls[..n], uid);
    } else {
      JumpedAreCalled(net, calls[..n]);
      var before := Jumped(net, calls[..n]);
      if Shadowed(before, uid) {
        var u :| u in before && Digits(uid) <= Digits(u);
        var c :| c in calls[..n] && c.uid == u;
        assert c in calls && last in calls;
      }
    }
  }

  /**
   With prefix-free user ids, after any run of calls for any users: a packet goes out if and only if the
   list in force for its user is empty or some network in it contains the destination.
   */
  lemma {:induction false} EgressIsWhitelist(net: Net, calls: seq<Call>, uid: nat, dest: string)
    requires PrefixFree(calls)
    ensures Allowed(net, RunCalls(net, calls), uid, dest)
      <==> InForce(net, calls, uid) == []
           || exists c :: c in InForce(net, calls, uid) && net.covers(':' in c, c, dest)
  {
    RunVerdict(net, calls, uid, dest);
    if InForce(net, calls, uid) != [] { RestrictedAreJumped(net, calls, uid); }
  }

  /** User ids are given out from 5000 up: once 50000 has a list, the list of 5000 has no effect. */
  lemma {:induction false} FiveThousandEscapes(net: Net, cidrs: seq<string>, dest: string)
    requires cidrs != [] && Valid(net, cidrs) && !Covered(net, cidrs, dest)
    ensures var calls := [Call(50000, cidrs), Call(5000, cidrs)];
      InForce(net, calls, 5000) == cidrs && Allowed(net, RunCalls(net, calls), 5000, dest)
  {
    var calls := [Call(50000, cidrs), Call(5000, cidrs)];
    var first := calls[..1];
    assert first == [Call(50000, cidrs)] && first[..0] == [];
    assert Digits(50000) == Digits(5000) + [Digit(0)];
    assert Jumped(net, first) == [50000] && Shadowed([50000], 5000);
    assert Jumped(net, calls) == [50000];
    RunVerdict(net, calls, 5000, dest);
  }
}
