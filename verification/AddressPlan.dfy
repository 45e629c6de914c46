/**
 The platform's private IPv6 plan: tenant, transit and WireGuard addresses (internal/core/ula.go), the
 shard indices they are built from (internal/core/node.go) and the /48 routes between nodes
 (internal/agent/tenant_ula.go).
 */
module AddressPlan {
  import opened Text
  import opened Ipv6

  /** `sum` is the 32-bit FNV-1a hash of the cluster id. */
  function ClusterHash(sum: nat): (h: nat)
    ensures h < 0xFFFF
  {
    sum % 0xFFFF
  }

  function TenantULA(hash: nat, nodeIndex: nat, uid: nat): string {
    "fd00:" + (Hex(hash) + (":" + (Hex(nodeIndex) + ("::" + Hex(uid)))))
  }

  function TransitAddr(hash: nat, transitIndex: nat): string {
    "fd00:" + (Hex(hash) + (":0::" + Hex(transitIndex)))
  }

  function WireGuardClientIP(hash: nat, peerIndex: nat): string {
    "fd00:" + (Hex(hash) + (":ffff::" + Hex(peerIndex)))
  }

  function RoutePrefix(hash: nat, prefixIndex: nat): string {
    "fd00:" + (Hex(hash) + (":" + (Hex(prefixIndex) + "::/48")))
  }

  function TransitOffset(role: string): nat {
    if role == "database" then 256 else if role == "valkey" then 512 else if role == "gateway" then 768 else 0
  }

  function TransitIndex(role: string, shardIndex: nat): nat {
    TransitOffset(role) + shardIndex
  }

  /** The transit range of each role. */
  lemma {:induction false} TransitIndexByRole(role: string, shardIndex: nat)
    ensures role == "database" ==> TransitIndex(role, shardIndex) == 256 + shardIndex
    ensures role == "valkey" ==> TransitIndex(role, shardIndex) == 512 + shardIndex
    ensures role == "gateway" ==> TransitIndex(role, shardIndex) == 768 + shardIndex
    ensures role !in ["database", "valkey", "gateway"] ==> TransitIndex(role, shardIndex) == shardIndex
  {
  }

  /** The hash is the remainder by 65535. */
  lemma {:induction false} ClusterHashIsRemainder(sum: nat)
    ensures exists q: nat :: sum == 65535 * q + ClusterHash(sum)
  {
    var q := sum / 65535;
    assert sum == 65535 * q + ClusterHash(sum);
  }

  // Text to address.

  lemma {:induction false} HexFFFF()
    ensures Hex(0xFFFF) == "ffff"
  {
    assert Hex(0xF) == "f";
    assert Hex(0xFF) == "f" + "f";
    assert Hex(0xFFF) == "ff" + "f";
    assert Hex(0xFFFF) == "fff" + "f";
  }

  /** The three kinds of address of a cluster read back as their fields exactly when the fields fit a group. */
  lemma {:induction false} AddressesReadBack(sum: nat, hash: nat, index: nat, low: nat)
    requires hash == ClusterHash(sum)
    ensures ParseAddr(TenantULA(hash, index, low))
         == if index < GROUP && low < GROUP then Some(AddrGroups(hash, index, low)) else None
    ensures ParseAddr(TransitAddr(hash, low)) == if low < GROUP then Some(AddrGroups(hash, 0, low)) else None
    ensures ParseAddr(WireGuardClientIP(hash, low))
         == if low < GROUP then Some(AddrGroups(hash, 0xFFFF, low)) else None
  {
    AddrReadsBackIffFits(hash, index, low);
    AddrReadsBackIffFits(hash, 0, low);
    AddrReadsBackIffFits(hash, 0xFFFF, low);
    TransitText(hash, low);
    WireGuardText(hash, low);
  }

  lemma {:induction false} TransitText(hash: nat, low: nat)
    ensures TransitAddr(hash, low) == AddrText(hash, 0, low)
  {
    assert Hex(0) == "0";
    assert ":0::" + Hex(low) == ":" + ("0" + ("::" + Hex(low)));
  }

  lemma {:induction false} WireGuardText(hash: nat, low: nat)
    ensures WireGuardClientIP(hash, low) == AddrText(hash, 0xFFFF, low)
  {
    HexFFFF();
    assert ":ffff::" + Hex(low) == ":" + ("ffff" + ("::" + Hex(low)));
  }

  lemma {:induction false} RouteText(hash: nat, index: nat)
    ensures RoutePrefix(hash, index) == Triple(hash, index, "/48")
  {
    assert Hex(index) + "::/48" == Hex(index) + ("::" + "/48");
  }

  // Roles share one transit range without colliding.

  predicate KnownRole(role: string) {
    role == "web" || role == "database" || role == "valkey" || role == "gateway"
  }

  ghost predicate CollisionFree(bound: nat) {
    forall r1, i1, r2, i2 ::
      KnownRole(r1) && KnownRole(r2) && 1 <= i1 <= bound && 1 <= i2 <= bound
        && TransitIndex(r1, i1) == TransitIndex(r2, i2)
      ==> r1 == r2 && i1 == i2
  }

  /** Two nodes never share a transit index, up to exactly 256 nodes a shard. */
  lemma {:induction false} TransitIndexInjectiveIff(bound: nat)
    ensures CollisionFree(bound) <==> bound <= 256
  {
    if bound > 256 {
      assert TransitIndex("web", 257) == TransitIndex("database", 1);
    }
  }

  // Routes.

  datatype Peer = Peer(prefixIndex: nat, transitIndex: nat)

  type Routes = map<Prefix, Addr>

  predicate Fits(peer: Peer) { peer.prefixIndex < GROUP && peer.transitIndex < GROUP }

  function Route48(hash: nat, index: nat): Prefix { Prefix(AddrGroups(hash, index, 0), 48) }

  function Hop(hash: nat, peer: Peer): Addr { AddrGroups(hash, 0, peer.transitIndex) }

  /** "ip route replace" for each peer in turn, up to the first the kernel refuses. */
  function RoutesAfter(routes: Routes, hash: nat, peers: seq<Peer>): Routes
    decreases |peers|
  {
    if peers == [] || !Fits(peers[0]) then routes
    else RoutesAfter(routes[Route48(hash, peers[0].prefixIndex) := Hop(hash, peers[0])], hash, peers[1..])
  }

  predicate AllFit(peers: seq<Peer>) { forall i :: 0 <= i < |peers| ==> Fits(peers[i]) }

  class Kernel {
    var routes: Routes
    var addresses: set<Addr>

    /** Adds this node's transit address; the kernel refuses text that is no address. */
    method AddAddress(text: string) returns (ok: bool)
      modifies this`addresses
      ensures ok == ParseAddr(text).Some?
      ensures addresses == if ok then old(addresses) + {ParseAddr(text).value} else old(addresses)
    {
      match ParseAddr(text) {
        case Some(a) => addresses := addresses + {a}; ok := true;
        case None => ok := false;
      }
    }

    method ReplaceRoute(prefix: string, via: string) returns (ok: bool)
      modifies this`routes
      ensures ok == (ParsePrefix(prefix).Some? && ParseAddr(via).Some?)
      ensures routes == if ok then old(routes)[ParsePrefix(prefix).value := ParseAddr(via).value] else old(routes)
    {
      match (ParsePrefix(prefix), ParseAddr(via)) {
        case (Some(p), Some(a)) => routes := routes[p := a]; ok := true;
        case _ => ok := false;
      }
    }

    method ConfigureRoutesV2(sum: nat, thisTransitIndex: nat, peers: seq<Peer>) returns (ok: bool)
      modifies this
      ensures ok == (thisTransitIndex < GROUP && AllFit(peers))
      ensures thisTransitIndex < GROUP ==>
        && addresses == old(addresses) + {AddrGroups(ClusterHash(sum), 0, thisTransitIndex)}
        && routes == RoutesAfter(old(routes), ClusterHash(sum), peers)
      ensures thisTransitIndex >= GROUP ==> addresses == old(addresses) && routes == old(routes)
    {
      var hash := ClusterHash(sum);
      AddressesReadBack(sum, hash, 0, thisTransitIndex);
      ok := AddAddress(TransitAddr(hash, thisTransitIndex));
      if !ok { return; }
      for i := 0 to |peers|
        invariant addresses == old(addresses) + {AddrGroups(hash, 0, thisTransitIndex)}
        invariant forall j :: 0 <= j < i ==> Fits(peers[j])
        invariant RoutesAfter(routes, hash, peers[i..]) == RoutesAfter(old(routes), hash, peers)
        invariant ok
      {
        AddressesReadBack(sum, hash, 0, peers[i].transitIndex);
        RouteText(hash, peers[i].prefixIndex);
        Prefix48ReadsBackIffFits(hash, peers[i].prefixIndex);
        assert peers[i..][0] == peers[i] && peers[i..][1..] == peers[i + 1..];
        ok := ReplaceRoute(RoutePrefix(hash, peers[i].prefixIndex), TransitAddr(hash, peers[i].transitIndex));
        if !ok { return; }
      }
    }
  }

  /** Entry `j` is the last of the first `n` with its prefix index. */
  predicate LastAt(peers: seq<Peer>, n: nat, j: nat) {
    && j < n <= |peers|
    && forall m :: j < m < n ==> peers[m].prefixIndex != peers[j].prefixIndex
  }

  /** The route to the /48 of an entry, by way of its transit address. */
  predicate RouteTo(routes: Routes, hash: nat, peer: Peer) {
    var p := Prefix([0xfd00, hash, peer.prefixIndex, 0, 0, 0, 0, 0], 48);
    p in routes && routes[p] == [0xfd00, hash, 0, 0, 0, 0, 0, peer.transitIndex]
  }

  /**
   The routing table in literal addresses, from any table: the entries before the first that does not fit have
   been taken, for each prefix the last of them; every other route is as it was.
   */
  lemma {:induction false} RoutesLaw(routes: Routes, hash: nat, peers: seq<Peer>) returns (n: nat)
    ensures n <= |peers| && AllFit(peers[..n]) && (n < |peers| ==> !Fits(peers[n]))
    ensures var after := RoutesAfter(routes, hash, peers);
      && (forall j: nat :: LastAt(peers, n, j) ==> RouteTo(after, hash, peers[j]))
      && (forall p :: (forall j :: 0 <= j < n ==> p != Prefix([0xfd00, hash, peers[j].prefixIndex, 0, 0, 0, 0, 0], 48)) ==>
            (p in after <==> p in routes) && (p in routes ==> after[p] == routes[p]))
    decreases |peers|
  {
    n := 0;
    if peers != [] && Fits(peers[0]) {
      var rest, next := peers[1..], routes[Route48(hash, peers[0].prefixIndex) := Hop(hash, peers[0])];
      var k := RoutesLaw(next, hash, rest);
      n := k + 1;
      assert peers[..n] == [peers[0]] + rest[..k];
      FirstRoute(routes, hash, peers, n);
    }
  }

  lemma {:induction false} FirstRoute(routes: Routes, hash: nat, peers: seq<Peer>, n: nat)
    requires 0 < n <= |peers| && Fits(peers[0])
    requires var next := routes[Route48(hash, peers[0].prefixIndex) := Hop(hash, peers[0])];
      var after := RoutesAfter(next, hash, peers[1..]);
      && (forall j: nat :: LastAt(peers[1..], n - 1, j) ==> RouteTo(after, hash, peers[1..][j]))
      && (forall p :: (forall j :: 0 <= j < n - 1 ==> p != Prefix([0xfd00, hash, peers[1..][j].prefixIndex, 0, 0, 0, 0, 0], 48)) ==>
            (p in after <==> p in next) && (p in next ==> after[p] == next[p]))
    ensures forall j: nat :: LastAt(peers, n, j) ==> RouteTo(RoutesAfter(routes, hash, peers), hash, peers[j])
    ensures var after := RoutesAfter(routes, hash, peers);
      forall p :: (forall j :: 0 <= j < n ==> p != Prefix([0xfd00, hash, peers[j].prefixIndex, 0, 0, 0, 0, 0], 48)) ==>
        (p in after <==> p in routes) && (p in routes ==> after[p] == routes[p])
  {
    var next := routes[Route48(hash, peers[0].prefixIndex) := Hop(hash, peers[0])];
    var after := RoutesAfter(routes, hash, peers);
    assert after == RoutesAfter(next, hash, peers[1..]);
    forall j: nat | LastAt(peers, n, j) ensures RouteTo(after, hash, peers[j]) {
      if j > 0 {
        assert LastAt(peers[1..], n - 1, j - 1);
      } else {
        var own := Prefix([0xfd00, hash, peers[0].prefixIndex, 0, 0, 0, 0, 0], 48);
        forall i | 0 <= i < n - 1 ensures own != Prefix([0xfd00, hash, peers[1..][i].prefixIndex, 0, 0, 0, 0, 0], 48) {
          assert own.addr[2] != peers[i + 1].prefixIndex;
        }
        assert RouteTo(next, hash, peers[0]);
      }
    }
    forall p | forall j :: 0 <= j < n ==> p != Prefix([0xfd00, hash, peers[j].prefixIndex, 0, 0, 0, 0, 0], 48)
      ensures (p in after <==> p in routes) && (p in routes ==> after[p] == routes[p])
    {
      assert p != Prefix([0xfd00, hash, peers[0].prefixIndex, 0, 0, 0, 0, 0], 48);
      forall j | 0 <= j < n - 1 ensures p != Prefix([0xfd00, hash, peers[1..][j].prefixIndex, 0, 0, 0, 0, 0], 48) {
        assert peers[1..][j] == peers[j + 1];
      }
    }
  }

  /** The routes that cover an address. */
  ghost function Matching(routes: Routes, addr: Addr): set<Prefix> {
    set p | p in routes && Covers(p, addr)
  }

  /** The last peer with a given prefix index, if any. */
  function LastWith(peers: seq<Peer>, index: nat): Option<Peer> {
    if peers == [] then None
    else if peers[|peers| - 1].prefixIndex == index then Some(peers[|peers| - 1])
    else LastWith(peers[..|peers| - 1], index)
  }

  lemma {:induction false} RoutesAppend(routes: Routes, hash: nat, peers: seq<Peer>, last: Peer)
    requires AllFit(peers) && Fits(last)
    ensures RoutesAfter(routes, hash, peers + [last])
         == RoutesAfter(routes, hash, peers)[Route48(hash, last.prefixIndex) := Hop(hash, last)]
    decreases |peers|
  {
    if peers == [] {
      assert [] + [last] == [last] && [last][1..] == [];
    } else {
      assert (peers + [last])[0] == peers[0] && (peers + [last])[1..] == peers[1..] + [last];
      RoutesAppend(routes[Route48(hash, peers[0].prefixIndex) := Hop(hash, peers[0])], hash, peers[1..], last);
    }
  }

  lemma {:induction false} SameRoute(hash: nat, a: nat, b: nat)
    ensures Route48(hash, a) == Route48(hash, b) <==> a == b
  {
    assert AddrGroups(hash, a, 0)[2] == a && AddrGroups(hash, b, 0)[2] == b;
  }

  /** The table holds one /48 per prefix index, pointing at the last peer that had it. */
  lemma {:induction false} TableContents(hash: nat, peers: seq<Peer>, index: nat)
    requires AllFit(peers)
    ensures var t := RoutesAfter(map[], hash, peers);
      && (Route48(hash, index) in t <==> LastWith(peers, index).Some?)
      && (LastWith(peers, index).Some? ==> t[Route48(hash, index)] == Hop(hash, LastWith(peers, index).value))
    decreases |peers|
  {
    if peers == [] {
    } else {
      var front, last := peers[..|peers| - 1], peers[|peers| - 1];
      assert peers == front + [last];
      RoutesAppend(map[], hash, front, last);
      TableContents(hash, front, index);
      SameRoute(hash, index, last.prefixIndex);
    }
  }

  lemma {:induction false} TableKeys(hash: nat, peers: seq<Peer>, p: Prefix)
    requires AllFit(peers) && p in RoutesAfter(map[], hash, peers)
    ensures exists i :: 0 <= i < |peers| && p == Route48(hash, peers[i].prefixIndex)
    decreases |peers|
  {
    if peers == [] {
    } else {
      var front, last := peers[..|peers| - 1], peers[|peers| - 1];
      assert peers == front + [last];
      RoutesAppend(map[], hash, front, last);
      if p != Route48(hash, last.prefixIndex) {
        TableKeys(hash, front, p);
        var i :| 0 <= i < |front| && p == Route48(hash, front[i].prefixIndex);
        assert peers[i] == front[i];
      } else {
        assert p == Route48(hash, peers[|peers| - 1].prefixIndex);
      }
    }
  }

  /** An address of the plan is covered by the /48 of its own index and by no other. */
  lemma {:induction false} MatchesOwnRouteOnly(hash: nat, peers: seq<Peer>, index: nat, low: nat)
    requires AllFit(peers)
    ensures Matching(RoutesAfter(map[], hash, peers), AddrGroups(hash, index, low))
         == if LastWith(peers, index).Some? then {Route48(hash, index)} else {}
  {
    var t, a := RoutesAfter(map[], hash, peers), AddrGroups(hash, index, low);
    TableContents(hash, peers, index);
    Prefix48Covers(hash, index, a);
    forall p | p in Matching(t, a) ensures p == Route48(hash, index) {
      TableKeys(hash, peers, p);
      var i :| 0 <= i < |peers| && p == Route48(hash, peers[i].prefixIndex);
      Prefix48Covers(hash, peers[i].prefixIndex, a);
    }
  }

  /** Where a packet for an address goes: the hop of the one route that covers it. */
  ghost predicate GoesTo(routes: Routes, addr: Addr, hop: Addr) {
    exists p :: Matching(routes, addr) == {p} && p in routes && routes[p] == hop
  }

  lemma {:induction false} GoesToLast(hash: nat, peers: seq<Peer>, index: nat, low: nat, hop: Addr)
    requires AllFit(peers)
    ensures GoesTo(RoutesAfter(map[], hash, peers), AddrGroups(hash, index, low), hop)
       <==> LastWith(peers, index).Some? && hop == Hop(hash, LastWith(peers, index).value)
  {
    var t, a := RoutesAfter(map[], hash, peers), AddrGroups(hash, index, low);
    MatchesOwnRouteOnly(hash, peers, index, low);
    TableContents(hash, peers, index);
    var own := Route48(hash, index);
    if GoesTo(t, a, hop) {
      var p :| Matching(t, a) == {p} && p in t && t[p] == hop;
      assert p in Matching(t, a);
    } else if LastWith(peers, index).Some? {
      assert Matching(t, a) == {own};
    }
  }

  lemma {:induction false} LastWithExists(peers: seq<Peer>, i: nat)
    requires i < |peers|
    ensures var last := LastWith(peers, peers[i].prefixIndex);
      last.Some? && last.value in peers && last.value.prefixIndex == peers[i].prefixIndex
    decreases |peers|
  {
    if peers[|peers| - 1].prefixIndex != peers[i].prefixIndex {
      LastWithExists(peers[..|peers| - 1], i);
    }
  }

  // Routes are replaced and never removed, so the routes of earlier peer lists are still there.

  /** The table after a list of peers, on top of what earlier lists left. */
  function Table(hash: nat, earlier: seq<Peer>, peers: seq<Peer>): Routes {
    RoutesAfter(RoutesAfter(map[], hash, earlier), hash, peers)
  }

  lemma {:induction false} RoutesTwice(routes: Routes, hash: nat, a: seq<Peer>, b: seq<Peer>)
    requires AllFit(a)
    ensures RoutesAfter(RoutesAfter(routes, hash, a), hash, b) == RoutesAfter(routes, hash, a + b)
    decreases |a|
  {
    if a == [] {
      assert a + b == b;
    } else {
      assert (a + b)[0] == a[0] && (a + b)[1..] == a[1..] + b;
      RoutesTwice(routes[Route48(hash, a[0].prefixIndex) := Hop(hash, a[0])], hash, a[1..], b);
    }
  }

  lemma {:induction false} LastWithAppend(a: seq<Peer>, b: seq<Peer>, index: nat)
    ensures LastWith(a + b, index) == if LastWith(b, index).Some? then LastWith(b, index) else LastWith(a, index)
    decreases |b|
  {
    if b == [] {
      assert a + b == a;
    } else {
      assert (a + b)[..|a + b| - 1] == a + b[..|b| - 1];
      LastWithAppend(a, b[..|b| - 1], index);
    }
  }

  /** The peer an address of a prefix is sent to: of the new list, or else the one left from before. */
  function Current(earlier: seq<Peer>, peers: seq<Peer>, index: nat): Option<Peer> {
    if LastWith(peers, index).Some? then LastWith(peers, index) else LastWith(earlier, index)
  }

  /** An address is covered by the /48 of its own index alone, which points at the current peer. */
  lemma {:induction false} TableSends(hash: nat, earlier: seq<Peer>, peers: seq<Peer>, index: nat, low: nat, hop: Addr)
    requires AllFit(earlier) && AllFit(peers)
    ensures Matching(Table(hash, earlier, peers), AddrGroups(hash, index, low))
         == if Current(earlier, peers, index).Some? then {Route48(hash, index)} else {}
    ensures GoesTo(Table(hash, earlier, peers), AddrGroups(hash, index, low), hop)
       <==> Current(earlier, peers, index).Some? && hop == Hop(hash, Current(earlier, peers, index).value)
  {
    RoutesTwice(map[], hash, earlier, peers);
    LastWithAppend(earlier, peers, index);
    MatchesOwnRouteOnly(hash, earlier + peers, index, low);
    GoesToLast(hash, earlier + peers, index, low, hop);
  }

  /** Every peer's tenants are routed to that peer. */
  ghost predicate EveryPeerReached(hash: nat, earlier: seq<Peer>, peers: seq<Peer>) {
    forall i, uid :: 0 <= i < |peers| && 0 <= uid < GROUP ==>
      GoesTo(Table(hash, earlier, peers), AddrGroups(hash, peers[i].prefixIndex, uid), Hop(hash, peers[i]))
  }

  ghost predicate EqualPrefixEqualHop(peers: seq<Peer>) {
    forall i, j :: 0 <= i < |peers| && 0 <= j < |peers| && peers[i].prefixIndex == peers[j].prefixIndex
      ==> peers[i].transitIndex == peers[j].transitIndex
  }

  /** Later routes replace earlier ones, so this holds exactly when equal prefixes mean equal hops. */
  lemma {:induction false} EveryPeerReachedIff(hash: nat, earlier: seq<Peer>, peers: seq<Peer>)
    requires AllFit(earlier) && AllFit(peers)
    ensures EveryPeerReached(hash, earlier, peers) <==> EqualPrefixEqualHop(peers)
  {
    var t := Table(hash, earlier, peers);
    if EveryPeerReached(hash, earlier, peers) {
      forall i, j | 0 <= i < |peers| && 0 <= j < |peers| && peers[i].prefixIndex == peers[j].prefixIndex
        ensures peers[i].transitIndex == peers[j].transitIndex
      {
        assert GoesTo(t, AddrGroups(hash, peers[i].prefixIndex, 0), Hop(hash, peers[i]));
        assert GoesTo(t, AddrGroups(hash, peers[j].prefixIndex, 0), Hop(hash, peers[j]));
        TableSends(hash, earlier, peers, peers[i].prefixIndex, 0, Hop(hash, peers[i]));
        TableSends(hash, earlier, peers, peers[j].prefixIndex, 0, Hop(hash, peers[j]));
        assert Hop(hash, peers[i])[7] == Hop(hash, peers[j])[7];
      }
    }
    if EqualPrefixEqualHop(peers) {
      forall i, uid | 0 <= i < |peers| && 0 <= uid < GROUP
        ensures GoesTo(t, AddrGroups(hash, peers[i].prefixIndex, uid), Hop(hash, peers[i]))
      {
        LastWithExists(peers, i);
        var last := LastWith(peers, peers[i].prefixIndex).value;
        var j :| 0 <= j < |peers| && peers[j] == last;
        TableSends(hash, earlier, peers, peers[i].prefixIndex, uid, Hop(hash, peers[i]));
      }
    }
  }

  // The plan for a cluster.

  /** A machine in its place in a shard. A machine may have several places. */
  datatype Node = Node(machine: string, shard: string, role: string, shardIndex: nat)

  function Transit(n: Node): nat { TransitIndex(n.role, n.shardIndex) }

  /** The transit address a machine is given for its place. */
  function TransitHop(hash: nat, n: Node): Addr { AddrGroups(hash, 0, Transit(n)) }

  /** Each node's prefix is its transit index. */
  function TransitPlan(nodes: seq<Node>): seq<Peer> {
    seq(|nodes|, i requires 0 <= i < |nodes| => Peer(Transit(nodes[i]), Transit(nodes[i])))
  }

  /** Each node's prefix is its shard index, as the convergence workflow configures it. */
  function ShardPlan(nodes: seq<Node>): seq<Peer> {
    seq(|nodes|, i requires 0 <= i < |nodes| => Peer(nodes[i].shardIndex, Transit(nodes[i])))
  }

  predicate InPlan(nodes: seq<Node>) {
    forall i :: 0 <= i < |nodes| ==> KnownRole(nodes[i].role) && 1 <= nodes[i].shardIndex <= 256
  }

  /** Lists of earlier plans: prefixes in between the transit range and the WireGuard range. */
  predicate WasPlan(earlier: seq<Peer>) {
    forall i :: 0 <= i < |earlier| ==> Fits(earlier[i]) && 0 < earlier[i].prefixIndex < 0xFFFF
  }

  /**
   The machine that routes a tenant's packets: the places of its whole cluster, its id, and the prefixes under
   which it has addresses of the tenant itself.
   */
  datatype Router = Router(cluster: seq<Node>, machine: string, own: set<nat>)

  /** A /128 on the machine itself comes before any /48: such packets do not leave it. */
  predicate Local(rt: Router, prefix: nat) { prefix in rt.own }

  /** The hop is an address of this machine and of no other in the cluster. */
  ghost predicate OnlyOwner(hash: nat, cluster: seq<Node>, hop: Addr, machine: string) {
    && (exists n :: n in cluster && TransitHop(hash, n) == hop && n.machine == machine)
    && (forall n :: n in cluster && TransitHop(hash, n) == hop ==> n.machine == machine)
  }

  /** A packet for the tenant's address of the prefix arrives at the machine, and there alone. */
  ghost predicate ArrivesAt(hash: nat, rt: Router, routes: Routes, prefix: nat, uid: nat, machine: string) {
    if Local(rt, prefix) then machine == rt.machine
    else exists hop :: GoesTo(routes, AddrGroups(hash, prefix, uid), hop) && OnlyOwner(hash, rt.cluster, hop, machine)
  }

  /** Every tenant address of every peer arrives at that peer's machine. */
  ghost predicate EveryNodeReached(hash: nat, rt: Router, earlier: seq<Peer>, peers: seq<Node>, plan: seq<Peer>)
    requires |plan| == |peers|
  {
    forall i, uid :: 0 <= i < |peers| && 0 <= uid < GROUP ==>
      ArrivesAt(hash, rt, Table(hash, earlier, plan), plan[i].prefixIndex, uid, peers[i].machine)
  }

  /** The plan lists peers of the cluster, each with its own transit address as hop. */
  ghost predicate PlanFor(rt: Router, peers: seq<Node>, plan: seq<Peer>) {
    && |plan| == |peers| && AllFit(plan)
    && forall i :: 0 <= i < |peers| ==> peers[i] in rt.cluster && plan[i].transitIndex == Transit(peers[i])
  }

  /** The route of this entry is the one that stays. */
  predicate InForce(plan: seq<Peer>, k: nat) {
    k < |plan| && forall j :: k < j < |plan| ==> plan[j].prefixIndex != plan[k].prefixIndex
  }

  /** No peer on another machine has a prefix of the routing machine. */
  ghost predicate OwnPrefixKept(rt: Router, peers: seq<Node>, plan: seq<Peer>)
    requires |plan| == |peers|
  {
    forall i :: 0 <= i < |peers| && Local(rt, plan[i].prefixIndex) ==> peers[i].machine == rt.machine
  }

  /** No two peers on different machines share a prefix. */
  ghost predicate PrefixesApart(rt: Router, peers: seq<Node>, plan: seq<Peer>)
    requires |plan| == |peers|
  {
    forall i, j :: 0 <= i < |peers| && 0 <= j < |peers| && !Local(rt, plan[i].prefixIndex) ==>
      plan[i].prefixIndex == plan[j].prefixIndex ==> peers[i].machine == peers[j].machine
  }

  /** No other machine of the cluster, listed or not, has the transit index of a hop in force. */
  ghost predicate HopsApart(rt: Router, peers: seq<Node>, plan: seq<Peer>)
    requires |plan| == |peers|
  {
    forall k: nat, n :: InForce(plan, k) && !Local(rt, plan[k].prefixIndex) && n in rt.cluster ==>
      Transit(n) == plan[k].transitIndex ==> n.machine == peers[k].machine
  }

  lemma {:induction false} LastIsInForce(plan: seq<Peer>, i: nat) returns (k: nat)
    requires i < |plan|
    ensures InForce(plan, k) && plan[k].prefixIndex == plan[i].prefixIndex
    ensures LastWith(plan, plan[i].prefixIndex) == Some(plan[k])
    decreases |plan|
  {
    k := |plan| - 1;
    if plan[k].prefixIndex != plan[i].prefixIndex {
      k := LastIsInForce(plan[..|plan| - 1], i);
      assert forall j :: k < j < |plan| - 1 ==> plan[j] == plan[..|plan| - 1][j];
    }
  }

  lemma {:induction false} InForceIsLast(plan: seq<Peer>, k: nat)
    requires InForce(plan, k)
    ensures LastWith(plan, plan[k].prefixIndex) == Some(plan[k])
    decreases |plan|
  {
    if k == |plan| - 1 {
    } else {
      InForceIsLast(plan[..|plan| - 1], k);
    }
  }

  lemma {:induction false} SharedPrefixFails(
    hash: nat, rt: Router, earlier: seq<Peer>, peers: seq<Node>, plan: seq<Peer>, i: nat, j: nat)
    requires PlanFor(rt, peers, plan) && AllFit(earlier) && EveryNodeReached(hash, rt, earlier, peers, plan)
    requires i < |peers| && j < |peers| && plan[i].prefixIndex == plan[j].prefixIndex
    requires !Local(rt, plan[i].prefixIndex)
    ensures peers[i].machine == peers[j].machine
  {
    var t, k := Table(hash, earlier, plan), plan[i].prefixIndex;
    assert ArrivesAt(hash, rt, t, plan[i].prefixIndex, 0, peers[i].machine);
    assert ArrivesAt(hash, rt, t, plan[j].prefixIndex, 0, peers[j].machine);
    var a :| GoesTo(t, AddrGroups(hash, k, 0), a) && OnlyOwner(hash, rt.cluster, a, peers[i].machine);
    var b :| GoesTo(t, AddrGroups(hash, k, 0), b) && OnlyOwner(hash, rt.cluster, b, peers[j].machine);
    TableSends(hash, earlier, plan, k, 0, a);
    TableSends(hash, earlier, plan, k, 0, b);
  }

  lemma {:induction false} SharedHopFails(
    hash: nat, rt: Router, earlier: seq<Peer>, peers: seq<Node>, plan: seq<Peer>, k: nat, n: Node)
    requires PlanFor(rt, peers, plan) && AllFit(earlier) && EveryNodeReached(hash, rt, earlier, peers, plan)
    requires InForce(plan, k) && !Local(rt, plan[k].prefixIndex)
    requires n in rt.cluster && Transit(n) == plan[k].transitIndex
    ensures n.machine == peers[k].machine
  {
    var t := Table(hash, earlier, plan);
    assert ArrivesAt(hash, rt, t, plan[k].prefixIndex, 0, peers[k].machine);
    var hop :| GoesTo(t, AddrGroups(hash, plan[k].prefixIndex, 0), hop)
      && OnlyOwner(hash, rt.cluster, hop, peers[k].machine);
    TableSends(hash, earlier, plan, plan[k].prefixIndex, 0, hop);
    InForceIsLast(plan, k);
    assert TransitHop(hash, n) == hop;
  }

  lemma {:induction false} PeerArrives(
    hash: nat, rt: Router, earlier: seq<Peer>, peers: seq<Node>, plan: seq<Peer>, i: nat, uid: nat)
    requires PlanFor(rt, peers, plan) && AllFit(earlier) && i < |peers|
    requires OwnPrefixKept(rt, peers, plan) && PrefixesApart(rt, peers, plan) && HopsApart(rt, peers, plan)
    ensures ArrivesAt(hash, rt, Table(hash, earlier, plan), plan[i].prefixIndex, uid, peers[i].machine)
  {
    if !Local(rt, plan[i].prefixIndex) {
      var k := LastIsInForce(plan, i);
      var hop := TransitHop(hash, peers[k]);
      TableSends(hash, earlier, plan, plan[i].prefixIndex, uid, hop);
      assert peers[k] in rt.cluster && peers[k].machine == peers[i].machine;
      forall n | n in rt.cluster && TransitHop(hash, n) == hop ensures n.machine == peers[i].machine {
        assert TransitHop(hash, n)[7] == hop[7];
      }
      assert OnlyOwner(hash, rt.cluster, hop, peers[i].machine);
    }
  }

  /**
   Whatever routes are left from before, every peer is reached if and only if no peer on another machine has a
   prefix of the routing machine, no two peers on different machines share a prefix, and no other machine of
   the cluster has the transit index of a hop in force.
   */
  lemma {:induction false} PlanReachesIff(hash: nat, rt: Router, earlier: seq<Peer>, peers: seq<Node>, plan: seq<Peer>)
    requires PlanFor(rt, peers, plan) && AllFit(earlier)
    ensures EveryNodeReached(hash, rt, earlier, peers, plan)
       <==> OwnPrefixKept(rt, peers, plan) && PrefixesApart(rt, peers, plan) && HopsApart(rt, peers, plan)
  {
    if EveryNodeReached(hash, rt, earlier, peers, plan) {
      forall i | 0 <= i < |peers| && Local(rt, plan[i].prefixIndex) ensures peers[i].machine == rt.machine {
        assert ArrivesAt(hash, rt, Table(hash, earlier, plan), plan[i].prefixIndex, 0, peers[i].machine);
      }
      forall i, j | 0 <= i < |peers| && 0 <= j < |peers| && plan[i].prefixIndex == plan[j].prefixIndex
                    && !Local(rt, plan[i].prefixIndex)
        ensures peers[i].machine == peers[j].machine
      {
        SharedPrefixFails(hash, rt, earlier, peers, plan, i, j);
      }
      forall k: nat, n | InForce(plan, k) && !Local(rt, plan[k].prefixIndex) && n in rt.cluster
                         && Transit(n) == plan[k].transitIndex
        ensures n.machine == peers[k].machine
      {
        SharedHopFails(hash, rt, earlier, peers, plan, k, n);
      }
    }
    if OwnPrefixKept(rt, peers, plan) && PrefixesApart(rt, peers, plan) && HopsApart(rt, peers, plan) {
      forall i, uid | 0 <= i < |peers| && 0 <= uid < GROUP
        ensures ArrivesAt(hash, rt, Table(hash, earlier, plan), plan[i].prefixIndex, uid, peers[i].machine)
      {
        PeerArrives(hash, rt, earlier, peers, plan, i, uid);
      }
    }
  }

  /** Transit addresses tell role and index apart. */
  lemma {:induction false} TransitTells(a: Node, b: Node)
    requires KnownRole(a.role) && KnownRole(b.role) && 1 <= a.shardIndex <= 256 && 1 <= b.shardIndex <= 256
    ensures Transit(a) == Transit(b) <==> SamePlace(a, b)
  {
    TransitIndexInjectiveIff(256);
  }

  /** The two places have role and index in common. */
  predicate SamePlace(a: Node, b: Node) { a.role == b.role && a.shardIndex == b.shardIndex }

  predicate AllIn(peers: seq<Node>, cluster: seq<Node>) { forall p :: p in peers ==> p in cluster }

  // The plan of the workflow: prefixes are shard indices.

  /** The tenant has an address on the machine for each of its places in the tenant's shards. */
  function ShardRouter(cluster: seq<Node>, machine: string, homes: set<string>): Router {
    Router(cluster, machine, set n | n in cluster && n.machine == machine && n.shard in homes :: n.shardIndex)
  }

  /** The route to this peer is not replaced by a later one. */
  predicate LastOfIndex(peers: seq<Node>, k: nat) {
    k < |peers| && forall j :: k < j < |peers| ==> peers[j].shardIndex != peers[k].shardIndex
  }

  /** What the workflow's plan needs of the cluster. */
  ghost predicate IndicesApart(cluster: seq<Node>, machine: string, homes: set<string>, peers: seq<Node>) {
    var rt := ShardRouter(cluster, machine, homes);
    && (forall p :: p in peers && Local(rt, p.shardIndex) ==> p.machine == machine)
    && (forall p, q :: p in peers && q in peers && p.shardIndex == q.shardIndex && !Local(rt, p.shardIndex)
          ==> p.machine == q.machine)
    && (forall k: nat, n :: LastOfIndex(peers, k) && !Local(rt, peers[k].shardIndex) && n in cluster ==>
          SamePlace(n, peers[k]) ==> n.machine == peers[k].machine)
  }

  /**
   With shard indices as prefixes every tenant address of a peer arrives at the peer if and only if no peer on
   another machine has a shard index under which the routing machine has the tenant itself, no two peers on
   different machines share a shard index, and no other machine of the cluster has role and index of a peer
   whose route is in force.
   */
  lemma {:induction false} ShardPlanReachesIff(
    hash: nat, earlier: seq<Peer>, cluster: seq<Node>, machine: string, homes: set<string>, peers: seq<Node>)
    requires InPlan(cluster) && AllIn(peers, cluster) && AllFit(earlier)
    ensures EveryNodeReached(hash, ShardRouter(cluster, machine, homes), earlier, peers, ShardPlan(peers))
       <==> IndicesApart(cluster, machine, homes, peers)
  {
    var rt, plan := ShardRouter(cluster, machine, homes), ShardPlan(peers);
    PeersInPlan(cluster, peers);
    PlanReachesIff(hash, rt, earlier, peers, plan);
    forall k: nat | k < |peers| ensures InForce(plan, k) <==> LastOfIndex(peers, k) {}
    forall k: nat, n | k < |peers| && n in cluster ensures Transit(n) == plan[k].transitIndex <==> SamePlace(n, peers[k]) {
      InCluster(cluster, n);
      InCluster(cluster, peers[k]);
      TransitTells(n, peers[k]);
    }
    ShardConditions(rt, peers);
  }

  lemma {:induction false} ShardConditions(rt: Router, peers: seq<Node>)
    ensures OwnPrefixKept(rt, peers, ShardPlan(peers))
       <==> forall p :: p in peers && Local(rt, p.shardIndex) ==> p.machine == rt.machine
    ensures PrefixesApart(rt, peers, ShardPlan(peers))
       <==> forall p, q :: p in peers && q in peers && p.shardIndex == q.shardIndex && !Local(rt, p.shardIndex)
              ==> p.machine == q.machine
  {
    var plan := ShardPlan(peers);
    if OwnPrefixKept(rt, peers, plan) {
      forall p | p in peers && Local(rt, p.shardIndex) ensures p.machine == rt.machine {
        var i :| 0 <= i < |peers| && peers[i] == p;
        assert plan[i].prefixIndex == p.shardIndex;
      }
    }
    if PrefixesApart(rt, peers, plan) {
      forall p, q | p in peers && q in peers && p.shardIndex == q.shardIndex && !Local(rt, p.shardIndex)
        ensures p.machine == q.machine
      {
        var i :| 0 <= i < |peers| && peers[i] == p;
        var j :| 0 <= j < |peers| && peers[j] == q;
        assert plan[i].prefixIndex == plan[j].prefixIndex;
      }
    }
  }

  lemma {:induction false} InCluster(cluster: seq<Node>, n: Node)
    requires InPlan(cluster) && n in cluster
    ensures KnownRole(n.role) && 1 <= n.shardIndex <= 256
  {
  }

  lemma {:induction false} PeersInPlan(cluster: seq<Node>, peers: seq<Node>)
    requires InPlan(cluster) && AllIn(peers, cluster)
    ensures AllFit(ShardPlan(peers)) && AllFit(TransitPlan(peers))
    ensures forall i :: 0 <= i < |peers| ==> peers[i] in cluster
  {
    forall i | 0 <= i < |peers| ensures peers[i] in cluster && Fits(ShardPlan(peers)[i]) && Fits(TransitPlan(peers)[i]) {
      assert peers[i] in peers;
      InCluster(cluster, peers[i]);
    }
  }

  // The plan with transit indices as prefixes.

  function TransitRouter(cluster: seq<Node>, machine: string, homes: set<string>): Router {
    Router(cluster, machine, set n | n in cluster && n.machine == machine && n.shard in homes :: Transit(n))
  }

  /** The packets for the peer are the routing machine's, and stay there. */
  predicate AtHome(cluster: seq<Node>, machine: string, homes: set<string>, p: Node) {
    p.machine == machine && Local(TransitRouter(cluster, machine, homes), Transit(p))
  }

  /** No other machine of the cluster has role and index of a peer, unless the peer is the routing machine itself. */
  ghost predicate PlacesApart(cluster: seq<Node>, machine: string, homes: set<string>, peers: seq<Node>) {
    forall p, n :: p in peers && n in cluster && SamePlace(p, n) && !AtHome(cluster, machine, homes, p)
      ==> n.machine == p.machine
  }

  lemma {:induction false} TransitNeeds(cluster: seq<Node>, machine: string, homes: set<string>, peers: seq<Node>)
    requires InPlan(cluster) && AllIn(peers, cluster)
    requires var rt := TransitRouter(cluster, machine, homes);
      OwnPrefixKept(rt, peers, TransitPlan(peers)) && PrefixesApart(rt, peers, TransitPlan(peers))
      && HopsApart(rt, peers, TransitPlan(peers))
    ensures PlacesApart(cluster, machine, homes, peers)
  {
    var rt, plan := TransitRouter(cluster, machine, homes), TransitPlan(peers);
    forall p, n | p in peers && n in cluster && SamePlace(p, n) && !AtHome(cluster, machine, homes, p)
      ensures n.machine == p.machine
    {
      var i :| 0 <= i < |peers| && peers[i] == p;
      assert plan[i].prefixIndex == Transit(n);
      assert !Local(rt, plan[i].prefixIndex);
      var k := LastIsInForce(plan, i);
      assert plan[k].transitIndex == plan[k].prefixIndex;
    }
  }

  lemma {:induction false} TransitSuffices(cluster: seq<Node>, machine: string, homes: set<string>, peers: seq<Node>)
    requires InPlan(cluster) && AllIn(peers, cluster) && PlacesApart(cluster, machine, homes, peers)
    ensures var rt := TransitRouter(cluster, machine, homes);
      OwnPrefixKept(rt, peers, TransitPlan(peers)) && PrefixesApart(rt, peers, TransitPlan(peers))
      && HopsApart(rt, peers, TransitPlan(peers))
  {
    var rt, plan := TransitRouter(cluster, machine, homes), TransitPlan(peers);
    forall i, n | 0 <= i < |peers| && n in cluster && Transit(n) == plan[i].prefixIndex
      ensures AtHome(cluster, machine, homes, peers[i]) || n.machine == peers[i].machine
    {
      assert peers[i] in peers;
      InCluster(cluster, n);
      InCluster(cluster, peers[i]);
      TransitTells(n, peers[i]);
      assert SamePlace(peers[i], n) ==> SamePlace(n, peers[i]);
    }
    forall j | 0 <= j < |peers| ensures peers[j] in cluster && Transit(peers[j]) == plan[j].prefixIndex {
      assert peers[j] in peers;
    }
  }

  /**
   With transit indices as prefixes, if and only if no other machine of the cluster has the role and index of
   a peer.
   */
  lemma {:induction false} TransitPlanReachesIff(
    hash: nat, earlier: seq<Peer>, cluster: seq<Node>, machine: string, homes: set<string>, peers: seq<Node>)
    requires InPlan(cluster) && AllIn(peers, cluster) && AllFit(earlier)
    ensures EveryNodeReached(hash, TransitRouter(cluster, machine, homes), earlier, peers, TransitPlan(peers))
       <==> PlacesApart(cluster, machine, homes, peers)
  {
    var rt, plan := TransitRouter(cluster, machine, homes), TransitPlan(peers);
    PeersInPlan(cluster, peers);
    PlanReachesIff(hash, rt, earlier, peers, plan);
    if PlacesApart(cluster, machine, homes, peers) { TransitSuffices(cluster, machine, homes, peers); }
    if OwnPrefixKept(rt, peers, plan) && PrefixesApart(rt, peers, plan) && HopsApart(rt, peers, plan) {
      TransitNeeds(cluster, machine, homes, peers);
    }
  }

  /**
   With transit indices as prefixes, whatever earlier plans left: every tenant address is covered by exactly
   its node's /48, and no transit address and no WireGuard client address by any.
   */
  lemma {:induction false} TransitPlanIsSound(hash: nat, earlier: seq<Peer>, nodes: seq<Node>, low: nat)
    requires InPlan(nodes) && WasPlan(earlier)
    ensures forall n :: n in nodes ==>
      Matching(Table(hash, earlier, TransitPlan(nodes)), AddrGroups(hash, Transit(n), low)) == {Route48(hash, Transit(n))}
    ensures Matching(Table(hash, earlier, TransitPlan(nodes)), AddrGroups(hash, 0, low)) == {}
    ensures Matching(Table(hash, earlier, TransitPlan(nodes)), AddrGroups(hash, 0xFFFF, low)) == {}
  {
    var plan := TransitPlan(nodes);
    forall n | n in nodes
      ensures Matching(Table(hash, earlier, plan), AddrGroups(hash, Transit(n), low)) == {Route48(hash, Transit(n))}
    {
      var i :| 0 <= i < |nodes| && nodes[i] == n;
      LastWithExists(plan, i);
      TableSends(hash, earlier, plan, Transit(n), low, []);
    }
    Uncovered(hash, earlier, plan, 0, low);
    Uncovered(hash, earlier, plan, 0xFFFF, low);
  }

  lemma {:induction false} Uncovered(hash: nat, earlier: seq<Peer>, peers: seq<Peer>, index: nat, low: nat)
    requires AllFit(earlier) && AllFit(peers)
    requires forall p :: p in earlier + peers ==> p.prefixIndex != index
    ensures Matching(Table(hash, earlier, peers), AddrGroups(hash, index, low)) == {}
  {
    assert forall i :: 0 <= i < |earlier| ==> earlier[i] in earlier + peers;
    assert forall i :: 0 <= i < |peers| ==> peers[i] in earlier + peers;
    NoPeerWith(earlier, index);
    NoPeerWith(peers, index);
    TableSends(hash, earlier, peers, index, low, []);
  }

  lemma {:induction false} NoPeerWith(peers: seq<Peer>, index: nat)
    requires forall i :: 0 <= i < |peers| ==> peers[i].prefixIndex != index
    ensures LastWith(peers, index).None?
    decreases |peers|
  {
    if peers == [] {
    } else {
      NoPeerWith(peers[..|peers| - 1], index);
    }
  }

  /**
   The simplest cluster, one web machine and one database machine, each first in its shard: for a tenant on both
   the database's address is one of the web machine's own, so its packets never leave the web machine. With
   transit indices as prefixes they would arrive.
   */
  lemma {:induction false} WebNeverReachesDatabase(hash: nat, web: Node, db: Node, homes: set<string>)
    requires web.role == "web" && db.role == "database" && web.shardIndex == db.shardIndex == 1
    requires web.machine != db.machine && web.shard in homes
    ensures !EveryNodeReached(hash, ShardRouter([web, db], web.machine, homes), [], [db], ShardPlan([db]))
    ensures EveryNodeReached(hash, TransitRouter([web, db], web.machine, homes), [], [db], TransitPlan([db]))
  {
    var cluster := [web, db];
    ShardPlanReachesIff(hash, [], cluster, web.machine, homes, [db]);
    TransitPlanReachesIff(hash, [], cluster, web.machine, homes, [db]);
    assert web in cluster && db in [db];
    assert Local(ShardRouter(cluster, web.machine, homes), db.shardIndex);
  }

  /**
   Web and database machines in one list, as a cache machine has them: one replaces the other's
   route. With transit indices as prefixes both would stay.
   */
  lemma {:induction false} ShardPlanCollides(hash: nat, cache: Node, web: Node, db: Node, homes: set<string>)
    requires cache.role == "valkey" && web.role == "web" && db.role == "database"
    requires cache.shardIndex == 2 && web.shardIndex == db.shardIndex == 1
    requires cache.machine != web.machine && web.machine != db.machine && cache.machine != db.machine
    ensures !EveryNodeReached(hash, ShardRouter([cache, web, db], cache.machine, homes), [], [web, db], ShardPlan([web, db]))
    ensures EveryNodeReached(
      hash, TransitRouter([cache, web, db], cache.machine, homes), [], [web, db], TransitPlan([web, db]))
  {
    var cluster, peers := [cache, web, db], [web, db];
    ShardPlanReachesIff(hash, [], cluster, cache.machine, homes, peers);
    TransitPlanReachesIff(hash, [], cluster, cache.machine, homes, peers);
    assert web in peers && db in peers;
    assert !Local(ShardRouter(cluster, cache.machine, homes), 1);
  }

  /** The first machines of two database shards have one /48 and one transit address: neither plan tells them apart. */
  lemma {:induction false} TwoDatabaseShardsClash(hash: nat, web: Node, a: Node, b: Node, homes: set<string>)
    requires web.role == "web" && web.shardIndex == 2
    requires a.role == b.role == "database" && a.shardIndex == b.shardIndex == 1 && a.shard != b.shard
    requires a.machine != b.machine && web.machine != a.machine && web.machine != b.machine
    ensures TransitHop(hash, a) == TransitHop(hash, b)
    ensures !EveryNodeReached(hash, ShardRouter([web, a, b], web.machine, homes), [], [a, b], ShardPlan([a, b]))
    ensures !EveryNodeReached(hash, TransitRouter([web, a, b], web.machine, homes), [], [a, b], TransitPlan([a, b]))
  {
    var cluster, peers := [web, a, b], [a, b];
    ShardPlanReachesIff(hash, [], cluster, web.machine, homes, peers);
    TransitPlanReachesIff(hash, [], cluster, web.machine, homes, peers);
    assert a in peers && b in peers && a in cluster && b in cluster;
    assert !Local(ShardRouter(cluster, web.machine, homes), 1);
    assert SamePlace(a, b);
  }

  /**
   The first machines of two web shards have one transit address. Neither is in the other shard's lists, yet a
   second machine of the first shard has no hop that is its first machine's alone.
   */
  lemma {:induction false} UnlistedMachineShares(hash: nat, a1: Node, a2: Node, b1: Node, homes: set<string>)
    requires a1.role == a2.role == b1.role == "web" && a1.shardIndex == b1.shardIndex == 1 && a2.shardIndex == 2
    requires a1.machine != a2.machine && a2.machine != b1.machine && a1.machine != b1.machine
    ensures !EveryNodeReached(hash, ShardRouter([a1, a2, b1], a2.machine, homes), [], [a1], ShardPlan([a1]))
    ensures !EveryNodeReached(hash, TransitRouter([a1, a2, b1], a2.machine, homes), [], [a1], TransitPlan([a1]))
  {
    var cluster, peers := [a1, a2, b1], [a1];
    ShardPlanReachesIff(hash, [], cluster, a2.machine, homes, peers);
    TransitPlanReachesIff(hash, [], cluster, a2.machine, homes, peers);
    assert a1 in peers && b1 in cluster && SamePlace(a1, b1) && SamePlace(b1, a1);
    assert LastOfIndex(peers, 0);
    assert !Local(ShardRouter(cluster, a2.machine, homes), 1);
  }

  /**
   Client configurations advertise a service under its node's transit index, while nodes are given
   tenant addresses under their shard index: the two are one address exactly for roles whose transit
   offset is zero, and under the shard plan no route covers any other advertised address.
   */
  lemma {:induction false} AdvertisedIsConfiguredIff(
    sum: nat, hash: nat, earlier: seq<Peer>, nodes: seq<Node>, node: Node, uid: nat)
    requires hash == ClusterHash(sum) && InPlan(nodes) && node in nodes && uid < GROUP
    requires AllFit(earlier) && forall e :: e in earlier ==> e.prefixIndex <= 256
    ensures TenantULA(hash, Transit(node), uid) == TenantULA(hash, node.shardIndex, uid)
       <==> TransitOffset(node.role) == 0
    ensures TransitOffset(node.role) != 0 ==>
      Matching(Table(hash, earlier, ShardPlan(nodes)), AddrGroups(hash, Transit(node), uid)) == {}
  {
    var t := Transit(node);
    AddressesReadBack(sum, hash, t, uid);
    AddressesReadBack(sum, hash, node.shardIndex, uid);
    assert AddrGroups(hash, t, uid)[2] == t && AddrGroups(hash, node.shardIndex, uid)[2] == node.shardIndex;
    if TransitOffset(node.role) != 0 {
      var plan := ShardPlan(nodes);
      assert forall p :: p in earlier + plan ==> p in earlier || p in plan;
      Uncovered(hash, earlier, plan, t, uid);
    }
  }

  // Shard indices.

  datatype Assignment = Assignment(node: string, shard: string, index: nat)

  /** `COALESCE(MAX(shard_index), 0)` of a shard. */
  ghost predicate IsMaxIndex(rows: set<Assignment>, shard: string, max: nat) {
    && (forall r :: r in rows && r.shard == shard ==> r.index <= max)
    && (max == 0 || exists r :: r in rows && r.shard == shard && r.index == max)
  }

  /** No node twice in a shard, no index twice in a shard, indices from 1 up. */
  ghost predicate WellAssigned(rows: set<Assignment>) {
    && (forall r :: r in rows ==> r.index >= 1)
    && (forall a, b :: a in rows && b in rows && a.shard == b.shard && (a.node == b.node || a.index == b.index)
          ==> a == b)
  }

  ghost predicate Has(rows: set<Assignment>, node: string, shard: string) {
    exists r :: r in rows && r.node == node && r.shard == shard
  }

  predicate AllDistinct(shards: seq<string>) {
    forall i, j :: 0 <= i < j < |shards| ==> shards[i] != shards[j]
  }

  lemma {:induction false} HasAfterInsert(before: set<Assignment>, after: set<Assignment>, node: string, shard: string)
    requires exists next: nat :: after == before + {Assignment(node, shard, next)}
    ensures forall s :: Has(after, node, s) <==> Has(before, node, s) || s == shard
  {
    var next: nat :| after == before + {Assignment(node, shard, next)};
    forall s ensures Has(after, node, s) <==> Has(before, node, s) || s == shard {
      if Has(before, node, s) {
        var r :| r in before && r.node == node && r.shard == s;
        assert r in after;
      }
      assert Assignment(node, shard, next) in after;
    }
  }

  lemma {:induction false} RefusedShard(shards: seq<string>, i: nat, rows: set<Assignment>, node: string)
    requires i < |shards| && (Has(rows, node, shards[i]) || shards[i] in shards[..i])
    ensures !AllDistinct(shards) || exists s :: s in shards && Has(rows, node, s)
  {
    if !Has(rows, node, shards[i]) {
      var k :| 0 <= k < i && shards[k] == shards[i];
    }
  }

  /** The rows that were added have the next index of their shard. */
  ghost predicate NewIndices(before: set<Assignment>, after: set<Assignment>) {
    forall r :: r in after && r !in before ==> r.index >= 1 && IsMaxIndex(before, r.shard, r.index - 1)
  }

  /** The shards before the n-th were assigned, which is taken already or listed before. */
  ghost predicate StoppedAt(before: set<Assignment>, after: set<Assignment>, node: string, shards: seq<string>, n: nat) {
    && n < |shards| && (shards[n] in shards[..n] || Has(before, node, shards[n]))
    && forall s :: Has(after, node, s) <==> Has(before, node, s) || s in shards[..n]
  }

  /** Rows of other shards do not change the next index of this one. */
  lemma {:induction false} NextIndexAsBefore(
    first: set<Assignment>, before: set<Assignment>, after: set<Assignment>, node: string, shard: string)
    requires NewIndices(first, before) && (forall r :: r in first ==> r in before)
    requires forall r :: r in before && r !in first ==> r.shard != shard
    requires exists next: nat :: IsMaxIndex(before, shard, next) && after == before + {Assignment(node, shard, next + 1)}
    ensures NewIndices(first, after)
  {
    var next: nat :| IsMaxIndex(before, shard, next) && after == before + {Assignment(node, shard, next + 1)};
    assert IsMaxIndex(first, shard, next) by {
      if next > 0 {
        var r :| r in before && r.shard == shard && r.index == next;
        assert r in first;
      }
    }
  }

  /** The first shards have been assigned. */
  ghost predicate Progress(before: set<Assignment>, after: set<Assignment>, node: string, shards: seq<string>, i: nat) {
    && i <= |shards| && NewIndices(before, after)
    && (forall r :: r in before ==> r in after)
    && (forall r :: r in after && r !in before ==> r.node == node && r.shard in shards[..i])
    && (forall s :: Has(after, node, s) <==> Has(before, node, s) || s in shards[..i])
    && AllDistinct(shards[..i]) && (forall s :: s in shards[..i] ==> !Has(before, node, s))
  }

  lemma {:induction false} ProgressStep(
    first: set<Assignment>, before: set<Assignment>, after: set<Assignment>, node: string, shards: seq<string>, i: nat)
    requires i < |shards| && Progress(first, before, node, shards, i) && !Has(before, node, shards[i])
    requires exists next: nat ::
      IsMaxIndex(before, shards[i], next) && after == before + {Assignment(node, shards[i], next + 1)}
    ensures Progress(first, after, node, shards, i + 1)
  {
    assert shards[..i + 1] == shards[..i] + [shards[i]];
    HasAfterInsert(before, after, node, shards[i]);
    NextIndexAsBefore(first, before, after, node, shards[i]);
  }

  class NodeService {
    var rows: set<Assignment>

    method NextIndex(shard: string) returns (next: nat)
      ensures next >= 1 && IsMaxIndex(rows, shard, next - 1)
    {
      var left, max := rows, 0;
      while left != {}
        invariant left <= rows
        invariant IsMaxIndex(rows - left, shard, max)
        decreases left
      {
        var r :| r in left;
        ghost var seen := rows - left;
        ghost var before := max;
        left := left - {r};
        if r.shard == shard && r.index > max { max := r.index; }
        assert rows - left == seen + {r};
        assert max == 0 || exists w :: w in rows - left && w.shard == shard && w.index == max by {
          if max == before && max != 0 {
            var w :| w in seen && w.shard == shard && w.index == max;
            assert w in rows - left;
          } else if max != 0 {
            assert r in rows - left;
          }
        }
      }
      assert rows - left == rows;
      next := max + 1;
    }

    /** Inserts a row with the next index; a second row for the pair violates the primary key. */
    method AssignShard(node: string, shard: string) returns (ok: bool)
      requires WellAssigned(rows)
      modifies this
      ensures WellAssigned(rows)
      ensures ok == !Has(old(rows), node, shard)
      ensures !ok ==> rows == old(rows)
      ensures ok ==> exists next: nat ::
        IsMaxIndex(old(rows), shard, next) && rows == old(rows) + {Assignment(node, shard, next + 1)}
    {
      var next := NextIndex(shard);
      ok := forall r :: r in rows ==> r.node != node || r.shard != shard;
      if ok {
        rows := rows + {Assignment(node, shard, next)};
        assert IsMaxIndex(old(rows), shard, next - 1);
      }
    }

    method AssignShards(node: string, shards: seq<string>) returns (ok: bool)
      requires WellAssigned(rows)
      modifies this
      ensures WellAssigned(rows)
      ensures forall r :: r in old(rows) ==> r in rows
      ensures forall r :: r in rows && r !in old(rows) ==> r.node == node
      ensures ok <==> AllDistinct(shards) && forall s :: s in shards ==> !Has(old(rows), node, s)
      ensures ok ==> forall s :: Has(rows, node, s) <==> Has(old(rows), node, s) || s in shards
      ensures NewIndices(old(rows), rows)
      ensures !ok ==> exists n :: StoppedAt(old(rows), rows, node, shards, n)
    {
      for i := 0 to |shards|
        invariant WellAssigned(rows) && Progress(old(rows), rows, node, shards, i)
      {
        ghost var before := rows;
        ok := AssignShard(node, shards[i]);
        if !ok {
          RefusedShard(shards, i, old(rows), node);
          assert StoppedAt(old(rows), rows, node, shards, i);
          return;
        }
        ProgressStep(old(rows), before, rows, node, shards, i);
      }
      assert shards[..|shards|] == shards;
      ok := true;
    }

    /** Re-assigning a node frees its indices first. */
    method Reassign(node: string, shards: seq<string>) returns (ok: bool)
      requires WellAssigned(rows)
      modifies this
      ensures WellAssigned(rows)
      ensures forall r: Assignment :: r.node != node ==> (r in rows <==> r in old(rows))
      ensures ok <==> AllDistinct(shards)
      ensures ok ==> forall s :: Has(rows, node, s) <==> s in shards
    {
      rows := set r | r in rows && r.node != node;
      ok := AssignShards(node, shards);
    }
  }

  // The plan on the shards as they are assigned.

  /** Nodes of one shard have distinct transit indices. */
  lemma {:induction false} ShardNodesDistinct(rows: set<Assignment>, role: string, a: Assignment, b: Assignment)
    requires WellAssigned(rows) && a in rows && b in rows && a.shard == b.shard && a.node != b.node
    ensures TransitIndex(role, a.index) != TransitIndex(role, b.index)
  {
  }

  /** The places of the cluster are rows of the table of assignments. */
  ghost predicate FromRows(cluster: seq<Node>, rows: set<Assignment>) {
    forall n :: n in cluster ==> Assignment(n.machine, n.shard, n.shardIndex) in rows
  }

  /** As the indices are assigned, two places of one shard with one index are one machine's. */
  lemma {:induction false} IndexTellsMachine(cluster: seq<Node>, rows: set<Assignment>, a: Node, b: Node)
    requires WellAssigned(rows) && FromRows(cluster, rows) && a in cluster && b in cluster
    requires a.shard == b.shard && a.shardIndex == b.shardIndex
    ensures a.machine == b.machine
  {
    assert Assignment(a.machine, a.shard, a.shardIndex) in rows && Assignment(b.machine, b.shard, b.shardIndex) in rows;
  }

  /** No two shards of the cluster have one role. */
  ghost predicate OneShardPerRole(cluster: seq<Node>) {
    forall a, b :: a in cluster && b in cluster && a.role == b.role ==> a.shard == b.shard
  }

  /** In a cluster with one shard for each role the transit plan serves every machine, whatever it routes to. */
  lemma {:induction false} OneShardPerRoleReached(
    hash: nat, earlier: seq<Peer>, cluster: seq<Node>, machine: string, homes: set<string>, peers: seq<Node>,
    rows: set<Assignment>)
    requires WellAssigned(rows) && FromRows(cluster, rows) && OneShardPerRole(cluster)
    requires InPlan(cluster) && AllIn(peers, cluster) && AllFit(earlier)
    ensures EveryNodeReached(hash, TransitRouter(cluster, machine, homes), earlier, peers, TransitPlan(peers))
  {
    forall p, n | p in peers && n in cluster && SamePlace(p, n) ensures n.machine == p.machine {
      IndexTellsMachine(cluster, rows, p, n);
    }
    TransitPlanReachesIff(hash, earlier, cluster, machine, homes, peers);
  }

  /** In a cluster with a single shard the workflow's plan does. */
  lemma {:induction false} OneShardReached(
    hash: nat, earlier: seq<Peer>, cluster: seq<Node>, machine: string, homes: set<string>, peers: seq<Node>,
    rows: set<Assignment>)
    requires WellAssigned(rows) && FromRows(cluster, rows)
    requires forall a, b :: a in cluster && b in cluster ==> a.shard == b.shard
    requires InPlan(cluster) && AllIn(peers, cluster) && AllFit(earlier)
    ensures EveryNodeReached(hash, ShardRouter(cluster, machine, homes), earlier, peers, ShardPlan(peers))
  {
    forall p, n | p in peers && n in cluster && p.shardIndex == n.shardIndex ensures n.machine == p.machine {
      IndexTellsMachine(cluster, rows, p, n);
    }
    ShardPlanReachesIff(hash, earlier, cluster, machine, homes, peers);
    assert forall k: nat :: k < |peers| ==> peers[k] in peers;
  }
}
