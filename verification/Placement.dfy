/**
 Least-loaded placement of daemons (internal/core/daemon.go:21-56): a new daemon goes to the active node of
 the tenant's shard with the fewest daemons, the smaller id winning ties.
 */
module Placement {
  import opened Text
  import opened Ordering

  type Loads = map<string, nat>

  /** The active nodes and the shards each serves. */
  type Shards = map<string, set<string>>

  function NodesOf(shards: Shards, shard: string): set<string> {
    set n | n in shards && shard in shards[n]
  }

  /** The node the query puts first. */
  predicate First(load: Loads, nodes: set<string>, n: string)
    requires forall m :: m in nodes ==> m in load
  {
    n in nodes && forall m :: m in nodes ==> load[n] < load[m] || (load[n] == load[m] && (n == m || Less(n, m)))
  }

  class DaemonService {
    const shards: Shards
    var load: Loads

    predicate Valid()
      reads this
    {
      forall n :: n in shards ==> n in load
    }

    /** A tenant without a shard gets a daemon without a node; a shard without active nodes is an error. */
    method Create(shard: Option<string>) returns (ok: bool, node: Option<string>)
      requires Valid()
      modifies this
      ensures Valid()
      ensures shard.None? ==> ok && node.None?
      ensures shard.Some? ==> ok == (NodesOf(shards, shard.value) != {})
      ensures !ok || node.None? ==> load == old(load)
      ensures shard.Some? && ok ==>
        && node.Some? && First(old(load), NodesOf(shards, shard.value), node.value)
        && load == old(load)[node.value := old(load)[node.value] + 1]
      ensures shard.Some? && ok ==>
        && node.value in shards && shard.value in shards[node.value]
        && forall m :: m in shards && shard.value in shards[m] && m != node.value ==>
             old(load)[node.value] < old(load)[m] || (old(load)[node.value] == old(load)[m] && Less(node.value, m))
    {
      if shard.None? { return true, None; }
      var nodes := NodesOf(shards, shard.value);
      if nodes == {} { return false, None; }
      FirstExists(load, nodes);
      var n :| n in nodes && First(load, nodes, n);
      load := load[n := load[n] + 1];
      return true, Some(n);
    }
  }

  lemma {:induction false} FirstExists(load: Loads, nodes: set<string>)
    requires nodes != {} && forall m :: m in nodes ==> m in load
    ensures exists n :: First(load, nodes, n)
    decreases |nodes|
  {
    var x :| x in nodes;
    var rest := nodes - {x};
    if rest == {} {
      assert forall m :: m in nodes ==> m == x || m in rest;
      assert First(load, nodes, x);
    } else {
      FirstExists(load, rest);
      var y :| First(load, rest, y);
      LessTotal(x, y);
      if load[x] < load[y] || (load[x] == load[y] && Less(x, y)) {
        forall m | m in nodes ensures load[x] < load[m] || (load[x] == load[m] && (x == m || Less(x, m))) {
          if m != x && m != y && load[x] == load[m] { LessTransitive(x, y, m); }
        }
        assert First(load, nodes, x);
      } else {
        assert First(load, nodes, y);
      }
    }
  }

  // Runs of creations, for all shards.

  datatype Placed = Placed(shard: string, node: string)

  predicate Step(shards: Shards, load: Loads, p: Placed, load': Loads)
    requires forall n :: n in shards ==> n in load
  {
    First(load, NodesOf(shards, p.shard), p.node) && load' == load[p.node := load[p.node] + 1]
  }

  ghost predicate Course(shards: Shards, loads: seq<Loads>, placed: seq<Placed>) {
    && |loads| == |placed| + 1
    && (forall i, n :: 0 <= i < |loads| && n in shards ==> n in loads[i])
    && forall i :: 0 <= i < |placed| ==> Step(shards, loads[i], placed[i], loads[i + 1])
  }

  /** What is placed on the shard's nodes is placed for the shard. */
  predicate OwnOnly(shards: Shards, placed: seq<Placed>, shard: string) {
    forall i :: 0 <= i < |placed| && placed[i].node in NodesOf(shards, shard) ==> placed[i].shard == shard
  }

  /** Nodes that serve no other shard are enough for that. */
  lemma {:induction false} DedicatedNodesAreOwn(shards: Shards, loads: seq<Loads>, placed: seq<Placed>, shard: string)
    requires Course(shards, loads, placed) && forall n :: n in NodesOf(shards, shard) ==> shards[n] == {shard}
    ensures OwnOnly(shards, placed, shard)
  {
    forall i | 0 <= i < |placed| && placed[i].node in NodesOf(shards, shard) ensures placed[i].shard == shard {
      assert Step(shards, loads[i], placed[i], loads[i + 1]);
    }
  }

  /** No two of the nodes differ by more than `bound`. */
  predicate SpreadWithin(load: Loads, nodes: set<string>, bound: nat)
    requires forall n :: n in nodes ==> n in load
  {
    forall m, n :: m in nodes && n in nodes ==> load[m] - load[n] <= bound
  }

  lemma {:induction false} StepKeepsSpread(
    shards: Shards, load: Loads, p: Placed, load': Loads, shard: string, bound: nat)
    requires (forall n :: n in shards ==> n in load) && Step(shards, load, p, load')
    requires p.node in NodesOf(shards, shard) ==> p.shard == shard
    requires bound >= 1 && SpreadWithin(load, NodesOf(shards, shard), bound)
    ensures SpreadWithin(load', NodesOf(shards, shard), bound)
  {
    var nodes := NodesOf(shards, shard);
    forall m, n | m in nodes && n in nodes ensures load'[m] - load'[n] <= bound {
      if m == p.node && m != n {
        assert p.shard == shard;
        assert load[m] <= load[n];
      }
    }
  }

  /** As long as its nodes take nothing for other shards, a shard's spread never exceeds what it was, or 1. */
  lemma {:induction false} SpreadStaysBounded(
    shards: Shards, loads: seq<Loads>, placed: seq<Placed>, shard: string, bound: nat, n: nat)
    requires Course(shards, loads, placed) && OwnOnly(shards, placed, shard) && n <= |placed|
    requires bound >= 1 && SpreadWithin(loads[0], NodesOf(shards, shard), bound)
    ensures SpreadWithin(loads[n], NodesOf(shards, shard), bound)
  {
    if n == 0 {
    } else {
      SpreadStaysBounded(shards, loads, placed, shard, bound, n - 1);
      StepKeepsSpread(shards, loads[n - 1], placed[n - 1], loads[n], shard, bound);
    }
  }

  /** Node `a` serves both shards, node `b` only the first. */
  function TwoShards(a: string, b: string, s: string, t: string): Shards { map[a := {s, t}, b := {s}] }

  lemma {:induction false} SharedStep(a: string, b: string, s: string, t: string, k: nat)
    requires a != b && s != t
    ensures Step(TwoShards(a, b, s, t), map[a := k, b := 0], Placed(t, a), map[a := k + 1, b := 0])
  {
    assert NodesOf(TwoShards(a, b, s, t), t) == {a};
    assert map[a := k, b := 0][a := k + 1] == map[a := k + 1, b := 0];
  }

  /** A node that serves two shards can take any number of daemons for the one; the other's spread grows with it. */
  lemma {:induction false} SharedNodeUnbounded(a: string, b: string, s: string, t: string, k: nat)
    returns (loads: seq<Loads>, placed: seq<Placed>)
    requires a != b && s != t
    ensures Course(TwoShards(a, b, s, t), loads, placed) && |placed| == k
    ensures SpreadWithin(loads[0], NodesOf(TwoShards(a, b, s, t), s), 0)
    ensures loads[k] == map[a := k, b := 0]
    ensures k > 0 ==> !SpreadWithin(loads[k], NodesOf(TwoShards(a, b, s, t), s), k - 1)
  {
    assert a in NodesOf(TwoShards(a, b, s, t), s) && b in NodesOf(TwoShards(a, b, s, t), s);
    loads, placed := [map[a := 0, b := 0]], [];
    if k > 0 {
      loads, placed := SharedNodeUnbounded(a, b, s, t, k - 1);
      SharedStep(a, b, s, t, k - 1);
      loads, placed := loads + [map[a := k, b := 0]], placed + [Placed(t, a)];
    }
  }

  // How fast it evens out.

  /** What is missing to `level` on all listed nodes together. */
  function Deficit(load: Loads, ids: seq<string>, level: int): int
    requires forall n :: n in ids ==> n in load
  {
    if ids == [] then 0 else Deficit(load, ids[..|ids| - 1], level) + (level - load[ids[|ids| - 1]])
  }

  predicate Distinct(ids: seq<string>) { forall i, j :: 0 <= i < j < |ids| ==> ids[i] != ids[j] }

  lemma {:induction false} DeficitElsewhere(load: Loads, ids: seq<string>, level: int, node: string)
    requires (forall n :: n in ids ==> n in load) && node in load && node !in ids
    ensures Deficit(load[node := load[node] + 1], ids, level) == Deficit(load, ids, level)
    decreases |ids|
  {
    if ids == [] {
    } else {
      DeficitElsewhere(load, ids[..|ids| - 1], level, node);
    }
  }

  lemma {:induction false} DeficitDrops(load: Loads, ids: seq<string>, level: int, node: string)
    requires (forall n :: n in ids ==> n in load) && Distinct(ids) && node in ids
    ensures Deficit(load[node := load[node] + 1], ids, level) == Deficit(load, ids, level) - 1
    decreases |ids|
  {
    var front, last := ids[..|ids| - 1], ids[|ids| - 1];
    assert ids == front + [last];
    if last == node {
      assert node !in front;
      DeficitElsewhere(load, front, level, node);
    } else {
      DeficitDrops(load, front, level, node);
    }
  }

  predicate AtMost(load: Loads, ids: seq<string>, level: int)
    requires forall n :: n in ids ==> n in load
  {
    forall n :: n in ids ==> load[n] <= level
  }

  /** Nothing is missing exactly when all nodes are at the level. */
  lemma {:induction false} DeficitZero(load: Loads, ids: seq<string>, level: int)
    requires (forall n :: n in ids ==> n in load) && AtMost(load, ids, level)
    ensures Deficit(load, ids, level) >= 0
    ensures Deficit(load, ids, level) == 0 <==> forall n :: n in ids ==> load[n] == level
    decreases |ids|
  {
    if ids == [] {
    } else {
      var front, last := ids[..|ids| - 1], ids[|ids| - 1];
      assert ids == front + [last];
      DeficitZero(load, front, level);
      assert last in ids;
    }
  }

  function CountFor(placed: seq<Placed>, shard: string): nat {
    if placed == [] then 0
    else CountFor(placed[..|placed| - 1], shard) + if placed[|placed| - 1].shard == shard then 1 else 0
  }

  /** The listing of a shard's nodes. */
  ghost predicate Lists(ids: seq<string>, nodes: set<string>) {
    Distinct(ids) && forall n :: n in ids <==> n in nodes
  }

  lemma {:induction false} FillStep(
    shards: Shards, load: Loads, p: Placed, load': Loads, shard: string, ids: seq<string>, level: int)
    requires (forall n :: n in shards ==> n in load) && Step(shards, load, p, load')
    requires p.node in NodesOf(shards, shard) ==> p.shard == shard
    requires Lists(ids, NodesOf(shards, shard)) && AtMost(load, ids, level)
    requires p.shard == shard ==> Deficit(load, ids, level) > 0
    ensures AtMost(load', ids, level)
    ensures Deficit(load', ids, level) == Deficit(load, ids, level) - if p.shard == shard then 1 else 0
  {
    if p.shard == shard {
      DeficitZero(load, ids, level);
      assert exists n :: n in ids && load[n] < level;
      DeficitDrops(load, ids, level, p.node);
    } else {
      DeficitElsewhere(load, ids, level, p.node);
    }
  }

  /** Until the deficit is used up, every creation in the shard fills a gap below the level. */
  lemma {:induction false} Filling(
    shards: Shards, loads: seq<Loads>, placed: seq<Placed>, shard: string, ids: seq<string>, level: int, n: nat)
    requires Course(shards, loads, placed) && OwnOnly(shards, placed, shard)
    requires n <= |placed| && Lists(ids, NodesOf(shards, shard))
    requires AtMost(loads[0], ids, level)
    requires CountFor(placed[..n], shard) <= Deficit(loads[0], ids, level)
    ensures AtMost(loads[n], ids, level)
    ensures Deficit(loads[n], ids, level) == Deficit(loads[0], ids, level) - CountFor(placed[..n], shard)
  {
    if n == 0 {
    } else {
      assert placed[..n][..n - 1] == placed[..n - 1];
      Filling(shards, loads, placed, shard, ids, level, n - 1);
      FillStep(shards, loads[n - 1], placed[n - 1], loads[n], shard, ids, level);
    }
  }

  /** After exactly as many creations in the shard as were missing to its fullest node, all nodes are level. */
  lemma {:induction false} LevelAfterDeficit(
    shards: Shards, loads: seq<Loads>, placed: seq<Placed>, shard: string, ids: seq<string>, level: int, n: nat)
    requires Course(shards, loads, placed) && OwnOnly(shards, placed, shard)
    requires n <= |placed| && Lists(ids, NodesOf(shards, shard))
    requires AtMost(loads[0], ids, level)
    requires CountFor(placed[..n], shard) == Deficit(loads[0], ids, level)
    ensures forall m :: m in NodesOf(shards, shard) ==> loads[n][m] == level
  {
    Filling(shards, loads, placed, shard, ids, level, n);
    DeficitZero(loads[n], ids, level);
  }

  lemma {:induction false} CountReaches(placed: seq<Placed>, shard: string, k: nat, n: nat)
    requires n <= |placed| && CountFor(placed[..n], shard) >= k
    ensures exists i :: 0 <= i <= n && CountFor(placed[..i], shard) == k
    decreases n
  {
    if CountFor(placed[..n], shard) != k {
      assert placed[..n][..n - 1] == placed[..n - 1];
      CountReaches(placed, shard, k, n - 1);
    }
  }

  /** From the moment the deficit is used up the spread is at most 1, for good. */
  lemma {:induction false} SpreadAtMostOneAfterDeficit(
    shards: Shards, loads: seq<Loads>, placed: seq<Placed>, shard: string, ids: seq<string>, level: int)
    requires Course(shards, loads, placed) && OwnOnly(shards, placed, shard)
    requires Lists(ids, NodesOf(shards, shard)) && AtMost(loads[0], ids, level)
    requires CountFor(placed, shard) >= Deficit(loads[0], ids, level)
    ensures SpreadWithin(loads[|placed|], NodesOf(shards, shard), 1)
  {
    DeficitZero(loads[0], ids, level);
    assert placed[..|placed|] == placed;
    CountReaches(placed, shard, Deficit(loads[0], ids, level), |placed|);
    var i :| 0 <= i <= |placed| && CountFor(placed[..i], shard) == Deficit(loads[0], ids, level);
    LevelAfterDeficit(shards, loads, placed, shard, ids, level, i);
    CourseFrom(shards, loads, placed, i);
    SpreadStaysBounded(shards, loads[i..], placed[i..], shard, 1, |placed| - i);
  }

  lemma {:induction false} CourseFrom(shards: Shards, loads: seq<Loads>, placed: seq<Placed>, i: nat)
    requires Course(shards, loads, placed) && i <= |placed|
    ensures Course(shards, loads[i..], placed[i..])
  {
    forall j | 0 <= j < |placed[i..]| ensures Step(shards, loads[i..][j], placed[i..][j], loads[i..][j + 1]) {
      assert Step(shards, loads[i + j], placed[i + j], loads[i + j + 1]);
    }
  }
}
