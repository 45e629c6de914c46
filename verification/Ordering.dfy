/** The order in which text keys are sorted, and the sorted listing of a finite set of keys. */
module Ordering {

  /** Lexicographic order by code point. */
  predicate Less(a: string, b: string) {
    if b == "" then false
    else if a == "" then true
    else if a[0] != b[0] then a[0] < b[0]
    else Less(a[1..], b[1..])
  }

  lemma {:induction false} LessIrreflexive(a: string)
    ensures !Less(a, a)
  {
    if a == "" {
    } else {
      LessIrreflexive(a[1..]);
    }
  }

  lemma {:induction false} LessTransitive(a: string, b: string, c: string)
    requires Less(a, b) && Less(b, c)
    ensures Less(a, c)
  {
    if a != "" && a[0] == b[0] == c[0] { LessTransitive(a[1..], b[1..], c[1..]); }
  }

  lemma {:induction false} LessTotal(a: string, b: string)
    ensures a == b || Less(a, b) || Less(b, a)
  {
    if a != "" && b != "" && a[0] == b[0] {
      LessTotal(a[1..], b[1..]);
      assert a == [a[0]] + a[1..] && b == [b[0]] + b[1..];
    }
  }

  /** The first place where two texts differ decides, and a text comes before its continuations. */
  lemma {:induction false} LessIsLexicographic(a: string, b: string)
    ensures Less(a, b) <==> exists k :: 0 <= k <= |a| && k < |b| && a[..k] == b[..k] && (k == |a| || a[k] < b[k])
  {
    forall k | 0 < k <= |a| && k < |b| && a[..k] == b[..k] ensures a[0] == b[0] {
      assert a[..k][0] == b[..k][0];
    }
    if a == "" || b == "" || a[0] != b[0] {
      if Less(a, b) { assert a[..0] == b[..0]; }
    } else {
      LessIsLexicographic(a[1..], b[1..]);
      if Less(a, b) {
        var k :| 0 <= k <= |a[1..]| && k < |b[1..]| && a[1..][..k] == b[1..][..k] && (k == |a[1..]| || a[1..][k] < b[1..][k]);
        assert a[..k + 1] == [a[0]] + a[1..][..k] && b[..k + 1] == [b[0]] + b[1..][..k];
      }
      if k :| 0 <= k <= |a| && k < |b| && a[..k] == b[..k] && (k == |a| || a[k] < b[k]) {
        assert k > 0 && a[1..][..k - 1] == a[..k][1..] && b[1..][..k - 1] == b[..k][1..];
      }
    }
  }

  predicate Below(a: string, keys: set<string>) {
    forall k :: k in keys ==> k == a || Less(a, k)
  }

  lemma {:induction false} LeastExists(keys: set<string>)
    requires keys != {}
    ensures exists a :: a in keys && Below(a, keys)
    decreases |keys|
  {
    var x :| x in keys;
    var rest := keys - {x};
    if rest == {} {
      assert forall k :: k in keys ==> k == x || k in rest;
      assert Below(x, keys);
    } else {
      LeastExists(rest);
      var y :| y in rest && Below(y, rest);
      LessTotal(x, y);
      if Less(x, y) {
        forall k | k in keys ensures k == x || Less(x, k) {
          if k != x && k != y { LessTransitive(x, y, k); }
        }
        assert Below(x, keys);
      } else {
        assert Below(y, keys);
      }
    }
  }

  ghost function Least(keys: set<string>): (a: string)
    requires keys != {}
    ensures a in keys && Below(a, keys)
  {
    LeastExists(keys);
    var a :| a in keys && Below(a, keys);
    a
  }

  lemma {:induction false} LeastIsUnique(a: string, keys: set<string>)
    requires a in keys && Below(a, keys)
    ensures a == Least(keys)
  {
    var b := Least(keys);
    if a != b {
      LessTransitive(a, b, a);
      LessIrreflexive(a);
    }
  }

  /** The keys in increasing order. */
  ghost function Sorted(keys: set<string>): (q: seq<string>)
    ensures |q| == |keys|
    ensures forall k :: k in q <==> k in keys
    decreases |keys|
  {
    if keys == {} then [] else [Least(keys)] + Sorted(keys - {Least(keys)})
  }

  predicate Increasing(q: seq<string>) {
    forall i, j :: 0 <= i < j < |q| ==> Less(q[i], q[j])
  }

  lemma {:induction false} SortedIncreasing(keys: set<string>)
    ensures Increasing(Sorted(keys))
    decreases |keys|
  {
    if keys != {} {
      var rest := keys - {Least(keys)};
      SortedIncreasing(rest);
      var q := Sorted(keys);
      assert q[1..] == Sorted(rest);
      forall i, j | 0 <= i < j < |q| ensures Less(q[i], q[j]) {
        assert q[j] == q[1..][j - 1];
        if i > 0 { assert q[i] == q[1..][i - 1]; }
        assert q[j] in rest;
      }
    }
  }

  /** An increasing listing is the sorted listing of its members. */
  lemma {:induction false} IncreasingIsSorted(q: seq<string>, keys: set<string>)
    requires Increasing(q)
    requires forall k :: k in q <==> k in keys
    ensures q == Sorted(keys)
    decreases |q|
  {
    if q == [] {
      assert keys == {};
    } else {
      assert q[0] in keys;
      forall k | k in keys ensures k == q[0] || Less(q[0], k) {
        var i :| 0 <= i < |q| && q[i] == k;
      }
      LeastIsUnique(q[0], keys);
      var rest := keys - {q[0]};
      forall k ensures k in q[1..] <==> k in rest {
        if k in q[1..] {
          var i :| 0 <= i < |q| - 1 && q[1..][i] == k;
          assert k == q[i + 1];
          LessIrreflexive(k);
        }
      }
      IncreasingIsSorted(q[1..], rest);
    }
  }

  lemma {:induction false} SortedFirst(a: string, keys: set<string>)
    requires a in keys && Below(a, keys)
    ensures Sorted(keys) == [a] + Sorted(keys - {a})
  {
    LeastIsUnique(a, keys);
  }

  /** What ORDER BY on a key gives. */
  method Ordered(keys: set<string>) returns (q: seq<string>)
    ensures q == Sorted(keys)
    decreases |keys|
  {
    if keys == {} { return []; }
    LeastExists(keys);
    var a :| a in keys && Below(a, keys);
    SortedFirst(a, keys);
    var rest := Ordered(keys - {a});
    return [a] + rest;
  }
}
