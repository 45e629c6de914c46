/**
 Which zone a host name belongs to: the walk up the labels in `findZoneForFQDN` and the SQL filter that
 finds the names under a new zone (internal/activity/dns.go).
 */
module DnsZones {
  import opened Text

  /** `f` is the zone itself or a name below it, on a label boundary. */
  predicate UnderZone(f: string, z: string) {
    f == z || HasSuffix(f, "." + z)
  }

  /** The i-th name the walk looks up: all labels from the i-th on. */
  function Candidate(f: string, i: nat): string
    requires i < |Split(f, '.')|
  {
    Join(Split(f, '.')[i..], ".")
  }

  // The candidates are exactly the label-boundary suffixes.

  lemma {:induction false} JoinAtBoundary(parts: seq<string>, i: nat)
    requires 0 < i < |parts|
    ensures Join(parts, ".") == Join(parts[..i], ".") + ("." + Join(parts[i..], "."))
    decreases i
  {
    if i == 1 {
      assert parts[..1] == [parts[0]];
    } else {
      JoinAtBoundary(parts[1..], i - 1);
      assert parts[1..][..i - 1] == parts[..i][1..] && parts[1..][i - 1..] == parts[i..];
    }
  }

  /** What one more character in front does to the parts. */
  function Prepend(c: char, parts: seq<string>): seq<string>
    requires parts != []
  {
    if c == '.' then [""] + parts else [[c] + parts[0]] + parts[1..]
  }

  lemma {:induction false} PrependAppend(c: char, parts: seq<string>, more: seq<string>)
    requires parts != []
    ensures Prepend(c, parts + more) == Prepend(c, parts) + more
  {
    assert (parts + more)[1..] == parts[1..] + more;
  }

  lemma {:induction false} SplitAtBoundary(u: string, z: string)
    ensures Split(u + ("." + z), '.') == Split(u, '.') + Split(z, '.')
  {
    var s := u + ("." + z);
    if u == "" {
      assert s[1..] == z;
    } else {
      assert s[0] == u[0] && s[1..] == u[1..] + ("." + z);
      SplitAtBoundary(u[1..], z);
      PrependAppend(u[0], Split(u[1..], '.'), Split(z, '.'));
      assert Split(u, '.') == Prepend(u[0], Split(u[1..], '.'));
      assert Split(s, '.') == Prepend(u[0], Split(s[1..], '.'));
    }
  }

  lemma {:induction false} CandidateIsSuffix(f: string, i: nat)
    requires i < |Split(f, '.')|
    ensures UnderZone(f, Candidate(f, i))
  {
    var parts := Split(f, '.');
    JoinSplit(f, '.');
    if i == 0 {
      assert parts[0..] == parts;
    } else {
      JoinAtBoundary(parts, i);
      var u, z := Join(parts[..i], "."), Join(parts[i..], ".");
      assert f == u + ("." + z);
      assert f[|f| - |"." + z|..] == "." + z;
    }
  }

  lemma {:induction false} SuffixIsCandidate(f: string, z: string)
    requires UnderZone(f, z)
    ensures exists i :: 0 <= i < |Split(f, '.')| && Candidate(f, i) == z
  {
    var parts := Split(f, '.');
    JoinSplit(z, '.');
    if f == z {
      assert parts[0..] == parts;
      assert Candidate(f, 0) == z;
    } else {
      var u := f[..|f| - |"." + z|];
      assert f == u + ("." + z);
      SplitAtBoundary(u, z);
      var i := |Split(u, '.')|;
      assert parts[i..] == Split(z, '.');
      assert Candidate(f, i) == z;
    }
  }

  lemma {:induction false} LaterCandidateIsShorter(f: string, i: nat, j: nat)
    requires i < j < |Split(f, '.')|
    ensures |Candidate(f, j)| < |Candidate(f, i)|
  {
    var parts := Split(f, '.')[i..];
    assert parts[j - i..] == Split(f, '.')[j..];
    JoinAtBoundary(parts, j - i);
  }

  /** The first candidate from the i-th on that is a zone, or "". */
  function FindFrom(zones: set<string>, f: string, i: nat): string
    requires i <= |Split(f, '.')|
    decreases |Split(f, '.')| - i
  {
    if i == |Split(f, '.')| then ""
    else if Candidate(f, i) in zones then Candidate(f, i)
    else FindFrom(zones, f, i + 1)
  }

  function FindZone(zones: set<string>, f: string): string { FindFrom(zones, f, 0) }

  /**
   Returns the longest active zone above the name, or "" when there is none. (A zone with an empty name
   could not be told from no zone.)
   */
  method FindZoneForFQDN(zones: set<string>, fqdn: string) returns (name: string)
    ensures name == FindZone(zones, fqdn)
    ensures name != "" ==> name in zones && UnderZone(fqdn, name)
    ensures forall z :: z in zones && z != "" && UnderZone(fqdn, z) ==> name != "" && |z| <= |name|
    ensures forall z :: z in zones && UnderZone(fqdn, z) && |z| == |name| ==> z == name
  {
    var parts := Split(fqdn, '.');
    for i := 0 to |parts|
      invariant forall j :: 0 <= j < i ==> Candidate(fqdn, j) !in zones
      invariant FindZone(zones, fqdn) == FindFrom(zones, fqdn, i)
    {
      var candidate := Join(parts[i..], ".");
      if candidate in zones {
        CandidateIsSuffix(fqdn, i);
        forall z | z in zones && UnderZone(fqdn, z) ensures z == candidate || |z| < |candidate| {
          SuffixIsCandidate(fqdn, z);
          var j :| 0 <= j < |parts| && Candidate(fqdn, j) == z;
          assert i <= j;
          if i < j { LaterCandidateIsShorter(fqdn, i, j); }
        }
        return candidate;
      }
    }
    name := "";
    forall z | z in zones ensures !UnderZone(fqdn, z) {
      if UnderZone(fqdn, z) {
        SuffixIsCandidate(fqdn, z);
        assert false;
      }
    }
  }

  // The SQL filter `f = z OR f LIKE '%.' || z`.

  /**
   LIKE: `%` is any text, `_` any character, a backslash quotes the next character. A backslash at the very
   end matches nothing here; PostgreSQL refuses the pattern.
   */
  predicate Like(p: string, s: string)
    decreases |p| + |s|
  {
    if p == "" then s == ""
    else if p[0] == '%' then Like(p[1..], s) || (s != "" && Like(p, s[1..]))
    else if p[0] == '_' then s != "" && Like(p[1..], s[1..])
    else if p[0] == '\\' then |p| >= 2 && s != "" && s[0] == p[1] && Like(p[2..], s[1..])
    else s != "" && s[0] == p[0] && Like(p[1..], s[1..])
  }

  predicate IsMeta(c: char) { c == '%' || c == '_' || c == '\\' }

  predicate Plain(z: string) { forall i :: 0 <= i < |z| ==> !IsMeta(z[i]) }

  predicate Filter(f: string, z: string) { f == z || Like("%" + ("." + z), f) }

  lemma {:induction false} LikePlain(p: string, s: string)
    requires Plain(p)
    ensures Like(p, s) <==> s == p
    decreases |p|
  {
    if p != "" && s != "" && s[0] == p[0] {
      LikePlain(p[1..], s[1..]);
      assert p == [p[0]] + p[1..] && s == [s[0]] + s[1..];
    }
  }

  /** A leading `%` matches any prefix. */
  /** A pattern that ends in `%` is a prefix test, for text without metacharacters. */
  lemma {:induction false} LikePrefix(p: string, s: string)
    requires Plain(p)
    ensures Like(p + "%", s) <==> p <= s
    decreases |p|
  {
    var q := p + "%";
    if p == "" {
      assert q == "%";
      AnyMatches(s);
    } else {
      assert q[0] == p[0] && q[1..] == p[1..] + "%";
      if s != "" && s[0] == p[0] {
        LikePrefix(p[1..], s[1..]);
        assert p == [p[0]] + p[1..] && s == [s[0]] + s[1..];
      }
    }
  }

  lemma {:induction false} AnyMatches(s: string)
    ensures Like("%", s)
    decreases |s|
  {
    assert "%"[1..] == "";
    if s != "" { AnyMatches(s[1..]); }
  }

  lemma {:induction false} LikePercent(q: string, s: string)
    ensures Like("%" + q, s) <==> exists k :: 0 <= k <= |s| && Like(q, s[k..])
    decreases |s|
  {
    var p := "%" + q;
    assert p[1..] == q && s[0..] == s;
    if s == "" {
    } else {
      LikePercent(q, s[1..]);
      if Like(p, s[1..]) {
        var k :| 0 <= k <= |s[1..]| && Like(q, s[1..][k..]);
        assert s[1..][k..] == s[k + 1..];
      }
      if exists k :: 0 <= k <= |s| && Like(q, s[k..]) {
        var k :| 0 <= k <= |s| && Like(q, s[k..]);
        if k > 0 { assert s[1..][k - 1..] == s[k..]; }
      }
    }
  }

  lemma {:induction false} PlainFilter(f: string, z: string)
    requires Plain(z)
    ensures Filter(f, z) <==> UnderZone(f, z)
  {
    var q := "." + z;
    LikePercent(q, f);
    assert Plain(q);
    forall k | 0 <= k <= |f| ensures Like(q, f[k..]) <==> f[k..] == q { LikePlain(q, f[k..]); }
    if HasSuffix(f, q) { assert f[|f| - |q|..] == q; }
  }

  /** A pattern whose last backslash quotes nothing. */
  predicate Dangling(p: string)
    decreases |p|
  {
    p != "" && if p[0] == '\\' then |p| == 1 || Dangling(p[2..]) else Dangling(p[1..])
  }

  lemma {:induction false} DanglingNeverMatches(p: string, s: string)
    requires Dangling(p)
    ensures !Like(p, s)
    decreases |p| + |s|
  {
    if p[0] == '%' {
      DanglingNeverMatches(p[1..], s);
      if s != "" { DanglingNeverMatches(p, s[1..]); }
    } else if s != "" {
      if p[0] == '\\' {
        if |p| >= 2 { DanglingNeverMatches(p[2..], s[1..]); }
      } else {
        DanglingNeverMatches(p[1..], s[1..]);
      }
    }
  }

  /** One text the pattern matches. */
  function Instance(p: string): string
    requires !Dangling(p)
    decreases |p|
  {
    if p == "" then ""
    else if p[0] == '%' then Instance(p[1..])
    else if p[0] == '_' then "x" + Instance(p[1..])
    else if p[0] == '\\' then [p[1]] + Instance(p[2..])
    else [p[0]] + Instance(p[1..])
  }

  lemma {:induction false} InstanceMatches(p: string)
    requires !Dangling(p)
    ensures Like(p, Instance(p))
    ensures |Instance(p)| <= |p|
    ensures Instance(p) == p ==> Plain(p)
    decreases |p|
  {
    if p == "" {
    } else {
      var n := if p[0] == '\\' then 2 else 1;
      InstanceMatches(p[n..]);
      var s := Instance(p);
      if p[0] != '%' {
        assert s[1..] == Instance(p[n..]);
        if s == p && n == 1 { assert p[1..] == Instance(p[1..]); }
      }
    }
  }

  /** A zone name with a metacharacter makes the filter disagree with the label walk on this name. */
  lemma {:induction false} FilterGoesWrong(z: string) returns (f: string)
    requires !Plain(z)
    ensures Filter(f, z) != UnderZone(f, z)
  {
    var first := if z[0] == 'q' then "r" else "q";
    var q := "." + z;
    if Dangling(z) {
      f := first + q;
      assert f[1..] == q;
      assert HasSuffix(f, q);
      LikePercent(q, f);
      assert q[1..] == z;
      forall k | 0 <= k <= |f| ensures !Like(q, f[k..]) { DanglingNeverMatches(q, f[k..]); }
    } else {
      InstanceMatches(z);
      var i := Instance(z);
      f := first + ("." + i);
      assert f[1..] == "." + i;
      LikePercent(q, f);
      assert q[1..] == z && ("." + i)[1..] == i;
      assert Like(q, f[1..]);
      assert f[0] != z[0];
      assert |i| == |z| ==> f[|f| - |q|..] == f[1..];
      assert !HasSuffix(f, q);
    }
  }

  /** The SQL filter selects exactly the names under the zone if and only if the zone name is plain. */
  lemma {:induction false} FilterIsSuffixIffPlain(z: string)
    ensures (forall f :: Filter(f, z) <==> UnderZone(f, z)) <==> Plain(z)
  {
    if Plain(z) {
      forall f ensures Filter(f, z) <==> UnderZone(f, z) { PlainFilter(f, z); }
    } else {
      var f := FilterGoesWrong(z);
      assert !(Filter(f, z) <==> UnderZone(f, z));
    }
  }

  /** For a plain zone, the names the filter selects are those whose walk looks the zone up. */
  lemma {:induction false} FilterFindsLookups(f: string, z: string)
    requires Plain(z)
    ensures Filter(f, z) <==> exists i :: 0 <= i < |Split(f, '.')| && Candidate(f, i) == z
  {
    PlainFilter(f, z);
    if UnderZone(f, z) { SuffixIsCandidate(f, z); }
    if exists i :: 0 <= i < |Split(f, '.')| && Candidate(f, i) == z {
      var i :| 0 <= i < |Split(f, '.')| && Candidate(f, i) == z;
      CandidateIsSuffix(f, i);
    }
  }
}
