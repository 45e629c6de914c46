/**
 Strings as the control plane's printers and parsers use them: trimming, splitting, joining and
 searching, with the laws that let a parser be proved to undo a printer.
 */
module Text {

  datatype Option<+T> = None | Some(value: T)

  datatype Result<+T, +E> = Ok(value: T) | Err(error: E)

  /** White space as Unicode (and so `strings.TrimSpace`) defines it. */
  predicate IsSpace(c: char) {
    || c == ' ' || '\t' <= c <= '\r' || c == '\U{85}' || c == '\U{A0}'
    || c == '\U{1680}' || '\U{2000}' <= c <= '\U{200A}' || '\U{2028}' <= c <= '\U{2029}'
    || c == '\U{202F}' || c == '\U{205F}' || c == '\U{3000}'
  }

  predicate SpaceFree(s: string) {
    forall i :: 0 <= i < |s| ==> !IsSpace(s[i])
  }

  function TrimLeft(s: string): (t: string)
    ensures |t| <= |s|
    ensures t == "" || !IsSpace(t[0])
  {
    if s != "" && IsSpace(s[0]) then TrimLeft(s[1..]) else s
  }

  function TrimRight(s: string): (t: string)
    ensures t <= s
    ensures t == "" || !IsSpace(t[|t| - 1])
  {
    if s != "" && IsSpace(s[|s| - 1]) then TrimRight(s[..|s| - 1]) else s
  }

  function TrimSpace(s: string): (t: string)
    ensures Trimmed(t)
  {
    TrimRight(TrimLeft(s))
  }

  /** No white space at either end. */
  predicate Trimmed(s: string) {
    s == "" || (!IsSpace(s[0]) && !IsSpace(s[|s| - 1]))
  }

  lemma {:induction false} TrimLeftDrops(s: string) returns (pre: string)
    ensures s == pre + TrimLeft(s) && forall i :: 0 <= i < |pre| ==> IsSpace(pre[i])
  {
    pre := "";
    if s != "" && IsSpace(s[0]) {
      pre := TrimLeftDrops(s[1..]);
      pre := [s[0]] + pre;
      assert s == [s[0]] + s[1..];
    }
  }

  lemma {:induction false} TrimRightDrops(s: string) returns (post: string)
    ensures s == TrimRight(s) + post && forall i :: 0 <= i < |post| ==> IsSpace(post[i])
  {
    post := "";
    if s != "" && IsSpace(s[|s| - 1]) {
      post := TrimRightDrops(s[..|s| - 1]);
      post := post + [s[|s| - 1]];
      assert s == s[..|s| - 1] + [s[|s| - 1]];
    }
  }

  /** Trimming takes white space from both ends, and nothing else. */
  lemma {:induction false} TrimSpaceDrops(s: string) returns (pre: string, post: string)
    ensures s == pre + TrimSpace(s) + post && Trimmed(TrimSpace(s))
    ensures forall i :: 0 <= i < |pre| ==> IsSpace(pre[i])
    ensures forall i :: 0 <= i < |post| ==> IsSpace(post[i])
  {
    pre := TrimLeftDrops(s);
    post := TrimRightDrops(TrimLeft(s));
    assert s == pre + (TrimSpace(s) + post);
  }

  lemma {:induction false} TrimmedIsFixed(s: string)
    requires Trimmed(s)
    ensures TrimSpace(s) == s
  {
  }

  lemma {:induction false} TrimRightKeepsChars(s: string)
    ensures forall c :: c in TrimRight(s) ==> c in s
  {
  }

  lemma {:induction false} TrimLeftKeepsChars(s: string)
    ensures forall c :: c in TrimLeft(s) ==> c in s
  {
    if s != "" && IsSpace(s[0]) { TrimLeftKeepsChars(s[1..]); }
  }

  lemma {:induction false} TrimKeepsChars(s: string)
    ensures forall c :: c in TrimSpace(s) ==> c in s
  {
    TrimLeftKeepsChars(s);
    TrimRightKeepsChars(TrimLeft(s));
  }

  lemma {:induction false} TrimDropsSpaceBefore(s: string)
    ensures TrimSpace(" " + s) == TrimSpace(s)
  {
    assert (" " + s)[1..] == s;
  }

  lemma {:induction false} TrimDropsSpaceAfter(s: string)
    requires s != "" && Trimmed(s)
    ensures TrimSpace(s + " ") == s
  {
    var t := s + " ";
    assert t[0] == s[0] && t[|s|] == ' ' && t[..|t| - 1] == s;
    assert TrimLeft(t) == t;
    assert TrimRight(s) == s;
  }

  /** `strings.Split` on a one-character separator. */
  function Split(s: string, sep: char): (parts: seq<string>)
    ensures |parts| >= 1
  {
    if s == "" then [""]
    else
      var rest := Split(s[1..], sep);
      if s[0] == sep then [""] + rest else [[s[0]] + rest[0]] + rest[1..]
  }

  lemma {:induction false} SplitPartsAreClean(s: string, sep: char)
    ensures forall i :: 0 <= i < |Split(s, sep)| ==> sep !in Split(s, sep)[i]
  {
    if s == "" {
    } else {
      SplitPartsAreClean(s[1..], sep);
    }
  }

  lemma {:induction false} SplitWhole(a: string, sep: char)
    requires sep !in a
    ensures Split(a, sep) == [a]
  {
    if a == "" {
    } else {
      SplitWhole(a[1..], sep);
      assert a == [a[0]] + a[1..];
    }
  }

  lemma {:induction false} SplitFirst(a: string, sep: char, rest: string)
    requires sep !in a
    ensures Split(a + [sep] + rest, sep) == [a] + Split(rest, sep)
  {
    var s := a + [sep] + rest;
    if a == "" {
      assert s[1..] == rest;
    } else {
      assert s[1..] == a[1..] + [sep] + rest;
      SplitFirst(a[1..], sep, rest);
      assert a == [a[0]] + a[1..];
    }
  }

  /** `strings.Join` */
  function Join(parts: seq<string>, sep: string): string {
    if parts == [] then ""
    else if |parts| == 1 then parts[0]
    else parts[0] + sep + Join(parts[1..], sep)
  }

  /** Joining with a character put in front of the first part, or with an empty part in front. */
  lemma {:induction false} JoinMore(c: char, parts: seq<string>, sep: string)
    requires parts != []
    ensures Join([[c] + parts[0]] + parts[1..], sep) == [c] + Join(parts, sep)
    ensures Join([""] + parts, sep) == sep + Join(parts, sep)
  {
    assert ([[c] + parts[0]] + parts[1..])[1..] == parts[1..];
    assert ([""] + parts)[1..] == parts;
    if |parts| > 1 { assert ([c] + parts[0]) + sep + Join(parts[1..], sep) == [c] + (parts[0] + sep + Join(parts[1..], sep)); }
  }

  lemma {:induction false} JoinSplit(s: string, sep: char)
    ensures Join(Split(s, sep), [sep]) == s
  {
    if s == "" {
    } else {
      JoinSplit(s[1..], sep);
      JoinMore(s[0], Split(s[1..], sep), [sep]);
      assert s == [s[0]] + s[1..];
    }
  }

  predicate HasSuffix(s: string, t: string) {
    |t| <= |s| && s[|s| - |t|..] == t
  }

  /** `sub` occurs in `s` at position `at`. */
  predicate OccursAt(s: string, sub: string, at: nat) {
    at + |sub| <= |s| && s[at..at + |sub|] == sub
  }

  /** `strings.Contains` */
  predicate Contains(s: string, sub: string) {
    exists at :: 0 <= at <= |s| && OccursAt(s, sub, at)
  }

  /** `strings.Cut` at the first `sep`. */
  function Cut(s: string, sep: char): (r: Option<(string, string)>)
    ensures r.Some? ==> |r.value.0| + 1 + |r.value.1| == |s|
  {
    if s == "" then None
    else if s[0] == sep then Some(("", s[1..]))
    else match Cut(s[1..], sep)
      case None => None
      case Some((a, b)) => Some(([s[0]] + a, b))
  }

  lemma {:induction false} CutSplitsAtFirst(s: string, sep: char)
    ensures var r := Cut(s, sep);
      && (r.None? <==> sep !in s)
      && (r.Some? ==> sep !in r.value.0 && s == r.value.0 + ([sep] + r.value.1))
  {
    if s == "" {
    } else {
      CutSplitsAtFirst(s[1..], sep);
      assert s == [s[0]] + s[1..];
    }
  }

  lemma {:induction false} CutFirst(a: string, sep: char, b: string)
    requires sep !in a
    ensures Cut(a + [sep] + b, sep) == Some((a, b))
  {
    var s := a + [sep] + b;
    if a == "" {
      assert s[1..] == b;
    } else {
      assert s[1..] == a[1..] + [sep] + b;
      CutFirst(a[1..], sep, b);
      assert a == [a[0]] + a[1..];
    }
  }

  // Listing a map's keys to print it.

  /** `keys` lists the keys of `m`, each once, in any order. */
  ghost predicate Enumerates(keys: seq<string>, m: map<string, string>) {
    && (forall k :: k in keys <==> k in m)
    && (forall i, j :: 0 <= i < j < |keys| ==> keys[i] != keys[j])
  }

  /** The part of `m` whose keys are listed. */
  function Chosen(keys: seq<string>, m: map<string, string>): map<string, string>
    requires forall k :: k in keys ==> k in m
  {
    map k | k in keys :: m[k]
  }

  lemma {:induction false} ChosenFirst(keys: seq<string>, m: map<string, string>, got: map<string, string>)
    requires keys != [] && forall k :: k in keys ==> k in m
    ensures got[keys[0] := m[keys[0]]] + Chosen(keys[1..], m) == got + Chosen(keys, m)
  {
  }

  lemma {:induction false} ChosenAll(keys: seq<string>, m: map<string, string>)
    requires Enumerates(keys, m)
    ensures map[] + Chosen(keys, m) == m
  {
  }
}
