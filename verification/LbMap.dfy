/**
 The HAProxy host map of a load-balancer node (internal/activity/lb.go): the map HAProxy holds at run
 time and the file it is reloaded from, kept in step by set and delete activities.
 */
module LbMap {
  import opened Text

  type Entries = map<string, string>

  // The file: reading.

  /** Length of the leading run of non-space characters. */
  function WordLength(s: string): (n: nat)
    ensures n <= |s|
    ensures s != "" && !IsSpace(s[0]) ==> n >= 1
  {
    if s == "" || IsSpace(s[0]) then 0 else 1 + WordLength(s[1..])
  }

  /** `strings.Fields` */
  function Fields(s: string): seq<string>
    decreases |s|
  {
    if s == "" then []
    else if IsSpace(s[0]) then Fields(s[1..])
    else [s[..WordLength(s)]] + Fields(s[WordLength(s)..])
  }

  function ReadLine(line: string, entries: Entries): Entries {
    var l := TrimSpace(line);
    if l == "" || l[0] == '#' then entries
    else
      var parts := Fields(l);
      if |parts| >= 2 then entries[parts[0] := parts[1]] else entries
  }

  function ReadLines(lines: seq<string>, entries: Entries): Entries {
    if lines == [] then entries else ReadLines(lines[1..], ReadLine(lines[0], entries))
  }

  /** What a file means; a missing file is an empty map. */
  function Parse(file: Option<string>): Entries {
    match file case None => map[] case Some(data) => ReadLines(Split(data, '\n'), map[])
  }

  method ReadMapFile(file: Option<string>) returns (entries: Entries)
    ensures entries == Parse(file)
  {
    entries := map[];
    if file.None? { return; }
    var lines := Split(file.value, '\n');
    for i := 0 to |lines|
      invariant ReadLines(lines[i..], entries) == Parse(file)
    {
      ghost var before := entries;
      var line := TrimSpace(lines[i]);
      if line != "" && line[0] != '#' {
        var parts := Fields(line);
        if |parts| >= 2 {
          entries := entries[parts[0] := parts[1]];
        }
      }
      assert entries == ReadLine(lines[i], before);
      assert lines[i..][1..] == lines[i + 1..];
    }
  }

  // The file: writing.

  function Line(key: string, value: string): string { key + (" " + value) }

  function Print(order: seq<string>, entries: Entries): string
    requires forall k :: k in order ==> k in entries
  {
    if order == [] then "" else Line(order[0], entries[order[0]]) + "\n" + Print(order[1..], entries)
  }

  lemma {:induction false} PrintAppend(order: seq<string>, k: string, entries: Entries)
    requires k in entries && forall x :: x in order ==> x in entries
    ensures Print(order + [k], entries) == Print(order, entries) + (Line(k, entries[k]) + "\n")
  {
    if order == [] {
      assert ([] + [k])[1..] == [];
    } else {
      var first := Line(order[0], entries[order[0]]) + "\n";
      PrintAppend(order[1..], k, entries);
      assert (order + [k])[1..] == order[1..] + [k];
      assert first + (Print(order[1..], entries) + (Line(k, entries[k]) + "\n"))
          == first + Print(order[1..], entries) + (Line(k, entries[k]) + "\n");
    }
  }

  /** Writes the entries in whatever order the map yields them. */
  method WriteMapFile(entries: Entries) returns (file: Option<string>, ghost order: seq<string>)
    ensures Enumerates(order, entries) && file == Some(Print(order, entries))
    ensures Parse(file) == entries <==> Clean(entries)
  {
    var left := entries.Keys;
    var buf := "";
    order := [];
    while left != {}
      invariant left <= entries.Keys
      invariant forall k :: k in order <==> k in entries && k !in left
      invariant forall i, j :: 0 <= i < j < |order| ==> order[i] != order[j]
      invariant buf == Print(order, entries)
      decreases left
    {
      var k :| k in left;
      buf := buf + (k + (" " + entries[k]) + "\n");
      PrintAppend(order, k, entries);
      order := order + [k];
      left := left - {k};
    }
    file := Some(buf);
    RoundTrip(order, entries);
  }

  // Which maps survive the trip.

  predicate IsToken(s: string) { s != "" && SpaceFree(s) }

  predicate IsKey(s: string) { IsToken(s) && s[0] != '#' }

  ghost predicate Clean(entries: Entries) {
    forall k :: k in entries ==> IsKey(k) && IsToken(entries[k])
  }

  lemma {:induction false} WordLengthOfToken(s: string)
    requires SpaceFree(s)
    ensures WordLength(s) == |s|
  {
    if s == "" {
    } else {
      WordLengthOfToken(s[1..]);
    }
  }

  lemma {:induction false} WordLengthBeforeSpace(a: string, b: string)
    requires SpaceFree(a)
    ensures WordLength(a + (" " + b)) == |a|
  {
    var s := a + (" " + b);
    if a == "" {
    } else {
      WordLengthBeforeSpace(a[1..], b);
      assert s[1..] == a[1..] + (" " + b);
    }
  }

  lemma {:induction false} FieldsOfLine(k: string, v: string)
    requires IsToken(k) && IsToken(v)
    ensures Fields(Line(k, v)) == [k, v]
  {
    var l := Line(k, v);
    WordLengthBeforeSpace(k, v);
    assert l[..|k|] == k && l[|k|..] == " " + v;
    assert (" " + v)[1..] == v;
    WordLengthOfToken(v);
    assert v[..|v|] == v && v[|v|..] == "";
    assert Fields(v) == [v];
    assert Fields(" " + v) == [v];
  }

  lemma {:induction false} ReadsPrintedLine(k: string, v: string, entries: Entries)
    requires IsKey(k) && IsToken(v)
    ensures ReadLine(Line(k, v), entries) == entries[k := v]
  {
    var l := Line(k, v);
    assert l[0] == k[0] && l[|l| - 1] == v[|v| - 1];
    TrimmedIsFixed(l);
    FieldsOfLine(k, v);
  }

  /** A line is its first two words; what follows them is ignored. */
  lemma {:induction false} ReadsFirstTwoWords(k: string, v: string, rest: string, entries: Entries)
    requires IsKey(k) && IsToken(v) && rest != "" && !IsSpace(rest[|rest| - 1])
    ensures ReadLine(k + (" " + (v + (" " + rest))), entries) == entries[k := v]
  {
    var l := k + (" " + (v + (" " + rest)));
    assert l[0] == k[0] && l[|l| - 1] == rest[|rest| - 1];
    TrimmedIsFixed(l);
    WordLengthBeforeSpace(k, v + (" " + rest));
    WordLengthBeforeSpace(v, rest);
    var tail := v + (" " + rest);
    assert l[..|k|] == k && l[|k|..] == " " + tail && (" " + tail)[1..] == tail;
    assert tail[..|v|] == v && tail[0] == v[0];
    assert Fields(tail)[0] == v;
    assert Fields(" " + tail) == Fields(tail);
  }

  /** A comment, and a line of fewer than two words, say nothing. */
  lemma {:induction false} SkipsCommentsAndWords(comment: string, word: string, entries: Entries)
    requires Trimmed(comment) && comment != "" && comment[0] == '#' && IsToken(word)
    ensures ReadLine(comment, entries) == entries
    ensures ReadLine(word, entries) == entries && ReadLine("", entries) == entries
  {
    TrimmedIsFixed(comment);
    TrimmedIsFixed(word);
    WordLengthOfToken(word);
    assert word[..|word|] == word && word[|word|..] == "";
    assert Fields(word) == [word];
  }

  lemma {:induction false} ReadLinesFirst(line: string, rest: seq<string>, entries: Entries)
    ensures ReadLines([line] + rest, entries) == ReadLines(rest, ReadLine(line, entries))
  {
    assert ([line] + rest)[1..] == rest;
  }

  lemma {:induction false} PrintFirstLine(order: seq<string>, entries: Entries)
    requires order != [] && forall k :: k in order ==> k in entries
    requires SpaceFree(order[0]) && SpaceFree(entries[order[0]])
    ensures Split(Print(order, entries), '\n')
         == [Line(order[0], entries[order[0]])] + Split(Print(order[1..], entries), '\n')
  {
    var l := Line(order[0], entries[order[0]]);
    assert '\n' !in order[0] && '\n' !in entries[order[0]] by { assert IsSpace('\n'); }
    SplitFirst(l, '\n', Print(order[1..], entries));
  }

  lemma {:induction false} ReadsPrinted(order: seq<string>, entries: Entries, got: Entries)
    requires Clean(entries) && forall k :: k in order ==> k in entries
    ensures ReadLines(Split(Print(order, entries), '\n'), got) == got + Chosen(order, entries)
    decreases |order|
  {
    if order == [] {
      assert Split("", '\n') == [""] + [];
      ReadLinesFirst("", [], got);
    } else {
      var k := order[0];
      assert IsKey(k) && IsToken(entries[k]);
      PrintFirstLine(order, entries);
      ReadLinesFirst(Line(k, entries[k]), Split(Print(order[1..], entries), '\n'), got);
      ReadsPrintedLine(k, entries[k], got);
      ReadsPrinted(order[1..], entries, got[k := entries[k]]);
      ChosenFirst(order, entries, got);
    }
  }

  lemma {:induction false} FieldsAreTokens(s: string)
    ensures forall i :: 0 <= i < |Fields(s)| ==> IsToken(Fields(s)[i])
    ensures s != "" && !IsSpace(s[0]) ==> |Fields(s)| >= 1 && Fields(s)[0][0] == s[0]
    decreases |s|
  {
    if s == "" {
    } else if IsSpace(s[0]) {
      FieldsAreTokens(s[1..]);
    } else {
      WordIsSpaceFree(s);
      FieldsAreTokens(s[WordLength(s)..]);
    }
  }

  lemma {:induction false} WordIsSpaceFree(s: string)
    ensures SpaceFree(s[..WordLength(s)])
  {
    if s != "" && !IsSpace(s[0]) {
      WordIsSpaceFree(s[1..]);
      var w := s[..WordLength(s)];
      forall i | 0 <= i < |w| ensures !IsSpace(w[i]) {
        if i > 0 { assert w[i] == s[1..][..WordLength(s[1..])][i - 1]; }
      }
    }
  }

  /** Whatever the file holds, the reader returns only clean entries. */
  lemma {:induction false} ReaderReturnsClean(lines: seq<string>, entries: Entries)
    requires Clean(entries)
    ensures Clean(ReadLines(lines, entries))
    decreases |lines|
  {
    if lines == [] {
    } else {
      FieldsAreTokens(TrimSpace(lines[0]));
      ReaderReturnsClean(lines[1..], ReadLine(lines[0], entries));
    }
  }

  lemma {:induction false} ParseIsClean(file: Option<string>)
    ensures Clean(Parse(file))
  {
    if file.Some? { ReaderReturnsClean(Split(file.value, '\n'), map[]); }
  }

  /** A map is read back unchanged, whatever order it was written in, exactly when it is clean. */
  lemma {:induction false} RoundTrip(order: seq<string>, entries: Entries)
    requires Enumerates(order, entries)
    ensures Parse(Some(Print(order, entries))) == entries <==> Clean(entries)
  {
    if Clean(entries) {
      ReadsPrinted(order, entries, map[]);
      ChosenAll(order, entries);
    }
    ParseIsClean(Some(Print(order, entries)));
  }

  // The activities.

  datatype Call = Set(fqdn: string, backend: string) | Delete(fqdn: string)

  /** Host headers carry no trailing dot. */
  function HostKey(fqdn: string): string {
    if fqdn != "" && fqdn[|fqdn| - 1] == '.' then fqdn[..|fqdn| - 1] else fqdn
  }

  /** One trailing dot goes, and nothing else. */
  lemma {:induction false} HostKeyDropsOneDot(name: string)
    ensures HostKey(name + ".") == name
    ensures name == "" || name[|name| - 1] != '.' ==> HostKey(name) == name
  {
    assert (name + ".")[..|name|] == name;
  }

  /** The map the calls are meant to maintain. */
  function Intended(calls: seq<Call>, entries: Entries): Entries {
    if calls == [] then entries
    else
      var before := Intended(calls[..|calls| - 1], entries);
      match calls[|calls| - 1]
      case Set(fqdn, backend) => before[HostKey(fqdn) := backend]
      case Delete(fqdn) => before - {HostKey(fqdn)}
  }

  /** The map file can hold what the call sets. */
  predicate Serviceable(call: Call) {
    call.Set? ==> IsKey(HostKey(call.fqdn)) && IsToken(call.backend)
  }

  predicate AllServiceable(calls: seq<Call>) { forall c :: c in calls ==> Serviceable(c) }

  class LoadBalancer {
    var runtime: Entries
    var disk: Option<string>
    ghost var history: seq<Call>
    ghost const initial: Entries

    /** What HAProxy serves, what a restart would serve and what was asked for are one map. */
    ghost predicate InStep()
      reads this
    {
      runtime == Parse(disk) == Intended(history, initial)
    }

    /** HAProxy starts from the file. */
    constructor (disk: Option<string>)
      ensures InStep() && this.disk == disk && history == [] && initial == Parse(disk)
    {
      this.disk := disk;
      this.runtime := Parse(disk);
      this.history := [];
      this.initial := Parse(disk);
    }

    /** Run-time command "set map"; answers whether the entry was there. */
    method CommandSet(key: string, value: string) returns (found: bool)
      modifies this`runtime
      ensures found == (key in old(runtime))
      ensures runtime == if found then old(runtime)[key := value] else old(runtime)
    {
      found := key in runtime;
      if found { runtime := runtime[key := value]; }
    }

    /** Run-time command "add map". */
    method CommandAdd(key: string, value: string)
      requires key !in runtime
      modifies this`runtime
      ensures runtime == old(runtime)[key := value]
    {
      runtime := runtime[key := value];
    }

    /** Run-time command "del map"; a missing entry is ignored. */
    method CommandDel(key: string)
      modifies this`runtime
      ensures runtime == old(runtime) - {key}
    {
      runtime := runtime - {key};
    }

    method PersistMapEntry(fqdn: string, backend: string)
      modifies this`disk
      ensures Parse(disk) == Parse(old(disk))[fqdn := backend] <==> IsKey(fqdn) && IsToken(backend)
    {
      var entries := ReadMapFile(disk);
      ParseIsClean(disk);
      CleanWith(entries, fqdn, backend);
      entries := entries[fqdn := backend];
      ghost var order;
      disk, order := WriteMapFile(entries);
    }

    method RemoveMapEntry(fqdn: string)
      modifies this`disk
      ensures Parse(disk) == Parse(old(disk)) - {fqdn}
    {
      var entries := ReadMapFile(disk);
      ParseIsClean(disk);
      entries := entries - {fqdn};
      ghost var order;
      disk, order := WriteMapFile(entries);
    }

    /** Whatever is set is served at once; what a restart would serve follows exactly when the file can hold it. */
    method SetLBMapEntry(fqdn: string, backend: string)
      requires InStep()
      modifies this
      ensures history == old(history) + [Set(fqdn, backend)]
      ensures runtime == old(runtime)[HostKey(fqdn) := backend] == Intended(history, initial)
      ensures InStep() <==> Serviceable(Set(fqdn, backend))
    {
      var key := HostKey(fqdn);
      var found := CommandSet(key, backend);
      if !found {
        CommandAdd(key, backend);
      }
      PersistMapEntry(key, backend);
      history := history + [Set(fqdn, backend)];
      assert history[..|history| - 1] == old(history);
    }

    method DeleteLBMapEntry(fqdn: string)
      requires InStep()
      modifies this
      ensures InStep() && history == old(history) + [Delete(fqdn)]
      ensures runtime == old(runtime) - {HostKey(fqdn)}
    {
      var key := HostKey(fqdn);
      CommandDel(key);
      RemoveMapEntry(key);
      history := history + [Delete(fqdn)];
      assert history[..|history| - 1] == old(history);
    }

    /**
     Serves calls up to and with the first whose entry the file cannot hold. The run-time map is the intended
     one throughout, and the disk map too until that call.
     */
    method Serve(calls: seq<Call>) returns (n: nat)
      requires InStep()
      modifies this
      ensures n <= |calls| && AllServiceable(calls[..n]) && (n < |calls| ==> !Serviceable(calls[n]))
      ensures InStep() <==> n == |calls|
      ensures runtime == Intended(history, initial)
      ensures history == old(history) + calls[..if n < |calls| then n + 1 else n]
    {
      n := 0;
      while n < |calls|
        invariant n <= |calls| && InStep() && history == old(history) + calls[..n]
        invariant AllServiceable(calls[..n])
      {
        ServeOne(calls[n]);
        assert calls[..n + 1] == calls[..n] + [calls[n]];
        if !Serviceable(calls[n]) { return; }
        n := n + 1;
      }
    }

    method ServeOne(call: Call)
      requires InStep()
      modifies this
      ensures history == old(history) + [call] && runtime == Intended(history, initial)
      ensures InStep() <==> Serviceable(call)
    {
      match call {
        case Set(fqdn, backend) => SetLBMapEntry(fqdn, backend);
        case Delete(fqdn) => DeleteLBMapEntry(fqdn);
      }
    }
  }

  lemma {:induction false} CleanWith(entries: Entries, key: string, value: string)
    requires Clean(entries)
    ensures Clean(entries[key := value]) <==> IsKey(key) && IsToken(value)
  {
    var more := entries[key := value];
    if Clean(more) { assert key in more; }
  }

  // Many activities at once: each sends its run-time command, and only then takes the mutex, reads the file,
  // writes it and releases.

  datatype Update = Persist(key: string, value: string) | Remove(key: string)

  function Apply(update: Update, entries: Entries): Entries {
    match update
    case Persist(key, value) => entries[key := value]
    case Remove(key) => entries - {key}
  }

  predicate ServiceableUpdate(update: Update) {
    update.Persist? ==> IsKey(update.key) && IsToken(update.value)
  }

  datatype Phase = Starting | Waiting | Locked | Loaded(entries: Entries) | Written | Finished

  /** `ran` records which activities have sent their command, `log` which have written the file, in order. */
  datatype System = System(
    runtime: Entries, file: Option<string>, holder: Option<nat>, phases: seq<Phase>, ran: seq<nat>, log: seq<nat>)

  predicate InSection(phase: Phase) { phase.Locked? || phase.Loaded? || phase.Written? }

  ghost predicate WroteFile(file: Option<string>, entries: Entries, order: seq<string>) {
    Enumerates(order, entries) && file == Some(Print(order, entries))
  }

  /** Activity `i` takes one step. */
  ghost predicate Step(updates: seq<Update>, s: System, i: nat, s': System) {
    && i < |s.phases| == |updates|
    && match s.phases[i]
       case Starting =>
         s' == s.(runtime := Apply(updates[i], s.runtime), ran := s.ran + [i], phases := s.phases[i := Waiting])
       case Waiting => s.holder == None && s' == s.(holder := Some(i), phases := s.phases[i := Locked])
       case Locked => s' == s.(phases := s.phases[i := Loaded(Parse(s.file))])
       case Loaded(entries) =>
         && s'.phases == s.phases[i := Written] && s'.holder == s.holder && s'.log == s.log + [i]
         && s'.runtime == s.runtime && s'.ran == s.ran
         && exists order :: WroteFile(s'.file, Apply(updates[i], entries), order)
       case Written => s' == s.(holder := None, phases := s.phases[i := Finished])
       case Finished => false
  }

  ghost predicate Initial(updates: seq<Update>, s: System) {
    && s.runtime == Parse(s.file) && s.holder == None && s.ran == s.log == []
    && s.phases == seq(|updates|, _ => Starting)
  }

  ghost predicate SomeStep(updates: seq<Update>, s: System, s': System) {
    exists i :: Step(updates, s, i, s')
  }

  /** An execution: every state follows from the one before by a step of some activity. */
  ghost predicate Execution(updates: seq<Update>, run: seq<System>) {
    && run != [] && Initial(updates, run[0])
    && forall n :: 0 <= n < |run| - 1 ==> SomeStep(updates, run[n], run[n + 1])
  }

  /** The updates in `log`, applied one after the other. */
  function Replay(updates: seq<Update>, log: seq<nat>, entries: Entries): Entries
    requires forall k :: 0 <= k < |log| ==> log[k] < |updates|
  {
    if log == [] then entries
    else Apply(updates[log[|log| - 1]], Replay(updates, log[..|log| - 1], entries))
  }

  /** One activity at a time between lock and unlock, and what it loaded is still what the file says. */
  ghost predicate Exclusive(s: System) {
    && (forall i :: 0 <= i < |s.phases| ==> (InSection(s.phases[i]) <==> s.holder == Some(i)))
    && (forall i :: 0 <= i < |s.phases| && s.phases[i].Loaded? ==> s.phases[i].entries == Parse(s.file))
  }

  /** Each number once, all of them activities. */
  ghost predicate Once(log: seq<nat>, n: nat) {
    && (forall k :: 0 <= k < |log| ==> log[k] < n)
    && (forall a, b :: 0 <= a < b < |log| ==> log[a] != log[b])
  }

  /** The logs name each activity that has sent its command, or has written, once. */
  ghost predicate Logged(updates: seq<Update>, s: System) {
    && |s.phases| == |updates| && Once(s.ran, |updates|) && Once(s.log, |updates|)
    && (forall i :: 0 <= i < |s.phases| ==> (i in s.ran <==> !s.phases[i].Starting?))
    && (forall i :: 0 <= i < |s.phases| ==> (i in s.log <==> s.phases[i].Written? || s.phases[i].Finished?))
  }

  ghost predicate Consistent(updates: seq<Update>, start: Option<string>, s: System) {
    && Exclusive(s) && Logged(updates, s)
    && s.runtime == Replay(updates, s.ran, Parse(start))
    && Parse(s.file) == Replay(updates, s.log, Parse(start))
  }

  lemma {:induction false} StepKeepsExclusive(updates: seq<Update>, s: System, i: nat, s': System)
    requires Exclusive(s) && Step(updates, s, i, s')
    ensures Exclusive(s')
  {
  }

  lemma {:induction false} OnceMore(log: seq<nat>, n: nat, i: nat)
    requires Once(log, n) && i < n && i !in log
    ensures Once(log + [i], n) && forall j :: j in log + [i] <==> j in log || j == i
  {
  }

  lemma {:induction false} StepKeepsLogged(updates: seq<Update>, s: System, i: nat, s': System)
    requires Logged(updates, s) && Step(updates, s, i, s')
    ensures Logged(updates, s')
  {
    if s.phases[i].Starting? { OnceMore(s.ran, |updates|, i); }
    if s.phases[i].Loaded? { OnceMore(s.log, |updates|, i); }
  }

  lemma {:induction false} WriteMeansApply(update: Update, file: Option<string>, written: Option<string>)
    requires ServiceableUpdate(update)
    requires exists order :: WroteFile(written, Apply(update, Parse(file)), order)
    ensures Parse(written) == Apply(update, Parse(file))
  {
    var entries := Apply(update, Parse(file));
    var order :| WroteFile(written, entries, order);
    ParseIsClean(file);
    RoundTrip(order, entries);
  }

  lemma {:induction false} StepKeepsFile(updates: seq<Update>, start: Option<string>, s: System, i: nat, s': System)
    requires forall k :: 0 <= k < |updates| ==> ServiceableUpdate(updates[k])
    requires Consistent(updates, start, s) && Step(updates, s, i, s')
    requires Logged(updates, s')
    ensures s'.runtime == Replay(updates, s'.ran, Parse(start))
    ensures Parse(s'.file) == Replay(updates, s'.log, Parse(start))
  {
    if s.phases[i].Starting? { assert s'.ran[..|s'.ran| - 1] == s.ran; }
    if s.phases[i].Loaded? {
      WriteMeansApply(updates[i], s.file, s'.file);
      assert s'.log[..|s'.log| - 1] == s.log;
    }
  }

  lemma {:induction false} StepKeepsConsistent(
    updates: seq<Update>, start: Option<string>, s: System, i: nat, s': System)
    requires forall k :: 0 <= k < |updates| ==> ServiceableUpdate(updates[k])
    requires Consistent(updates, start, s) && Step(updates, s, i, s')
    ensures Consistent(updates, start, s')
  {
    StepKeepsExclusive(updates, s, i, s');
    StepKeepsLogged(updates, s, i, s');
    StepKeepsFile(updates, start, s, i, s');
  }

  /**
   No update is lost: in every state of every interleaving the file holds the starting map with the updates
   of the activities that have written, each applied once, in the order they wrote, and the run-time map
   likewise in the order of the commands; at most one activity is in its critical section.
   */
  lemma {:induction false} NoUpdateIsLost(updates: seq<Update>, run: seq<System>, n: nat)
    requires forall k :: 0 <= k < |updates| ==> ServiceableUpdate(updates[k])
    requires Execution(updates, run) && n < |run|
    ensures Consistent(updates, run[0].file, run[n])
    decreases n
  {
    if n == 0 {
    } else {
      NoUpdateIsLost(updates, run, n - 1);
      assert SomeStep(updates, run[n - 1], run[n - 1 + 1]);
      var i :| Step(updates, run[n - 1], i, run[n]);
      StepKeepsConsistent(updates, run[0].file, run[n - 1], i, run[n]);
    }
  }

  // The two orders need not be the same.

  function ValueAt(entries: Entries, key: string): Option<string> {
    if key in entries then Some(entries[key]) else None
  }

  function Effect(update: Update): Option<string> {
    match update case Persist(_, value) => Some(value) case Remove(_) => None
  }

  /** The last update of a key in a log. */
  function LastOn(updates: seq<Update>, log: seq<nat>, key: string): Option<Update>
    requires forall k :: 0 <= k < |log| ==> log[k] < |updates|
  {
    if log == [] then None
    else
      var u := updates[log[|log| - 1]];
      if u.key == key then Some(u) else LastOn(updates, log[..|log| - 1], key)
  }

  lemma {:induction false} ReplayAt(updates: seq<Update>, log: seq<nat>, entries: Entries, key: string)
    requires forall k :: 0 <= k < |log| ==> log[k] < |updates|
    ensures ValueAt(Replay(updates, log, entries), key)
         == match LastOn(updates, log, key) case None => ValueAt(entries, key) case Some(u) => Effect(u)
    decreases |log|
  {
    if log == [] {
    } else {
      ReplayAt(updates, log[..|log| - 1], entries, key);
    }
  }

  /** There is a last update of a key exactly when there is one. */
  lemma {:induction false} LastOnIsThere(updates: seq<Update>, log: seq<nat>, key: string)
    requires forall k :: 0 <= k < |log| ==> log[k] < |updates|
    ensures match LastOn(updates, log, key)
      case None => forall i :: i in log ==> updates[i].key != key
      case Some(u) => exists i :: i in log && updates[i] == u && u.key == key
    decreases |log|
  {
    if log == [] {
    } else {
      var front, last := log[..|log| - 1], log[|log| - 1];
      assert log == front + [last];
      LastOnIsThere(updates, front, key);
      assert last in log;
    }
  }

  /** Every activity has not begun or is done. */
  predicate Quiet(s: System) { forall i :: 0 <= i < |s.phases| ==> s.phases[i].Starting? || s.phases[i].Finished? }

  /** The last update of every key has the same effect in both orders. */
  ghost predicate SameLast(updates: seq<Update>, a: seq<nat>, b: seq<nat>)
    requires Once(a, |updates|) && Once(b, |updates|)
  {
    forall key :: LastOn(updates, a, key).Some? && LastOn(updates, b, key).Some? ==>
      Effect(LastOn(updates, a, key).value) == Effect(LastOn(updates, b, key).value)
  }

  lemma {:induction false} SameValue(updates: seq<Update>, start: Entries, a: seq<nat>, b: seq<nat>, key: string)
    requires Once(a, |updates|) && Once(b, |updates|) && forall i :: i in a <==> i in b
    ensures ValueAt(Replay(updates, a, start), key) == ValueAt(Replay(updates, b, start), key)
       <==> (LastOn(updates, a, key).Some? && LastOn(updates, b, key).Some? ==>
             Effect(LastOn(updates, a, key).value) == Effect(LastOn(updates, b, key).value))
  {
    ReplayAt(updates, a, start, key);
    ReplayAt(updates, b, start, key);
    LastOnIsThere(updates, a, key);
    LastOnIsThere(updates, b, key);
  }

  lemma {:induction false} SameAt(a: Entries, b: Entries)
    ensures a == b <==> forall key :: ValueAt(a, key) == ValueAt(b, key)
  {
    if forall key :: ValueAt(a, key) == ValueAt(b, key) {
      forall key ensures key in a <==> key in b { assert ValueAt(a, key) == ValueAt(b, key); }
      forall key | key in a ensures a[key] == b[key] { assert ValueAt(a, key) == ValueAt(b, key); }
    }
  }

  /**
   In a quiet state of any interleaving HAProxy serves what it would serve after a restart if and only if the
   last update of every key has the same effect in the order of the commands and in the order of the writes.
   */
  lemma {:induction false} InStepIff(updates: seq<Update>, run: seq<System>, n: nat)
    requires forall k :: 0 <= k < |updates| ==> ServiceableUpdate(updates[k])
    requires Execution(updates, run) && n < |run| && Quiet(run[n])
    ensures Logged(updates, run[n])
    ensures run[n].runtime == Parse(run[n].file) <==> SameLast(updates, run[n].ran, run[n].log)
  {
    NoUpdateIsLost(updates, run, n);
    var s, start := run[n], Parse(run[0].file);
    SameAt(s.runtime, Parse(s.file));
    assert forall i :: i in s.ran <==> i in s.log;
    forall key ensures ValueAt(s.runtime, key) == ValueAt(Parse(s.file), key)
      <==> (LastOn(updates, s.ran, key).Some? && LastOn(updates, s.log, key).Some? ==>
            Effect(LastOn(updates, s.ran, key).value) == Effect(LastOn(updates, s.log, key).value))
    {
      SameValue(updates, start, s.ran, s.log, key);
    }
  }

  /** Two updates of one key differ in effect. */
  ghost predicate Contended(updates: seq<Update>) {
    exists i, j :: 0 <= i < |updates| && 0 <= j < |updates| && Contend(updates[i], updates[j])
  }

  predicate Contend(a: Update, b: Update) { a.key == b.key && Effect(a) != Effect(b) }

  lemma {:induction false} UncontendedInStep(updates: seq<Update>, run: seq<System>, n: nat)
    requires forall k :: 0 <= k < |updates| ==> ServiceableUpdate(updates[k])
    requires Execution(updates, run) && n < |run| && Quiet(run[n]) && !Contended(updates)
    ensures run[n].runtime == Parse(run[n].file)
  {
    InStepIff(updates, run, n);
    var a, b := run[n].ran, run[n].log;
    forall key | LastOn(updates, a, key).Some? && LastOn(updates, b, key).Some?
      ensures Effect(LastOn(updates, a, key).value) == Effect(LastOn(updates, b, key).value)
    {
      LastOnIsThere(updates, a, key);
      LastOnIsThere(updates, b, key);
      assert !Contend(LastOn(updates, a, key).value, LastOn(updates, b, key).value);
    }
  }

  lemma {:induction false} SomeOrder(entries: Entries) returns (order: seq<string>)
    ensures Enumerates(order, entries)
    decreases |entries|
  {
    order := [];
    if entries != map[] {
      var k :| k in entries;
      order := SomeOrder(entries - {k});
      order := order + [k];
    }
  }

  lemma {:induction false} OneStepMore(updates: seq<Update>, run: seq<System>, i: nat, s': System)
    requires Execution(updates, run) && Step(updates, run[|run| - 1], i, s')
    ensures Execution(updates, run + [s'])
  {
    var longer := run + [s'];
    forall n | 0 <= n < |longer| - 1 ensures SomeStep(updates, longer[n], longer[n + 1]) {
      if n < |run| - 1 { assert SomeStep(updates, run[n], run[n + 1]); }
    }
  }

  /** An activity sends its command. */
  lemma {:induction false} Commanded(updates: seq<Update>, run: seq<System>, i: nat) returns (longer: seq<System>)
    requires Execution(updates, run) && i < |updates| == |run[|run| - 1].phases| && run[|run| - 1].phases[i] == Starting
    ensures Execution(updates, longer) && longer[0] == run[0]
    ensures var s := run[|run| - 1];
      longer[|longer| - 1]
        == s.(runtime := Apply(updates[i], s.runtime), ran := s.ran + [i], phases := s.phases[i := Waiting])
  {
    var s := run[|run| - 1];
    var s' := s.(runtime := Apply(updates[i], s.runtime), ran := s.ran + [i], phases := s.phases[i := Waiting]);
    OneStepMore(updates, run, i, s');
    longer := run + [s'];
  }

  /** An activity updates the file while nobody else holds the mutex. */
  lemma {:induction false} Persisted(updates: seq<Update>, run: seq<System>, i: nat)
    returns (longer: seq<System>, file: Option<string>)
    requires Execution(updates, run) && i < |updates| == |run[|run| - 1].phases|
    requires run[|run| - 1].phases[i] == Waiting && run[|run| - 1].holder == None && ServiceableUpdate(updates[i])
    ensures Execution(updates, longer) && longer[0] == run[0]
    ensures Parse(file) == Apply(updates[i], Parse(run[|run| - 1].file))
    ensures var s := run[|run| - 1];
      longer[|longer| - 1] == s.(file := file, log := s.log + [i], phases := s.phases[i := Finished])
  {
    var s := run[|run| - 1];
    var s1 := s.(holder := Some(i), phases := s.phases[i := Locked]);
    OneStepMore(updates, run, i, s1);
    var s2 := s1.(phases := s.phases[i := Loaded(Parse(s.file))]);
    OneStepMore(updates, run + [s1], i, s2);
    var order := SomeOrder(Apply(updates[i], Parse(s.file)));
    file := Some(Print(order, Apply(updates[i], Parse(s.file))));
    assert WroteFile(file, Apply(updates[i], Parse(s.file)), order);
    WriteMeansApply(updates[i], s.file, file);
    var s3 := s2.(file := file, log := s.log + [i], phases := s.phases[i := Written]);
    OneStepMore(updates, run + [s1] + [s2], i, s3);
    var s4 := s3.(holder := None, phases := s.phases[i := Finished]);
    OneStepMore(updates, run + [s1] + [s2] + [s3], i, s4);
    longer := run + [s1] + [s2] + [s3] + [s4];
  }

  /** The commands of two contending activities in one order, their writes in the other. */
  lemma {:induction false} ContendedParts(updates: seq<Update>, start: Option<string>, i: nat, j: nat)
    returns (run: seq<System>)
    requires i < |updates| && j < |updates| && Contend(updates[i], updates[j])
    requires ServiceableUpdate(updates[i]) && ServiceableUpdate(updates[j])
    ensures Execution(updates, run) && run[0].file == start && Quiet(run[|run| - 1])
    ensures run[|run| - 1].runtime != Parse(run[|run| - 1].file)
  {
    var s := System(Parse(start), start, None, seq(|updates|, _ => Starting), [], []);
    run := [s];
    run := Commanded(updates, run, i);
    run := Commanded(updates, run, j);
    var file;
    run, file := Persisted(updates, run, j);
    run, file := Persisted(updates, run, i);
    var end, key := run[|run| - 1], updates[i].key;
    assert ValueAt(end.runtime, key) == Effect(updates[j]);
    assert ValueAt(Parse(end.file), key) == Effect(updates[i]);
  }

  /**
   The run-time command is sent outside the mutex. So run-time map and file are the same map in every quiet
   state of every interleaving, from every file, if and only if no two of the updates set one key to
   different things.
   */
  lemma {:induction false} AlwaysInStepIff(updates: seq<Update>, start: Option<string>)
    requires forall k :: 0 <= k < |updates| ==> ServiceableUpdate(updates[k])
    ensures !Contended(updates)
       <==> forall run: seq<System> :: Execution(updates, run) && run[0].file == start && Quiet(run[|run| - 1]) ==>
              run[|run| - 1].runtime == Parse(run[|run| - 1].file)
  {
    if Contended(updates) {
      var i, j :| 0 <= i < |updates| && 0 <= j < |updates| && Contend(updates[i], updates[j]);
      var run := ContendedParts(updates, start, i, j);
    } else {
      forall run: seq<System> | Execution(updates, run) && run[0].file == start && Quiet(run[|run| - 1])
        ensures run[|run| - 1].runtime == Parse(run[|run| - 1].file)
      {
        UncontendedInStep(updates, run, |run| - 1);
      }
    }
  }
}
