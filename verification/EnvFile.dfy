/**
 The environment file of a webroot: written by the node agent (internal/activity/node_local.go), read
 back when a daemon's supervisor configuration is built (internal/agent/daemon.go).
 */
module EnvFile {
  import opened Text
  import opened Ordering

  predicate NeedsEscape(c: char) { c == '\\' || c == '"' || c == '$' || c == '`' }

  /** `shellEscape` */
  function Escape(s: string): string {
    if s == "" then ""
    else (if NeedsEscape(s[0]) then ['\\', s[0]] else [s[0]]) + Escape(s[1..])
  }

  /** The reader's one-pass replacement of the four escape pairs. */
  function Unescape(s: string): string {
    if s == "" then ""
    else if |s| >= 2 && s[0] == '\\' && NeedsEscape(s[1]) then [s[1]] + Unescape(s[2..])
    else [s[0]] + Unescape(s[1..])
  }

  lemma {:induction false} UnescapeKeepsChars(s: string)
    ensures forall c :: c in Unescape(s) ==> c in s
  {
    if s == "" {
    } else if |s| >= 2 && s[0] == '\\' && NeedsEscape(s[1]) {
      UnescapeKeepsChars(s[2..]);
    } else {
      UnescapeKeepsChars(s[1..]);
    }
  }

  lemma {:induction false} UnescapeInvertsEscape(s: string)
    ensures Unescape(Escape(s)) == s
  {
    if s == "" {
    } else {
      UnescapeInvertsEscape(s[1..]);
      var e := Escape(s);
      if NeedsEscape(s[0]) {
        assert e[0] == '\\' && e[1] == s[0] && e[2..] == Escape(s[1..]);
      } else {
        assert e[0] == s[0] && e[1..] == Escape(s[1..]);
      }
      assert s == [s[0]] + s[1..];
    }
  }

  lemma {:induction false} EscapeKeepsLines(s: string)
    requires '\n' !in s
    ensures '\n' !in Escape(s)
  {
    if s == "" {
    } else {
      EscapeKeepsLines(s[1..]);
    }
  }

  // What a shell makes of it: the rules for double quotes, section 2.2.3 of the POSIX Shell Command Language.

  /**
   The text up to the closing quote and what follows it. Nothing is returned where the quote is never closed or
   an expansion would begin.
   */
  function InQuotes(s: string): Option<(string, string)> {
    if s == "" || s[0] == '$' || s[0] == '`' then None
    else if s[0] == '"' then Some(("", s[1..]))
    else if s[0] == '\\' && |s| >= 2 && s[1] == '\n' then InQuotes(s[2..])
    else if s[0] == '\\' && |s| >= 2 && (s[1] == '$' || s[1] == '`' || s[1] == '"' || s[1] == '\\') then
      WithFirst(s[1], InQuotes(s[2..]))
    else WithFirst(s[0], InQuotes(s[1..]))
  }

  function WithFirst(c: char, r: Option<(string, string)>): Option<(string, string)> {
    match r case None => None case Some((text, rest)) => Some(([c] + text, rest))
  }

  /** Every value, escaped and put in double quotes, is read by the shell as itself, with nothing expanded. */
  lemma {:induction false} ShellReadsEscaped(v: string, rest: string)
    ensures InQuotes(Escape(v) + ("\"" + rest)) == Some((v, rest))
  {
    var s := Escape(v) + ("\"" + rest);
    if v == "" {
      assert s[1..] == rest;
    } else {
      ShellReadsEscaped(v[1..], rest);
      assert v == [v[0]] + v[1..];
      if NeedsEscape(v[0]) {
        assert s[0] == '\\' && s[1] == v[0] && s[2..] == Escape(v[1..]) + ("\"" + rest);
      } else {
        assert s[0] == v[0] && s[1..] == Escape(v[1..]) + ("\"" + rest);
      }
    }
  }

  // Writing.

  const HEADER := "# Auto-" + "generated " + "by hosting " + "platform. " + "Do not edit."

  function Line(key: string, value: string): string {
    key + ("=" + ("\"" + (Escape(value) + "\"")))
  }

  function Body(keys: seq<string>, env: map<string, string>): string
    requires forall k :: k in keys ==> k in env
  {
    if keys == [] then "" else Line(keys[0], env[keys[0]]) + "\n" + Body(keys[1..], env)
  }

  function FileText(header: string, keys: seq<string>, env: map<string, string>): string
    requires forall k :: k in keys ==> k in env
  {
    header + "\n" + Body(keys, env)
  }

  lemma {:induction false} BodyAppend(keys: seq<string>, k: string, env: map<string, string>)
    requires k in env && forall x :: x in keys ==> x in env
    ensures Body(keys + [k], env) == Body(keys, env) + (Line(k, env[k]) + "\n")
  {
    if keys == [] {
      assert ([] + [k])[1..] == [];
    } else {
      var first := Line(keys[0], env[keys[0]]) + "\n";
      BodyAppend(keys[1..], k, env);
      assert (keys + [k])[1..] == keys[1..] + [k];
      assert first + (Body(keys[1..], env) + (Line(k, env[k]) + "\n"))
          == first + Body(keys[1..], env) + (Line(k, env[k]) + "\n");
    }
  }

  /** The lines of the file, one per variable, in the order of the sorted names. */
  method WriteLines(env: map<string, string>) returns (b: string)
    ensures b == Body(Sorted(env.Keys), env)
  {
    var left := env.Keys;
    b := "";
    ghost var done: seq<string> := [];
    while left != {}
      invariant left <= env.Keys
      invariant forall k :: k in done <==> k in env.Keys && k !in left
      invariant Increasing(done)
      invariant forall i, k :: 0 <= i < |done| && k in left ==> Less(done[i], k)
      invariant b == Body(done, env)
      decreases left
    {
      LeastExists(left);
      var k :| k in left && Below(k, left);
      b := b + (k + ("=" + ("\"" + (Escape(env[k]) + "\""))) + "\n");
      BodyAppend(done, k, env);
      done := done + [k];
      left := left - {k};
    }
    IncreasingIsSorted(done, env.Keys);
  }

  /**
   Writes the file, or removes it when there is nothing to write. The result is what the disk holds
   afterwards.
   */
  method WriteWebrootEnv(env: map<string, string>) returns (file: Option<string>)
    ensures env == map[] ==> file == None
    ensures env != map[] ==> file == Some(FileText(HEADER, Sorted(env.Keys), env))
  {
    if |env| == 0 {
      return None;
    }
    var lines := WriteLines(env);
    file := Some(HEADER + "\n" + lines);
  }

  // Reading.

  /** What one line of the file adds. */
  function ReadLine(line: string, env: map<string, string>): map<string, string> {
    var l := TrimSpace(line);
    if l == "" || l[0] == '#' then env
    else match Cut(l, '=')
      case None => env
      case Some((key, val)) =>
        if key == "" then env
        else if |val| >= 2 && val[0] == '"' && val[|val| - 1] == '"'
          then env[key := Unescape(val[1..|val| - 1])]
        else env[key := val]
  }

  function ReadLines(lines: seq<string>, env: map<string, string>): map<string, string> {
    if lines == [] then env else ReadLines(lines[1..], ReadLine(lines[0], env))
  }

  function Read(file: Option<string>): map<string, string> {
    match file case None => map[] case Some(data) => ReadLines(Split(data, '\n'), map[])
  }

  method ReadEnvFile(file: Option<string>) returns (env: map<string, string>)
    ensures env == Read(file)
  {
    env := map[];
    if file.None? { return; }
    var lines := Split(file.value, '\n');
    for i := 0 to |lines|
      invariant ReadLines(lines[i..], env) == Read(file)
    {
      ghost var before := env;
      var line := TrimSpace(lines[i]);
      if line != "" && line[0] != '#' {
        var pair := Cut(line, '=');
        if pair.Some? && pair.value.0 != "" {
          var val := pair.value.1;
          if |val| >= 2 && val[0] == '"' && val[|val| - 1] == '"' {
            val := Unescape(val[1..|val| - 1]);
          }
          env := env[pair.value.0 := val];
        }
      }
      assert env == ReadLine(lines[i], before);
      assert lines[i..][1..] == lines[i + 1..];
    }
  }

  // The reader undoes the writer.

  /** The names the API accepts: `[A-Za-z_][A-Za-z0-9_]*`. */
  predicate IsNameChar(c: char) {
    'a' <= c <= 'z' || 'A' <= c <= 'Z' || '0' <= c <= '9' || c == '_'
  }

  predicate IsName(k: string) {
    k != "" && !('0' <= k[0] <= '9') && forall i :: 0 <= i < |k| ==> IsNameChar(k[i])
  }

  lemma {:induction false} LineParts(k: string, v: string)
    requires IsName(k)
    ensures Trimmed(Line(k, v))
    ensures Cut(Line(k, v), '=') == Some((k, "\"" + (Escape(v) + "\"")))
  {
    var l := Line(k, v);
    var val := "\"" + (Escape(v) + "\"");
    assert l[0] == k[0] && IsNameChar(k[0]) && l[|l| - 1] == '"';
    assert l == k + ['='] + val;
    CutFirst(k, '=', val);
  }

  lemma {:induction false} ReadsWrittenLine(k: string, v: string, env: map<string, string>)
    requires IsName(k)
    ensures ReadLine(Line(k, v), env) == env[k := v]
  {
    LineParts(k, v);
    TrimmedIsFixed(Line(k, v));
    assert Line(k, v)[0] == k[0] && IsNameChar(k[0]);
    var val := "\"" + (Escape(v) + "\"");
    assert val[1..|val| - 1] == Escape(v);
    UnescapeInvertsEscape(v);
  }

  /** A value without quotes is taken as it is. */
  lemma {:induction false} ReadsUnquotedLine(k: string, v: string, env: map<string, string>)
    requires IsName(k) && v != "" && Trimmed(v) && !(|v| >= 2 && v[0] == '"' && v[|v| - 1] == '"')
    ensures ReadLine(k + (['='] + v), env) == env[k := v]
  {
    var l := k + (['='] + v);
    assert IsNameChar(k[0]) && l[0] == k[0] && l[|l| - 1] == v[|v| - 1];
    TrimmedIsFixed(l);
    assert l == k + ['='] + v;
    CutFirst(k, '=', v);
  }

  /** A line without an equals sign or without a name says nothing, nor does a blank one. */
  lemma {:induction false} SkipsOtherLines(text: string, env: map<string, string>)
    requires Trimmed(text) && (text == "" || text[0] == '#' || text[0] == '=' || '=' !in text)
    ensures ReadLine(text, env) == env
  {
    TrimmedIsFixed(text);
    CutSplitsAtFirst(text, '=');
  }

  lemma {:induction false} BodyFirstLine(keys: seq<string>, env: map<string, string>)
    requires keys != [] && forall k :: k in keys ==> k in env && IsName(k) && '\n' !in env[k]
    ensures Split(Body(keys, env), '\n') == [Line(keys[0], env[keys[0]])] + Split(Body(keys[1..], env), '\n')
  {
    var l := Line(keys[0], env[keys[0]]);
    EscapeKeepsLines(env[keys[0]]);
    assert forall i :: 0 <= i < |keys[0]| ==> IsNameChar(keys[0][i]);
    SplitFirst(l, '\n', Body(keys[1..], env));
  }

  lemma {:induction false} ReadLinesFirst(line: string, rest: seq<string>, got: map<string, string>)
    ensures ReadLines([line] + rest, got) == ReadLines(rest, ReadLine(line, got))
  {
    assert ([line] + rest)[1..] == rest;
  }

  lemma {:induction false} ReadsWrittenBody(keys: seq<string>, env: map<string, string>, got: map<string, string>)
    requires forall k :: k in keys ==> k in env && IsName(k) && '\n' !in env[k]
    ensures ReadLines(Split(Body(keys, env), '\n'), got) == got + Chosen(keys, env)
    decreases |keys|
  {
    if keys == [] {
      assert Split("", '\n') == [""] + [];
      ReadLinesFirst("", [], got);
    } else {
      var k := keys[0];
      var next := got[k := env[k]];
      BodyFirstLine(keys, env);
      ReadLinesFirst(Line(k, env[k]), Split(Body(keys[1..], env), '\n'), got);
      ReadsWrittenLine(k, env[k], got);
      ReadsWrittenBody(keys[1..], env, next);
      ChosenFirst(keys, env, got);
    }
  }

  lemma {:induction false} ReadLineValue(line: string, got: map<string, string>)
    requires '\n' !in line
    requires forall k :: k in got ==> '\n' !in got[k]
    ensures forall k :: k in ReadLine(line, got) ==> '\n' !in ReadLine(line, got)[k]
  {
    var l := TrimSpace(line);
    TrimKeepsChars(line);
    CutSplitsAtFirst(l, '=');
    var pair := Cut(l, '=');
    if pair.Some? {
      var val := pair.value.1;
      assert forall c :: c in val ==> c in l;
      if |val| >= 2 { UnescapeKeepsChars(val[1..|val| - 1]); }
    }
  }

  /** Nothing the reader returns spans a line. */
  lemma {:induction false} ReadValuesAreLines(lines: seq<string>, got: map<string, string>)
    requires forall i :: 0 <= i < |lines| ==> '\n' !in lines[i]
    requires forall k :: k in got ==> '\n' !in got[k]
    ensures forall k :: k in ReadLines(lines, got) ==> '\n' !in ReadLines(lines, got)[k]
    decreases |lines|
  {
    if lines == [] {
    } else {
      ReadLineValue(lines[0], got);
      ReadValuesAreLines(lines[1..], ReadLine(lines[0], got));
    }
  }

  ghost predicate IsCommentLine(header: string) {
    header != "" && header[0] == '#' && Trimmed(header) && '\n' !in header
  }

  lemma {:induction false} SkipsComment(header: string)
    requires IsCommentLine(header)
    ensures ReadLine(header, map[]) == map[]
  {
    TrimmedIsFixed(header);
  }

  /**
   For names the API accepts, the daemon sees exactly the variables that were written, whatever the
   order of the names in the file, if and only if no value holds a line break.
   */
  lemma {:induction false} RoundTrip(header: string, keys: seq<string>, env: map<string, string>)
    requires IsCommentLine(header) && Enumerates(keys, env) && forall k :: k in env ==> IsName(k)
    ensures Read(Some(FileText(header, keys, env))) == env <==> forall k :: k in env ==> '\n' !in env[k]
  {
    var body := Body(keys, env);
    SplitFirst(header, '\n', body);
    assert FileText(header, keys, env) == header + ['\n'] + body;
    if forall k :: k in env ==> '\n' !in env[k] {
      ReadLinesFirst(header, Split(body, '\n'), map[]);
      SkipsComment(header);
      ReadsWrittenBody(keys, env, map[]);
      ChosenAll(keys, env);
    } else {
      SplitPartsAreClean(body, '\n');
      ReadValuesAreLines([header] + Split(body, '\n'), map[]);
    }
  }

  lemma {:induction false} HeaderIsComment()
    ensures IsCommentLine(HEADER)
  {
  }

  /** The same through the two programs: what the writer left on disk is what the reader returns. */
  method WriteThenRead(env: map<string, string>) returns (got: map<string, string>)
    requires forall k :: k in env ==> IsName(k)
    ensures got == env <==> forall k :: k in env ==> '\n' !in env[k]
  {
    var file := WriteWebrootEnv(env);
    got := ReadEnvFile(file);
    if env != map[] {
      SortedEnumerates(env);
      HeaderIsComment();
      RoundTrip(HEADER, Sorted(env.Keys), env);
    }
  }

  lemma {:induction false} SortedEnumerates(env: map<string, string>)
    ensures Enumerates(Sorted(env.Keys), env)
  {
    var keys := Sorted(env.Keys);
    SortedIncreasing(env.Keys);
    forall i, j | 0 <= i < j < |keys| ensures keys[i] != keys[j] { LessIrreflexive(keys[i]); }
  }
}
