/**
 Building `bash -c` command lines for mysqldump and mysql (internal/agent/database.go), against the
 quoting and token recognition rules of the POSIX Shell Command Language, sections 2.2.1 (escape
 character), 2.2.2 (single-quotes) and 2.3 (token recognition).
 */
module ShellQuote {
  import opened Text

  /** `strings.ReplaceAll(a, "'", "'\\''")` */
  function EscapeQuotes(a: string): string {
    if a == "" then ""
    else (if a[0] == '\'' then "'\\''" else [a[0]]) + EscapeQuotes(a[1..])
  }

  function Quote(a: string): string {
    "'" + EscapeQuotes(a) + "'"
  }

  function Quoted(args: seq<string>): seq<string> {
    seq(|args|, i requires 0 <= i < |args| => Quote(args[i]))
  }

  method QuoteArgs(args: seq<string>) returns (quoted: array<string>)
    ensures fresh(quoted)
    ensures quoted[..] == Quoted(args)
  {
    quoted := new string[|args|];
    for i := 0 to |args|
      invariant forall k :: 0 <= k < i ==> quoted[k] == Quote(args[k])
    {
      quoted[i] := Quote(args[i]);
    }
  }

  // The shell's reader.

  datatype Token = Word(text: string) | Operator(text: string)

  predicate IsBlank(c: char) { c == ' ' || c == '\t' }

  predicate IsOperatorChar(c: char) {
    c == '|' || c == '&' || c == ';' || c == '<' || c == '>' || c == '(' || c == ')' || c == '\n'
  }

  /**
   Characters that, unquoted, leave a word to more than these sections: double-quotes, parameter and
   command expansion, pathname and tilde expansion, and the brace expansion of bash.
   */
  predicate IsExpansion(c: char) {
    c == '"' || c == '$' || c == '`' || c == '*' || c == '?' || c == '[' || c == '{' || c == '~'
  }

  predicate IsSpecial(c: char) {
    IsBlank(c) || IsOperatorChar(c) || IsExpansion(c) || c == '\'' || c == '\\'
  }

  /** Length of the longest operator that `s` starts with (rules 2 and 3 of section 2.3). */
  function OperatorLength(s: string): (n: nat)
    requires s != "" && IsOperatorChar(s[0])
    ensures 1 <= n <= |s|
  {
    if "<<-" <= s then 3
    else if |s| >= 2 && s[..2] in ["&&", "||", ";;", "<<", ">>", "<&", ">&", "<>", ">|"] then 2
    else 1
  }

  /** The text up to a single-quote and the text after it. */
  function ToQuote(s: string): Option<(string, string)> { Cut(s, '\'') }

  function Flush(word: Option<string>): seq<Token> {
    match word case None => [] case Some(w) => [Word(w)]
  }

  function Extend(word: Option<string>, more: string): Option<string> {
    match word case None => Some(more) case Some(w) => Some(w + more)
  }

  function SkipComment(s: string): (r: string)
    ensures |r| <= |s|
  {
    if s == "" || s[0] == '\n' then s else SkipComment(s[1..])
  }

  /**
   Reads `s` into tokens, with `word` the word read so far. `None`: unterminated, or some word is subject
   to expansion, so that what it becomes depends on more than the text.
   */
  function Lex(s: string, word: Option<string>): Option<seq<Token>>
    decreases |s|
  {
    if s == "" then Some(Flush(word))
    else if IsBlank(s[0]) then Emit(Flush(word), Lex(s[1..], None))
    else if IsOperatorChar(s[0]) then
      var n := OperatorLength(s);
      Emit(Flush(word) + [Operator(s[..n])], Lex(s[n..], None))
    else if s[0] == '\'' then
      match ToQuote(s[1..])
      case None => None
      case Some((inside, after)) => Lex(after, Extend(word, inside))
    else if s[0] == '\\' then
      if |s| == 1 then None
      else if s[1] == '\n' then Lex(s[2..], word)
      else Lex(s[2..], Extend(word, [s[1]]))
    else if IsExpansion(s[0]) then None
    else if s[0] == '#' && word.None? then Lex(SkipComment(s[1..]), None)
    else Lex(s[1..], Extend(word, [s[0]]))
  }

  function Emit(tokens: seq<Token>, rest: Option<seq<Token>>): Option<seq<Token>> {
    match rest case None => None case Some(ts) => Some(tokens + ts)
  }

  function Words(args: seq<string>): (r: seq<Token>)
    ensures |r| == |args| && forall i :: 0 <= i < |args| ==> r[i].Word? && r[i].text == args[i]
  {
    seq(|args|, i requires 0 <= i < |args| => Word(args[i]))
  }

  // One step of the reader at a time.

  lemma {:induction false} ExtendTwice(word: Option<string>, a: string, b: string)
    ensures Extend(Extend(word, a), b) == Extend(word, a + b)
  {
    if word.Some? { assert word.value + a + b == word.value + (a + b); }
  }

  lemma {:induction false} ReadsSection(inside: string, after: string, word: Option<string>)
    requires '\'' !in inside
    ensures Lex("'" + (inside + ("'" + after)), word) == Lex(after, Extend(word, inside))
  {
    var s := "'" + (inside + ("'" + after));
    assert s[1..] == inside + ("'" + after) == inside + ['\''] + after;
    CutFirst(inside, '\'', after);
  }

  lemma {:induction false} ReadsEscapedQuote(after: string, word: Option<string>)
    ensures Lex("\\'" + after, word) == Lex(after, Extend(word, "'"))
  {
    var s := "\\'" + after;
    assert s[0] == '\\' && s[1] == '\'' && s[2..] == after;
    assert [s[1]] == "'";
  }

  lemma {:induction false} ReadsBlank(after: string, word: Option<string>)
    ensures Lex(" " + after, word) == Emit(Flush(word), Lex(after, None))
  {
    assert (" " + after)[1..] == after;
  }

  // Reading back one quoted argument: the reader is in the middle of a single-quoted section whose
  // remaining text is the escaped rest of the argument.

  lemma {:induction false} ReadsQuoteInArgument(done: string, after: string, word: Option<string>)
    requires '\'' !in done
    ensures Lex("'" + (done + ("'" + ("\\'" + after))), word) == Lex(after, Extend(word, done + "'"))
  {
    ReadsSection(done, "\\'" + after, word);
    ReadsEscapedQuote(after, Extend(word, done));
    ExtendTwice(word, done, "'");
  }

  /** How the escaped text of an argument begins, at a quote and elsewhere. */
  lemma {:induction false} EscapedQuoteShape(a: string, end: string)
    requires a != "" && a[0] == '\''
    ensures EscapeQuotes(a) + end == "'" + ("\\'" + ("'" + ("" + (EscapeQuotes(a[1..]) + end))))
  {
    var tail := EscapeQuotes(a[1..]) + end;
    assert EscapeQuotes(a) + end == "'\\''" + tail;
    assert "'\\''" + tail == "'" + ("\\'" + ("'" + tail));
    assert "" + tail == tail;
  }

  lemma {:induction false} QuoteSplitsArgument(done: string, a: string)
    requires a != "" && a[0] == '\''
    ensures done + "'" + ("" + a[1..]) == done + a
  {
    assert a == "'" + a[1..];
  }

  lemma {:induction false} EscapedOtherShape(done: string, a: string, end: string)
    requires a != "" && a[0] != '\''
    ensures done + (EscapeQuotes(a) + end) == done + [a[0]] + (EscapeQuotes(a[1..]) + end)
    ensures done + [a[0]] + a[1..] == done + a
  {
    assert EscapeQuotes(a) == [a[0]] + EscapeQuotes(a[1..]);
  }

  lemma {:induction false} ReadsRestOfArgument(done: string, a: string, rest: string, word: Option<string>)
    requires '\'' !in done
    ensures Lex("'" + (done + (EscapeQuotes(a) + ("'" + rest))), word) == Lex(rest, Extend(word, done + a))
    decreases |a|
  {
    if a == "" {
      assert "" + ("'" + rest) == "'" + rest;
      assert done + "" == done;
      ReadsSection(done, rest, word);
    } else if a[0] == '\'' {
      EscapedQuoteShape(a, "'" + rest);
      ReadsQuoteInArgument(done, "'" + ("" + (EscapeQuotes(a[1..]) + ("'" + rest))), word);
      ReadsRestOfArgument("", a[1..], rest, Extend(word, done + "'"));
      ExtendTwice(word, done + "'", "" + a[1..]);
      QuoteSplitsArgument(done, a);
    } else {
      EscapedOtherShape(done, a, "'" + rest);
      ReadsRestOfArgument(done + [a[0]], a[1..], rest, word);
    }
  }

  lemma {:induction false} ReadsArgument(a: string, rest: string)
    ensures Lex(Quote(a) + rest, None) == Lex(rest, Some(a))
  {
    assert Quote(a) + rest == "'" + ("" + (EscapeQuotes(a) + ("'" + rest)));
    ReadsRestOfArgument("", a, rest, None);
    assert "" + a == a;
  }

  /** A quoted argument list followed by a blank and anything reads as those words, then the rest. */
  lemma {:induction false} ReadsArgumentsBefore(args: seq<string>, rest: string)
    requires args != []
    ensures Lex(Join(Quoted(args), " ") + (" " + rest), None) == Emit(Words(args), Lex(rest, None))
  {
    var q := Quoted(args);
    if |args| == 1 {
      ReadsArgument(args[0], " " + rest);
      ReadsBlank(rest, Some(args[0]));
      assert Words(args) == [Word(args[0])];
    } else {
      assert q[1..] == Quoted(args[1..]);
      var after := Join(q[1..], " ") + (" " + rest);
      assert Join(q, " ") + (" " + rest) == Quote(args[0]) + (" " + after);
      ReadsArgument(args[0], " " + after);
      ReadsBlank(after, Some(args[0]));
      ReadsArgumentsBefore(args[1..], rest);
      EmitTwice([Word(args[0])], Words(args[1..]), Lex(rest, None));
      assert Words(args) == [Word(args[0])] + Words(args[1..]);
    }
  }

  lemma {:induction false} EmitTwice(a: seq<Token>, b: seq<Token>, rest: Option<seq<Token>>)
    ensures Emit(a, Emit(b, rest)) == Emit(a + b, rest)
  {
    if rest.Some? { assert a + (b + rest.value) == a + b + rest.value; }
  }

  /** The argument list of the command is exactly `args`, whatever the strings hold. */
  lemma {:induction false} ShellReadsBackArguments(args: seq<string>)
    ensures Lex(Join(Quoted(args), " "), None) == Some(Words(args))
  {
    var q := Quoted(args);
    if args == [] {
      assert Words(args) == [];
    } else if |args| == 1 {
      assert q[0] + "" == Join(q, " ");
      ReadsArgument(args[0], "");
      assert Words(args) == [Word(args[0])];
    } else {
      assert q[1..] == Quoted(args[1..]);
      var after := Join(q[1..], " ");
      assert Join(q, " ") == Quote(args[0]) + (" " + after);
      ReadsArgument(args[0], " " + after);
      ReadsBlank(after, Some(args[0]));
      ShellReadsBackArguments(args[1..]);
      assert Words(args) == [Word(args[0])] + Words(args[1..]);
    }
  }

  // The whole command line. The dump path is spliced in without quotes.

  function DumpCommand(args: seq<string>, path: string): string {
    "mysqldump " + Join(Quoted(args), " ") + " | gzip > " + path
  }

  /** The path is a word, starts no comment, and none of its characters is special. */
  predicate PlainPath(path: string) {
    path != "" && path[0] != '#' && forall i :: 0 <= i < |path| ==> !IsSpecial(path[i])
  }

  lemma {:induction false} ReadsPlain(plain: string, rest: string, word: Option<string>)
    requires forall i :: 0 <= i < |plain| ==> !IsSpecial(plain[i])
    requires plain != "" && (word.None? ==> plain[0] != '#')
    ensures Lex(plain + rest, word) == Lex(rest, Extend(word, plain))
    decreases |plain|
  {
    var s := plain + rest;
    assert s[1..] == plain[1..] + rest;
    if |plain| == 1 {
      assert plain == [plain[0]];
      assert s[1..] == rest;
    } else {
      var w := Extend(word, [plain[0]]);
      ReadsPlain(plain[1..], rest, w);
      assert plain == [plain[0]] + plain[1..];
      ExtendTwice(word, [plain[0]], plain[1..]);
    }
  }

  function TextLength(tokens: seq<Token>): nat {
    if tokens == [] then 0 else |tokens[0].text| + TextLength(tokens[1..])
  }

  lemma {:induction false} TextLengthAppend(a: seq<Token>, b: seq<Token>)
    ensures TextLength(a + b) == TextLength(a) + TextLength(b)
  {
    if a == [] {
      assert a + b == b;
    } else {
      assert (a + b)[1..] == a[1..] + b;
      TextLengthAppend(a[1..], b);
    }
  }

  function WordLength(word: Option<string>): nat {
    match word case None => 0 case Some(w) => |w|
  }

  predicate AllWords(tokens: seq<Token>) {
    forall i :: 0 <= i < |tokens| ==> tokens[i].Word?
  }

  /** The reader never invents text, and drops or splits off some of it where a character is special. */
  predicate LosesSpecials(s: string, word: Option<string>) {
    var r := Lex(s, word);
    r.Some? ==>
      && TextLength(r.value) <= WordLength(word) + |s|
      && (AllWords(r.value) && TextLength(r.value) == WordLength(word) + |s|
          ==> forall i :: 0 <= i < |s| ==> !IsSpecial(s[i]))
      && (word.None? && s != "" && s[0] == '#' ==> TextLength(r.value) < |s|)
  }

  lemma {:induction false} OperatorIsSplitOff(s: string, word: Option<string>)
    requires s != "" && IsOperatorChar(s[0])
    requires LosesSpecials(s[OperatorLength(s)..], None)
    ensures LosesSpecials(s, word)
  {
    var n := OperatorLength(s);
    var r := Lex(s[n..], None);
    if r.Some? {
      var head := Flush(word) + [Operator(s[..n])];
      TextLengthAppend(Flush(word), [Operator(s[..n])]);
      TextLengthAppend(head, r.value);
      assert (head + r.value)[|Flush(word)|] == Operator(s[..n]);
    }
  }

  lemma {:induction false} BlankIsDropped(s: string, word: Option<string>)
    requires s != "" && IsBlank(s[0])
    requires LosesSpecials(s[1..], None)
    ensures LosesSpecials(s, word)
  {
    var r := Lex(s[1..], None);
    if r.Some? { TextLengthAppend(Flush(word), r.value); }
  }

  lemma {:induction false} ReaderLosesSpecials(s: string, word: Option<string>)
    ensures LosesSpecials(s, word)
    decreases |s|
  {
    if s == "" {
      TextLengthAppend(Flush(word), []);
    } else if IsBlank(s[0]) {
      ReaderLosesSpecials(s[1..], None);
      BlankIsDropped(s, word);
    } else if IsOperatorChar(s[0]) {
      ReaderLosesSpecials(s[OperatorLength(s)..], None);
      OperatorIsSplitOff(s, word);
    } else if s[0] == '\'' {
      match ToQuote(s[1..]) {
        case None =>
        case Some((inside, after)) => ReaderLosesSpecials(after, Extend(word, inside));
      }
    } else if s[0] == '\\' {
      if |s| > 1 {
        ReaderLosesSpecials(s[2..], if s[1] == '\n' then word else Extend(word, [s[1]]));
      }
    } else if IsExpansion(s[0]) {
    } else if s[0] == '#' && word.None? {
      ReaderLosesSpecials(SkipComment(s[1..]), None);
    } else {
      ReaderLosesSpecials(s[1..], Extend(word, [s[0]]));
    }
  }

  /** A path stands for itself on the command line, whatever files there are, exactly when it is plain. */
  lemma {:induction false} PathReadsAsItselfIffPlain(path: string)
    ensures Lex(path, None) == Some([Word(path)]) <==> PlainPath(path)
  {
    if PlainPath(path) {
      ReadsPlain(path, "", None);
      assert path + "" == path;
    }
    if Lex(path, None) == Some([Word(path)]) {
      ReaderLosesSpecials(path, None);
      assert TextLength([Word(path)]) == |path|;
      assert path != "";
    }
  }

  /**
   The dump pipeline is read as the intended one, `mysqldump args | gzip > path`, for every argument
   list and with no word left to an expansion, exactly when the path is plain.
   */
  lemma {:induction false} DumpCommandMeansPipeline(args: seq<string>, path: string)
    requires args != []
    ensures
      Lex(DumpCommand(args, path), None)
        == Some([Word("mysqldump")] + Words(args) + [Operator("|"), Word("gzip"), Operator(">"), Word(path)])
      <==> PlainPath(path)
  {
    var tail := "| gzip > " + path;
    var list := Join(Quoted(args), " ");
    assert DumpCommand(args, path) == "mysqldump" + (" " + (list + (" " + tail)));
    ReadsPlain("mysqldump", " " + (list + (" " + tail)), None);
    ReadsBlank(list + (" " + tail), Some("mysqldump"));
    ReadsArgumentsBefore(args, tail);
    ReadsPipeTail(path);
    PathReadsAsItselfIffPlain(path);
    PipelineTokens(args, path, Lex(path, None));
  }

  lemma {:induction false} ReadsOperator(op: char, after: string)
    requires op == '|' || op == '>'
    ensures Lex([op, ' '] + after, None) == Emit([Operator([op])], Lex(after, None))
  {
    var s := [op, ' '] + after;
    assert s[..2] == [op, ' '];
    assert OperatorLength(s) == 1 && s[..1] == [op];
    assert s[1..] == " " + after;
    ReadsBlank(after, None);
    assert Lex(s[1..], None) == Emit([], Lex(after, None));
    EmitTwice([Operator([op])], [], Lex(after, None));
    assert [] + [Operator([op])] == [Operator([op])] + [];
    assert [Operator([op])] + [] == [Operator([op])];
  }

  lemma {:induction false} ReadsPipeTail(path: string)
    ensures Lex("| gzip > " + path, None)
         == Emit([Operator("|")], Emit([Word("gzip")], Emit([Operator(">")], Lex(path, None))))
  {
    assert "| gzip > " + path == ['|', ' '] + ("gzip" + (" " + (['>', ' '] + path)));
    ReadsOperator('|', "gzip" + (" " + (['>', ' '] + path)));
    ReadsPlain("gzip", " " + (['>', ' '] + path), None);
    ReadsBlank(['>', ' '] + path, Some("gzip"));
    ReadsOperator('>', path);
  }

  /** Putting the pieces of the pipeline together. */
  lemma {:induction false} PipelineTokens(args: seq<string>, path: string, rest: Option<seq<Token>>)
    ensures
      Emit([Word("mysqldump")], Emit(Words(args), Emit([Operator("|")], Emit([Word("gzip")],
        Emit([Operator(">")], rest)))))
        == Some([Word("mysqldump")] + Words(args) + [Operator("|"), Word("gzip"), Operator(">"), Word(path)])
      <==> rest == Some([Word(path)])
  {
    var head := [Word("mysqldump")] + Words(args) + [Operator("|"), Word("gzip"), Operator(">")];
    if rest.Some? {
      assert [Word("mysqldump")] + (Words(args) + ([Operator("|")] + ([Word("gzip")]
        + ([Operator(">")] + rest.value)))) == head + rest.value;
      assert [Word("mysqldump")] + Words(args) + [Operator("|"), Word("gzip"), Operator(">"), Word(path)]
        == head + [Word(path)];
      assert (head + rest.value)[|head|..] == rest.value;
      assert (head + [Word(path)])[|head|..] == [Word(path)];
    }
  }
}
