/**
 The investigation loop of the incident agent (internal/activity/agent.go:210-380): turn by turn it injects
 new messages from operators, asks the model, runs the tools the model calls and appends their results, until
 a terminal tool is called, the model stops calling tools, or the turns run out.
 */
module AgentLoop {
  import opened Text

  /** The two terminal tools, and all others. */
  datatype ToolName = ResolveIncident | EscalateIncident | OtherTool(name: string)

  datatype ToolCall = ToolCall(id: string, name: ToolName, args: string)

  datatype Message =
    | System(content: string)
    | User(content: string)
    | Assistant(content: string, calls: seq<ToolCall>)
    | Tool(content: string, callId: string)

  datatype Admin = Admin(id: string, detail: string)

  /** What comes back from the model. */
  datatype Reply = ChatError | NoChoices | Answer(content: string, calls: seq<ToolCall>)

  /**
   The world of one run: the operator messages a turn's query answers (or an error), the model's reply to
   a conversation in a turn, and the result or error of the k-th call of a turn.
   */
  datatype Env = Env(
    visible: nat -> Option<seq<Admin>>,
    chat: (nat, seq<Message>) -> Reply,
    execute: (nat, nat, ToolCall) -> Result<string, string>)

  predicate IsTerminal(name: ToolName) { name.ResolveIncident? || name.EscalateIncident? }

  datatype Kind = Resolved | Escalated

  /** How an investigation ends. */
  datatype Ending =
    | Failure(turn: nat)
    | Stopped(turn: nat, summary: string)
    | Finished(kind: Kind, turn: nat)
    | OutOfTurns(turns: int)

  // One turn.

  function Ids(msgs: seq<Admin>): set<string> { set m | m in msgs :: m.id }

  /** The messages not seen before, each once. */
  function Fresh(rows: seq<Admin>, seen: set<string>): seq<Admin> {
    if rows == [] then []
    else if rows[0].id in seen then Fresh(rows[1..], seen)
    else [rows[0]] + Fresh(rows[1..], seen + {rows[0].id})
  }

  function Answered(visible: Option<seq<Admin>>): seq<Admin> {
    if visible.Some? then visible.value else []
  }

  /** `fetchAdminMessages`; a failed query counts as no messages. */
  method FetchAdminMessages(
    visible: Option<seq<Admin>>, seen: set<string>) returns (msgs: seq<Admin>, seen': set<string>)
    ensures msgs == Fresh(Answered(visible), seen)
    ensures seen' == seen + Ids(msgs)
  {
    msgs, seen' := [], seen;
    if visible.None? { return; }
    var rows := visible.value;
    for i := 0 to |rows|
      invariant msgs + Fresh(rows[i..], seen') == Fresh(rows, seen)
      invariant seen' == seen + Ids(msgs)
    {
      assert rows[i..][1..] == rows[i + 1..];
      if rows[i].id in seen' { continue; }
      seen' := seen' + {rows[i].id};
      assert msgs + ([rows[i]] + Fresh(rows[i + 1..], seen')) == msgs + [rows[i]] + Fresh(rows[i + 1..], seen');
      msgs := msgs + [rows[i]];
    }
  }

  function AdminText(m: Admin): Message { User("Message from admin operator:\n\n" + m.detail) }

  function AdminTexts(msgs: seq<Admin>): seq<Message> {
    seq(|msgs|, i requires 0 <= i < |msgs| => AdminText(msgs[i]))
  }

  /** What the model is told about one call; an error is told too. */
  function ResultText(r: Result<string, string>): string {
    match r
    case Ok(text) => text
    case Err(e) => "{\"error\":\"" + e + "\"}"
  }

  /** One tool message for each call, with its id. */
  function ToolTexts(calls: seq<ToolCall>, results: seq<string>): seq<Message> {
    if calls == [] || |results| != |calls| then []
    else ToolTexts(calls[..|calls| - 1], results[..|calls| - 1]) + [Tool(results[|calls| - 1], calls[|calls| - 1].id)]
  }

  /** The last terminal call decides. */
  function Verdict(calls: seq<ToolCall>): Option<Kind> {
    if calls == [] then None
    else if calls[|calls| - 1].name.ResolveIncident? then Some(Resolved)
    else if calls[|calls| - 1].name.EscalateIncident? then Some(Escalated)
    else Verdict(calls[..|calls| - 1])
  }

  /** A turn in which the model was asked. */
  datatype Turn = Turn(admins: seq<Admin>, reply: Reply, results: seq<string>)

  /** What the model and the tools add to the conversation. */
  function Spoken(t: Turn): seq<Message> {
    if t.reply.Answer? then [Assistant(t.reply.content, t.reply.calls)] + ToolTexts(t.reply.calls, t.results) else []
  }

  function Conversation(prologue: seq<Message>, turns: seq<Turn>): seq<Message>
    decreases |turns|, 0
  {
    if turns == [] then prologue
    else Asked(prologue, turns[..|turns| - 1], Last(turns)) + Spoken(Last(turns))
  }

  /** What the model is sent in a turn after the earlier ones. */
  function Asked(prologue: seq<Message>, before: seq<Turn>, t: Turn): seq<Message>
    decreases |before|, 1
  {
    Conversation(prologue, before) + AdminTexts(t.admins)
  }

  function Last(turns: seq<Turn>): Turn
    requires turns != []
  {
    turns[|turns| - 1]
  }

  /** The operator messages injected so far. */
  function Injected(turns: seq<Turn>): seq<Admin> {
    if turns == [] then [] else Injected(turns[..|turns| - 1]) + Last(turns).admins
  }

  /** The results are those of the turn's calls, in order. */
  ghost predicate Executed(env: Env, n: nat, calls: seq<ToolCall>, results: seq<string>) {
    && |results| == |calls|
    && forall k :: 0 <= k < |calls| ==> results[k] == ResultText(env.execute(n, k, calls[k]))
  }

  /** The turn is what the world answers after the earlier turns. */
  ghost predicate Follows(env: Env, prologue: seq<Message>, before: seq<Turn>, t: Turn) {
    var n := |before| + 1;
    && t.admins == Fresh(Answered(env.visible(n)), Ids(Injected(before)))
    && t.reply == env.chat(n, Asked(prologue, before, t))
    && Executed(env, n, if t.reply.Answer? then t.reply.calls else [], t.results)
  }

  ghost predicate Trace(env: Env, prologue: seq<Message>, turns: seq<Turn>) {
    turns == [] || (Trace(env, prologue, turns[..|turns| - 1]) && Follows(env, prologue, turns[..|turns| - 1], Last(turns)))
  }

  /** The loop goes on after the turn. */
  predicate GoesOn(t: Turn) {
    t.reply.Answer? && t.reply.calls != [] && Verdict(t.reply.calls).None?
  }

  /** How a run with these turns ends. */
  predicate EndsWith(turns: seq<Turn>, max: int, end: Ending) {
    match end
    case OutOfTurns(n) => n == max && |turns| == (if max > 0 then max else 0) && forall t :: t in turns ==> GoesOn(t)
    case Failure(n) => n == |turns| > 0 && (Last(turns).reply.ChatError? || Last(turns).reply.NoChoices?)
    case Stopped(n, s) => n == |turns| > 0 && Last(turns).reply == Answer(s, [])
    case Finished(kind, n) =>
      n == |turns| > 0 && Last(turns).reply.Answer? && Verdict(Last(turns).reply.calls) == Some(kind)
  }

  /** What the model was sent in each turn. */
  ghost predicate SentAre(sent: seq<seq<Message>>, prologue: seq<Message>, turns: seq<Turn>) {
    |sent| == |turns|
    && (turns == [] || (SentAre(sent[..|turns| - 1], prologue, turns[..|turns| - 1])
                        && sent[|turns| - 1] == Asked(prologue, turns[..|turns| - 1], Last(turns))))
  }

  /** Every turn but the last goes on. */
  predicate AllGoOn(turns: seq<Turn>) { forall t :: t in turns ==> GoesOn(t) }

  // The loop.

  /** The tool calls of one turn, in order. */
  method RunTools(env: Env, turn: nat, calls: seq<ToolCall>)
    returns (results: seq<string>, texts: seq<Message>, outcome: Option<Kind>)
    ensures Executed(env, turn, calls, results)
    ensures texts == ToolTexts(calls, results)
    ensures outcome == Verdict(calls)
  {
    results, texts, outcome := [], [], None;
    for i := 0 to |calls|
      invariant Executed(env, turn, calls[..i], results)
      invariant texts == ToolTexts(calls[..i], results)
      invariant outcome == Verdict(calls[..i])
    {
      var result := ResultText(env.execute(turn, i, calls[i]));
      assert calls[..i + 1] == calls[..i] + [calls[i]];
      ToolTextsNext(calls[..i], results, calls[i], result);
      ExecutedNext(env, turn, calls[..i], results, calls[i]);
      texts := texts + [Tool(result, calls[i].id)];
      results := results + [result];
      if IsTerminal(calls[i].name) {
        outcome := Some(if calls[i].name.ResolveIncident? then Resolved else Escalated);
      }
    }
    assert calls[..|calls|] == calls;
  }

  lemma {:induction false} ExecutedNext(env: Env, n: nat, calls: seq<ToolCall>, results: seq<string>, call: ToolCall)
    requires Executed(env, n, calls, results)
    ensures Executed(env, n, calls + [call], results + [ResultText(env.execute(n, |calls|, call))])
  {
  }

  lemma {:induction false} ToolTextsNext(calls: seq<ToolCall>, results: seq<string>, call: ToolCall, result: string)
    requires |results| == |calls|
    ensures ToolTexts(calls + [call], results + [result]) == ToolTexts(calls, results) + [Tool(result, call.id)]
    ensures Verdict(calls + [call]) == if call.name.ResolveIncident? then Some(Resolved)
      else if call.name.EscalateIncident? then Some(Escalated) else Verdict(calls)
  {
    assert (calls + [call])[..|calls|] == calls && (results + [result])[..|calls|] == results;
  }

  /** `InvestigateIncident`; `sent` is what the model was sent, turn by turn. */
  method InvestigateIncident(env: Env, prologue: seq<Message>, max: int)
    returns (end: Ending, messages: seq<Message>, sent: seq<seq<Message>>, ghost turns: seq<Turn>)
    ensures Trace(env, prologue, turns) && EndsWith(turns, max, end)
    ensures turns != [] ==> AllGoOn(turns[..|turns| - 1])
    ensures messages == Conversation(prologue, turns) && SentAre(sent, prologue, turns)
    ensures |sent| <= if max > 0 then max else 0
  {
    messages, sent, turns := prologue, [], [];
    var seen: set<string> := {};
    var turn := 1;
    while turn <= max
      invariant 1 <= turn && |turns| == turn - 1 && (max > 0 ==> turn <= max + 1) && (max <= 0 ==> turn == 1)
      invariant Trace(env, prologue, turns) && AllGoOn(turns)
      invariant messages == Conversation(prologue, turns) && SentAre(sent, prologue, turns)
      invariant seen == Ids(Injected(turns))
    {
      ghost var before := turns;
      var t, outcome;
      t, outcome, seen, messages, sent := OneTurn(env, prologue, turns, seen, messages, sent, turn);
      Grown(before, t);
      turns := turns + [t];
      if !t.reply.Answer? { return Failure(turn), messages, sent, turns; }
      if t.reply.calls == [] { return Stopped(turn, t.reply.content), messages, sent, turns; }
      if outcome.Some? { return Finished(outcome.value, turn), messages, sent, turns; }
      turn := turn + 1;
    }
    assert turns != [] ==> AllGoOn(turns[..|turns| - 1]);
    return OutOfTurns(max), messages, sent, turns;
  }

  lemma {:induction false} Grown(before: seq<Turn>, t: Turn)
    ensures (before + [t])[..|before|] == before && Last(before + [t]) == t
    ensures Injected(before + [t]) == Injected(before) + t.admins
    ensures Ids(Injected(before + [t])) == Ids(Injected(before)) + Ids(t.admins)
  {
    assert (before + [t])[..|before|] == before;
  }

  lemma {:induction false} TraceGrows(
    env: Env, prologue: seq<Message>, before: seq<Turn>, t: Turn, sent: seq<seq<Message>>)
    requires Trace(env, prologue, before) && Follows(env, prologue, before, t) && SentAre(sent, prologue, before)
    ensures Trace(env, prologue, before + [t])
    ensures SentAre(sent + [Asked(prologue, before, t)], prologue, before + [t])
    ensures Conversation(prologue, before + [t]) == Asked(prologue, before, t) + Spoken(t)
  {
    var more := before + [t];
    assert more[..|more| - 1] == before && Last(more) == t;
    var now := sent + [Asked(prologue, before, t)];
    assert now[..|more| - 1] == sent;
  }

  /** The body of the loop up to the check of the outcome. */
  method OneTurn(
    env: Env, ghost prologue: seq<Message>, ghost before: seq<Turn>, seen: set<string>, messages: seq<Message>,
    sent: seq<seq<Message>>, turn: nat)
    returns (t: Turn, outcome: Option<Kind>, seen': set<string>, messages': seq<Message>, sent': seq<seq<Message>>)
    requires Trace(env, prologue, before) && |before| == turn - 1
    requires messages == Conversation(prologue, before) && SentAre(sent, prologue, before)
    requires seen == Ids(Injected(before))
    ensures Trace(env, prologue, before + [t])
    ensures messages' == Conversation(prologue, before + [t]) && SentAre(sent', prologue, before + [t])
    ensures seen' == Ids(Injected(before + [t]))
    ensures outcome == if t.reply.Answer? then Verdict(t.reply.calls) else None
  {
    var admins;
    admins, seen' := FetchAdminMessages(env.visible(turn), seen);
    var asked := messages + AdminTexts(admins);
    sent' := sent + [asked];
    var reply := env.chat(turn, asked);
    var results, texts := [], [];
    messages', outcome := asked, None;
    if reply.Answer? {
      results, texts, outcome := RunTools(env, turn, reply.calls);
      messages' := messages' + ([Assistant(reply.content, reply.calls)] + texts);
    }
    t := Turn(admins, reply, results);
    assert Asked(prologue, before, t) == asked;
    assert messages' == asked + Spoken(t);
    TraceGrows(env, prologue, before, t, sent);
    Grown(before, t);
  }

  // What a conversation must look like for the model: after an assistant message with tool calls come
  // exactly their results, by id and in order, before anything else.

  function CallIds(calls: seq<ToolCall>): seq<string> {
    seq(|calls|, i requires 0 <= i < |calls| => calls[i].id)
  }

  /** `open` are the calls still to be answered. */
  predicate Proper(messages: seq<Message>, open: seq<string>) {
    if messages == [] then open == []
    else match messages[0]
      case Tool(_, id) => open != [] && open[0] == id && Proper(messages[1..], open[1..])
      case Assistant(_, calls) => open == [] && Proper(messages[1..], CallIds(calls))
      case _ => open == [] && Proper(messages[1..], [])
  }

  lemma {:induction false} ProperAppend(a: seq<Message>, b: seq<Message>, open: seq<string>)
    requires Proper(a, open) && Proper(b, [])
    ensures Proper(a + b, open)
    decreases |a|
  {
    if a == [] {
      assert a + b == b;
    } else {
      assert (a + b)[0] == a[0] && (a + b)[1..] == a[1..] + b;
      match a[0] {
        case Tool(_, id) => ProperAppend(a[1..], b, open[1..]);
        case Assistant(_, calls) => ProperAppend(a[1..], b, CallIds(calls));
        case _ => ProperAppend(a[1..], b, []);
      }
    }
  }

  lemma {:induction false} ToolTextsAt(calls: seq<ToolCall>, results: seq<string>)
    requires |results| == |calls|
    ensures |ToolTexts(calls, results)| == |calls|
    ensures forall i :: 0 <= i < |calls| ==> ToolTexts(calls, results)[i] == Tool(results[i], calls[i].id)
    decreases |calls|
  {
    if calls == [] {
    } else {
      ToolTextsAt(calls[..|calls| - 1], results[..|calls| - 1]);
    }
  }

  lemma {:induction false} ToolsClose(calls: seq<ToolCall>, results: seq<string>, k: nat)
    requires |results| == |calls| && k <= |calls|
    ensures |ToolTexts(calls, results)| == |calls|
    ensures Proper(ToolTexts(calls, results)[k..], CallIds(calls)[k..])
    decreases |calls| - k
  {
    ToolTextsAt(calls, results);
    if k == |calls| {
    } else {
      ToolsClose(calls, results, k + 1);
      assert ToolTexts(calls, results)[k..][1..] == ToolTexts(calls, results)[k + 1..];
      assert CallIds(calls)[k..][1..] == CallIds(calls)[k + 1..];
    }
  }

  lemma {:induction false} UsersProper(messages: seq<Message>)
    requires forall m :: m in messages ==> m.User? || m.System?
    ensures Proper(messages, [])
  {
    if messages == [] {
    } else {
      UsersProper(messages[1..]);
    }
  }

  lemma {:induction false} SpokenProper(t: Turn)
    requires t.reply.Answer? ==> |t.results| == |t.reply.calls|
    ensures Proper(Spoken(t), [])
  {
    if t.reply.Answer? {
      var texts := ToolTexts(t.reply.calls, t.results);
      ToolsClose(t.reply.calls, t.results, 0);
      assert texts[0..] == texts && CallIds(t.reply.calls)[0..] == CallIds(t.reply.calls);
      assert Spoken(t)[0] == Assistant(t.reply.content, t.reply.calls) && Spoken(t)[1..] == texts;
    }
  }

  lemma {:induction false} AskedProper(prologue: seq<Message>, before: seq<Turn>, t: Turn)
    requires Proper(Conversation(prologue, before), [])
    ensures Proper(Asked(prologue, before, t), [])
  {
    UsersProper(AdminTexts(t.admins));
    ProperAppend(Conversation(prologue, before), AdminTexts(t.admins), []);
  }

  /**
   In every run the conversation is proper after every turn and in every request: each tool call is
   answered by exactly one message with its id, in order, before the model is asked again.
   */
  lemma {:induction false} ConversationsAreProper(env: Env, prologue: seq<Message>, turns: seq<Turn>)
    requires Trace(env, prologue, turns) && Proper(prologue, [])
    ensures Proper(Conversation(prologue, turns), [])
    ensures turns != [] ==> Proper(Asked(prologue, turns[..|turns| - 1], Last(turns)), [])
    decreases |turns|
  {
    if turns == [] {
    } else {
      var before, t := turns[..|turns| - 1], Last(turns);
      ConversationsAreProper(env, prologue, before);
      AskedProper(prologue, before, t);
      SpokenProper(t);
      ProperAppend(Asked(prologue, before, t), Spoken(t), []);
    }
  }

  // Operator messages.

  lemma {:induction false} FreshIsNew(rows: seq<Admin>, seen: set<string>)
    ensures forall m :: m in Fresh(rows, seen) ==> m.id !in seen && m in rows
    ensures forall i, j :: 0 <= i < j < |Fresh(rows, seen)| ==> Fresh(rows, seen)[i].id != Fresh(rows, seen)[j].id
    decreases |rows|
  {
    if rows == [] {
    } else {
      if rows[0].id in seen { FreshIsNew(rows[1..], seen); } else { FreshIsNew(rows[1..], seen + {rows[0].id}); }
    }
  }

  lemma {:induction false} FreshCovers(rows: seq<Admin>, seen: set<string>)
    ensures forall m :: m in rows ==> m.id in seen + Ids(Fresh(rows, seen))
    decreases |rows|
  {
    if rows == [] {
    } else {
      assert rows == [rows[0]] + rows[1..];
      if rows[0].id in seen {
        FreshCovers(rows[1..], seen);
      } else {
        var rest := Fresh(rows[1..], seen + {rows[0].id});
        FreshCovers(rows[1..], seen + {rows[0].id});
        assert Ids([rows[0]] + rest) == {rows[0].id} + Ids(rest) by {
          assert rows[0] in [rows[0]] + rest;
          assert forall m :: m in [rows[0]] + rest <==> m == rows[0] || m in rest;
        }
      }
    }
  }

  lemma {:induction false} DistinctAppend(a: seq<Admin>, b: seq<Admin>)
    requires forall i, j :: 0 <= i < j < |a| ==> a[i].id != a[j].id
    requires forall i, j :: 0 <= i < j < |b| ==> b[i].id != b[j].id
    requires forall m :: m in b ==> m.id !in Ids(a)
    ensures forall i, j :: 0 <= i < j < |a + b| ==> (a + b)[i].id != (a + b)[j].id
  {
    assert forall i :: 0 <= i < |a| ==> a[i] in a && a[i].id in Ids(a);
    assert forall j :: 0 <= j < |b| ==> b[j] in b;
  }

  /** No operator message is injected twice over the whole run. */
  lemma {:induction false} InjectedAtMostOnce(env: Env, prologue: seq<Message>, turns: seq<Turn>)
    requires Trace(env, prologue, turns)
    ensures forall i, j :: 0 <= i < j < |Injected(turns)| ==> Injected(turns)[i].id != Injected(turns)[j].id
    decreases |turns|
  {
    if turns == [] {
    } else {
      var before, t := turns[..|turns| - 1], Last(turns);
      InjectedAtMostOnce(env, prologue, before);
      FreshIsNew(Answered(env.visible(|turns|)), Ids(Injected(before)));
      DistinctAppend(Injected(before), t.admins);
    }
  }

  /** The messages in the user's role. */
  function Users(messages: seq<Message>): seq<Message> {
    if messages == [] then []
    else (if messages[0].User? then [messages[0]] else []) + Users(messages[1..])
  }

  lemma {:induction false} UsersAppend(a: seq<Message>, b: seq<Message>)
    ensures Users(a + b) == Users(a) + Users(b)
    decreases |a|
  {
    if a == [] {
      assert a + b == b;
    } else {
      assert (a + b)[0] == a[0] && (a + b)[1..] == a[1..] + b;
      UsersAppend(a[1..], b);
    }
  }

  lemma {:induction false} NoUsers(messages: seq<Message>)
    requires forall m :: m in messages ==> !m.User?
    ensures Users(messages) == []
  {
    if messages == [] {
    } else {
      NoUsers(messages[1..]);
    }
  }

  lemma {:induction false} AllUsers(messages: seq<Message>)
    requires forall m :: m in messages ==> m.User?
    ensures Users(messages) == messages
  {
    if messages == [] {
    } else {
      AllUsers(messages[1..]);
      assert messages == [messages[0]] + messages[1..];
    }
  }

  lemma {:induction false} SpokenHasNoUsers(t: Turn)
    requires t.reply.Answer? ==> |t.results| == |t.reply.calls|
    ensures Users(Spoken(t)) == []
  {
    if t.reply.Answer? { ToolTextsAt(t.reply.calls, t.results); }
    NoUsers(Spoken(t));
  }

  /** The messages after the prologue. */
  function Since(turns: seq<Turn>): seq<Message> {
    if turns == [] then []
    else Since(turns[..|turns| - 1]) + AdminTexts(Last(turns).admins) + Spoken(Last(turns))
  }

  lemma {:induction false} Joined(a: seq<Message>, b: seq<Message>, c: seq<Message>, d: seq<Message>)
    ensures ((a + b) + c) + d == a + ((b + c) + d)
    ensures (a + b) + c == a + (b + c) && (a + (b + c))[|a|..] == b + c && a <= a + (b + c)
  {
  }

  lemma {:induction false} ConversationIs(prologue: seq<Message>, turns: seq<Turn>)
    ensures Conversation(prologue, turns) == prologue + Since(turns)
    decreases |turns|
  {
    if turns == [] {
      assert prologue + [] == prologue;
    } else {
      var before, t := turns[..|turns| - 1], Last(turns);
      ConversationIs(prologue, before);
      Joined(prologue, Since(before), AdminTexts(t.admins), Spoken(t));
    }
  }

  lemma {:induction false} AdminTextsAppend(a: seq<Admin>, b: seq<Admin>)
    ensures AdminTexts(a + b) == AdminTexts(a) + AdminTexts(b)
  {
  }

  lemma {:induction false} UsersSince(env: Env, prologue: seq<Message>, turns: seq<Turn>)
    requires Trace(env, prologue, turns)
    ensures Users(Since(turns)) == AdminTexts(Injected(turns))
    decreases |turns|
  {
    if turns == [] {
    } else {
      var before, t := turns[..|turns| - 1], Last(turns);
      UsersSince(env, prologue, before);
      UsersAsked(prologue, before, t);
      SpokenHasNoUsers(t);
      UsersAppend(Since(before) + AdminTexts(t.admins), Spoken(t));
    }
  }

  lemma {:induction false} UsersAsked(prologue: seq<Message>, before: seq<Turn>, t: Turn)
    requires Users(Since(before)) == AdminTexts(Injected(before))
    ensures Users(Since(before) + AdminTexts(t.admins)) == AdminTexts(Injected(before) + t.admins)
  {
    AllUsers(AdminTexts(t.admins));
    UsersAppend(Since(before), AdminTexts(t.admins));
    AdminTextsAppend(Injected(before), t.admins);
  }

  /**
   In every request of every run the user messages after the prologue are exactly the operator messages
   taken up so far, in the order they were seen, one message for each; which by `InjectedAtMostOnce` are of
   different ids and by `VisibleAreInjected` all that the turn could see.
   */
  lemma {:induction false} RequestHoldsOperatorMessages(env: Env, prologue: seq<Message>, turns: seq<Turn>)
    requires Trace(env, prologue, turns) && turns != []
    ensures var asked := Asked(prologue, turns[..|turns| - 1], Last(turns));
      prologue <= asked && Users(asked[|prologue|..]) == AdminTexts(Injected(turns))
  {
    var before, t := turns[..|turns| - 1], Last(turns);
    ConversationIs(prologue, before);
    UsersSince(env, prologue, before);
    UsersAsked(prologue, before, t);
    Joined(prologue, Since(before), AdminTexts(t.admins), []);
  }

  lemma {:induction false} UsersAreMessages(messages: seq<Message>)
    ensures forall m :: m in Users(messages) ==> m in messages
  {
    if messages == [] {
    } else {
      UsersAreMessages(messages[1..]);
    }
  }

  /**
   Every operator message visible when a turn looks has been taken up by then, and all that were taken up
   are in the request.
   */
  lemma {:induction false} VisibleAreInjected(env: Env, prologue: seq<Message>, turns: seq<Turn>, m: Admin)
    requires Trace(env, prologue, turns) && turns != []
    requires m in Answered(env.visible(|turns|))
    ensures m.id in Ids(Injected(turns))
    ensures forall a :: a in Injected(turns) ==> AdminText(a) in Asked(prologue, turns[..|turns| - 1], Last(turns))
  {
    var before, t := turns[..|turns| - 1], Last(turns);
    assert turns == before + [t];
    Grown(before, t);
    FreshCovers(Answered(env.visible(|turns|)), Ids(Injected(before)));
    RequestHoldsOperatorMessages(env, prologue, turns);
    InjectedAreSaid(Injected(turns), Asked(prologue, before, t), |prologue|);
  }

  lemma {:induction false} InjectedAreSaid(injected: seq<Admin>, asked: seq<Message>, from: nat)
    requires from <= |asked| && Users(asked[from..]) == AdminTexts(injected)
    ensures forall a :: a in injected ==> AdminText(a) in asked
  {
    UsersAreMessages(asked[from..]);
    forall a | a in injected ensures AdminText(a) in asked {
      var i :| 0 <= i < |injected| && injected[i] == a;
      assert AdminTexts(injected)[i] in Users(asked[from..]);
    }
  }

  // The outcome.

  /** The position of the terminal call that decides. */
  predicate Decides(calls: seq<ToolCall>, k: int) {
    0 <= k < |calls| && IsTerminal(calls[k].name) && forall j :: k < j < |calls| ==> !IsTerminal(calls[j].name)
  }

  /** There is no outcome exactly when no call is terminal. */
  lemma {:induction false} NoVerdictIff(calls: seq<ToolCall>)
    ensures Verdict(calls).None? <==> NoneTerminal(calls)
  {
    if calls == [] {
    } else {
      NoVerdictIff(calls[..|calls| - 1]);
    }
  }

  /** And else it is that of the last terminal call. */
  lemma {:induction false} VerdictIsLastTerminal(calls: seq<ToolCall>, k: int)
    requires Decides(calls, k)
    ensures Verdict(calls) == Some(if calls[k].name.ResolveIncident? then Resolved else Escalated)
    decreases |calls|
  {
    if k < |calls| - 1 { VerdictIsLastTerminal(calls[..|calls| - 1], k); }
  }

  /**
   A run that reports "resolved" called the resolving tool in its last turn, after which no terminal tool
   was called; and no earlier turn called a terminal tool at all.
   */
  lemma {:induction false} ResolvedMeansResolved(turns: seq<Turn>, max: int, turn: nat)
    requires EndsWith(turns, max, Finished(Resolved, turn)) && AllGoOn(turns[..|turns| - 1])
    ensures exists k :: Decides(Calls(Last(turns)), k) && Calls(Last(turns))[k].name.ResolveIncident?
    ensures forall i :: 0 <= i < |turns| - 1 ==> Calls(turns[i]) != [] && NoneTerminal(Calls(turns[i]))
  {
    var calls := Calls(Last(turns));
    NoVerdictIff(calls);
    LastTerminalExists(calls);
    var last :| Decides(calls, last);
    VerdictIsLastTerminal(calls, last);
    forall i | 0 <= i < |turns| - 1 ensures Calls(turns[i]) != [] && NoneTerminal(Calls(turns[i])) {
      assert turns[..|turns| - 1][i] in turns[..|turns| - 1];
      NoVerdictIff(turns[i].reply.calls);
    }
  }

  function Calls(t: Turn): seq<ToolCall> { if t.reply.Answer? then t.reply.calls else [] }

  predicate NoneTerminal(calls: seq<ToolCall>) {
    forall k :: 0 <= k < |calls| ==> !IsTerminal(calls[k].name)
  }

  lemma {:induction false} LastTerminalExists(calls: seq<ToolCall>)
    requires !NoneTerminal(calls)
    ensures exists k :: Decides(calls, k)
    decreases |calls|
  {
    var n := |calls| - 1;
    if IsTerminal(calls[n].name) {
      assert Decides(calls, n);
    } else {
      LastTerminalExists(calls[..n]);
      var k :| Decides(calls[..n], k);
      assert Decides(calls, k);
    }
  }

  // The conversation message by message.

  /** What the model is told about a call: the text of a tool that succeeded, or its error. */
  predicate Tells(m: Message, call: ToolCall, r: Result<string, string>) {
    && m.Tool? && m.callId == call.id
    && match r
       case Ok(text) => m.content == text
       case Err(e) => m.content == "{\"error\":\"" + e + "\"}"
  }

  /**
   What a turn adds: a user message with the text of each operator message it takes up, in order; then what
   the model answered, with its calls; then the result of each call, in order. Without an answer nothing more.
   */
  ghost predicate Adds(env: Env, n: nat, t: Turn, added: seq<Message>) {
    var a := |t.admins|;
    && a <= |added|
    && (forall j :: 0 <= j < a ==> added[j] == User("Message from admin operator:\n\n" + t.admins[j].detail))
    && (!t.reply.Answer? ==> |added| == a)
    && (t.reply.Answer? ==>
          && |added| == a + 1 + |t.reply.calls|
          && added[a] == Assistant(t.reply.content, t.reply.calls)
          && forall k :: 0 <= k < |t.reply.calls| ==>
               Tells(added[a + 1 + k], t.reply.calls[k], env.execute(n, k, t.reply.calls[k])))
  }

  lemma {:induction false} ToolsTell(env: Env, n: nat, calls: seq<ToolCall>, results: seq<string>)
    requires Executed(env, n, calls, results)
    ensures |ToolTexts(calls, results)| == |calls|
    ensures forall k :: 0 <= k < |calls| ==> Tells(ToolTexts(calls, results)[k], calls[k], env.execute(n, k, calls[k]))
  {
    ToolTextsAt(calls, results);
  }

  lemma {:induction false} Arranged(env: Env, n: nat, t: Turn, users: seq<Message>, tools: seq<Message>)
    requires t.reply.Answer? && |users| == |t.admins| && |tools| == |t.reply.calls|
    requires forall j :: 0 <= j < |users| ==> users[j] == User("Message from admin operator:\n\n" + t.admins[j].detail)
    requires forall k :: 0 <= k < |tools| ==> Tells(tools[k], t.reply.calls[k], env.execute(n, k, t.reply.calls[k]))
    ensures Adds(env, n, t, users + ([Assistant(t.reply.content, t.reply.calls)] + tools))
  {
    var a, added := |users|, users + ([Assistant(t.reply.content, t.reply.calls)] + tools);
    assert forall j :: 0 <= j < a ==> added[j] == users[j];
    assert forall k :: 0 <= k < |tools| ==> added[a + 1 + k] == tools[k];
  }

  lemma {:induction false} SpokenTells(env: Env, prologue: seq<Message>, before: seq<Turn>, t: Turn)
    requires Follows(env, prologue, before, t)
    ensures Adds(env, |before| + 1, t, AdminTexts(t.admins) + Spoken(t))
  {
    if t.reply.Answer? {
      ToolsTell(env, |before| + 1, t.reply.calls, t.results);
      Arranged(env, |before| + 1, t, AdminTexts(t.admins), ToolTexts(t.reply.calls, t.results));
    } else {
      assert AdminTexts(t.admins) + [] == AdminTexts(t.admins);
    }
  }

  lemma {:induction false} Parts(a: seq<Message>, b: seq<Message>, c: seq<Message>)
    ensures var all := (a + b) + c;
      a <= all && all[|a|..] == b + c && |a| + |b| <= |all| && all[..|a| + |b|] == a + b
  {
  }

  /** In every run the conversation is the prologue and what each turn adds, and each request what came before the answer. */
  lemma {:induction false} TurnsAdd(env: Env, prologue: seq<Message>, before: seq<Turn>, t: Turn)
    requires Trace(env, prologue, before + [t])
    ensures Conversation(prologue, []) == prologue
    ensures var was, now := Conversation(prologue, before), Conversation(prologue, before + [t]);
      && was <= now && Adds(env, |before| + 1, t, now[|was|..])
      && |was| + |t.admins| <= |now| && Asked(prologue, before, t) == now[..|was| + |t.admins|]
      && t.reply == env.chat(|before| + 1, Asked(prologue, before, t))
  {
    var turns := before + [t];
    assert turns[..|turns| - 1] == before && Last(turns) == t;
    assert Follows(env, prologue, before, t);
    SpokenTells(env, prologue, before, t);
    Parts(Conversation(prologue, before), AdminTexts(t.admins), Spoken(t));
  }

  function Shifted(at: seq<nat>): (r: seq<nat>)
    ensures |r| == |at| && forall i :: 0 <= i < |at| ==> r[i] == at[i] + 1
  {
    seq(|at|, i requires 0 <= i < |at| => at[i] + 1)
  }

  lemma {:induction false} InShifted(at: seq<nat>, j: nat)
    ensures j in Shifted(at) <==> j > 0 && j - 1 in at
  {
    if j > 0 && j - 1 in at {
      var i :| 0 <= i < |at| && at[i] == j - 1;
      assert Shifted(at)[i] == j;
    }
  }

  /** The positions point at the picked messages, in order. */
  ghost predicate Points(at: seq<nat>, picked: seq<Admin>, rows: seq<Admin>) {
    && |at| == |picked|
    && (forall i :: 0 <= i < |at| ==> at[i] < |rows| && picked[i] == rows[at[i]])
    && (forall i, j :: 0 <= i < j < |at| ==> at[i] < at[j])
  }

  lemma {:induction false} PointsLater(at: seq<nat>, picked: seq<Admin>, rows: seq<Admin>)
    requires rows != [] && Points(at, picked, rows[1..])
    ensures Points(Shifted(at), picked, rows)
  {
    forall i | 0 <= i < |at| ensures Shifted(at)[i] < |rows| && picked[i] == rows[Shifted(at)[i]] {
      assert rows[1..][at[i]] == rows[at[i] + 1];
    }
  }

  lemma {:induction false} PointsFirst(at: seq<nat>, picked: seq<Admin>, rows: seq<Admin>)
    requires rows != [] && Points(at, picked, rows) && forall i :: 0 <= i < |at| ==> at[i] > 0
    ensures Points([0] + at, [rows[0]] + picked, rows)
  {
  }

  /** The new messages are the first rows of the ids not seen before, in the order of the rows. */
  lemma {:induction false} FreshAre(rows: seq<Admin>, seen: set<string>) returns (at: seq<nat>)
    ensures Points(at, Fresh(rows, seen), rows) && forall j: nat :: j in at <==> FirstUnseen(rows, seen, j)
    decreases |rows|
  {
    at := [];
    if rows != [] {
      var later := FreshAre(rows[1..], if rows[0].id in seen then seen else seen + {rows[0].id});
      PointsLater(later, Fresh(rows[1..], if rows[0].id in seen then seen else seen + {rows[0].id}), rows);
      at := Shifted(later);
      if rows[0].id !in seen {
        PointsFirst(at, Fresh(rows[1..], seen + {rows[0].id}), rows);
        at := [0] + at;
      }
      forall j: nat ensures j in at <==> FirstUnseen(rows, seen, j) {
        InShifted(later, j);
        assert j in at <==> j in Shifted(later) || (j == 0 && rows[0].id !in seen);
        if j > 0 { LaterUnseen(rows, seen, j); }
      }
    }
  }

  predicate FirstUnseen(rows: seq<Admin>, seen: set<string>, j: nat) {
    j < |rows| && rows[j].id !in seen && forall k :: 0 <= k < j ==> rows[k].id != rows[j].id
  }

  lemma {:induction false} LaterUnseen(rows: seq<Admin>, seen: set<string>, j: nat)
    requires rows != [] && j > 0
    ensures FirstUnseen(rows[1..], if rows[0].id in seen then seen else seen + {rows[0].id}, j - 1)
       <==> FirstUnseen(rows, seen, j)
  {
    if j < |rows| {
      assert rows[1..][j - 1] == rows[j];
      forall k | 0 <= k < j - 1 ensures rows[1..][k] == rows[k + 1] {}
      if FirstUnseen(rows[1..], if rows[0].id in seen then seen else seen + {rows[0].id}, j - 1) {
        forall k | 0 <= k < j ensures rows[k].id != rows[j].id {
          if k > 0 { assert rows[1..][k - 1].id != rows[1..][j - 1].id; }
        }
      }
    }
  }
}
