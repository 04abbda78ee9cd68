/** What the agent loop and its encodings promise for every provider behaviour: tool calls and results
    pair up, the Anthropic form alternates, the accounts balance, and both wire forms say the same. */
module AgentLoopTheorems {
  import opened AgentLoop
  import opened Options
  import opened Sequences

  // ---- Accounting ---------------------------------------------------------------------------------

  /** The usage of the successful calls among the first n. */
  function UsageOf(world: World, n: nat): Usage {
    if n == 0 then Usage(0, 0)
    else if world.answer(n - 1).Failed? then UsageOf(world, n - 1)
    else
      var before, more := UsageOf(world, n - 1), world.answer(n - 1).response.usage;
      Usage(before.input + more.input, before.output + more.output)
  }

  lemma {:induction false} RunAccountsFrom(world: World, cap: nat, r: Result)
    requires r.turns <= cap && r.usage == UsageOf(world, r.turns)
    ensures var (end, ending) := RunFrom(world, cap, r);
            && r.turns + |Sent(world, cap, r)| == end.turns <= cap
            && end.usage == UsageOf(world, end.turns)
            && (ending.TurnCapReached? ==> end.turns == cap)
            && (ending.ProviderFailed? <==> end.turns > r.turns && world.answer(end.turns - 1).Failed?)
            && forall t | r.turns <= t < end.turns - 1 :: world.answer(t).Answered?
    decreases cap - r.turns
  {
    if r.turns < cap {
      var (next, ending) := Turn(world, r);
      if ending.None? {
        RunAccountsFrom(world, cap, next);
      }
    }
  }

  /** The number of provider calls is Turns, at most the cap and exactly the cap when it is what ended the
      run; Usage is the sum over the successful calls; only the last call can have failed. */
  lemma RunAccounts(world: World, maxTurns: int, messages: seq<Message>)
    ensures var cap := Cap(maxTurns);
            var (end, ending) := RunFrom(world, cap, Start(messages));
            && |Sent(world, cap, Start(messages))| == end.turns <= cap
            && end.usage == UsageOf(world, end.turns)
            && (ending.TurnCapReached? ==> end.turns == cap)
            && (ending.ProviderFailed? <==> end.turns > 0 && world.answer(end.turns - 1).Failed?)
            && forall t | 0 <= t < end.turns - 1 :: world.answer(t).Answered?
  {
    RunAccountsFrom(world, Cap(maxTurns), Start(messages));
  }

  // ---- What a history says ------------------------------------------------------------------------

  /** How many messages a turn adds: the assistant's, then its tool results or the nudge. */
  function TurnLength(world: World, t: nat): nat {
    match world.answer(t)
    case Failed => 0
    case Answered(r) => 1 + if r.toolCalls != [] then |r.toolCalls| else if world.nudge(t) != "" then 1 else 0
  }

  /** ms is what turn t adds to the history, field by field. */
  ghost predicate SaysTurn(world: World, t: nat, ms: seq<Message>) {
    |ms| == TurnLength(world, t) &&
    match world.answer(t)
    case Failed => true
    case Answered(r) =>
      && ms[0] == Message(Assistant, r.text, r.toolCalls, "", "", r.reasoning)
      && (r.toolCalls != [] ==> forall k | 0 <= k < |r.toolCalls| ::
            ms[1 + k] == Message(Tool, world.toolText(t, k), [], r.toolCalls[k].id, r.toolCalls[k].name, ""))
      && (r.toolCalls == [] && world.nudge(t) != "" ==> ms[1] == Message(User, world.nudge(t), [], "", "", ""))
  }

  /** ms is what the turns from `from` up to `to` add, one after the other. */
  ghost predicate SaysTurns(world: World, from: nat, to: nat, ms: seq<Message>)
    decreases to - from
  {
    if from >= to then ms == []
    else
      var n := TurnLength(world, from);
      n <= |ms| && SaysTurn(world, from, ms[..n]) && SaysTurns(world, from + 1, to, ms[n..])
  }

  /** The text of the last answered of the first n turns. */
  function LastText(world: World, n: nat): string {
    if n == 0 then ""
    else if world.answer(n - 1).Answered? then world.answer(n - 1).response.text
    else LastText(world, n - 1)
  }

  /** An answered turn after which the loop stops by itself. */
  predicate StopsAfter(world: World, t: nat) {
    match world.answer(t)
    case Failed => false
    case Answered(r) => if r.toolCalls == [] then world.nudge(t) == "" else world.done(t)
  }

  /** The history h is the input followed by what the first n turns say. */
  ghost predicate Says(world: World, messages: seq<Message>, n: nat, h: seq<Message>) {
    messages <= h && SaysTurns(world, 0, n, h[|messages|..])
  }

  lemma TurnSays(world: World, r: Result)
    ensures var (next, ending) := Turn(world, r);
            && r.messages <= next.messages && next.turns == r.turns + 1
            && SaysTurn(world, r.turns, next.messages[|r.messages|..])
            && next.text == (if world.answer(r.turns).Answered? then world.answer(r.turns).response.text else r.text)
            && (ending == Some(Finished) <==> StopsAfter(world, r.turns))
            && (ending == Some(ProviderFailed) <==> world.answer(r.turns).Failed?)
            && ending != Some(TurnCapReached)
  {
    var (next, ending) := Turn(world, r);
    var added := next.messages[|r.messages|..];
    match world.answer(r.turns)
    case Failed =>
    case Answered(response) =>
      var a := AssistantMessage(response);
      if response.toolCalls != [] {
        assert added == [a] + ToolMessages(world, r.turns, response.toolCalls, 0);
      } else if world.nudge(r.turns) != "" {
        assert added == [a, UserMessage(world.nudge(r.turns))];
      } else {
        assert added == [a];
      }
  }

  lemma {:induction false} SaysMore(world: World, from: nat, to: nat, ms: seq<Message>, more: seq<Message>)
    requires from <= to && SaysTurns(world, from, to, ms) && SaysTurn(world, to, more)
    ensures SaysTurns(world, from, to + 1, ms + more)
    decreases if from <= to then to - from else 0
  {
    if from < to {
      var n := TurnLength(world, from);
      CutFirst(ms, more, n);
      SaysMore(world, from + 1, to, ms[n..], more);
    } else {
      Empty(more);
      assert more[..|more|] == more && more[|more|..] == [];
    }
  }

  lemma SaysNext(world: World, messages: seq<Message>, r: Result)
    requires Says(world, messages, r.turns, r.messages)
    ensures var (next, _) := Turn(world, r); Says(world, messages, next.turns, next.messages)
  {
    TurnSays(world, r);
    SaysLonger(world, messages, r.turns, r.messages, Turn(world, r).0.messages);
  }

  lemma SaysLonger(world: World, messages: seq<Message>, n: nat, h: seq<Message>, longer: seq<Message>)
    requires Says(world, messages, n, h) && h <= longer && SaysTurn(world, n, longer[|h|..])
    ensures Says(world, messages, n + 1, longer)
  {
    var k := |messages|;
    SaysMore(world, 0, n, h[k..], longer[|h|..]);
    assert longer[k..] == h[k..] + longer[|h|..];
  }

  lemma {:induction false} RunSaysFrom(world: World, cap: nat, messages: seq<Message>, r: Result)
    requires r.turns <= cap && Says(world, messages, r.turns, r.messages) && r.text == LastText(world, r.turns)
    ensures var (end, ending) := RunFrom(world, cap, r);
            && r.turns <= end.turns <= cap
            && Says(world, messages, end.turns, end.messages) && end.text == LastText(world, end.turns)
            && (ending.Finished? <==> end.turns > r.turns && StopsAfter(world, end.turns - 1))
            && (ending.ProviderFailed? <==> end.turns > r.turns && world.answer(end.turns - 1).Failed?)
            && (ending.TurnCapReached? ==> end.turns == cap)
            && forall t | r.turns <= t < end.turns - 1 :: !StopsAfter(world, t) && world.answer(t).Answered?
    decreases cap - r.turns
  {
    if r.turns < cap {
      TurnSays(world, r);
      SaysNext(world, messages, r);
      var (next, ending) := Turn(world, r);
      if ending.None? {
        RunSaysFrom(world, cap, messages, next);
      }
    }
  }

  lemma {:induction false} SentSaysFrom(world: World, cap: nat, messages: seq<Message>, r: Result)
    requires Says(world, messages, r.turns, r.messages)
    ensures forall i | 0 <= i < |Sent(world, cap, r)| :: Says(world, messages, r.turns + i, Sent(world, cap, r)[i])
    decreases cap - r.turns
  {
    if r.turns < cap {
      TurnSays(world, r);
      SaysNext(world, messages, r);
      var (next, ending) := Turn(world, r);
      if ending.None? {
        SentSaysFrom(world, cap, messages, next);
        var sent, later := Sent(world, cap, r), Sent(world, cap, next);
        assert sent == [r.messages] + later;
        forall i | 0 <= i < |sent| ensures Says(world, messages, r.turns + i, sent[i]) {
          if i > 0 {
            assert sent[i] == later[i - 1] && next.turns + (i - 1) == r.turns + i;
          }
        }
      }
    }
  }

  /** What a run says, for every provider, tools and hooks: the history sent at turn i is the input followed
      by what the first i turns said, and so is the one returned; the text is that of the last answer; it
      stops at the first turn that fails, or answers without a call and gets no nudge, or is done after its
      calls, and at the cap otherwise. */
  lemma RunSays(world: World, maxTurns: int, messages: seq<Message>)
    ensures var cap := if maxTurns <= 0 then 12 else maxTurns;
            var (end, ending) := RunFrom(world, Cap(maxTurns), Start(messages));
            && Says(world, messages, end.turns, end.messages) && end.text == LastText(world, end.turns)
            && end.turns <= cap
            && (ending.Finished? <==> end.turns > 0 && StopsAfter(world, end.turns - 1))
            && (ending.ProviderFailed? <==> end.turns > 0 && world.answer(end.turns - 1).Failed?)
            && (ending.TurnCapReached? ==> end.turns == cap)
            && forall t | 0 <= t < end.turns - 1 :: !StopsAfter(world, t) && world.answer(t).Answered?
    ensures var sent := Sent(world, Cap(maxTurns), Start(messages));
            forall i | 0 <= i < |sent| :: Says(world, messages, i, sent[i])
  {
    assert messages[|messages|..] == [];
    RunSaysFrom(world, Cap(maxTurns), messages, Start(messages));
    SentSaysFrom(world, Cap(maxTurns), messages, Start(messages));
  }

  // ---- Pairing ------------------------------------------------------------------------------------

  /** The tool messages ms answer these calls: as many, with the same ids and names, in order. */
  ghost predicate Answers(ms: seq<Message>, calls: seq<ToolCall>) {
    && |ms| == |calls|
    && forall k | 0 <= k < |ms| ::
         ms[k].role == Tool && ms[k].toolCallID == calls[k].id && ms[k].toolName == calls[k].name
  }

  /** Every assistant turn with k tool calls is followed by exactly k tool messages that answer them, and
      there are no other tool messages. */
  ghost predicate Paired(h: seq<Message>)
    decreases |h|
  {
    h == [] || match h[0].role
    case User => Paired(h[1..])
    case Tool => false
    case Assistant =>
      var k := |h[0].toolCalls|;
      1 + k <= |h| && Answers(h[1..1 + k], h[0].toolCalls) && Paired(h[1 + k..])
  }

  lemma {:induction false} PairedConcat(h: seq<Message>, k: seq<Message>)
    requires Paired(h) && Paired(k)
    ensures Paired(h + k)
    decreases |h|
  {
    if h == [] {
      assert h + k == k;
    } else {
      var n := if h[0].role == User then 1 else 1 + |h[0].toolCalls|;
      assert (h + k)[n..] == h[n..] + k && (h + k)[1..n] == h[1..n];
      PairedConcat(h[n..], k);
    }
  }

  lemma TurnIsPaired(world: World, turn: nat, response: Response)
    ensures Paired([AssistantMessage(response)] + ToolMessages(world, turn, response.toolCalls, 0))
  {
    var tools := ToolMessages(world, turn, response.toolCalls, 0);
    var h := [AssistantMessage(response)] + tools;
    assert h[1..1 + |response.toolCalls|] == tools && h[1 + |response.toolCalls|..] == [];
  }

  // ---- Appending to the Anthropic form ------------------------------------------------------------

  function Results(tools: seq<Message>): seq<Block> {
    if tools == [] then [] else [ToolResult(tools[0].toolCallID, tools[0].content)] + Results(tools[1..])
  }

  lemma {:induction false} EncodeThenSpoken(h: seq<Message>, pending: seq<Block>, m: Message)
    requires m.role != Tool
    ensures AnthropicFrom(h + [m], pending) == AnthropicFrom(h, pending) + [Encoded(m)]
    decreases |h|
  {
    if h == [] {
      assert h + [m] == [m] && [m][1..] == [];
      assert AnthropicFrom([], []) == [];
    } else {
      assert (h + [m])[0] == h[0] && (h + [m])[1..] == h[1..] + [m];
      var f := h[0];
      if f.role == Tool {
        EncodeThenSpoken(h[1..], pending + [ToolResult(f.toolCallID, f.content)], m);
      } else {
        EncodeThenSpoken(h[1..], [], m);
        Associative(Flushed(pending) + [Encoded(f)], AnthropicFrom(h[1..], []), [Encoded(m)]);
      }
    }
  }

  lemma {:induction false} EncodeTools(tools: seq<Message>, pending: seq<Block>)
    requires forall m | m in tools :: m.role == Tool
    ensures AnthropicFrom(tools, pending) == Flushed(pending + Results(tools))
    decreases |tools|
  {
    if tools == [] {
      assert pending + [] == pending;
    } else {
      var block := ToolResult(tools[0].toolCallID, tools[0].content);
      EncodeTools(tools[1..], pending + [block]);
      Associative(pending, [block], Results(tools[1..]));
    }
  }

  lemma {:induction false} EncodeThenTools(h: seq<Message>, pending: seq<Block>, tools: seq<Message>)
    requires h != [] && h[|h| - 1].role != Tool && forall m | m in tools :: m.role == Tool
    ensures AnthropicFrom(h + tools, pending) == AnthropicFrom(h, pending) + Flushed(Results(tools))
    decreases |h|
  {
    var f := h[0];
    assert (h + tools)[0] == f && (h + tools)[1..] == h[1..] + tools;
    if |h| == 1 {
      assert h[1..] + tools == tools;
      EncodeTools(tools, []);
      assert [] + Results(tools) == Results(tools);
      assert (Flushed(pending) + [Encoded(f)]) + [] == Flushed(pending) + [Encoded(f)];
    } else if f.role == Tool {
      EncodeThenTools(h[1..], pending + [ToolResult(f.toolCallID, f.content)], tools);
    } else {
      EncodeThenTools(h[1..], [], tools);
      Associative(Flushed(pending) + [Encoded(f)], AnthropicFrom(h[1..], []), Flushed(Results(tools)));
    }
  }

  // ---- Alternation ----------------------------------------------------------------------------------

  function UseIDs(blocks: seq<Block>): seq<string> {
    if blocks == [] then []
    else (if blocks[0].ToolUse? then [blocks[0].id] else []) + UseIDs(blocks[1..])
  }

  function ResultIDs(blocks: seq<Block>): seq<string> {
    if blocks == [] then []
    else (if blocks[0].ToolResult? then [blocks[0].id] else []) + ResultIDs(blocks[1..])
  }

  function CallIDs(calls: seq<ToolCall>, j: nat): seq<string>
    decreases |calls| - j
  {
    if j >= |calls| then [] else [calls[j].id] + CallIDs(calls, j + 1)
  }

  /** What the Messages API asks of a request: user and assistant strictly alternate from the user on, and
      each assistant message with tool uses is followed by one message holding their results in order. */
  ghost predicate Accepted(out: seq<AnthropicMessage>) {
    && (forall i | 0 <= i < |out| :: out[i].user == (i % 2 == 0))
    && (forall i | 0 <= i < |out| - 1 && !out[i].user && UseIDs(out[i].blocks) != [] ::
          ResultIDs(out[i + 1].blocks) == UseIDs(out[i].blocks))
  }

  lemma {:induction false} UsesOfCalls(calls: seq<ToolCall>, j: nat)
    ensures UseIDs(ToolUses(calls, j)) == CallIDs(calls, j)
    decreases |calls| - j
  {
    if j < |calls| {
      var block := ToolUse(calls[j].id, calls[j].name, Arguments(calls[j]));
      assert ToolUses(calls, j)[0] == block && ToolUses(calls, j)[1..] == ToolUses(calls, j + 1);
      UsesOfCalls(calls, j + 1);
    }
  }

  lemma AssistantUses(m: Message)
    ensures UseIDs(AssistantBlocks(m)) == CallIDs(m.toolCalls, 0)
  {
    UsesOfCalls(m.toolCalls, 0);
    var uses := ToolUses(m.toolCalls, 0);
    if m.content != "" {
      assert ([TextBlock(m.content)] + uses)[1..] == uses;
    } else {
      assert [] + uses == uses;
    }
  }

  lemma {:induction false} ResultsOfTools(world: World, turn: nat, calls: seq<ToolCall>, j: nat)
    ensures ResultIDs(Results(ToolMessages(world, turn, calls, j))) == CallIDs(calls, j)
    decreases |calls| - j
  {
    if j < |calls| {
      var tools := ToolMessages(world, turn, calls, j);
      assert tools[1..] == ToolMessages(world, turn, calls, j + 1);
      var rest := Results(tools[1..]);
      assert Results(tools)[1..] == rest;
      ResultsOfTools(world, turn, calls, j + 1);
    }
  }

  /** A history as the loop sends it: paired, encoding to an accepted request that ends with the user. */
  ghost predicate Sendable(h: seq<Message>) {
    var out := AnthropicFrom(h, []);
    && Paired(h) && Accepted(out) && |out| % 2 == 1
    && (forall m | m in h :: CleanMessage(m))
  }

  /** A message with fields only its role has. */
  predicate CleanMessage(m: Message) {
    (m.role != Assistant ==> m.toolCalls == []) && (m.role != Tool ==> m.toolCallID == "")
  }

  lemma TurnKeepsSendable(world: World, r: Result)
    requires Sendable(r.messages)
    ensures var (next, ending) := Turn(world, r);
            && Paired(next.messages) && Accepted(AnthropicFrom(next.messages, []))
            && (ending.None? ==> Sendable(next.messages))
            && forall m | m in next.messages :: CleanMessage(m)
  {
    if world.answer(r.turns).Answered? {
      var response := world.answer(r.turns).response;
      if response.toolCalls == [] {
        SpokenTurn(response, r.messages, world.nudge(r.turns));
      } else {
        ToolTurn(world, r.turns, response, r.messages);
      }
    }
  }

  lemma SpokenTurn(response: Response, h: seq<Message>, nudge: string)
    requires Sendable(h) && response.toolCalls == []
    ensures var said := h + [AssistantMessage(response)];
            && Paired(said) && Accepted(AnthropicFrom(said, []))
            && (forall m | m in said :: CleanMessage(m))
            && Sendable(said + [UserMessage(nudge)])
  {
    var a, n := AssistantMessage(response), UserMessage(nudge);
    SpokenPaired(h, a, n);
    SpokenAccepted(h, a, n);
  }

  lemma SpokenPaired(h: seq<Message>, a: Message, n: Message)
    requires Paired(h) && a.role == Assistant && a.toolCalls == [] && n.role == User && n.toolCalls == []
    ensures Paired(h + [a]) && Paired((h + [a]) + [n])
  {
    PairedOne(a);
    PairedOne(n);
    PairedConcat(h, [a]);
    PairedConcat(h + [a], [n]);
  }

  lemma SpokenAccepted(h: seq<Message>, a: Message, n: Message)
    requires a.role == Assistant && a.toolCalls == [] && n.role == User
    requires var out := AnthropicFrom(h, []); Accepted(out) && |out| % 2 == 1
    ensures Accepted(AnthropicFrom(h + [a], []))
    ensures var out := AnthropicFrom((h + [a]) + [n], []); Accepted(out) && |out| % 2 == 1
  {
    EncodeThenSpoken(h, [], a);
    EncodeThenSpoken(h + [a], [], n);
    SpokenIDs(a, n);
    var out := AnthropicFrom(h, []);
    AcceptedRound(out, Encoded(a), Encoded(n));
  }

  /** A message without tool calls has nothing to be answered. */
  lemma PairedOne(m: Message)
    requires m.role != Tool && m.toolCalls == []
    ensures Paired([m])
  {
    assert [m][1..1] == [] && [m][1..] == [];
  }

  lemma SpokenIDs(a: Message, n: Message)
    requires a.role == Assistant && a.toolCalls == [] && n.role == User
    ensures UseIDs(Encoded(a).blocks) == [] && ResultIDs(Encoded(n).blocks) == []
  {
    AssistantUses(a);
    assert [TextBlock(n.content)][1..] == [];
  }

  lemma ToolTurn(world: World, turn: nat, response: Response, h: seq<Message>)
    requires Sendable(h) && response.toolCalls != []
    ensures Sendable((h + [AssistantMessage(response)]) + ToolMessages(world, turn, response.toolCalls, 0))
  {
    TurnIsPaired(world, turn, response);
    ToolTurnPaired(h, AssistantMessage(response), ToolMessages(world, turn, response.toolCalls, 0));
    ToolIDs(world, turn, response);
    ToolTurnAccepted(h, AssistantMessage(response), ToolMessages(world, turn, response.toolCalls, 0));
  }

  lemma ToolTurnPaired(h: seq<Message>, a: Message, tools: seq<Message>)
    requires Paired(h) && Paired([a] + tools)
    ensures Paired((h + [a]) + tools)
  {
    PairedConcat(h, [a] + tools);
    Associative(h, [a], tools);
  }

  lemma ToolTurnAccepted(h: seq<Message>, a: Message, tools: seq<Message>)
    requires a.role == Assistant && forall m | m in tools :: m.role == Tool
    requires Results(tools) != [] && ResultIDs(Results(tools)) == UseIDs(Encoded(a).blocks)
    requires var out := AnthropicFrom(h, []); Accepted(out) && |out| % 2 == 1
    ensures var out := AnthropicFrom((h + [a]) + tools, []); Accepted(out) && |out| % 2 == 1
  {
    EncodeThenSpoken(h, [], a);
    EncodeThenTools(h + [a], [], tools);
    AcceptedRound(AnthropicFrom(h, []), Encoded(a), AnthropicMessage(true, Results(tools)));
  }

  lemma ToolIDs(world: World, turn: nat, response: Response)
    requires response.toolCalls != []
    ensures var tools := ToolMessages(world, turn, response.toolCalls, 0);
            && Results(tools) != []
            && ResultIDs(Results(tools)) == UseIDs(Encoded(AssistantMessage(response)).blocks)
  {
    AssistantUses(AssistantMessage(response));
    ResultsOfTools(world, turn, response.toolCalls, 0);
  }

  lemma AcceptedRound(out: seq<AnthropicMessage>, use: AnthropicMessage, result: AnthropicMessage)
    requires Accepted(out) && |out| % 2 == 1 && !use.user && result.user
    requires ResultIDs(result.blocks) == UseIDs(use.blocks)
    ensures Accepted(out + [use]) && Accepted((out + [use]) + [result])
  {
    AcceptedMore(out, use);
    AcceptedMore(out + [use], result);
  }

  lemma AcceptedMore(out: seq<AnthropicMessage>, m: AnthropicMessage)
    requires Accepted(out) && out != [] && m.user == (|out| % 2 == 0)
    requires var last := out[|out| - 1]; last.user || ResultIDs(m.blocks) == UseIDs(last.blocks)
    ensures Accepted(out + [m])
  {
    var more := out + [m];
    assert forall i | 0 <= i < |out| :: more[i] == out[i];
  }

  lemma {:induction false} RunIsSendable(world: World, cap: nat, r: Result)
    requires Sendable(r.messages)
    ensures forall h | h in Sent(world, cap, r) :: Sendable(h)
    ensures var (end, _) := RunFrom(world, cap, r); Paired(end.messages) && Accepted(AnthropicFrom(end.messages, []))
    decreases cap - r.turns
  {
    if r.turns < cap {
      var (next, ending) := Turn(world, r);
      TurnKeepsSendable(world, r);
      if ending.None? {
        RunIsSendable(world, cap, next);
      }
    }
  }

  /** From one user message, whatever the provider, tools and hooks do: every history sent pairs its tool
      calls with their results and encodes to an accepted Anthropic request ending with the user, and so
      does the history returned, whoever it ends with. */
  lemma ToolPairingAndAlternation(world: World, maxTurns: int, brief: string)
    ensures var start := Start([UserMessage(brief)]);
            && (forall h | h in Sent(world, Cap(maxTurns), start) :: Sendable(h))
            && var (end, _) := RunFrom(world, Cap(maxTurns), start);
               Paired(end.messages) && Accepted(AnthropicFrom(end.messages, []))
  {
    var h := [UserMessage(brief)];
    assert h[1..] == [] && AnthropicFrom([], []) == [];
    assert AnthropicFrom(h, []) == [Encoded(h[0])];
    RunIsSendable(world, Cap(maxTurns), Start(h));
  }

  /** An encoded message without any block, which the API refuses, comes exactly from an assistant turn
      with neither text nor tool calls. */
  lemma EmptyMessageExactly(m: Message)
    requires m.role != Tool
    ensures Encoded(m).blocks == [] <==> m.role == Assistant && m.content == "" && m.toolCalls == []
  {
  }

  /** What a driver sends for the arguments of a call: "" is sent as the empty object. */
  predicate SentArguments(call: ToolCall, sent: string) {
    sent == if call.arguments == "" then "{}" else call.arguments
  }

  predicate SaysCall(use: Block, call: ToolCall) {
    use.ToolUse? && use.id == call.id && use.name == call.name && SentArguments(call, use.input)
  }

  /** The blocks say the calls, one by one. */
  ghost predicate SaysCalls(uses: seq<Block>, calls: seq<ToolCall>) {
    |uses| == |calls| && forall k | 0 <= k < |uses| :: SaysCall(uses[k], calls[k])
  }

  lemma {:induction false} ToolUsesSay(calls: seq<ToolCall>, j: nat)
    requires j <= |calls|
    ensures SaysCalls(ToolUses(calls, j), calls[j..])
    decreases |calls| - j
  {
    if j < |calls| {
      ToolUsesSay(calls, j + 1);
      var use := ToolUse(calls[j].id, calls[j].name, Arguments(calls[j]));
      SaysCallsMore(use, ToolUses(calls, j + 1), calls[j], calls[j + 1..]);
      assert [calls[j]] + calls[j + 1..] == calls[j..];
    }
  }

  lemma SaysCallsMore(use: Block, uses: seq<Block>, call: ToolCall, calls: seq<ToolCall>)
    requires SaysCall(use, call) && SaysCalls(uses, calls)
    ensures SaysCalls([use] + uses, [call] + calls)
  {
  }

  /** The blocks of a spoken message: an assistant's text first, left out when empty, then its calls in
      order; one text block for anyone else, also when empty. */
  ghost predicate SaysMessage(out: AnthropicMessage, m: Message) {
    if m.role == User then out == AnthropicMessage(true, [TextBlock(m.content)])
    else
      var n := if m.content == "" then 0 else 1;
      && !out.user && n <= |out.blocks|
      && (n == 1 ==> out.blocks[0] == TextBlock(m.content))
      && SaysCalls(out.blocks[n..], m.toolCalls)
  }

  lemma EncodedExactly(m: Message)
    requires m.role != Tool
    ensures SaysMessage(Encoded(m), m)
  {
    if m.role == Assistant {
      var uses := ToolUses(m.toolCalls, 0);
      ToolUsesSay(m.toolCalls, 0);
      assert m.toolCalls[0..] == m.toolCalls;
      if m.content == "" {
        assert AssistantBlocks(m)[0..] == uses;
      } else {
        assert AssistantBlocks(m)[1..] == uses;
      }
    }
  }

  /** The fields of an OpenAI message: null content exactly for an assistant with no text, reasoning for
      assistants alone, every call with its arguments, the call id as it is. */
  lemma WireExactly(m: Message)
    ensures var w := Wire(m);
            && w.role == WireRole(m.role) && w.toolCallID == m.toolCallID
            && (w.content == None <==> m.role == Assistant && m.content == "")
            && (w.content.Some? ==> w.content.value == m.content)
            && w.reasoning == (if m.role == Assistant then m.reasoning else "")
            && |w.toolCalls| == |m.toolCalls|
            && forall k | 0 <= k < |m.toolCalls| ::
                 var sent, call := w.toolCalls[k], m.toolCalls[k];
                 sent.id == call.id && sent.name == call.name && SentArguments(call, sent.arguments)
  {
  }

  /** The texts of the system messages of an OpenAI message list. */
  function SystemTexts(body: seq<WireMessage>): seq<string> {
    if body == [] then []
    else
      (if body[0].role.WireSystem? && body[0].content.Some? then [body[0].content.value] else [])
      + SystemTexts(body[1..])
  }

  lemma {:induction false} NoSystemText(h: seq<Message>)
    ensures SystemTexts(Wires(h)) == []
  {
    if h != [] {
      NoSystemText(h[1..]);
    }
  }

  /** The system text is said once, first, and not at all when empty. */
  lemma SystemSaid(system: string, h: seq<Message>)
    ensures var body := SystemPart(system) + Wires(h);
            && SystemTexts(body) == (if system == "" then [] else [system])
            && (system != "" ==> body[0].role.WireSystem?)
  {
    NoSystemText(h);
    if system == "" {
      Empty(Wires(h));
    } else {
      assert (SystemPart(system) + Wires(h))[1..] == Wires(h);
    }
  }

  // ---- Decoding -------------------------------------------------------------------------------------

  function DecodeUser(blocks: seq<Block>): seq<Message> {
    if blocks == [] then []
    else
      (match blocks[0]
       case TextBlock(text) => [UserMessage(text)]
       case ToolResult(id, content) => [Message(Tool, content, [], id, "", "")]
       case ToolUse(_, _, _) => []) + DecodeUser(blocks[1..])
  }

  function TextOf(blocks: seq<Block>): string {
    if blocks == [] then ""
    else (if blocks[0].TextBlock? then blocks[0].text else "") + TextOf(blocks[1..])
  }

  function CallsOf(blocks: seq<Block>): seq<ToolCall> {
    if blocks == [] then []
    else
      (if blocks[0].ToolUse? then [ToolCall(blocks[0].id, blocks[0].name, blocks[0].input)] else [])
      + CallsOf(blocks[1..])
  }

  function DecodeOne(m: AnthropicMessage): seq<Message> {
    if m.user then DecodeUser(m.blocks)
    else [Message(Assistant, TextOf(m.blocks), CallsOf(m.blocks), "", "", "")]
  }

  /** The history an Anthropic message list says. */
  function DecodeAnthropic(out: seq<AnthropicMessage>): seq<Message> {
    if out == [] then [] else DecodeOne(out[0]) + DecodeAnthropic(out[1..])
  }

  /** What the Anthropic form keeps of a message: calls on assistants, ids on tool results. */
  function Kept(m: Message): Message {
    Message(
      m.role, m.content,
      if m.role == Assistant then WireCalls(m.toolCalls) else [],
      if m.role == Tool then m.toolCallID else "", "", "")
  }

  function KeptAll(h: seq<Message>): (kept: seq<Message>)
    ensures |kept| == |h| && forall i | 0 <= i < |h| :: kept[i] == Kept(h[i])
  {
    if h == [] then [] else [Kept(h[0])] + KeptAll(h[1..])
  }

  /** The history an OpenAI message list says, its system messages and reasoning left out. */
  function DecodeOpenAI(body: seq<WireMessage>): seq<Message> {
    if body == [] then []
    else if body[0].role.WireSystem? then DecodeOpenAI(body[1..])
    else [DecodeWire(body[0])] + DecodeOpenAI(body[1..])
  }

  function DecodeWire(w: WireMessage): Message
    requires w.role.WireRole?
  {
    Message(w.role.role, if w.content.Some? then w.content.value else "", w.toolCalls, w.toolCallID, "", "")
  }

  lemma {:induction false} DecodeConcat(a: seq<AnthropicMessage>, b: seq<AnthropicMessage>)
    ensures DecodeAnthropic(a + b) == DecodeAnthropic(a) + DecodeAnthropic(b)
    decreases |a|
  {
    if a == [] {
      Empty(b);
    } else {
      CutFirst(a, b, 1);
      DecodeConcat(a[1..], b);
      Associative(DecodeOne(a[0]), DecodeAnthropic(a[1..]), DecodeAnthropic(b));
    }
  }

  lemma DecodeSingle(m: AnthropicMessage)
    ensures DecodeAnthropic([m]) == DecodeOne(m)
  {
    assert [m][1..] == [];
    assert DecodeOne(m) + [] == DecodeOne(m);
  }

  lemma {:induction false} DecodeUserConcat(a: seq<Block>, b: seq<Block>)
    ensures DecodeUser(a + b) == DecodeUser(a) + DecodeUser(b)
    decreases |a|
  {
    if a == [] {
      assert a + b == b;
    } else {
      assert (a + b)[0] == a[0] && (a + b)[1..] == a[1..] + b;
      DecodeUserConcat(a[1..], b);
    }
  }

  lemma {:induction false} ToolUsesDecode(calls: seq<ToolCall>, j: nat)
    requires j <= |calls|
    ensures TextOf(ToolUses(calls, j)) == ""
    ensures CallsOf(ToolUses(calls, j)) == WireCalls(calls)[j..]
    decreases |calls| - j
  {
    if j < |calls| {
      assert ToolUses(calls, j)[1..] == ToolUses(calls, j + 1);
      ToolUsesDecode(calls, j + 1);
    }
  }

  lemma SpokenDecodes(m: Message)
    requires m.role != Tool
    ensures DecodeOne(Encoded(m)) == [Kept(m)]
  {
    if m.role == Assistant {
      var uses := ToolUses(m.toolCalls, 0);
      ToolUsesDecode(m.toolCalls, 0);
      assert WireCalls(m.toolCalls)[0..] == WireCalls(m.toolCalls);
      if m.content != "" {
        var blocks := [TextBlock(m.content)] + uses;
        assert blocks[1..] == uses && AssistantBlocks(m) == blocks;
        assert TextOf(blocks) == m.content + "" == m.content;
        assert CallsOf(blocks) == [] + CallsOf(uses) == CallsOf(uses);
      } else {
        assert [] + uses == uses;
      }
    } else {
      var blocks := [TextBlock(m.content)];
      assert blocks[1..] == [] && DecodeUser(blocks) == [UserMessage(m.content)] + [];
    }
  }

  lemma {:induction false} AnthropicRoundTripFrom(h: seq<Message>, pending: seq<Block>)
    ensures DecodeAnthropic(AnthropicFrom(h, pending)) == DecodeUser(pending) + KeptAll(h)
    decreases |h|
  {
    FlushedDecodes(pending);
    if h == [] {
      assert DecodeUser(pending) + [] == DecodeUser(pending);
    } else if h[0].role == Tool {
      var block := ToolResult(h[0].toolCallID, h[0].content);
      AnthropicRoundTripFrom(h[1..], pending + [block]);
      DecodeUserConcat(pending, [block]);
      assert [block][1..] == [] && DecodeUser([block]) == [Kept(h[0])];
      Associative(DecodeUser(pending), [Kept(h[0])], KeptAll(h[1..]));
    } else {
      AnthropicRoundTripFrom(h[1..], []);
      SpokenDecodes(h[0]);
      DecodeSingle(Encoded(h[0]));
      DecodeConcat(Flushed(pending), [Encoded(h[0])]);
      DecodeConcat(Flushed(pending) + [Encoded(h[0])], AnthropicFrom(h[1..], []));
      Associative(DecodeUser(pending), [Kept(h[0])], KeptAll(h[1..]));
      assert [] + KeptAll(h[1..]) == KeptAll(h[1..]);
    }
  }

  lemma FlushedDecodes(pending: seq<Block>)
    ensures DecodeAnthropic(Flushed(pending)) == DecodeUser(pending)
  {
    if pending != [] {
      DecodeSingle(AnthropicMessage(true, pending));
    }
  }

  /** Decoding the Anthropic form gives the history back, but for reasoning, tool names and the fields
      that form has no place for. */
  lemma AnthropicRoundTrip(h: seq<Message>)
    ensures DecodeAnthropic(AnthropicFrom(h, [])) == KeptAll(h)
  {
    AnthropicRoundTripFrom(h, []);
    assert [] + KeptAll(h) == KeptAll(h);
  }

  lemma {:induction false} OpenAIRoundTrip(system: string, h: seq<Message>)
    ensures var decoded := DecodeOpenAI(SystemPart(system) + Wires(h));
            && |decoded| == |h|
            && forall i | 0 <= i < |h| ::
                 decoded[i] == h[i].(toolCalls := WireCalls(h[i].toolCalls), toolName := "", reasoning := "")
    decreases |h|, system
  {
    if system != "" {
      assert (SystemPart(system) + Wires(h))[1..] == Wires(h);
    } else {
      assert SystemPart(system) + Wires(h) == Wires(h);
    }
    if h != [] {
      OpenAIRoundTrip("", h[1..]);
      assert SystemPart("") + Wires(h[1..]) == Wires(h[1..]);
    }
  }

  /** The two drivers say the same history, reasoning and grouping aside, exactly when only assistants
      carry tool calls and only tool results carry a call id. */
  lemma DriversAgree(system: string, h: seq<Message>)
    ensures DecodeAnthropic(AnthropicFrom(h, [])) == DecodeOpenAI(SystemPart(system) + Wires(h))
            <==> forall m | m in h :: CleanMessage(m)
  {
    AnthropicRoundTrip(h);
    OpenAIRoundTrip(system, h);
    var kept, decoded := KeptAll(h), DecodeOpenAI(SystemPart(system) + Wires(h));
    forall i | 0 <= i < |h| ensures kept[i] == decoded[i] <==> CleanMessage(h[i]) {
      KeptIffClean(h[i]);
    }
    if forall m | m in h :: CleanMessage(m) {
      assert forall i | 0 <= i < |h| :: h[i] in h;
    } else {
      var m :| m in h && !CleanMessage(m);
      var i :| 0 <= i < |h| && h[i] == m;
      assert kept[i] != decoded[i];
    }
  }

  lemma KeptIffClean(m: Message)
    ensures Kept(m) == m.(toolCalls := WireCalls(m.toolCalls), toolName := "", reasoning := "") <==> CleanMessage(m)
  {
    assert |WireCalls(m.toolCalls)| == |m.toolCalls|;
  }

  /** So both drivers send the model the same conversation at every turn of every run. */
  lemma DriversAgreeOnEveryTurn(world: World, maxTurns: int, brief: string, system: string, h: seq<Message>)
    requires h in Sent(world, Cap(maxTurns), Start([UserMessage(brief)]))
    ensures DecodeAnthropic(AnthropicFrom(h, [])) == DecodeOpenAI(SystemPart(system) + Wires(h))
  {
    ToolPairingAndAlternation(world, maxTurns, brief);
    assert Sendable(h);
    DriversAgree(system, h);
  }
}
