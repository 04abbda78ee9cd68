/** SolidPing's agent loop (server/internal/ai/loop.go) and the two wire encodings of the history it
    builds (server/internal/ai/anthropic.go, server/internal/ai/openai.go).

    The provider, the tools and the hooks are a `World`: arbitrary answers, turn by turn. */
module AgentLoop {
  import opened Options
  import opened Sequences

  datatype Role = User | Assistant | Tool

  datatype ToolCall = ToolCall(id: string, name: string, arguments: string)

  datatype Message = Message(
    role: Role, content: string, toolCalls: seq<ToolCall>, toolCallID: string, toolName: string, reasoning: string)

  datatype Usage = Usage(input: int, output: int)

  datatype Response = Response(text: string, reasoning: string, toolCalls: seq<ToolCall>, usage: Usage)

  datatype Answer = Answered(response: Response) | Failed

  /** What the outside does at each turn: the provider's answer, the text each tool call returns, the
      nudge ("" for none) and what Done reports. */
  datatype World = World(
    answer: nat -> Answer, toolText: (nat, nat) -> string, nudge: nat -> string, done: nat -> bool)

  datatype Result = Result(text: string, turns: nat, usage: Usage, messages: seq<Message>)

  datatype Ending = Finished | ProviderFailed | TurnCapReached

  const DEFAULT_MAX_TURNS: nat := 12

  function Cap(setting: int): nat {
    if setting <= 0 then DEFAULT_MAX_TURNS else setting
  }

  function Add(a: Usage, b: Usage): Usage {
    Usage(a.input + b.input, a.output + b.output)
  }

  function UserMessage(text: string): Message {
    Message(User, text, [], "", "", "")
  }

  function AssistantMessage(r: Response): Message {
    Message(Assistant, r.text, r.toolCalls, "", "", r.reasoning)
  }

  function ToolMessage(call: ToolCall, text: string): Message {
    Message(Tool, text, [], call.id, call.name, "")
  }

  /** The tool messages of a turn, one per call, from call i on. */
  function ToolMessages(world: World, turn: nat, calls: seq<ToolCall>, i: nat): (ms: seq<Message>)
    ensures |ms| == if i <= |calls| then |calls| - i else 0
    ensures forall k | 0 <= k < |ms| :: ms[k] == ToolMessage(calls[i + k], world.toolText(turn, i + k))
    decreases |calls| - i
  {
    if i >= |calls| then []
    else [ToolMessage(calls[i], world.toolText(turn, i))] + ToolMessages(world, turn, calls, i + 1)
  }

  /** One turn: the result after it, and whether the loop ends there. */
  function Turn(world: World, r: Result): (Result, Option<Ending>) {
    var turn := r.turns;
    match world.answer(turn)
    case Failed => (r.(turns := turn + 1), Some(ProviderFailed))
    case Answered(response) =>
      var said := Result(
        response.text, turn + 1, Add(r.usage, response.usage), r.messages + [AssistantMessage(response)]);
      if response.toolCalls == [] then
        if world.nudge(turn) == "" then (said, Some(Finished))
        else (said.(messages := said.messages + [UserMessage(world.nudge(turn))]), None)
      else
        var answered := said.(messages := said.messages + ToolMessages(world, turn, response.toolCalls, 0));
        (answered, if world.done(turn) then Some(Finished) else None)
  }

  function RunFrom(world: World, cap: nat, r: Result): (Result, Ending)
    decreases cap - r.turns
  {
    if r.turns >= cap then (r, TurnCapReached)
    else
      var (next, ending) := Turn(world, r);
      match ending
      case Some(e) => (next, e)
      case None => RunFrom(world, cap, next)
  }

  function Start(messages: seq<Message>): Result {
    Result("", 0, Usage(0, 0), messages)
  }

  method Run(world: World, maxTurns: int, messages: seq<Message>)
    returns (result: Result, ending: Ending, sent: seq<seq<Message>>)
    ensures (result, ending) == RunFrom(world, Cap(maxTurns), Start(messages))
    ensures sent == Sent(world, Cap(maxTurns), Start(messages))
  {
    var cap := if maxTurns <= 0 then DEFAULT_MAX_TURNS else maxTurns;
    result, sent := Result("", 0, Usage(0, 0), messages), [];
    while result.turns < cap
      invariant RunFrom(world, cap, result) == RunFrom(world, cap, Start(messages))
      invariant sent + Sent(world, cap, result) == Sent(world, cap, Start(messages))
      decreases cap - result.turns
    {
      ghost var before, asked := result, sent;
      var turn := result.turns;
      sent := sent + [result.messages];
      var answer := world.answer(turn);
      result := result.(turns := turn + 1);
      if answer.Failed? {
        assert asked + Sent(world, cap, before) == sent + [];
        return result, ProviderFailed, sent;
      }
      var response := answer.response;
      result := Result(
        response.text, result.turns, Add(result.usage, response.usage), result.messages + [AssistantMessage(response)]);
      if |response.toolCalls| == 0 {
        var nudge := world.nudge(turn);
        if nudge == "" {
          assert asked + Sent(world, cap, before) == sent + [];
          return result, Finished, sent;
        }
        result := result.(messages := result.messages + [UserMessage(nudge)]);
      } else {
        var i := 0;
        ghost var said := result;
        while i < |response.toolCalls|
          invariant 0 <= i <= |response.toolCalls|
          invariant result.(messages := said.messages) == said
          invariant result.messages + ToolMessages(world, turn, response.toolCalls, i)
                    == said.messages + ToolMessages(world, turn, response.toolCalls, 0)
        {
          ghost var rest := ToolMessages(world, turn, response.toolCalls, i + 1);
          var message := ToolMessage(response.toolCalls[i], world.toolText(turn, i));
          Associative(result.messages, [message], rest);
          result := result.(messages := result.messages + [message]);
          i := i + 1;
        }
        assert result.messages + [] == result.messages;
        if world.done(turn) {
          assert asked + Sent(world, cap, before) == sent + [];
          return result, Finished, sent;
        }
      }
      assert (result, None) == Turn(world, before);
      Associative(asked, [before.messages], Sent(world, cap, result));
    }
    assert sent + [] == sent;
    return result, TurnCapReached, sent;
  }

  /** The histories sent to the provider, one per call. */
  function Sent(world: World, cap: nat, r: Result): seq<seq<Message>>
    decreases cap - r.turns
  {
    if r.turns >= cap then []
    else
      var (next, ending) := Turn(world, r);
      [r.messages] + if ending.Some? then [] else Sent(world, cap, next)
  }

  // ---- The Anthropic encoding ---------------------------------------------------------------------

  datatype Block =
    | TextBlock(text: string)
    | ToolUse(id: string, name: string, input: string)
    | ToolResult(id: string, content: string)

  datatype AnthropicMessage = AnthropicMessage(user: bool, blocks: seq<Block>)

  /** Empty arguments are sent as the empty object. */
  function Arguments(call: ToolCall): string {
    if call.arguments == "" then "{}" else call.arguments
  }

  function ToolUses(calls: seq<ToolCall>, j: nat): seq<Block>
    decreases |calls| - j
  {
    if j >= |calls| then []
    else [ToolUse(calls[j].id, calls[j].name, Arguments(calls[j]))] + ToolUses(calls, j + 1)
  }

  function AssistantBlocks(m: Message): seq<Block> {
    (if m.content != "" then [TextBlock(m.content)] else []) + ToolUses(m.toolCalls, 0)
  }

  function Flushed(pending: seq<Block>): seq<AnthropicMessage> {
    if pending == [] then [] else [AnthropicMessage(true, pending)]
  }

  /** The messages still to come out, with `pending` tool results not yet in a message. */
  function AnthropicFrom(messages: seq<Message>, pending: seq<Block>): seq<AnthropicMessage>
    decreases |messages|
  {
    if messages == [] then Flushed(pending)
    else
      var m := messages[0];
      if m.role == Tool then AnthropicFrom(messages[1..], pending + [ToolResult(m.toolCallID, m.content)])
      else (Flushed(pending) + [Encoded(m)]) + AnthropicFrom(messages[1..], [])
  }

  function Encoded(m: Message): AnthropicMessage {
    if m.role == Assistant then AnthropicMessage(false, AssistantBlocks(m))
    else AnthropicMessage(true, [TextBlock(m.content)])
  }

  method AnthropicMessages(messages: seq<Message>) returns (out: seq<AnthropicMessage>)
    ensures out == AnthropicFrom(messages, [])
  {
    out := [];
    var pending: seq<Block> := [];
    for i := 0 to |messages|
      invariant out + AnthropicFrom(messages[i..], pending) == AnthropicFrom(messages, [])
    {
      var m := messages[i];
      ghost var next, rest := messages[i + 1..], messages[i..];
      assert rest[1..] == next && rest[0] == m;
      if m.role == Tool {
        pending := pending + [ToolResult(m.toolCallID, m.content)];
      } else {
        ghost var was, flushed := out, Flushed(pending);
        assert AnthropicFrom(rest, pending) == (flushed + [Encoded(m)]) + AnthropicFrom(next, []);
        if |pending| > 0 {
          out := out + [AnthropicMessage(true, pending)];
          pending := [];
        }
        assert out == was + flushed;
        var encoded;
        if m.role == Assistant {
          var blocks := [];
          if m.content != "" {
            blocks := blocks + [TextBlock(m.content)];
          }
          ghost var text := blocks;
          for j := 0 to |m.toolCalls|
            invariant blocks + ToolUses(m.toolCalls, j) == text + ToolUses(m.toolCalls, 0)
          {
            var call := m.toolCalls[j];
            var block := ToolUse(call.id, call.name, if |call.arguments| > 0 then call.arguments else "{}");
            Associative(blocks, [block], ToolUses(m.toolCalls, j + 1));
            blocks := blocks + [block];
          }
          assert blocks + [] == blocks;
          encoded := AnthropicMessage(false, blocks);
        } else {
          encoded := AnthropicMessage(true, [TextBlock(m.content)]);
        }
        assert encoded == Encoded(m);
        out := out + [encoded];
        Associative(was, flushed, [encoded]);
        Associative(was, flushed + [encoded], AnthropicFrom(next, []));
      }
    }
    if |pending| > 0 {
      out := out + [AnthropicMessage(true, pending)];
    }
  }

  // ---- The OpenAI encoding ------------------------------------------------------------------------

  datatype WireRole = WireSystem | WireRole(role: Role)

  datatype WireMessage = WireMessage(
    role: WireRole, content: Option<string>, reasoning: string, toolCalls: seq<ToolCall>, toolCallID: string)

  function WireCalls(calls: seq<ToolCall>): (wire: seq<ToolCall>)
    ensures |wire| == |calls|
    ensures forall j | 0 <= j < |calls| :: wire[j] == calls[j].(arguments := Arguments(calls[j]))
  {
    if calls == [] then [] else [calls[0].(arguments := Arguments(calls[0]))] + WireCalls(calls[1..])
  }

  function Wire(m: Message): WireMessage {
    WireMessage(
      WireRole(m.role),
      if m.content != "" || m.role != Assistant then Some(m.content) else None,
      if m.role == Assistant then m.reasoning else "",
      WireCalls(m.toolCalls),
      m.toolCallID)
  }

  function Wires(messages: seq<Message>): (wires: seq<WireMessage>)
    ensures |wires| == |messages| && forall i | 0 <= i < |wires| :: wires[i] == Wire(messages[i])
  {
    if messages == [] then [] else [Wire(messages[0])] + Wires(messages[1..])
  }

  method BuildRequest(system: string, messages: seq<Message>) returns (body: seq<WireMessage>)
    ensures body == SystemPart(system) + Wires(messages)
  {
    body := [];
    if system != "" {
      body := body + [WireMessage(WireSystem, Some(system), "", [], "")];
    }
    body := AppendWires(body, messages);
  }

  method AppendWires(start: seq<WireMessage>, messages: seq<Message>) returns (body: seq<WireMessage>)
    ensures body == start + Wires(messages)
  {
    body := start;
    for i := 0 to |messages|
      invariant |body| == |start| + i && body[..|start|] == start
      invariant forall k | 0 <= k < i :: body[|start| + k] == Wire(messages[k])
    {
      var wire := EncodeWire(messages[i]);
      body := body + [wire];
    }
  }

  /** The body of buildRequest's message loop. */
  method EncodeWire(m: Message) returns (wire: WireMessage)
    ensures wire == Wire(m)
  {
    wire := WireMessage(WireRole(m.role), None, "", [], m.toolCallID);
    if m.role == Assistant {
      wire := wire.(reasoning := m.reasoning);
    }
    if m.content != "" || m.role != Assistant {
      wire := wire.(content := Some(m.content));
    }
    var calls: seq<ToolCall> := [];
    for j := 0 to |m.toolCalls|
      invariant |calls| == j
      invariant forall k | 0 <= k < j :: calls[k] == m.toolCalls[k].(arguments := Arguments(m.toolCalls[k]))
    {
      var call := m.toolCalls[j];
      var arguments := call.arguments;
      if arguments == "" {
        arguments := "{}";
      }
      calls := calls + [call.(arguments := arguments)];
    }
    assert calls == WireCalls(m.toolCalls);
    wire := wire.(toolCalls := calls);
  }

  function SystemPart(system: string): seq<WireMessage> {
    if system == "" then [] else [WireMessage(WireSystem, Some(system), "", [], "")]
  }
}
