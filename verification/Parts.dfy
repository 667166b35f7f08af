/** The parts of a message (crates/doc/src/parts.rs, lines 105-393) and the entries that hold them
    (crates/doc/src/schema.rs, lines 33-63).

    Payloads that the code only copies around (questions, choices, tool inputs) are JSON text. */
module Parts {
  import opened Options
  import opened Text

  type Json = string

  datatype MessageStatus = Streaming | Complete | Aborted

  datatype SubagentStatus = Running | Done | Failed

  datatype CompactionStatus = InProgress | Completed | CompactionFailed | Cancelled

  datatype ErrorKind = UnknownKind | KnownKind(name: string)

  datatype QuestionSource = Native | OtherSource(name: string)

  datatype PermissionChoice = Deny | Allow(name: string)

  datatype ToolDiff = ToolDiff(path: string, oldText: Option<string>, newText: string)

  datatype ToolDiffStat = ToolDiffStat(path: string, additions: nat, deletions: nat)

  datatype InputResponse = InputResponse(answers: Json, decidedAt: int, device: string, applied: bool)

  /** Tool calls, as far as the fold tells them apart: the typed ones, MCP calls and unknown ones. */
  datatype ToolCall =
    | TypedCall(call: Json)
    | McpCall(server: string, tool: string, input: Option<Json>)
    | UnknownCall(name: string, input: Option<Json>)
  {
    /** A subagent spawn goes by the name `Agent` or `Agent: <description>`. */
    predicate IsSubagentSpawn() {
      match this
      case TypedCall(_) => false
      case McpCall(_, tool, _) => tool == "Agent" || StartsWith(tool, "Agent: ")
      case UnknownCall(name, _) => name == "Agent" || StartsWith(name, "Agent: ")
    }
  }

  datatype MessagePart =
    | TextPart(id: string, text: string)
    | ToolPart(
        id: string, call: ToolCall, isError: bool, resolved: bool,
        output: Option<string>, diff: Option<ToolDiff>,
        outputRef: Option<string>, outputBytes: Option<nat>,
        diffRef: Option<string>, diffStats: Option<seq<ToolDiffStat>>,
        subagentRef: Option<string>, subagentStatus: Option<SubagentStatus>, subagentTail: Option<string>,
        subagentMs: Option<nat>, subagentTools: Option<nat>)
    | InputPart(id: string, requestId: string, questions: Json, resolved: bool,
                responses: seq<InputResponse>, source: QuestionSource)
    | SwitchPart(id: string, from: string, to: string, fromHarness: Option<string>, toHarness: Option<string>)
    | ErrorPart(id: string, message: string, kind: ErrorKind, detail: Option<string>, retryable: bool)
    | PermissionPart(
        id: string, requestId: string, permissionKind: Json, summaryLine: string, choices: Json, actions: Json,
        resolved: bool, decision: Option<PermissionChoice>, toolCallId: Option<string>,
        decidedBy: Option<string>, decidedAt: Option<int>, expiresAt: Option<int>)
    | CompactionPart(
        id: string, compactionId: string, status: CompactionStatus, trigger: Option<string>,
        tokensBefore: Option<nat>, tokensAfter: Option<nat>, error: Option<string>,
        summary: Option<string>, summaryBytes: Option<nat>, summaryInJournal: bool)

  datatype MessageRole = User | Assistant | System

  datatype EntryId = EntryId(text: string)

  datatype Entry = Entry(
    id: EntryId, role: MessageRole, parts: seq<MessagePart>, createdAt: int, deviceId: string,
    status: Option<MessageStatus>, continuationOf: Option<EntryId>)
}
