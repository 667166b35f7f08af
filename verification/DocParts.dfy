/** Message parts as rows of the document (crates/doc/src/schema.rs, lines 69-480, 1261-1373 and
    1788-1925). A row is a map from columns to cells; JSON encoding of a cell is left out. */
module DocParts {
  import opened Options
  import opened Text
  import opened Parts

  datatype Kind = TextRow | ToolRow | InputRow | SwitchRow | ErrorRow | PermissionRow | CompactionRow | OtherRow

  datatype Column =
    | IdCol | KindCol | TextCol | CallCol | IsErrorCol | QuestionsCol | ResolvedCol | MessageCol | OutputCol | DiffCol
    | OutputRefCol | OutputBytesCol | DiffRefCol | DiffStatsCol
    | SubagentRefCol | SubagentStatusCol | SubagentTailCol | SubagentMsCol | SubagentToolsCol
    | RequestIdCol | ErrorKindCol | ErrorDetailCol | ErrorRetryableCol | ResponsesCol | SourceCol
    | DecisionCol | ToolCallIdCol | DecidedByCol | DecidedAtCol
    | CompactionIdCol | CompactionStatusCol | TriggerCol | TokensBeforeCol | TokensAfterCol | CompactionErrorCol
    | SummaryCol | SummaryBytesCol | SummaryInJournalCol

  datatype Cell =
    | Str(text: string)
    | Flag(on: bool)
    | Num(n: nat)
    | Millis(at: int)
    | KindCell(kind: Kind)
    | CallCell(call: ToolCall)
    | DiffCell(diff: ToolDiff)
    | StatsCell(stats: seq<ToolDiffStat>)
    | SubagentCell(subagent: SubagentStatus)
    | QuestionsCell(questions: Json)
    | SwitchCell(from: string, to: string, fromHarness: Option<string>, toHarness: Option<string>)
    | ApprovalCell(permissionKind: Json, choices: Json, request: string, actions: Json)
    | ResponsesCell(responses: seq<InputResponse>)
    | ErrorKindCell(errorKind: ErrorKind)
    | SourceCell(source: QuestionSource)
    | DecisionCell(choice: PermissionChoice)
    | CycleCell(status: CompactionStatus)

  type Row = map<Column, Cell>

  // ── app part to row ────────────────────────────────────────────────────────

  function StrCell(s: Option<string>): Option<Cell> {
    if s.Some? then Some(Str(s.value)) else None
  }

  function NumCell(n: Option<nat>): Option<Cell> {
    if n.Some? then Some(Num(n.value)) else None
  }

  function ToolColumn(p: MessagePart, c: Column): Option<Cell>
    requires p.ToolPart?
  {
    match c
    case IdCol => Some(Str(p.id))
    case KindCol => Some(KindCell(ToolRow))
    case CallCol => Some(CallCell(p.call))
    case IsErrorCol => if p.resolved then Some(Flag(p.isError)) else None  // its presence marks the resolution
    case OutputCol => StrCell(p.output)
    case DiffCol => if p.diff.Some? then Some(DiffCell(p.diff.value)) else None
    case OutputRefCol => StrCell(p.outputRef)
    case OutputBytesCol => NumCell(p.outputBytes)
    case DiffRefCol => StrCell(p.diffRef)
    case DiffStatsCol => if p.diffStats.Some? then Some(StatsCell(p.diffStats.value)) else None
    case SubagentRefCol => StrCell(p.subagentRef)
    case SubagentStatusCol => if p.subagentStatus.Some? then Some(SubagentCell(p.subagentStatus.value)) else None
    case SubagentTailCol => StrCell(p.subagentTail)
    case SubagentMsCol => NumCell(p.subagentMs)
    case SubagentToolsCol => NumCell(p.subagentTools)
    case _ => None
  }

  function InputColumn(p: MessagePart, c: Column): Option<Cell>
    requires p.InputPart?
  {
    match c
    case IdCol => Some(Str(p.requestId))
    case KindCol => Some(KindCell(InputRow))
    case QuestionsCol => Some(QuestionsCell(p.questions))
    case ResolvedCol => Some(Flag(p.resolved))
    case ResponsesCol => if p.responses != [] then Some(ResponsesCell(p.responses)) else None
    case SourceCol => if p.source != Native then Some(SourceCell(p.source)) else None
    case _ => None
  }

  function SwitchColumn(p: MessagePart, c: Column): Option<Cell>
    requires p.SwitchPart?
  {
    match c
    case IdCol => Some(Str(p.id))
    case KindCol => Some(KindCell(SwitchRow))
    case MessageCol => Some(Str(p.from + " \U{2192} " + p.to))
    case QuestionsCol => Some(SwitchCell(p.from, p.to, p.fromHarness, p.toHarness))
    case _ => None
  }

  function ErrorColumn(p: MessagePart, c: Column): Option<Cell>
    requires p.ErrorPart?
  {
    match c
    case IdCol => Some(Str(p.id))
    case KindCol => Some(KindCell(ErrorRow))
    case MessageCol => Some(Str(p.message))
    case ErrorKindCol => if p.kind != UnknownKind then Some(ErrorKindCell(p.kind)) else None
    case ErrorDetailCol => StrCell(p.detail)
    case ErrorRetryableCol => if p.retryable then Some(Flag(true)) else None
    case _ => None
  }

  function PermissionColumn(p: MessagePart, c: Column): Option<Cell>
    requires p.PermissionPart?
  {
    match c
    case IdCol => Some(Str(p.id))
    case KindCol => Some(KindCell(PermissionRow))
    case MessageCol => Some(Str(p.summaryLine))
    case QuestionsCol => Some(ApprovalCell(p.permissionKind, p.choices, p.requestId, p.actions))
    case ResolvedCol => Some(Flag(p.resolved))
    case RequestIdCol => Some(Str(p.requestId))
    case DecisionCol => if p.decision.Some? then Some(DecisionCell(p.decision.value)) else None
    case ToolCallIdCol => StrCell(p.toolCallId)
    case DecidedByCol => StrCell(p.decidedBy)
    case DecidedAtCol => if p.decidedAt.Some? then Some(Millis(p.decidedAt.value)) else None
    case _ => None
  }

  function CompactionColumn(p: MessagePart, c: Column): Option<Cell>
    requires p.CompactionPart?
  {
    match c
    case IdCol => Some(Str(p.id))
    case KindCol => Some(KindCell(CompactionRow))
    case CompactionIdCol => Some(Str(p.compactionId))
    case CompactionStatusCol => Some(CycleCell(p.status))
    case TriggerCol => StrCell(p.trigger)
    case TokensBeforeCol => NumCell(p.tokensBefore)
    case TokensAfterCol => NumCell(p.tokensAfter)
    case CompactionErrorCol => StrCell(p.error)
    case SummaryCol => StrCell(p.summary)
    case SummaryBytesCol => NumCell(p.summaryBytes)
    case SummaryInJournalCol => if p.summaryInJournal then Some(Flag(true)) else None
    case _ => None
  }

  /** What `to_doc_part` puts in a column. */
  function ColumnOf(p: MessagePart, c: Column): Option<Cell> {
    match p
    case TextPart(id, text) =>
      if c.IdCol? then Some(Str(id)) else if c.KindCol? then Some(KindCell(TextRow))
      else if c.TextCol? then Some(Str(text)) else None
    case ToolPart(_, _, _, _, _, _, _, _, _, _, _, _, _, _, _) => ToolColumn(p, c)
    case InputPart(_, _, _, _, _, _) => InputColumn(p, c)
    case SwitchPart(_, _, _, _, _) => SwitchColumn(p, c)
    case ErrorPart(_, _, _, _, _) => ErrorColumn(p, c)
    case PermissionPart(_, _, _, _, _, _, _, _, _, _, _, _) => PermissionColumn(p, c)
    case CompactionPart(_, _, _, _, _, _, _, _, _, _) => CompactionColumn(p, c)
  }

  /** `to_doc_part`. */
  function ToDoc(p: MessagePart): Row {
    map c: Column | ColumnOf(p, c).Some? :: ColumnOf(p, c).value
  }

  /** The row `push_part` appends: an input row gets its list of responses even when that is empty. */
  function Pushed(p: MessagePart): Row {
    if p.InputPart? then ToDoc(p)[ResponsesCol := ResponsesCell(p.responses)] else ToDoc(p)
  }

  // ── row to app part ────────────────────────────────────────────────────────

  function GetStr(row: Row, c: Column): Option<string> {
    if c in row && row[c].Str? then Some(row[c].text) else None
  }

  function StrOr(row: Row, c: Column, otherwise: string): string {
    if c in row && row[c].Str? then row[c].text else otherwise
  }

  function FlagOr(row: Row, c: Column, otherwise: bool): bool {
    if c in row && row[c].Flag? then row[c].on else otherwise
  }

  function GetNum(row: Row, c: Column): Option<nat> {
    if c in row && row[c].Num? then Some(row[c].n) else None
  }

  function StripPrefix(s: string, prefix: string): string {
    if StartsWith(s, prefix) then s[|prefix|..] else s
  }

  function ToolFrom(row: Row): MessagePart {
    var id := StrOr(row, IdCol, "");
    if CallCol in row && row[CallCol].CallCell? then
      ToolPart(id, row[CallCol].call, FlagOr(row, IsErrorCol, false), IsErrorCol in row,
               GetStr(row, OutputCol),
               if DiffCol in row && row[DiffCol].DiffCell? then Some(row[DiffCol].diff) else None,
               GetStr(row, OutputRefCol), GetNum(row, OutputBytesCol), GetStr(row, DiffRefCol),
               if DiffStatsCol in row && row[DiffStatsCol].StatsCell? then Some(row[DiffStatsCol].stats) else None,
               GetStr(row, SubagentRefCol),
               if SubagentStatusCol in row && row[SubagentStatusCol].SubagentCell?
               then Some(row[SubagentStatusCol].subagent) else None,
               GetStr(row, SubagentTailCol), GetNum(row, SubagentMsCol), GetNum(row, SubagentToolsCol))
    else TextPart(id, "")
  }

  const NO_QUESTIONS: Json := "[]"

  function ResponsesOf(row: Row): seq<InputResponse> {
    if ResponsesCol in row && row[ResponsesCol].ResponsesCell? then row[ResponsesCol].responses else []
  }

  function InputFrom(row: Row): MessagePart {
    var id := StrOr(row, IdCol, "");
    InputPart(id, id,
              if QuestionsCol in row && row[QuestionsCol].QuestionsCell? then row[QuestionsCol].questions else NO_QUESTIONS,
              FlagOr(row, ResolvedCol, false), ResponsesOf(row),
              if SourceCol in row && row[SourceCol].SourceCell? then row[SourceCol].source else Native)
  }

  function SwitchFrom(row: Row): MessagePart {
    var id := StrOr(row, IdCol, "");
    if QuestionsCol in row && row[QuestionsCol].SwitchCell? then
      var cell := row[QuestionsCol];
      SwitchPart(id, cell.from, cell.to, cell.fromHarness, cell.toHarness)
    else TextPart(id, StrOr(row, MessageCol, ""))
  }

  function ErrorFrom(row: Row): MessagePart {
    ErrorPart(StrOr(row, IdCol, ""), StrOr(row, MessageCol, ""),
              if ErrorKindCol in row && row[ErrorKindCol].ErrorKindCell? then row[ErrorKindCol].errorKind else UnknownKind,
              GetStr(row, ErrorDetailCol), FlagOr(row, ErrorRetryableCol, false))
  }

  const NO_COMMAND: Json := "{\"type\":\"command\",\"cmdline\":\"\"}"

  /** The dedicated column first; old rows keep the request in the tuple, or nowhere. */
  function RequestOf(row: Row): string {
    var request := GetStr(row, RequestIdCol);
    if request.Some? then request.value
    else if QuestionsCol in row && row[QuestionsCol].ApprovalCell? then StripPrefix(row[QuestionsCol].request, "perm-")
    else StrOr(row, IdCol, "")
  }

  function PermissionFrom(row: Row): MessagePart {
    var cell := if QuestionsCol in row && row[QuestionsCol].ApprovalCell? then row[QuestionsCol]
                else ApprovalCell(NO_COMMAND, "[]", RequestOf(row), "[]");
    PermissionPart(StrOr(row, IdCol, ""), RequestOf(row), cell.permissionKind, StrOr(row, MessageCol, ""),
                   cell.choices, cell.actions, FlagOr(row, ResolvedCol, false),
                   if DecisionCol in row && row[DecisionCol].DecisionCell? then Some(row[DecisionCol].choice) else None,
                   GetStr(row, ToolCallIdCol), GetStr(row, DecidedByCol),
                   if DecidedAtCol in row && row[DecidedAtCol].Millis? then Some(row[DecidedAtCol].at) else None,
                   None)
  }

  function CompactionFrom(row: Row): MessagePart {
    var id := StrOr(row, IdCol, "");
    CompactionPart(id, StrOr(row, CompactionIdCol, StripPrefix(id, "cmp-")),
                   if CompactionStatusCol in row && row[CompactionStatusCol].CycleCell?
                   then row[CompactionStatusCol].status else InProgress,
                   GetStr(row, TriggerCol), GetNum(row, TokensBeforeCol), GetNum(row, TokensAfterCol),
                   GetStr(row, CompactionErrorCol), GetStr(row, SummaryCol), GetNum(row, SummaryBytesCol),
                   FlagOr(row, SummaryInJournalCol, false))
  }

  function KindOf(row: Row): Kind {
    if KindCol in row && row[KindCol].KindCell? then row[KindCol].kind else OtherRow
  }

  /** `from_doc_part`: an unknown or broken row reads as a text. */
  function FromDoc(row: Row): MessagePart {
    match KindOf(row)
    case ToolRow => ToolFrom(row)
    case InputRow => InputFrom(row)
    case SwitchRow => SwitchFrom(row)
    case ErrorRow => ErrorFrom(row)
    case PermissionRow => PermissionFrom(row)
    case CompactionRow => CompactionFrom(row)
    case _ => TextPart(StrOr(row, IdCol, ""), StrOr(row, TextCol, ""))
  }

  // ── the round trip ─────────────────────────────────────────────────────────

  /** What the document keeps of a part: an input part is known by its request, an unresolved tool has
      no error flag yet, and the host's own deadline is not stored. */
  function Stored(p: MessagePart): MessagePart {
    match p
    case ToolPart(id, call, isError, resolved, output, diff, outputRef, bytes, diffRef, stats, ref, status, tail, ms,
                  tools) =>
      ToolPart(id, call, resolved && isError, resolved, output, diff, outputRef, bytes, diffRef, stats, ref, status,
               tail, ms, tools)
    case InputPart(_, request, questions, resolved, responses, source) =>
      InputPart(request, request, questions, resolved, responses, source)
    case PermissionPart(id, request, kind, line, choices, actions, resolved, decision, tool, device, at, _) =>
      PermissionPart(id, request, kind, line, choices, actions, resolved, decision, tool, device, at, None)
    case _ => p
  }

  /** Parts the document keeps whole. */
  predicate Storable(p: MessagePart) {
    match p
    case ToolPart(_, _, isError, resolved, _, _, _, _, _, _, _, _, _, _, _) => isError ==> resolved
    case InputPart(id, request, _, _, _, _) => id == request
    case PermissionPart(_, _, _, _, _, _, _, _, _, _, _, expires) => expires.None?
    case _ => true
  }

  /** Columns of a row that are also written from outside the run: the answers to a question and the decision
      on a request. */
  predicate Shared(p: MessagePart, c: Column) {
    (p.InputPart? && (c.ResponsesCol? || c.ResolvedCol?)) ||
    (p.PermissionPart? && (c.ResolvedCol? || c.DecisionCol? || c.DecidedByCol? || c.DecidedAtCol?))
  }

  /** The shared columns hold cells of their kind, and a resolution is not taken back. */
  ghost predicate SharedFit(row: Row, p: MessagePart) {
    && (p.InputPart? ==> ResponsesCol in row && row[ResponsesCol].ResponsesCell?)
    && (p.InputPart? || p.PermissionPart? ==>
          ResolvedCol in row && row[ResolvedCol].Flag? && (p.resolved ==> row[ResolvedCol].on))
    && (p.PermissionPart? ==>
          && (DecisionCol in row ==> row[DecisionCol].DecisionCell?)
          && (DecidedByCol in row ==> row[DecidedByCol].Str?)
          && (DecidedAtCol in row ==> row[DecidedAtCol].Millis?))
  }

  /** `row` holds `p`, next to whatever answers and decisions have been recorded from outside. */
  ghost predicate Mirrors(row: Row, p: MessagePart) {
    (forall c: Column :: !Shared(p, c) ==> Get(row, c) == ColumnOf(p, c)) && SharedFit(row, p)
  }

  lemma PushedMirrors(p: MessagePart)
    ensures Mirrors(Pushed(p), p)
  {
    forall c: Column ensures Get(ToDoc(p), c) == ColumnOf(p, c) {
      InColumn(p, c);
    }
    if p.PermissionPart? {
      PushedDecision(p);
    }
  }

  lemma InColumn(p: MessagePart, c: Column)
    ensures Get(ToDoc(p), c) == ColumnOf(p, c)
  {
  }

  lemma PushedDecision(p: MessagePart)
    requires p.PermissionPart?
    ensures SharedFit(Pushed(p), p)
    ensures PermissionFrom(Pushed(p)).decision == p.decision
    ensures GetStr(Pushed(p), DecidedByCol) == p.decidedBy && PermissionFrom(Pushed(p)).decidedAt == p.decidedAt
    ensures FlagOr(Pushed(p), ResolvedCol, false) == p.resolved
  {
    InColumn(p, ResolvedCol);
    InColumn(p, DecisionCol);
    InColumn(p, DecidedByCol);
    InColumn(p, DecidedAtCol);
    DecisionReads(Pushed(p), p);
  }

  lemma DecisionReads(row: Row, p: MessagePart)
    requires p.PermissionPart?
    requires Get(row, ResolvedCol) == ColumnOf(p, ResolvedCol) && Get(row, DecisionCol) == ColumnOf(p, DecisionCol)
    requires Get(row, DecidedByCol) == ColumnOf(p, DecidedByCol) && Get(row, DecidedAtCol) == ColumnOf(p, DecidedAtCol)
    ensures SharedFit(row, p)
    ensures PermissionFrom(row).decision == p.decision
    ensures GetStr(row, DecidedByCol) == p.decidedBy && PermissionFrom(row).decidedAt == p.decidedAt
    ensures FlagOr(row, ResolvedCol, false) == p.resolved
  {
  }

  /** What a row reads as: the stored part, with the answers and the decision the row has. */
  function AnsweredBy(p: MessagePart, row: Row): MessagePart {
    match p
    case InputPart(id, request, questions, _, _, source) =>
      InputPart(id, request, questions, FlagOr(row, ResolvedCol, false), ResponsesOf(row), source)
    case PermissionPart(id, request, kind, line, choices, actions, _, _, tool, _, _, expires) =>
      var here := PermissionFrom(row);
      PermissionPart(id, request, kind, line, choices, actions, here.resolved, here.decision, tool,
                     here.decidedBy, here.decidedAt, expires)
    case _ => p
  }

  lemma StrReads(row: Row, p: MessagePart, c: Column, s: Option<string>)
    requires Mirrors(row, p) && !Shared(p, c) && ColumnOf(p, c) == StrCell(s)
    ensures GetStr(row, c) == s && (s.Some? ==> c in row && row[c] == Str(s.value))
  {
    assert Get(row, c) == ColumnOf(p, c);
  }

  lemma NumReads(row: Row, p: MessagePart, c: Column, n: Option<nat>)
    requires Mirrors(row, p) && !Shared(p, c) && ColumnOf(p, c) == NumCell(n)
    ensures GetNum(row, c) == n
  {
    assert Get(row, c) == ColumnOf(p, c);
  }

  lemma CellReads(row: Row, p: MessagePart, c: Column, cell: Option<Cell>)
    requires Mirrors(row, p) && !Shared(p, c) && ColumnOf(p, c) == cell
    ensures if cell.Some? then c in row && row[c] == cell.value else c !in row
  {
    assert Get(row, c) == ColumnOf(p, c);
  }

  lemma ToolReads(row: Row, p: MessagePart)
    requires Mirrors(row, p) && p.ToolPart?
    ensures FromDoc(row) == Stored(p)
  {
    ToolReadsA(row, p);
    ToolReadsB(row, p);
    ToolReadsC(row, p);
    ToolReadsD(row, p);
    ToolFromCells(row, p);
  }

  lemma ToolFromCells(row: Row, p: MessagePart)
    requires p.ToolPart? && KindOf(row) == ToolRow && CallCol in row && row[CallCol] == CallCell(p.call)
    requires IsErrorCol in row <==> p.resolved
    requires FlagOr(row, IsErrorCol, false) == (p.resolved && p.isError)
    requires StrOr(row, IdCol, "") == p.id && GetStr(row, OutputCol) == p.output && GetStr(row, OutputRefCol) == p.outputRef
    requires GetNum(row, OutputBytesCol) == p.outputBytes && GetStr(row, DiffRefCol) == p.diffRef
    requires GetStr(row, SubagentRefCol) == p.subagentRef && GetStr(row, SubagentTailCol) == p.subagentTail
    requires GetNum(row, SubagentMsCol) == p.subagentMs && GetNum(row, SubagentToolsCol) == p.subagentTools
    requires ToolFrom(row).diff == p.diff && ToolFrom(row).diffStats == p.diffStats
    requires ToolFrom(row).subagentStatus == p.subagentStatus
    ensures FromDoc(row) == Stored(p)
  {
  }

  lemma ToolReadsA(row: Row, p: MessagePart)
    requires Mirrors(row, p) && p.ToolPart?
    ensures KindOf(row) == ToolRow && CallCol in row && row[CallCol] == CallCell(p.call)
    ensures IsErrorCol in row <==> p.resolved
    ensures FlagOr(row, IsErrorCol, false) == (p.resolved && p.isError)
  {
    CellReads(row, p, KindCol, Some(KindCell(ToolRow)));
    CellReads(row, p, CallCol, Some(CallCell(p.call)));
    CellReads(row, p, IsErrorCol, if p.resolved then Some(Flag(p.isError)) else None);
  }

  lemma ToolReadsB(row: Row, p: MessagePart)
    requires Mirrors(row, p) && p.ToolPart?
    ensures StrOr(row, IdCol, "") == p.id && GetStr(row, OutputCol) == p.output && GetStr(row, OutputRefCol) == p.outputRef
    ensures GetNum(row, OutputBytesCol) == p.outputBytes && GetStr(row, DiffRefCol) == p.diffRef
  {
    StrReads(row, p, IdCol, Some(p.id));
    StrReads(row, p, OutputCol, p.output);
    StrReads(row, p, OutputRefCol, p.outputRef);
    NumReads(row, p, OutputBytesCol, p.outputBytes);
    StrReads(row, p, DiffRefCol, p.diffRef);
  }

  lemma ToolReadsD(row: Row, p: MessagePart)
    requires Mirrors(row, p) && p.ToolPart?
    ensures GetStr(row, SubagentRefCol) == p.subagentRef && GetStr(row, SubagentTailCol) == p.subagentTail
    ensures GetNum(row, SubagentMsCol) == p.subagentMs && GetNum(row, SubagentToolsCol) == p.subagentTools
  {
    StrReads(row, p, SubagentRefCol, p.subagentRef);
    StrReads(row, p, SubagentTailCol, p.subagentTail);
    NumReads(row, p, SubagentMsCol, p.subagentMs);
    NumReads(row, p, SubagentToolsCol, p.subagentTools);
  }

  lemma ToolReadsC(row: Row, p: MessagePart)
    requires Mirrors(row, p) && p.ToolPart? && CallCol in row && row[CallCol] == CallCell(p.call)
    ensures ToolFrom(row).diff == p.diff && ToolFrom(row).diffStats == p.diffStats
    ensures ToolFrom(row).subagentStatus == p.subagentStatus
  {
    CellReads(row, p, DiffCol, if p.diff.Some? then Some(DiffCell(p.diff.value)) else None);
    CellReads(row, p, DiffStatsCol, if p.diffStats.Some? then Some(StatsCell(p.diffStats.value)) else None);
    CellReads(row, p, SubagentStatusCol,
              if p.subagentStatus.Some? then Some(SubagentCell(p.subagentStatus.value)) else None);
  }

  lemma InputReads(row: Row, p: MessagePart)
    requires Mirrors(row, p) && p.InputPart?
    ensures FromDoc(row) == AnsweredBy(Stored(p), row)
  {
    assert Get(row, IdCol) == ColumnOf(p, IdCol) && Get(row, KindCol) == ColumnOf(p, KindCol);
    assert Get(row, QuestionsCol) == ColumnOf(p, QuestionsCol) && Get(row, SourceCol) == ColumnOf(p, SourceCol);
  }

  lemma TextReads(row: Row, p: MessagePart)
    requires Mirrors(row, p) && p.TextPart?
    ensures FromDoc(row) == p
  {
    StrReads(row, p, IdCol, Some(p.id));
    CellReads(row, p, KindCol, Some(KindCell(TextRow)));
    StrReads(row, p, TextCol, Some(p.text));
  }

  lemma SwitchReads(row: Row, p: MessagePart)
    requires Mirrors(row, p) && p.SwitchPart?
    ensures FromDoc(row) == p
  {
    StrReads(row, p, IdCol, Some(p.id));
    CellReads(row, p, KindCol, Some(KindCell(SwitchRow)));
    CellReads(row, p, QuestionsCol, Some(SwitchCell(p.from, p.to, p.fromHarness, p.toHarness)));
  }

  lemma ErrorReads(row: Row, p: MessagePart)
    requires Mirrors(row, p) && p.ErrorPart?
    ensures FromDoc(row) == p
  {
    StrReads(row, p, IdCol, Some(p.id));
    CellReads(row, p, KindCol, Some(KindCell(ErrorRow)));
    StrReads(row, p, MessageCol, Some(p.message));
    ErrorDetails(row, p);
  }

  lemma ErrorDetails(row: Row, p: MessagePart)
    requires Mirrors(row, p) && p.ErrorPart?
    ensures ErrorFrom(row).kind == p.kind && ErrorFrom(row).detail == p.detail && ErrorFrom(row).retryable == p.retryable
  {
    CellReads(row, p, ErrorKindCol, if p.kind != UnknownKind then Some(ErrorKindCell(p.kind)) else None);
    StrReads(row, p, ErrorDetailCol, p.detail);
    CellReads(row, p, ErrorRetryableCol, if p.retryable then Some(Flag(true)) else None);
  }

  lemma PermissionReads(row: Row, p: MessagePart)
    requires Mirrors(row, p) && p.PermissionPart?
    ensures FromDoc(row) == AnsweredBy(Stored(p), row)
  {
    PermissionReadsA(row, p);
    PermissionReadsB(row, p);
  }

  lemma PermissionReadsA(row: Row, p: MessagePart)
    requires Mirrors(row, p) && p.PermissionPart?
    ensures KindOf(row) == PermissionRow
    ensures StrOr(row, IdCol, "") == p.id && StrOr(row, MessageCol, "") == p.summaryLine && RequestOf(row) == p.requestId
    ensures QuestionsCol in row && row[QuestionsCol] == ApprovalCell(p.permissionKind, p.choices, p.requestId, p.actions)
  {
    StrReads(row, p, IdCol, Some(p.id));
    CellReads(row, p, KindCol, Some(KindCell(PermissionRow)));
    StrReads(row, p, MessageCol, Some(p.summaryLine));
    CellReads(row, p, QuestionsCol, Some(ApprovalCell(p.permissionKind, p.choices, p.requestId, p.actions)));
    StrReads(row, p, RequestIdCol, Some(p.requestId));
  }

  lemma PermissionReadsB(row: Row, p: MessagePart)
    requires Mirrors(row, p) && p.PermissionPart?
    ensures GetStr(row, ToolCallIdCol) == p.toolCallId
  {
    StrReads(row, p, ToolCallIdCol, p.toolCallId);
  }

  lemma CompactionReads(row: Row, p: MessagePart)
    requires Mirrors(row, p) && p.CompactionPart?
    ensures FromDoc(row) == Stored(p)
  {
    CompactionReadsA(row, p);
    CompactionReadsB(row, p);
    CompactionReadsC(row, p);
    CompactionFromCells(row, p);
  }

  lemma CompactionFromCells(row: Row, p: MessagePart)
    requires p.CompactionPart? && KindOf(row) == CompactionRow
    requires StrOr(row, IdCol, "") == p.id && StrOr(row, CompactionIdCol, StripPrefix(p.id, "cmp-")) == p.compactionId
    requires CompactionStatusCol in row && row[CompactionStatusCol] == CycleCell(p.status)
    requires GetStr(row, TriggerCol) == p.trigger
    requires GetNum(row, TokensBeforeCol) == p.tokensBefore && GetNum(row, TokensAfterCol) == p.tokensAfter
    requires GetStr(row, CompactionErrorCol) == p.error && GetStr(row, SummaryCol) == p.summary
    requires GetNum(row, SummaryBytesCol) == p.summaryBytes && FlagOr(row, SummaryInJournalCol, false) == p.summaryInJournal
    ensures FromDoc(row) == Stored(p)
  {
  }

  lemma CompactionReadsA(row: Row, p: MessagePart)
    requires Mirrors(row, p) && p.CompactionPart?
    ensures KindOf(row) == CompactionRow
    ensures StrOr(row, IdCol, "") == p.id && StrOr(row, CompactionIdCol, StripPrefix(p.id, "cmp-")) == p.compactionId
    ensures CompactionStatusCol in row && row[CompactionStatusCol] == CycleCell(p.status)
    ensures GetStr(row, TriggerCol) == p.trigger
  {
    StrReads(row, p, IdCol, Some(p.id));
    CellReads(row, p, KindCol, Some(KindCell(CompactionRow)));
    StrReads(row, p, CompactionIdCol, Some(p.compactionId));
    CellReads(row, p, CompactionStatusCol, Some(CycleCell(p.status)));
    StrReads(row, p, TriggerCol, p.trigger);
  }

  lemma CompactionReadsB(row: Row, p: MessagePart)
    requires Mirrors(row, p) && p.CompactionPart?
    ensures GetNum(row, TokensBeforeCol) == p.tokensBefore && GetNum(row, TokensAfterCol) == p.tokensAfter
    ensures GetStr(row, CompactionErrorCol) == p.error
  {
    NumReads(row, p, TokensBeforeCol, p.tokensBefore);
    NumReads(row, p, TokensAfterCol, p.tokensAfter);
    StrReads(row, p, CompactionErrorCol, p.error);
  }

  lemma CompactionReadsC(row: Row, p: MessagePart)
    requires Mirrors(row, p) && p.CompactionPart?
    ensures GetStr(row, SummaryCol) == p.summary
    ensures GetNum(row, SummaryBytesCol) == p.summaryBytes && FlagOr(row, SummaryInJournalCol, false) == p.summaryInJournal
  {
    StrReads(row, p, SummaryCol, p.summary);
    NumReads(row, p, SummaryBytesCol, p.summaryBytes);
    CellReads(row, p, SummaryInJournalCol, if p.summaryInJournal then Some(Flag(true)) else None);
  }

  /** A row that holds a part reads as the part's stored form, with the row's own answers and decision. */
  lemma MirrorReads(row: Row, p: MessagePart)
    requires Mirrors(row, p)
    ensures FromDoc(row) == AnsweredBy(Stored(p), row)
  {
    match p {
      case ToolPart(_, _, _, _, _, _, _, _, _, _, _, _, _, _, _) => ToolReads(row, p);
      case InputPart(_, _, _, _, _, _) => InputReads(row, p);
      case PermissionPart(_, _, _, _, _, _, _, _, _, _, _, _) => PermissionReads(row, p);
      case CompactionPart(_, _, _, _, _, _, _, _, _, _) => CompactionReads(row, p);
      case TextPart(_, _) => TextReads(row, p);
      case SwitchPart(_, _, _, _, _) => SwitchReads(row, p);
      case ErrorPart(_, _, _, _, _) => ErrorReads(row, p);
    }
  }

  /** Writing a part and reading it back gives its stored form, and the part itself exactly when the
      document can hold it. */
  lemma PushedReadsBack(p: MessagePart)
    ensures FromDoc(Pushed(p)) == Stored(p)
    ensures FromDoc(Pushed(p)) == p <==> Storable(p)
  {
    PushedMirrors(p);
    MirrorReads(Pushed(p), p);
    StoredIsItself(p);
    if p.InputPart? {
      assert Get(ToDoc(p), ResolvedCol) == ColumnOf(p, ResolvedCol);
    } else if p.PermissionPart? {
      PushedDecision(p);
    }
  }

  lemma StoredIsItself(p: MessagePart)
    ensures Stored(p) == p <==> Storable(p)
  {
  }

  // ── writing a part ─────────────────────────────────────────────────────────

  /** The columns in the order they are written. */
  const WRITTEN_COLUMNS: seq<Column> :=
    [CallCol, IsErrorCol, QuestionsCol, ResolvedCol, MessageCol, OutputCol, DiffCol, OutputRefCol, OutputBytesCol,
     DiffRefCol, DiffStatsCol, SubagentRefCol, SubagentStatusCol, SubagentTailCol, SubagentMsCol, SubagentToolsCol,
     ErrorKindCol, ErrorDetailCol, ErrorRetryableCol, RequestIdCol, DecisionCol, ToolCallIdCol, DecidedByCol, DecidedAtCol,
     SourceCol, CompactionIdCol, CompactionStatusCol, TriggerCol, TokensBeforeCol, TokensAfterCol, CompactionErrorCol,
     SummaryCol, SummaryBytesCol, SummaryInJournalCol]

  predicate Plain(c: Column) {
    !c.IdCol? && !c.KindCol? && !c.TextCol? && !c.ResponsesCol?
  }

  lemma PlainColumnsAreWritten(c: Column)
    requires Plain(c)
    ensures c in WRITTEN_COLUMNS
  {
    match c {
      case CallCol => assert WRITTEN_COLUMNS[0] == c;
      case IsErrorCol => assert WRITTEN_COLUMNS[1] == c;
      case QuestionsCol => assert WRITTEN_COLUMNS[2] == c;
      case ResolvedCol => assert WRITTEN_COLUMNS[3] == c;
      case MessageCol => assert WRITTEN_COLUMNS[4] == c;
      case OutputCol => assert WRITTEN_COLUMNS[5] == c;
      case DiffCol => assert WRITTEN_COLUMNS[6] == c;
      case OutputRefCol => assert WRITTEN_COLUMNS[7] == c;
      case OutputBytesCol => assert WRITTEN_COLUMNS[8] == c;
      case DiffRefCol => assert WRITTEN_COLUMNS[9] == c;
      case DiffStatsCol => assert WRITTEN_COLUMNS[10] == c;
      case SubagentRefCol => assert WRITTEN_COLUMNS[11] == c;
      case SubagentStatusCol => assert WRITTEN_COLUMNS[12] == c;
      case SubagentTailCol => assert WRITTEN_COLUMNS[13] == c;
      case SubagentMsCol => assert WRITTEN_COLUMNS[14] == c;
      case SubagentToolsCol => assert WRITTEN_COLUMNS[15] == c;
      case ErrorKindCol => assert WRITTEN_COLUMNS[16] == c;
      case ErrorDetailCol => assert WRITTEN_COLUMNS[17] == c;
      case ErrorRetryableCol => assert WRITTEN_COLUMNS[18] == c;
      case RequestIdCol => assert WRITTEN_COLUMNS[19] == c;
      case DecisionCol => assert WRITTEN_COLUMNS[20] == c;
      case ToolCallIdCol => assert WRITTEN_COLUMNS[21] == c;
      case DecidedByCol => assert WRITTEN_COLUMNS[22] == c;
      case DecidedAtCol => assert WRITTEN_COLUMNS[23] == c;
      case SourceCol => assert WRITTEN_COLUMNS[24] == c;
      case CompactionIdCol => assert WRITTEN_COLUMNS[25] == c;
      case CompactionStatusCol => assert WRITTEN_COLUMNS[26] == c;
      case TriggerCol => assert WRITTEN_COLUMNS[27] == c;
      case TokensBeforeCol => assert WRITTEN_COLUMNS[28] == c;
      case TokensAfterCol => assert WRITTEN_COLUMNS[29] == c;
      case CompactionErrorCol => assert WRITTEN_COLUMNS[30] == c;
      case SummaryCol => assert WRITTEN_COLUMNS[31] == c;
      case SummaryBytesCol => assert WRITTEN_COLUMNS[32] == c;
      case SummaryInJournalCol => assert WRITTEN_COLUMNS[33] == c;
    }
  }

  lemma OnlyPlainColumnsAreWritten(c: Column)
    requires c in WRITTEN_COLUMNS
    ensures Plain(c)
  {
  }

  /** A row after `update_part_fields`: every column the part has is written, none is removed; id, kind
      and answers stay, and a text is rewritten only where the row already holds one. */
  function Updated(row: Row, p: MessagePart): Row {
    map c: Column | c in row || (Plain(c) && ColumnOf(p, c).Some?) ::
      if (Plain(c) || c.TextCol?) && ColumnOf(p, c).Some? then ColumnOf(p, c).value else row[c]
  }

  /** The cascade of writes that `push_part` and `update_part_fields` share. */
  method WriteColumns(row: Row, doc: Row) returns (written: Row)
    ensures forall c: Column :: Get(written, c) == if Plain(c) && c in doc then Some(doc[c]) else Get(row, c)
  {
    written := row;
    for i := 0 to |WRITTEN_COLUMNS|
      invariant forall c: Column ::
                  Get(written, c) == if c in WRITTEN_COLUMNS[..i] && c in doc then Some(doc[c]) else Get(row, c)
    {
      var c := WRITTEN_COLUMNS[i];
      if c in doc {
        written := written[c := doc[c]];
      }
      assert WRITTEN_COLUMNS[..i + 1] == WRITTEN_COLUMNS[..i] + [c];
    }
    assert WRITTEN_COLUMNS[..|WRITTEN_COLUMNS|] == WRITTEN_COLUMNS;
    forall c: Column | c in doc ensures c in WRITTEN_COLUMNS <==> Plain(c) {
      if Plain(c) {
        PlainColumnsAreWritten(c);
      } else if c in WRITTEN_COLUMNS {
        OnlyPlainColumnsAreWritten(c);
      }
    }
  }

  /** `push_part`, up to the append. */
  method PushPart(p: MessagePart) returns (row: Row)
    ensures row == Pushed(p)
  {
    ToDocShape(p);
    row := PushRow(ToDoc(p));
  }

  lemma ToDocShape(p: MessagePart)
    ensures var doc := ToDoc(p);
            && IdCol in doc && KindCol in doc && (doc[KindCol] == KindCell(InputRow) <==> p.InputPart?)
            && (ResponsesCol in doc ==> p.InputPart? && doc[ResponsesCol] == ResponsesCell(p.responses))
            && (ResponsesCol !in doc && p.InputPart? ==> p.responses == [])
  {
  }

  method PushRow(doc: Row) returns (row: Row)
    requires IdCol in doc && KindCol in doc
    requires ResponsesCol in doc ==> doc[KindCol] == KindCell(InputRow) && doc[ResponsesCol].ResponsesCell?
    ensures row == if doc[KindCol] == KindCell(InputRow) then doc[ResponsesCol := ResponsesCell(ResponsesOf(doc))] else doc
  {
    row := map[IdCol := doc[IdCol], KindCol := doc[KindCol]];
    if TextCol in doc {
      row := row[TextCol := doc[TextCol]];
    }
    row := WriteColumns(row, doc);
    SameBut(row, doc);
    if doc[KindCol] == KindCell(InputRow) {
      row := row[ResponsesCol := ResponsesCell(ResponsesOf(doc))];
    }
  }

  lemma SameBut(row: Row, doc: Row)
    requires forall c: Column :: !c.ResponsesCol? ==> Get(row, c) == Get(doc, c)
    requires ResponsesCol !in row
    ensures row == doc - {ResponsesCol}
  {
    SameRow(row, doc - {ResponsesCol});
  }

  lemma UpdatedCell(row: Row, part: MessagePart, c: Column)
    ensures Get(Updated(row, part), c) ==
            if (Plain(c) || (c.TextCol? && c in row)) && ColumnOf(part, c).Some? then ColumnOf(part, c) else Get(row, c)
  {
  }

  /** `update_part_fields`. */
  method UpdatePartFields(row: Row, p: MessagePart) returns (updated: Row)
    ensures updated == Updated(row, p)
  {
    var doc := ToDoc(p);
    updated := WriteColumns(row, doc);
    if TextCol in doc && TextCol in updated {
      updated := updated[TextCol := doc[TextCol]];
    }
    forall c: Column ensures Get(updated, c) == Get(Updated(row, p), c) {
      assert Get(doc, c) == ColumnOf(p, c);
      UpdatedCell(row, p, c);
    }
    SameRow(updated, Updated(row, p));
  }

  lemma SameRow(a: Row, b: Row)
    requires forall c: Column :: Get(a, c) == Get(b, c)
    ensures a == b
  {
    forall c: Column ensures c in a <==> c in b {
      assert Get(a, c) == Get(b, c);
    }
    forall c: Column | c in a ensures a[c] == b[c] {
      assert Get(a, c) == Get(b, c);
    }
  }
}
