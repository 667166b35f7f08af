/** Folding agent events into a list of message parts (crates/doc/src/parts.rs, lines 398-843). */
module Fold {
  import opened Options
  import opened Text
  import opened Parts

  datatype DoneStatus = Errored | OtherStatus(name: string)

  datatype AgentEvent =
    | SessionStarted
    | Steered
    | TextDelta(text: string)
    | ToolCallEvent(id: string, call: ToolCall)
    | ToolResult(id: string, isError: bool, output: Option<string>, diff: Option<ToolDiff>)
    | InputRequested(requestId: string, questions: Json, source: QuestionSource)
    | InputResolved(requestId: string)
    | ErrorEvent(message: string, kind: ErrorKind, detail: Option<string>, retryable: bool)
    | DoneEvent(status: DoneStatus, error: Option<string>)
    | Subagent(parent: string, event: AgentEvent)
    | PermissionRequested(requestId: string, permissionKind: Json, summaryLine: string, choices: Json, actions: Json,
                          toolCallId: Option<string>, expiresAt: Option<int>)
    | PermissionResolved(requestId: string, choice: PermissionChoice)
    | ContextCompaction(cycle: CompactionFrame)
    | UserMessage
    | Quiet  // reasoning, usage, progress, phases and the like: nothing for the transcript

  datatype CompactionFrame = CompactionFrame(
    id: string, status: CompactionStatus, trigger: Option<string>,
    tokensBefore: Option<nat>, tokensAfter: Option<nat>,
    summary: Option<string>, delta: Option<string>, error: Option<string>)

  datatype SummaryPolicy = JournalOnly | SummaryInDoc

  /** The text rules for tool outputs and the line diff, which are kept abstract. */
  datatype Rules = Rules(summarize: string -> Option<string>, stat: ToolDiff -> ToolDiffStat)

  // ── ids ────────────────────────────────────────────────────────────────────

  function TextId(n: nat): string { "t" + Decimal(n) }

  function ErrorId(n: nat): string { "e" + Decimal(n) }

  function InputId(requestId: string): string { "in-" + requestId }

  function PermissionId(requestId: string): string { "perm-" + requestId }

  function CompactionId(cycle: string): string { "cmp-" + cycle }

  predicate HasId(parts: seq<MessagePart>, id: string) {
    exists i :: 0 <= i < |parts| && parts[i].id == id
  }

  // ── updates in place ───────────────────────────────────────────────────────

  function Each(parts: seq<MessagePart>, f: MessagePart -> MessagePart): (r: seq<MessagePart>)
    ensures |r| == |parts| && forall i :: 0 <= i < |r| ==> r[i] == f(parts[i])
  {
    seq(|parts|, i requires 0 <= i < |parts| => f(parts[i]))
  }

  /** `for p in out.iter_mut()`. */
  method ForEach(parts: seq<MessagePart>, f: MessagePart -> MessagePart) returns (r: seq<MessagePart>)
    ensures r == Each(parts, f)
  {
    r := parts;
    for i := 0 to |parts|
      invariant |r| == |parts|
      invariant forall j :: 0 <= j < i ==> r[j] == f(parts[j])
      invariant forall j :: i <= j < |parts| ==> r[j] == parts[j]
    {
      r := r[i := f(r[i])];
    }
  }

  /** Never downgrade a known call to an unknown one. */
  function Refreshed(existing: ToolCall, call: ToolCall): ToolCall {
    if call.UnknownCall? && !existing.UnknownCall? then existing else call
  }

  function FreshTool(id: string, call: ToolCall): MessagePart {
    ToolPart(id, call, false, false, None, None, None, None, None, None, None, None, None, None, None)
  }

  function FindTool(parts: seq<MessagePart>, id: string): (ix: Option<nat>)
    ensures ix.Some? ==> ix.value < |parts| && parts[ix.value].ToolPart? && parts[ix.value].id == id
    ensures ix.None? ==> forall i :: 0 <= i < |parts| ==> !(parts[i].ToolPart? && parts[i].id == id)
  {
    if parts == [] then None
    else
      var before := FindTool(parts[..|parts| - 1], id);
      if before.Some? then before
      else if parts[|parts| - 1].ToolPart? && parts[|parts| - 1].id == id then Some(|parts| - 1)
      else None
  }

  function Resulted(p: MessagePart, ev: AgentEvent, rules: Rules): MessagePart
    requires ev.ToolResult?
  {
    if p.ToolPart? && p.id == ev.id then
      p.(isError := ev.isError, resolved := true,
         output := if ev.isError && ev.output.Some? then rules.summarize(ev.output.value) else None,
         outputBytes := None, diff := None,
         diffStats := if ev.diff.Some? then Some([rules.stat(ev.diff.value)]) else None)
    else p
  }

  function Answered(p: MessagePart, requestId: string): MessagePart {
    match p
    case InputPart(id, rid, questions, resolved, responses, source) =>
      if rid == requestId then InputPart(id, rid, questions, true, responses, source) else p
    case _ => p
  }

  /** What an event inside a subagent says about the chip that spawned it. */
  function ChipStatus(ev: AgentEvent): Option<SubagentStatus> {
    match ev
    case DoneEvent(status, _) => Some(if status.Errored? then Failed else Done)
    case UserMessage => Some(Running)
    case _ => None
  }

  function Tracked(p: MessagePart, parent: string, ev: AgentEvent): MessagePart {
    if p.ToolPart? && p.id == parent && p.call.IsSubagentSpawn() then
      var status := ChipStatus(ev);
      if status.Some? then p.(subagentStatus := status)
      else if p.subagentStatus == Some(Done) || p.subagentStatus == Some(Failed) then p
      else p.(subagentStatus := Some(Running))
    else p
  }

  /** Deny wins over a decision made before or after it. */
  function Decided(p: MessagePart, requestId: string, choice: PermissionChoice): MessagePart {
    match p
    case PermissionPart(id, rid, kind, summaryLine, choices, actions, resolved, decision, tool, device, at, expires) =>
      if rid != requestId || (resolved && decision == Some(Deny)) then p
      else if choice == Deny || !resolved then
        PermissionPart(id, rid, kind, summaryLine, choices, actions, true, Some(choice), tool, device, at, expires)
      else p
    case _ => p
  }

  // ── compaction cycles ──────────────────────────────────────────────────────

  const SUMMARY_MAX_BYTES: nat := 8192

  /** How many characters of `text` fit into `budget` bytes. */
  function Fitting(text: string, budget: nat): (k: nat)
    ensures k <= |text|
  {
    if text == [] || Width(text[0]) > budget then 0 else 1 + Fitting(text[1..], budget - Width(text[0]))
  }

  /** `cap_summary`: the longest prefix of whole characters within the budget. */
  function CapSummary(text: string): string {
    text[..Fitting(text, SUMMARY_MAX_BYTES)]
  }

  predicate Settled(status: CompactionStatus) {
    !status.InProgress?
  }

  function FreshCycle(frame: CompactionFrame): MessagePart {
    CompactionPart(CompactionId(frame.id), frame.id, frame.status, None, None, None, None, None, None, false)
  }

  function Or<T>(a: Option<T>, b: Option<T>): Option<T> {
    if a.Some? then a else b
  }

  function BytesAfter(bytes: Option<nat>, frame: CompactionFrame): Option<nat> {
    var full := if frame.summary.Some? then Some(ByteLen(frame.summary.value)) else bytes;
    if frame.delta.Some? then Some((if full.Some? then full.value else 0) + ByteLen(frame.delta.value)) else full
  }

  function SummaryAfter(summary: Option<string>, frame: CompactionFrame, policy: SummaryPolicy): Option<string> {
    if policy == JournalOnly then summary
    else
      var full := if frame.summary.Some? then Some(CapSummary(frame.summary.value)) else summary;
      if frame.delta.Some? then Some(CapSummary((if full.Some? then full.value else "") + frame.delta.value)) else full
  }

  /** One frame of a cycle, folded into the cycle's part. */
  function CycleAfter(p: MessagePart, frame: CompactionFrame, policy: SummaryPolicy): MessagePart
    requires p.CompactionPart?
  {
    var bytes := BytesAfter(p.summaryBytes, frame);
    p.(status := if Settled(p.status) && frame.status.InProgress? then p.status else frame.status,
       trigger := Or(frame.trigger, p.trigger),
       tokensBefore := Or(frame.tokensBefore, p.tokensBefore),
       tokensAfter := Or(frame.tokensAfter, p.tokensAfter),
       error := Or(frame.error, p.error),
       summaryBytes := bytes,
       summary := SummaryAfter(p.summary, frame, policy),
       summaryInJournal := bytes.Some? && bytes.value > 0)
  }

  /** The first part with the id. */
  function FindPart(parts: seq<MessagePart>, id: string): (ix: Option<nat>)
    ensures ix.Some? ==> ix.value < |parts| && parts[ix.value].id == id
    ensures ix.Some? ==> forall i :: 0 <= i < ix.value ==> parts[i].id != id
    ensures ix.None? ==> !HasId(parts, id)
  {
    if parts == [] then None
    else
      var before := FindPart(parts[..|parts| - 1], id);
      if before.Some? then before
      else if parts[|parts| - 1].id == id then Some(|parts| - 1)
      else None
  }

  function FoldCompaction(parts: seq<MessagePart>, frame: CompactionFrame, policy: SummaryPolicy): seq<MessagePart> {
    var out := if HasId(parts, CompactionId(frame.id)) then parts else parts + [FreshCycle(frame)];
    var ix := FindPart(out, CompactionId(frame.id));
    if ix.Some? && out[ix.value].CompactionPart? then out[ix.value := CycleAfter(out[ix.value], frame, policy)] else out
  }

  // ── the fold ───────────────────────────────────────────────────────────────

  predicate Resets(ev: AgentEvent) {
    ev.SessionStarted? || ev.Steered?
  }

  function FoldText(out: seq<MessagePart>, text: string): seq<MessagePart> {
    if out != [] && out[|out| - 1].TextPart?
    then out[|out| - 1 := out[|out| - 1].(text := out[|out| - 1].text + text)]
    else out + [TextPart(TextId(|out|), text)]
  }

  function FoldCall(out: seq<MessagePart>, id: string, call: ToolCall): seq<MessagePart> {
    var ix := FindTool(out, id);
    if ix.Some? then out[ix.value := out[ix.value].(call := Refreshed(out[ix.value].call, call))]
    else out + [FreshTool(id, call)]
  }

  function FoldDone(out: seq<MessagePart>, error: Option<string>): seq<MessagePart> {
    if error.None? then out
    else if out != [] && out[|out| - 1].ErrorPart? && out[|out| - 1].message == error.value then out
    else out + [ErrorPart(ErrorId(|out|), error.value, UnknownKind, None, false)]
  }

  /** `fold_event_into_parts_with`. */
  function FoldEvent(out: seq<MessagePart>, ev: AgentEvent, policy: SummaryPolicy, rules: Rules): seq<MessagePart> {
    match ev
    case SessionStarted => []
    case Steered => []
    case TextDelta(text) => FoldText(out, text)
    case ToolCallEvent(id, call) => FoldCall(out, id, call)
    case ToolResult(_, _, _, _) => Each(out, p => Resulted(p, ev, rules))
    case InputRequested(requestId, questions, source) =>
      if HasId(out, InputId(requestId)) then out
      else out + [InputPart(InputId(requestId), requestId, questions, false, [], source)]
    case InputResolved(requestId) => Each(out, p => Answered(p, requestId))
    case ErrorEvent(message, kind, detail, retryable) =>
      out + [ErrorPart(ErrorId(|out|), message, kind, detail, retryable)]
    case DoneEvent(_, error) => FoldDone(out, error)
    case Subagent(parent, event) => Each(out, p => Tracked(p, parent, event))
    case PermissionRequested(requestId, kind, summaryLine, choices, actions, toolCallId, expiresAt) =>
      if HasId(out, PermissionId(requestId)) then out
      else out + [PermissionPart(PermissionId(requestId), requestId, kind, summaryLine, choices, actions,
                                 false, None, toolCallId, None, None, expiresAt)]
    case PermissionResolved(requestId, choice) => Each(out, p => Decided(p, requestId, choice))
    case ContextCompaction(frame) => FoldCompaction(out, frame, policy)
    case UserMessage => out
    case Quiet => out
  }

  /** The accumulator of a run, folded in place. */
  class Accumulator {
    var out: seq<MessagePart>

    constructor ()
      ensures out == []
    {
      out := [];
    }

    method Fold(ev: AgentEvent, policy: SummaryPolicy, rules: Rules)
      modifies this
      ensures out == FoldEvent(old(out), ev, policy, rules)
    {
      match ev {
        case SessionStarted => out := [];
        case Steered => out := [];
        case TextDelta(text) =>
          if out != [] && out[|out| - 1].TextPart? {
            var tail := out[|out| - 1];
            out := out[|out| - 1 := tail.(text := tail.text + text)];
          } else {
            out := out + [TextPart(TextId(|out|), text)];
          }
        case ToolCallEvent(id, call) =>
          var ix := FindTool(out, id);
          if ix.Some? {
            var existing := out[ix.value];
            if !(call.UnknownCall? && !existing.call.UnknownCall?) {
              existing := existing.(call := call);
            }
            out := out[ix.value := existing];
          } else {
            out := out + [FreshTool(id, call)];
          }
        case ToolResult(_, _, _, _) =>
          out := ForEach(out, p => Resulted(p, ev, rules));
        case InputRequested(requestId, questions, source) =>
          if !HasId(out, InputId(requestId)) {
            out := out + [InputPart(InputId(requestId), requestId, questions, false, [], source)];
          }
        case InputResolved(requestId) =>
          out := ForEach(out, p => Answered(p, requestId));
        case ErrorEvent(message, kind, detail, retryable) =>
          out := out + [ErrorPart(ErrorId(|out|), message, kind, detail, retryable)];
        case DoneEvent(_, error) =>
          if error.Some? {
            var dup := out != [] && out[|out| - 1].ErrorPart? && out[|out| - 1].message == error.value;
            if !dup {
              out := out + [ErrorPart(ErrorId(|out|), error.value, UnknownKind, None, false)];
            }
          }
        case Subagent(parent, event) =>
          out := ForEach(out, p => Tracked(p, parent, event));
        case PermissionRequested(requestId, kind, summaryLine, choices, actions, toolCallId, expiresAt) =>
          if !HasId(out, PermissionId(requestId)) {
            out := out + [PermissionPart(PermissionId(requestId), requestId, kind, summaryLine, choices, actions,
                                         false, None, toolCallId, None, None, expiresAt)];
          }
        case PermissionResolved(requestId, choice) =>
          out := ForEach(out, p => Decided(p, requestId, choice));
        case ContextCompaction(frame) => FoldCycle(frame, policy);
        case UserMessage =>
        case Quiet =>
      }
    }

    /** `fold_compaction`: one part per cycle, refined in place field by field. */
    method FoldCycle(frame: CompactionFrame, policy: SummaryPolicy)
      modifies this
      ensures out == FoldCompaction(old(out), frame, policy)
    {
      var id := CompactionId(frame.id);
      if !HasId(out, id) {
        out := out + [FreshCycle(frame)];
      }
      var ix := FindPart(out, id);
      if ix.None? || !out[ix.value].CompactionPart? {
        return;
      }
      var here := RefineCycle(out[ix.value], frame, policy);
      out := out[ix.value := here];
    }
  }

  method RefineCycle(p: MessagePart, frame: CompactionFrame, policy: SummaryPolicy) returns (here: MessagePart)
    requires p.CompactionPart?
    ensures here == CycleAfter(p, frame, policy)
  {
    var status := p.status;
    if !Settled(status) || !frame.status.InProgress? {
      status := frame.status;
    }
    var trigger := p.trigger;
    if frame.trigger.Some? {
      trigger := frame.trigger;
    }
    var before := p.tokensBefore;
    if frame.tokensBefore.Some? {
      before := frame.tokensBefore;
    }
    var after := p.tokensAfter;
    if frame.tokensAfter.Some? {
      after := frame.tokensAfter;
    }
    var error := p.error;
    if frame.error.Some? {
      error := frame.error;
    }
    var bytes := CountSummary(p.summaryBytes, frame);
    var summary := ExtendSummary(p.summary, frame, policy);
    here := CompactionPart(p.id, p.compactionId, status, trigger, before, after, error, summary, bytes,
                           bytes.Some? && bytes.value > 0);
  }

  method CountSummary(summaryBytes: Option<nat>, frame: CompactionFrame) returns (bytes: Option<nat>)
    ensures bytes == BytesAfter(summaryBytes, frame)
  {
    bytes := summaryBytes;
    if frame.summary.Some? {
      bytes := Some(ByteLen(frame.summary.value));
    }
    if frame.delta.Some? {
      bytes := Some((if bytes.Some? then bytes.value else 0) + ByteLen(frame.delta.value));
    }
  }

  method ExtendSummary(summary: Option<string>, frame: CompactionFrame, policy: SummaryPolicy)
    returns (text: Option<string>)
    ensures text == SummaryAfter(summary, frame, policy)
  {
    text := summary;
    if policy == SummaryInDoc {
      if frame.summary.Some? {
        var capped := Cap(frame.summary.value);
        text := Some(capped);
      }
      if frame.delta.Some? {
        var accumulated := (if text.Some? then text.value else "") + frame.delta.value;
        var capped := Cap(accumulated);
        text := Some(capped);
      }
    }
  }

  // ── the cap ────────────────────────────────────────────────────────────────

  /** `is_char_boundary`, for the prefix of `k` characters. */
  lemma {:induction false} FittingIsLongest(text: string, budget: nat)
    ensures var k := Fitting(text, budget);
            ByteLen(text[..k]) <= budget && (k < |text| ==> ByteLen(text[..k + 1]) > budget)
    ensures ByteLen(text) <= budget <==> Fitting(text, budget) == |text|
  {
    if text == [] {
    } else if Width(text[0]) > budget {
      assert text[..1] == [text[0]] && [text[0]][1..] == [];
      assert ByteLen([text[0]]) == Width(text[0]) + ByteLen([]);
    } else {
      var k := Fitting(text, budget);
      FittingIsLongest(text[1..], budget - Width(text[0]));
      assert text[..k][1..] == text[1..][..k - 1];
      if k < |text| {
        assert text[..k + 1][1..] == text[1..][..k];
      }
    }
  }

  /** `cap_summary` as the source computes it: step back from the byte budget to a character boundary. */
  method Cap(text: string) returns (capped: string)
    ensures capped == CapSummary(text)
  {
    FittingIsLongest(text, SUMMARY_MAX_BYTES);
    if ByteLen(text) <= SUMMARY_MAX_BYTES {
      assert text[..|text|] == text;
      return text;
    }
    var end := SUMMARY_MAX_BYTES;
    while end > 0 && CharsAt(text, end).None?
      invariant end <= SUMMARY_MAX_BYTES
      invariant ByteLen(CapSummary(text)) <= end
    {
      CharsAtPrefix(text, Fitting(text, SUMMARY_MAX_BYTES));
      end := end - 1;
    }
    CharsAtPrefix(text, 0);
    assert text[..0] == [];
    var k := CharsAt(text, end).value;
    LongestIsUnique(text, k, Fitting(text, SUMMARY_MAX_BYTES), end, SUMMARY_MAX_BYTES);
    capped := text[..k];
  }

  /** The number of characters that end at byte offset `n`, if a character ends there. */
  function CharsAt(text: string, n: nat): (k: Option<nat>)
    ensures k.Some? ==> k.value <= |text|
  {
    if n == 0 then Some(0)
    else if text == [] || Width(text[0]) > n then None
    else
      var rest := CharsAt(text[1..], n - Width(text[0]));
      if rest.Some? then Some(rest.value + 1) else None
  }

  lemma {:induction false} CharsAtPrefix(text: string, k: nat)
    requires k <= |text|
    ensures CharsAt(text, ByteLen(text[..k])) == Some(k)
  {
    if k > 0 {
      assert text[..k][1..] == text[1..][..k - 1];
      CharsAtPrefix(text[1..], k - 1);
    } else {
      assert text[..0] == [];
    }
  }

  lemma {:induction false} CharsAtMeans(text: string, n: nat)
    requires CharsAt(text, n).Some?
    ensures ByteLen(text[..CharsAt(text, n).value]) == n
  {
    if n > 0 {
      CharsAtMeans(text[1..], n - Width(text[0]));
      var k := CharsAt(text, n).value;
      assert text[..k][1..] == text[1..][..k - 1];
    } else {
      assert text[..0] == [];
    }
  }

  /** A boundary between the longest fitting prefix and the budget is that prefix's own. */
  lemma LongestIsUnique(text: string, k: nat, longest: nat, end: nat, budget: nat)
    requires longest == Fitting(text, budget) && CharsAt(text, end) == Some(k)
    requires ByteLen(text[..longest]) <= end <= budget
    ensures k == longest
  {
    CharsAtMeans(text, end);
    FittingIsLongest(text, budget);
    if k < longest {
      LongerIsMore(text, k, longest);
    } else if k > longest {
      LongerIsMore(text, longest, k);
      if longest + 1 < k {
        LongerIsMore(text, longest + 1, k);
      }
    }
  }

  lemma LongerIsMore(text: string, i: nat, j: nat)
    requires i < j <= |text|
    ensures ByteLen(text[..i]) < ByteLen(text[..j])
  {
    assert text[..j] == text[..i] + text[i..j];
    ByteLenConcat(text[..i], text[i..j]);
  }
}
