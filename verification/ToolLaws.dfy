/** What a tool part shows after a run: its last result, and the last word on its subagent
    (crates/doc/src/parts.rs, lines 446-526 and 606-648). */
module ToolLaws {
  import opened Options
  import opened Parts
  import opened Fold
  import opened FoldLaws

  // ── one event ──────────────────────────────────────────────────────────────

  lemma {:induction false} FoundTool(parts: seq<MessagePart>, i: nat)
    requires i < |parts| && parts[i].ToolPart? && OneEach(parts)
    ensures FindTool(parts, parts[i].id) == Some(i)
  {
    var ix := FindTool(parts, parts[i].id).value;
    assert SameThing(parts[ix], parts[i]);
  }

  /** What one event makes of the tool part in slot `i`. */
  function ToolAfter(p: MessagePart, ev: AgentEvent, rules: Rules): MessagePart
    requires p.ToolPart?
  {
    match ev
    case ToolCallEvent(id, call) => if id == p.id then p.(call := Refreshed(p.call, call)) else p
    case ToolResult(_, _, _, _) => Resulted(p, ev, rules)
    case Subagent(parent, event) => Tracked(p, parent, event)
    case _ => p
  }

  lemma ToolSlot(out: seq<MessagePart>, i: nat, ev: AgentEvent, policy: SummaryPolicy, rules: Rules)
    requires i < |out| && out[i].ToolPart? && OneEach(out) && !Resets(ev)
    ensures var next := FoldEvent(out, ev, policy, rules);
            i < |next| && next[i] == ToolAfter(out[i], ev, rules)
  {
    if ev.ToolCallEvent? && ev.id == out[i].id {
      FoundTool(out, i);
    }
  }

  lemma ToolEvolves(p: MessagePart, ev: AgentEvent, rules: Rules)
    requires p.ToolPart?
    ensures ToolAfter(p, ev, rules).ToolPart? && ToolAfter(p, ev, rules).id == p.id
  {
  }

  // ── results ────────────────────────────────────────────────────────────────

  function ResultsFor(events: seq<AgentEvent>, id: string): seq<AgentEvent> {
    if events == [] then []
    else
      var n := |events| - 1;
      ResultsFor(events[..n], id) + if events[n].ToolResult? && events[n].id == id then [events[n]] else []
  }

  /** The part shows this result: failed or not, a summary of the output only if it failed, statistics
      of the diff, and none of the full texts. */
  predicate ShowsResult(p: MessagePart, ev: AgentEvent, rules: Rules)
    requires ev.ToolResult?
  {
    && p.ToolPart? && p.resolved && p.isError == ev.isError
    && p.output == (if ev.isError && ev.output.Some? then rules.summarize(ev.output.value) else None)
    && p.outputBytes == None && p.diff == None
    && p.diffStats == (if ev.diff.Some? then Some([rules.stat(ev.diff.value)]) else None)
  }

  lemma ResultStep(p: MessagePart, ev: AgentEvent, rules: Rules)
    requires p.ToolPart?
    ensures var q := ToolAfter(p, ev, rules);
            if ev.ToolResult? && ev.id == p.id then ShowsResult(q, ev, rules)
            else q.resolved == p.resolved && q.isError == p.isError && q.output == p.output &&
                 q.outputBytes == p.outputBytes && q.diff == p.diff && q.diffStats == p.diffStats
  {
  }

  /** After every run a tool part is resolved exactly if a result for it arrived, and shows the last. */
  lemma {:induction false} LastResultStands(out: seq<MessagePart>, i: nat, events: seq<AgentEvent>,
                                            policy: SummaryPolicy, rules: Rules)
    requires Shaped(out) && i < |out| && out[i].ToolPart? && !out[i].resolved && ResetFree(events)
    ensures var after := FoldRun(out, events, policy, rules);
            && Shaped(after) && i < |after| && after[i].ToolPart? && after[i].id == out[i].id
            && var results := ResultsFor(events, out[i].id);
               && (after[i].resolved <==> results != [])
               && (forall ev <- results :: ev.ToolResult?)
               && (results != [] ==> ShowsResult(after[i], results[|results| - 1], rules))
  {
    if events != [] {
      var n := |events| - 1;
      var before := FoldRun(out, events[..n], policy, rules);
      LastResultStands(out, i, events[..n], policy, rules);
      EventKeepsShape(before, events[n], policy, rules);
      ToolSlot(before, i, events[n], policy, rules);
      ToolEvolves(before[i], events[n], rules);
      ResultStep(before[i], events[n], rules);
    }
  }

  // ── the call ───────────────────────────────────────────────────────────────

  /** The calls a tool part was created and refreshed with, in order. */
  function CallsFor(call: ToolCall, events: seq<AgentEvent>, id: string): (calls: seq<ToolCall>)
    ensures calls != [] && calls[0] == call
  {
    if events == [] then [call]
    else
      var n := |events| - 1;
      CallsFor(call, events[..n], id) +
      if events[n].ToolCallEvent? && events[n].id == id then [events[n].call] else []
  }

  /** `call` is the last of the known ones, or the last of all while none is known. */
  ghost predicate LastKnown(calls: seq<ToolCall>, call: ToolCall) {
    exists m :: 0 <= m < |calls| && calls[m] == call &&
      if call.UnknownCall? then m == |calls| - 1 && forall j :: 0 <= j < |calls| ==> calls[j].UnknownCall?
      else forall j :: m < j < |calls| ==> calls[j].UnknownCall?
  }

  lemma KnownStep(calls: seq<ToolCall>, before: ToolCall, call: ToolCall)
    requires LastKnown(calls, before)
    ensures LastKnown(calls + [call], if call.UnknownCall? && !before.UnknownCall? then before else call)
  {
    var all := calls + [call];
    var m :| 0 <= m < |calls| && calls[m] == before &&
             if before.UnknownCall? then m == |calls| - 1 && forall j :: 0 <= j < |calls| ==> calls[j].UnknownCall?
             else forall j :: m < j < |calls| ==> calls[j].UnknownCall?;
    assert all[m] == before && all[|calls|] == call;
  }

  lemma RefreshStep(p: MessagePart, ev: AgentEvent, rules: Rules, calls: seq<ToolCall>)
    requires p.ToolPart? && LastKnown(calls, p.call)
    ensures var q := ToolAfter(p, ev, rules);
            q.ToolPart? && LastKnown(calls + if ev.ToolCallEvent? && ev.id == p.id then [ev.call] else [], q.call)
  {
    ToolEvolves(p, ev, rules);
    if ev.ToolCallEvent? && ev.id == p.id {
      KnownStep(calls, p.call, ev.call);
    } else {
      assert calls + [] == calls;
    }
  }

  /** After every run a tool part has the last known call it was given, or the last of all if none was known. */
  lemma {:induction false} LastKnownCallStands(out: seq<MessagePart>, i: nat, events: seq<AgentEvent>,
                                               policy: SummaryPolicy, rules: Rules)
    requires Shaped(out) && i < |out| && out[i].ToolPart? && ResetFree(events)
    ensures var after := FoldRun(out, events, policy, rules);
            && Shaped(after) && i < |after| && after[i].ToolPart? && after[i].id == out[i].id
            && LastKnown(CallsFor(out[i].call, events, out[i].id), after[i].call)
  {
    if events == [] {
      assert CallsFor(out[i].call, events, out[i].id)[0] == out[i].call;
    } else {
      var n := |events| - 1;
      var before := FoldRun(out, events[..n], policy, rules);
      LastKnownCallStands(out, i, events[..n], policy, rules);
      EventKeepsShape(before, events[n], policy, rules);
      ToolSlot(before, i, events[n], policy, rules);
      ToolEvolves(before[i], events[n], rules);
      RefreshStep(before[i], events[n], rules, CallsFor(out[i].call, events[..n], out[i].id));
    }
  }

  /** What counts as a spawn: a call named `Agent`, or `Agent: ` and a description. */
  lemma SpawnsAreNamed(name: string, server: string, input: Option<Json>, typed: Json)
    ensures UnknownCall(name, input).IsSubagentSpawn() <==>
            name == "Agent" || exists about: string :: name == "Agent: " + about
    ensures McpCall(server, name, input).IsSubagentSpawn() <==> UnknownCall(name, input).IsSubagentSpawn()
    ensures !TypedCall(typed).IsSubagentSpawn()
  {
    if "Agent: " <= name {
      assert name == "Agent: " + name[7..];
    }
  }

  // ── subagents ──────────────────────────────────────────────────────────────

  /** The events a part has heard from inside its subagent: those that came while its call was a spawn. */
  ghost function HeardBy(out: seq<MessagePart>, i: nat, events: seq<AgentEvent>, policy: SummaryPolicy, rules: Rules)
    : (heard: seq<AgentEvent>)
    requires i < |out| && out[i].ToolPart?
  {
    if events == [] then []
    else
      var n := |events| - 1;
      var before := FoldRun(out, events[..n], policy, rules);
      HeardBy(out, i, events[..n], policy, rules) +
      if i < |before| && Hears(before[i], events[n]) then [events[n].event] else []
  }

  predicate Hears(p: MessagePart, ev: AgentEvent) {
    p.ToolPart? && p.call.IsSubagentSpawn() && ev.Subagent? && ev.parent == p.id
  }

  /** An inner event that says how the subagent stands: it ends, or its user speaks to it. */
  predicate Speaks(ev: AgentEvent) {
    ev.DoneEvent? || ev.UserMessage?
  }

  ghost predicate LastToSpeak(heard: seq<AgentEvent>, m: nat) {
    m < |heard| && Speaks(heard[m]) && forall j :: m < j < |heard| ==> !Speaks(heard[j])
  }

  /** The last that spoke decides: failed after an end with an error, done after any other end, running after a
      message. If nothing spoke, any traffic shows it running. */
  ghost predicate ShowsLastWord(status: Option<SubagentStatus>, heard: seq<AgentEvent>) {
    && (forall m: nat :: LastToSpeak(heard, m) ==>
          && (status == Some(Failed) <==> heard[m].DoneEvent? && heard[m].status == Errored)
          && (status == Some(Done) <==> heard[m].DoneEvent? && heard[m].status != Errored)
          && (status == Some(Running) <==> heard[m].UserMessage?))
    && ((forall j :: 0 <= j < |heard| ==> !Speaks(heard[j])) ==> status == if heard == [] then None else Some(Running))
  }

  lemma {:induction false} SomeoneSpokeLast(heard: seq<AgentEvent>) returns (m: nat)
    requires exists j :: 0 <= j < |heard| && Speaks(heard[j])
    ensures LastToSpeak(heard, m)
  {
    m := |heard| - 1;
    if !Speaks(heard[m]) {
      var j :| 0 <= j < |heard| && Speaks(heard[j]);
      assert heard[..m][j] == heard[j];
      m := SomeoneSpokeLast(heard[..m]);
    }
  }

  lemma ChipHears(p: MessagePart, ev: AgentEvent, rules: Rules, heard: seq<AgentEvent>)
    requires p.ToolPart? && Hears(p, ev) && ShowsLastWord(p.subagentStatus, heard)
    ensures var q := ToolAfter(p, ev, rules);
            q.ToolPart? && q.id == p.id && ShowsLastWord(q.subagentStatus, heard + [ev.event])
  {
    var all, q := heard + [ev.event], ToolAfter(p, ev, rules);
    assert all[|heard|] == ev.event && forall j :: 0 <= j < |heard| ==> all[j] == heard[j];
    if Speaks(ev.event) {
      assert forall m: nat :: LastToSpeak(all, m) ==> m == |heard|;
    } else if exists j :: 0 <= j < |heard| && Speaks(heard[j]) {
      var m := SomeoneSpokeLast(heard);
      assert q.subagentStatus == p.subagentStatus;
      forall k: nat | LastToSpeak(all, k) ensures k == m && LastToSpeak(heard, k) {
      }
    }
  }

  lemma ChipUnheard(p: MessagePart, ev: AgentEvent, rules: Rules)
    requires p.ToolPart? && !Hears(p, ev)
    ensures var q := ToolAfter(p, ev, rules);
            q.ToolPart? && q.id == p.id && q.subagentStatus == p.subagentStatus
  {
    ToolEvolves(p, ev, rules);
  }

  /** The chip of a tool shows the last word on its subagent, whatever other traffic follows; only what comes in
      while the call is a spawn counts, however often the call is refreshed. */
  lemma {:induction false} ChipShowsLastWord(out: seq<MessagePart>, i: nat, events: seq<AgentEvent>, policy: SummaryPolicy,
                                             rules: Rules)
    requires Shaped(out) && i < |out| && out[i].ToolPart? && out[i].subagentStatus == None && ResetFree(events)
    ensures var after := FoldRun(out, events, policy, rules);
            && Shaped(after) && i < |after| && after[i].ToolPart? && after[i].id == out[i].id
            && ShowsLastWord(after[i].subagentStatus, HeardBy(out, i, events, policy, rules))
  {
    if events != [] {
      var n := |events| - 1;
      var before, heard := FoldRun(out, events[..n], policy, rules), HeardBy(out, i, events[..n], policy, rules);
      ChipShowsLastWord(out, i, events[..n], policy, rules);
      EventKeepsShape(before, events[n], policy, rules);
      ToolSlot(before, i, events[n], policy, rules);
      if Hears(before[i], events[n]) {
        ChipHears(before[i], events[n], rules, heard);
      } else {
        ChipUnheard(before[i], events[n], rules);
        assert heard + [] == heard;
      }
    }
  }
}
