/** Where the parts of a folded list come from, and what ends a question (crates/doc/src/parts.rs,
    lines 424-605 and 649-700). */
module FoldOrigins {
  import opened Options
  import opened Parts
  import opened Fold
  import opened FoldLaws

  // ── what announces a part ──────────────────────────────────────────────────

  /** The part says what the event said, and nothing has happened to it yet. */
  predicate Announces(ev: AgentEvent, p: MessagePart) {
    match p
    case TextPart(_, text) => ev == TextDelta(text)
    case ToolPart(id, call, isError, resolved, output, diff, outputRef, bytes, diffRef, stats, ref, status, tail, ms,
                  tools) =>
      && ev == ToolCallEvent(id, call) && !isError && !resolved
      && output.None? && diff.None? && outputRef.None? && bytes.None? && diffRef.None? && stats.None?
      && ref.None? && status.None? && tail.None? && ms.None? && tools.None?
    case InputPart(_, request, questions, resolved, responses, source) =>
      ev == InputRequested(request, questions, source) && !resolved && responses == []
    case SwitchPart(_, _, _, _, _) => false
    case ErrorPart(_, _, _, _, _) => Raises(ev, p)
    case PermissionPart(_, request, kind, line, choices, actions, resolved, decision, tool, device, at, expires) =>
      && ev == PermissionRequested(request, kind, line, choices, actions, tool, expires)
      && !resolved && decision.None? && device.None? && at.None?
    case CompactionPart(_, cycle, _, _, _, _, _, _, _, _) => ev.ContextCompaction? && ev.cycle.id == cycle
  }

  /** An error says what it is; the end of a run brings a message alone. */
  predicate Raises(ev: AgentEvent, p: MessagePart)
    requires p.ErrorPart?
  {
    if ev.DoneEvent? then ev.error == Some(p.message) && p.kind == UnknownKind && p.detail.None? && !p.retryable
    else ev == ErrorEvent(p.message, p.kind, p.detail, p.retryable)
  }

  /** Event `n` of the run added the part in slot `i`. */
  ghost predicate BornAt(events: seq<AgentEvent>, n: nat, i: nat, policy: SummaryPolicy, rules: Rules) {
    && n < |events|
    && var before, after := FoldRun([], events[..n], policy, rules), FoldRun([], events[..n + 1], policy, rules);
       |before| == i < |after| && Announces(events[n], after[i])
  }

  /** The part in slot `i` was announced, and is what has become of it. */
  ghost predicate Announced(events: seq<AgentEvent>, i: nat, p: MessagePart, policy: SummaryPolicy, rules: Rules) {
    exists n: nat ::
      BornAt(events, n, i, policy, rules) && Evolves(FoldRun([], events[..n + 1], policy, rules)[i], p)
  }

  lemma NewPartIsAnnounced(out: seq<MessagePart>, ev: AgentEvent, policy: SummaryPolicy, rules: Rules)
    requires !Resets(ev)
    ensures var next := FoldEvent(out, ev, policy, rules);
            |next| <= |out| + 1 && (|next| > |out| ==> Announces(ev, next[|out|]))
  {
  }

  lemma EvolvesFromItself(p: MessagePart)
    ensures Evolves(p, p)
  {
  }

  lemma StillAnnounced(events: seq<AgentEvent>, i: nat, p: MessagePart, q: MessagePart, policy: SummaryPolicy, rules: Rules)
    requires events != [] && Announced(events[..|events| - 1], i, p, policy, rules) && Evolves(p, q)
    ensures Announced(events, i, q, policy, rules)
  {
    var init := events[..|events| - 1];
    var n: nat :| BornAt(init, n, i, policy, rules) && Evolves(FoldRun([], init[..n + 1], policy, rules)[i], p);
    assert init[..n] == events[..n] && init[..n + 1] == events[..n + 1];
    EvolvesOn(FoldRun([], events[..n + 1], policy, rules)[i], p, q);
    assert BornAt(events, n, i, policy, rules);
  }

  /** After every run since the last reset, each part says what the event that added it said: questions, choices and
      messages are never mixed up, dropped or rewritten, and what starts without a result or an answer gets it later. */
  lemma {:induction false} PartsAreAnnounced(events: seq<AgentEvent>, i: nat, policy: SummaryPolicy, rules: Rules)
    requires ResetFree(events) && i < |FoldRun([], events, policy, rules)|
    ensures Announced(events, i, FoldRun([], events, policy, rules)[i], policy, rules)
  {
    var n := |events| - 1;
    var before, after := FoldRun([], events[..n], policy, rules), FoldRun([], events, policy, rules);
    if i < |before| {
      PartsAreAnnounced(events[..n], i, policy, rules);
      EventGrows(before, events[n], policy, rules);
      StillAnnounced(events, i, before[i], after[i], policy, rules);
    } else {
      NewPartIsAnnounced(before, events[n], policy, rules);
      EvolvesFromItself(after[i]);
      assert events[..n + 1] == events && BornAt(events, n, i, policy, rules);
    }
  }

  /** A delta always ends the list as a text, be it empty, and touches nothing before it. */
  lemma DeltaEndsTheList(out: seq<MessagePart>, text: string, policy: SummaryPolicy, rules: Rules)
    ensures var next := FoldEvent(out, TextDelta(text), policy, rules);
            && next != [] && next[|next| - 1].TextPart?
            && if out != [] && out[|out| - 1].TextPart? then
                 next == out[..|out| - 1] + [TextPart(out[|out| - 1].id, out[|out| - 1].text + text)]
               else next[..|next| - 1] == out && next[|out|].text == text
  {
  }

  // ── errors ─────────────────────────────────────────────────────────────────

  /** The messages of the error parts, in order. */
  function Messages(parts: seq<MessagePart>): seq<string> {
    if parts == [] then []
    else
      var n := |parts| - 1;
      Messages(parts[..n]) + if parts[n].ErrorPart? then [parts[n].message] else []
  }

  predicate EndsWith(parts: seq<MessagePart>, message: string) {
    parts != [] && parts[|parts| - 1].ErrorPart? && parts[|parts| - 1].message == message
  }

  /** What an event reports, after `out`: an end that only repeats the error right before it reports nothing. */
  function Report(out: seq<MessagePart>, ev: AgentEvent): seq<string> {
    if ev.ErrorEvent? then [ev.message]
    else if ev.DoneEvent? && ev.error.Some? && !EndsWith(out, ev.error.value) then [ev.error.value]
    else []
  }

  function Reported(events: seq<AgentEvent>, policy: SummaryPolicy, rules: Rules): seq<string> {
    if events == [] then []
    else
      var n := |events| - 1;
      Reported(events[..n], policy, rules) + Report(FoldRun([], events[..n], policy, rules), events[n])
  }

  lemma {:induction false} SameMessages(a: seq<MessagePart>, b: seq<MessagePart>)
    requires |a| == |b|
    requires forall i :: 0 <= i < |a| ==> a[i].ErrorPart? == b[i].ErrorPart? && (a[i].ErrorPart? ==> a[i] == b[i])
    ensures Messages(a) == Messages(b)
  {
    if a != [] {
      SameMessages(a[..|a| - 1], b[..|a| - 1]);
    }
  }

  lemma ErrorStep(out: seq<MessagePart>, ev: AgentEvent, policy: SummaryPolicy, rules: Rules)
    requires !Resets(ev)
    ensures Messages(FoldEvent(out, ev, policy, rules)) == Messages(out) + Report(out, ev)
  {
    var next := FoldEvent(out, ev, policy, rules);
    EventGrows(out, ev, policy, rules);
    NewPartIsAnnounced(out, ev, policy, rules);
    forall i | 0 <= i < |out| ensures out[i].ErrorPart? == next[i].ErrorPart? && (out[i].ErrorPart? ==> out[i] == next[i]) {
      assert Evolves(out[i], next[i]);
    }
    SameMessages(out, next[..|out|]);
    if |next| == |out| {
      assert next[..|out|] == next;
    }
  }

  /** No error is lost, and an end that only repeats the error before it adds none. */
  lemma {:induction false} ErrorsAreShown(events: seq<AgentEvent>, policy: SummaryPolicy, rules: Rules)
    requires ResetFree(events)
    ensures Messages(FoldRun([], events, policy, rules)) == Reported(events, policy, rules)
  {
    if events != [] {
      var n := |events| - 1;
      ErrorsAreShown(events[..n], policy, rules);
      ErrorStep(FoldRun([], events[..n], policy, rules), events[n], policy, rules);
    }
  }

  // ── the end of a question ──────────────────────────────────────────────────

  function Resolved(p: MessagePart, resolved: bool): MessagePart
    requires p.InputPart?
  {
    InputPart(p.id, p.requestId, p.questions, resolved, p.responses, p.source)
  }

  lemma QuestionStep(out: seq<MessagePart>, i: nat, ev: AgentEvent, policy: SummaryPolicy, rules: Rules)
    requires i < |out| && out[i].InputPart? && !Resets(ev)
    ensures var next, ends := FoldEvent(out, ev, policy, rules), ev == InputResolved(out[i].requestId);
            i < |next| && next[i] == Resolved(out[i], out[i].resolved || ends)
  {
  }

  /** After every run a question is resolved exactly if its resolution came, and is otherwise as it was asked. */
  lemma {:induction false} QuestionsEnd(out: seq<MessagePart>, i: nat, events: seq<AgentEvent>, policy: SummaryPolicy,
                                        rules: Rules)
    requires i < |out| && out[i].InputPart? && !out[i].resolved && ResetFree(events)
    ensures var after := FoldRun(out, events, policy, rules);
            i < |after| && after[i] == Resolved(out[i], InputResolved(out[i].requestId) in events)
  {
    if events != [] {
      var n := |events| - 1;
      QuestionsEnd(out, i, events[..n], policy, rules);
      QuestionStep(FoldRun(out, events[..n], policy, rules), i, events[n], policy, rules);
      assert events == events[..n] + [events[n]];
    }
  }
}
