/** What every run of the fold keeps (crates/doc/src/parts.rs, lines 395-733; the writer relies on
    it at crates/doc/src/schema.rs, lines 1652-1653). */
module FoldLaws {
  import opened Options
  import opened Text
  import opened Parts
  import opened Fold

  /** Folding a run, one event after the other. */
  function FoldRun(out: seq<MessagePart>, events: seq<AgentEvent>, policy: SummaryPolicy, rules: Rules): seq<MessagePart> {
    if events == [] then out
    else
      var n := |events| - 1;
      FoldEvent(FoldRun(out, events[..n], policy, rules), events[n], policy, rules)
  }

  ghost predicate ResetFree(events: seq<AgentEvent>) {
    forall ev <- events :: !Resets(ev)
  }

  // ── resets ─────────────────────────────────────────────────────────────────

  /** The part of a run that follows its last reset. */
  function SinceReset(events: seq<AgentEvent>): (r: seq<AgentEvent>)
    ensures ResetFree(r)
  {
    if events == [] then []
    else
      var n := |events| - 1;
      if Resets(events[n]) then [] else SinceReset(events[..n]) + [events[n]]
  }

  /** A reset forgets everything before it, whatever was folded so far: replaying a turn from its
      start rebuilds the same parts. */
  lemma {:induction false} ResetForgets(out: seq<MessagePart>, events: seq<AgentEvent>, policy: SummaryPolicy, rules: Rules)
    ensures FoldRun(out, events, policy, rules)
         == FoldRun(if ResetFree(events) then out else [], SinceReset(events), policy, rules)
  {
    if events != [] {
      var n := |events| - 1;
      if Resets(events[n]) {
        assert events[n] in events;
      } else {
        var init, since := events[..n], SinceReset(events[..n]);
        ResetForgets(out, init, policy, rules);
        assert (since + [events[n]])[..|since|] == since;
        assert ResetFree(events) <==> ResetFree(init) by {
          assert events == init + [events[n]];
        }
      }
    }
  }

  // ── what one event may do to a part ────────────────────────────────────────

  /** How a part may change: its variant and id never do, text only grows, a known tool
      call never becomes an unknown one, answers and decisions are not taken back, a settled cycle does
      not reopen. */
  predicate Evolves(p: MessagePart, q: MessagePart) {
    match p
    case TextPart(id, text) => q.TextPart? && q.id == id && text <= q.text
    case ToolPart(id, call, _, resolved, _, _, outputRef, _, diffRef, _, subRef, _, tail, ms, tools) =>
      q.ToolPart? && q.id == id && (resolved ==> q.resolved) && (q.call.UnknownCall? ==> call.UnknownCall?) &&
      q.outputRef == outputRef && q.diffRef == diffRef &&
      q.subagentRef == subRef && q.subagentTail == tail && q.subagentMs == ms && q.subagentTools == tools
    case InputPart(id, request, questions, resolved, responses, source) =>
      q.InputPart? && (resolved ==> q.resolved) &&
      q == InputPart(id, request, questions, q.resolved, responses, source)
    case SwitchPart(_, _, _, _, _) => q == p
    case ErrorPart(_, _, _, _, _) => q == p
    case PermissionPart(id, request, kind, line, choices, actions, resolved, decision, tool, device, at, expires) =>
      q.PermissionPart? &&
      q == PermissionPart(id, request, kind, line, choices, actions, q.resolved, q.decision, tool, device, at, expires) &&
      (resolved ==> q.resolved && (q.decision == decision || q.decision == Some(Deny))) &&
      (decision.Some? ==> q.decision.Some?) && (q.resolved || q == p)
    case CompactionPart(id, cycle, status, _, _, _, _, _, _, _) =>
      q.CompactionPart? && q.id == id && q.compactionId == cycle && (Settled(status) ==> Settled(q.status))
  }

  lemma EvolvesOn(p: MessagePart, q: MessagePart, r: MessagePart)
    requires Evolves(p, q) && Evolves(q, r)
    ensures Evolves(p, r)
  {
  }

  /** Parts keep their place, and only the text of the last one may change. */
  ghost predicate Grown(prev: seq<MessagePart>, next: seq<MessagePart>) {
    && |prev| <= |next|
    && (forall i :: 0 <= i < |prev| ==> Evolves(prev[i], next[i]))
    && (forall i :: 0 <= i < |prev| - 1 && prev[i].TextPart? ==> next[i] == prev[i])
  }

  lemma GrownOn(a: seq<MessagePart>, b: seq<MessagePart>, c: seq<MessagePart>)
    requires Grown(a, b) && Grown(b, c)
    ensures Grown(a, c)
  {
    forall i | 0 <= i < |a| ensures Evolves(a[i], c[i]) {
      EvolvesOn(a[i], b[i], c[i]);
    }
  }

  lemma CycleEvolves(p: MessagePart, frame: CompactionFrame, policy: SummaryPolicy)
    requires p.CompactionPart?
    ensures Evolves(p, CycleAfter(p, frame, policy))
  {
  }

  /** What the events that go through all parts make of one. */
  function Mapped(p: MessagePart, ev: AgentEvent, rules: Rules): MessagePart {
    match ev
    case ToolResult(_, _, _, _) => Resulted(p, ev, rules)
    case InputResolved(request) => Answered(p, request)
    case Subagent(parent, event) => Tracked(p, parent, event)
    case PermissionResolved(request, choice) => Decided(p, request, choice)
    case _ => p
  }

  predicate MapsParts(ev: AgentEvent) {
    ev.ToolResult? || ev.InputResolved? || ev.Subagent? || ev.PermissionResolved?
  }

  lemma MappedEvolves(p: MessagePart, ev: AgentEvent, rules: Rules)
    ensures Evolves(p, Mapped(p, ev, rules)) && (p.TextPart? ==> Mapped(p, ev, rules) == p)
  {
  }

  lemma EventMaps(out: seq<MessagePart>, ev: AgentEvent, policy: SummaryPolicy, rules: Rules)
    requires MapsParts(ev)
    ensures var next := FoldEvent(out, ev, policy, rules);
            |next| == |out| && forall i :: 0 <= i < |out| ==> next[i] == Mapped(out[i], ev, rules)
  {
  }

  lemma OtherEventGrows(out: seq<MessagePart>, ev: AgentEvent, policy: SummaryPolicy, rules: Rules)
    requires !Resets(ev) && !MapsParts(ev) && !ev.ContextCompaction?
    ensures Grown(out, FoldEvent(out, ev, policy, rules))
  {
  }

  lemma MappedGrows(out: seq<MessagePart>, ev: AgentEvent, policy: SummaryPolicy, rules: Rules)
    requires MapsParts(ev)
    ensures Grown(out, FoldEvent(out, ev, policy, rules))
  {
    EventMaps(out, ev, policy, rules);
    forall i | 0 <= i < |out|
      ensures Evolves(out[i], Mapped(out[i], ev, rules)) && (out[i].TextPart? ==> Mapped(out[i], ev, rules) == out[i])
    {
      MappedEvolves(out[i], ev, rules);
    }
  }

  lemma CompactionGrows(out: seq<MessagePart>, frame: CompactionFrame, policy: SummaryPolicy)
    ensures Grown(out, FoldCompaction(out, frame, policy))
  {
    forall p: MessagePart | p.CompactionPart? ensures Evolves(p, CycleAfter(p, frame, policy)) {
      CycleEvolves(p, frame, policy);
    }
  }

  lemma EventGrows(out: seq<MessagePart>, ev: AgentEvent, policy: SummaryPolicy, rules: Rules)
    requires !Resets(ev)
    ensures Grown(out, FoldEvent(out, ev, policy, rules))
  {
    if MapsParts(ev) {
      MappedGrows(out, ev, policy, rules);
    } else if ev.ContextCompaction? {
      CompactionGrows(out, ev.cycle, policy);
    } else {
      OtherEventGrows(out, ev, policy, rules);
    }
  }

  /** Over every run without a reset, no part changes its place, variant or id; only the last text
      grows. */
  lemma {:induction false} RunGrows(out: seq<MessagePart>, events: seq<AgentEvent>, policy: SummaryPolicy, rules: Rules)
    requires ResetFree(events)
    ensures Grown(out, FoldRun(out, events, policy, rules))
  {
    if events != [] {
      var n := |events| - 1;
      var before := FoldRun(out, events[..n], policy, rules);
      RunGrows(out, events[..n], policy, rules);
      EventGrows(before, events[n], policy, rules);
      GrownOn(out, before, FoldRun(out, events, policy, rules));
    }
  }

  // ── the shape of a folded list ─────────────────────────────────────────────

  /** A part's id is derived from its position or from what it is about; tool parts bring their own. */
  predicate NamedFor(p: MessagePart, at: nat) {
    match p
    case TextPart(id, _) => id == TextId(at)
    case ToolPart(_, _, _, _, _, _, _, _, _, _, _, _, _, _, _) => true
    case InputPart(id, request, _, _, _, _) => id == InputId(request)
    case SwitchPart(_, _, _, _, _) => false
    case ErrorPart(id, _, _, _, _) => id == ErrorId(at)
    case PermissionPart(id, request, _, _, _, _, _, _, _, _, _, _) => id == PermissionId(request)
    case CompactionPart(id, cycle, _, _, _, _, _, _, _, _) => id == CompactionId(cycle)
  }

  predicate SameThing(p: MessagePart, q: MessagePart) {
    && p.id == q.id
    && (p.TextPart? == q.TextPart?) && (p.ToolPart? == q.ToolPart?) && (p.InputPart? == q.InputPart?)
    && (p.ErrorPart? == q.ErrorPart?) && (p.PermissionPart? == q.PermissionPart?)
    && (p.CompactionPart? == q.CompactionPart?) && (p.SwitchPart? == q.SwitchPart?)
  }

  ghost predicate Named(parts: seq<MessagePart>) {
    forall i :: 0 <= i < |parts| ==> NamedFor(parts[i], i)
  }

  /** A text part is never followed by another. */
  ghost predicate TextsApart(parts: seq<MessagePart>) {
    forall i, j :: 0 <= i < |parts| && j == i + 1 && j < |parts| && parts[i].TextPart? ==> !parts[j].TextPart?
  }

  /** One part per text, tool call, question, error, approval and compaction cycle. */
  ghost predicate OneEach(parts: seq<MessagePart>) {
    forall i, j :: 0 <= i < j < |parts| ==> !SameThing(parts[i], parts[j])
  }

  ghost predicate Shaped(parts: seq<MessagePart>) {
    Named(parts) && TextsApart(parts) && OneEach(parts)
  }

  lemma EvolvedIsNamed(p: MessagePart, q: MessagePart, at: nat)
    requires Evolves(p, q)
    ensures SameThing(p, q) && (NamedFor(p, at) ==> NamedFor(q, at))
  {
  }

  lemma NumberedIdsDiffer(prefix: string, i: nat, j: nat)
    requires i != j
    ensures prefix + Decimal(i) != prefix + Decimal(j)
  {
    if prefix + Decimal(i) == prefix + Decimal(j) {
      assert Decimal(i) == (prefix + Decimal(i))[|prefix|..] == (prefix + Decimal(j))[|prefix|..] == Decimal(j);
      DecimalInjective(i, j);
    }
  }

  /** What one event may add: at most one part, named for its place, that says something new. */
  ghost predicate AddsOne(out: seq<MessagePart>, next: seq<MessagePart>) {
    |next| == |out| ||
    (|next| == |out| + 1 &&
     var p := next[|out|];
     NamedFor(p, |out|) &&
     (p.TextPart? && out != [] ==> !out[|out| - 1].TextPart?) &&
     (!p.TextPart? && !p.ErrorPart? ==> forall i :: 0 <= i < |out| ==> !SameThing(out[i], p)))
  }

  lemma EventAdds(out: seq<MessagePart>, ev: AgentEvent, policy: SummaryPolicy, rules: Rules)
    requires !Resets(ev)
    ensures AddsOne(out, FoldEvent(out, ev, policy, rules))
  {
  }

  lemma GrownStaysShaped(out: seq<MessagePart>, next: seq<MessagePart>)
    requires Shaped(out) && Grown(out, next) && AddsOne(out, next)
    ensures Shaped(next)
  {
    forall i | 0 <= i < |out| ensures SameThing(out[i], next[i]) && NamedFor(next[i], i) {
      EvolvedIsNamed(out[i], next[i], i);
    }
    forall i, j | 0 <= i < j < |next| ensures !SameThing(next[i], next[j]) {
      NumberedIdsDiffer("t", i, j);
      NumberedIdsDiffer("e", i, j);
      if j < |out| {
        assert !SameThing(out[i], out[j]);
      }
    }
  }

  lemma EventKeepsShape(out: seq<MessagePart>, ev: AgentEvent, policy: SummaryPolicy, rules: Rules)
    requires Shaped(out)
    ensures Shaped(FoldEvent(out, ev, policy, rules))
  {
    if !Resets(ev) {
      EventGrows(out, ev, policy, rules);
      EventAdds(out, ev, policy, rules);
      GrownStaysShaped(out, FoldEvent(out, ev, policy, rules));
    }
  }

  /** Over every run, resets included: no two texts are adjacent, every text is named after its
      position, and each tool call, question, approval and cycle has one part. */
  lemma {:induction false} RunKeepsShape(events: seq<AgentEvent>, policy: SummaryPolicy, rules: Rules)
    ensures Shaped(FoldRun([], events, policy, rules))
  {
    if events != [] {
      var n := |events| - 1;
      RunKeepsShape(events[..n], policy, rules);
      EventKeepsShape(FoldRun([], events[..n], policy, rules), events[n], policy, rules);
    }
  }

  // ── texts ──────────────────────────────────────────────────────────────────

  /** All text of a list of parts. */
  function Texts(parts: seq<MessagePart>): string {
    if parts == [] then ""
    else
      var n := |parts| - 1;
      Texts(parts[..n]) + if parts[n].TextPart? then parts[n].text else ""
  }

  /** All text a run streamed. */
  function Deltas(events: seq<AgentEvent>): string {
    if events == [] then ""
    else
      var n := |events| - 1;
      Deltas(events[..n]) + if events[n].TextDelta? then events[n].text else ""
  }

  lemma {:induction false} SameTexts(a: seq<MessagePart>, b: seq<MessagePart>)
    requires |a| == |b|
    requires forall i :: 0 <= i < |a| ==> a[i].TextPart? == b[i].TextPart? && (a[i].TextPart? ==> a[i] == b[i])
    ensures Texts(a) == Texts(b)
  {
    if a != [] {
      SameTexts(a[..|a| - 1], b[..|a| - 1]);
    }
  }

  lemma DeltaAddsText(out: seq<MessagePart>, text: string)
    ensures Texts(FoldText(out, text)) == Texts(out) + text
  {
    var next, n := FoldText(out, text), |out| - 1;
    if out != [] && out[n].TextPart? {
      assert next[..n] == out[..n];
      Regroup(Texts(out[..n]), out[n].text, text);
    } else {
      assert next[..|out|] == out;
    }
  }

  lemma EventAddsText(out: seq<MessagePart>, ev: AgentEvent, policy: SummaryPolicy, rules: Rules)
    requires !Resets(ev)
    ensures Texts(FoldEvent(out, ev, policy, rules)) == Texts(out) + if ev.TextDelta? then ev.text else ""
  {
    if ev.TextDelta? {
      DeltaAddsText(out, ev.text);
    } else {
      var next := FoldEvent(out, ev, policy, rules);
      OtherEventsKeepTexts(out, ev, policy, rules);
      SameTexts(out, next[..|out|]);
      if |next| > |out| {
        assert Texts(next) == Texts(next[..|out|]) + "";
      } else {
        assert next[..|out|] == next;
      }
    }
  }

  lemma OtherEventsKeepTexts(out: seq<MessagePart>, ev: AgentEvent, policy: SummaryPolicy, rules: Rules)
    requires !Resets(ev) && !ev.TextDelta?
    ensures var next := FoldEvent(out, ev, policy, rules);
            |out| <= |next| <= |out| + 1 && (|next| > |out| ==> !next[|out|].TextPart?) &&
            forall i :: 0 <= i < |out| ==> out[i].TextPart? == next[i].TextPart? && (out[i].TextPart? ==> out[i] == next[i])
  {
  }

  /** The texts of a folded run, in order, are the deltas since its last reset, in order: none lost,
      none doubled. */
  lemma {:induction false} TextsAreDeltas(events: seq<AgentEvent>, policy: SummaryPolicy, rules: Rules)
    requires ResetFree(events)
    ensures Texts(FoldRun([], events, policy, rules)) == Deltas(events)
  {
    if events != [] {
      var n := |events| - 1;
      TextsAreDeltas(events[..n], policy, rules);
      EventAddsText(FoldRun([], events[..n], policy, rules), events[n], policy, rules);
    }
  }

  // ── decisions ──────────────────────────────────────────────────────────────

  /** The choices a run made on one request. */
  function Choices(events: seq<AgentEvent>, request: string): seq<PermissionChoice> {
    if events == [] then []
    else
      var n := |events| - 1;
      var ev := events[n];
      Choices(events[..n], request) +
      if ev.PermissionResolved? && ev.requestId == request then [ev.choice] else []
  }

  lemma DecisionStep(out: seq<MessagePart>, i: nat, ev: AgentEvent, policy: SummaryPolicy, rules: Rules)
    requires i < |out| && out[i].PermissionPart? && !Resets(ev)
    ensures var next := FoldEvent(out, ev, policy, rules);
            i < |next| &&
            next[i] == if ev.PermissionResolved? then Decided(out[i], ev.requestId, ev.choice) else out[i]
  {
  }

  /** The approval part has been decided if there was any choice: a denial if one of them was, otherwise the first. */
  predicate FollowsChoices(p: MessagePart, request: string, choices: seq<PermissionChoice>) {
    && p.PermissionPart? && p.requestId == request
    && (p.resolved <==> choices != [])
    && (choices != [] ==> p.decision == Some(if Deny in choices then Deny else choices[0]))
  }

  /** A denial wins, whenever it comes; otherwise the first choice stands. */
  lemma {:induction false} DenyWins(out: seq<MessagePart>, i: nat, events: seq<AgentEvent>, policy: SummaryPolicy,
                                    rules: Rules)
    requires i < |out| && out[i].PermissionPart? && !out[i].resolved && ResetFree(events)
    ensures var after := FoldRun(out, events, policy, rules);
            i < |after| && FollowsChoices(after[i], out[i].requestId, Choices(events, out[i].requestId))
  {
    if events != [] {
      var n := |events| - 1;
      var before := FoldRun(out, events[..n], policy, rules);
      DenyWins(out, i, events[..n], policy, rules);
      DecisionStep(before, i, events[n], policy, rules);
      ChoiceStep(before[i], out[i].requestId, Choices(events[..n], out[i].requestId), events[n]);
    }
  }

  lemma ChoiceStep(p: MessagePart, request: string, choices: seq<PermissionChoice>, ev: AgentEvent)
    requires FollowsChoices(p, request, choices)
    ensures FollowsChoices(if ev.PermissionResolved? then Decided(p, ev.requestId, ev.choice) else p, request,
                           choices + if ev.PermissionResolved? && ev.requestId == request then [ev.choice] else [])
  {
    assert choices + [] == choices;
  }

  // ── questions and approvals ────────────────────────────────────────────────

  /** The two kinds of request that wait for a person. */
  datatype Request = Question(requestId: string) | Approval(requestId: string)

  function PartIdOf(r: Request): string {
    match r
    case Question(id) => InputId(id)
    case Approval(id) => PermissionId(id)
  }

  predicate Asks(ev: AgentEvent, r: Request) {
    match r
    case Question(id) => ev.InputRequested? && ev.requestId == id
    case Approval(id) => ev.PermissionRequested? && ev.requestId == id
  }

  predicate Shows(p: MessagePart, r: Request) {
    match r
    case Question(id) => p.InputPart? && p.requestId == id
    case Approval(id) => p.PermissionPart? && p.requestId == id
  }

  ghost predicate Shown(parts: seq<MessagePart>, r: Request) {
    exists i :: 0 <= i < |parts| && Shows(parts[i], r)
  }

  ghost predicate ToolNamed(parts: seq<MessagePart>, id: string) {
    exists i :: 0 <= i < |parts| && parts[i].ToolPart? && parts[i].id == id
  }

  ghost predicate ToolCalled(events: seq<AgentEvent>, id: string) {
    exists ev <- events :: ev.ToolCallEvent? && ev.id == id
  }

  /** The run asked before any tool call took the id of the request's part. */
  ghost predicate AskedInTime(events: seq<AgentEvent>, r: Request) {
    events != [] &&
    var n := |events| - 1;
    (AskedInTime(events[..n], r) || (Asks(events[n], r) && !ToolCalled(events[..n], PartIdOf(r))))
  }

  lemma OnlyToolsBorrow(p: MessagePart, at: nat, r: Request)
    requires NamedFor(p, at)
    ensures p.id == PartIdOf(r) <==> Shows(p, r) || (p.ToolPart? && p.id == PartIdOf(r))
  {
    assert PartIdOf(r)[0] == if r.Question? then 'i' else 'p';
    if r.Question? {
      assert PartIdOf(r)[3..] == r.requestId;
      assert p.InputPart? ==> p.id[3..] == p.requestId;
    } else {
      assert PartIdOf(r)[5..] == r.requestId;
      assert p.PermissionPart? ==> p.id[5..] == p.requestId;
    }
  }

  lemma {:induction false} ToolsOfARun(events: seq<AgentEvent>, id: string, policy: SummaryPolicy, rules: Rules)
    requires ResetFree(events)
    ensures ToolNamed(FoldRun([], events, policy, rules), id) <==> ToolCalled(events, id)
  {
    if events != [] {
      var n := |events| - 1;
      ToolsOfARun(events[..n], id, policy, rules);
      ToolStep(FoldRun([], events[..n], policy, rules), events[n], id, policy, rules);
      assert events == events[..n] + [events[n]];
    }
  }

  lemma ToolStep(out: seq<MessagePart>, ev: AgentEvent, id: string, policy: SummaryPolicy, rules: Rules)
    requires !Resets(ev)
    ensures ToolNamed(FoldEvent(out, ev, policy, rules), id) <==> ToolNamed(out, id) || (ev.ToolCallEvent? && ev.id == id)
  {
    var next := FoldEvent(out, ev, policy, rules);
    EventGrows(out, ev, policy, rules);
    if ToolNamed(out, id) {
      var i :| 0 <= i < |out| && out[i].ToolPart? && out[i].id == id;
      assert Evolves(out[i], next[i]);
    }
    if ToolNamed(next, id) {
      var i :| 0 <= i < |next| && next[i].ToolPart? && next[i].id == id;
      if i < |out| {
        assert Evolves(out[i], next[i]);
      } else {
        NewTool(out, ev, policy, rules);
      }
    }
    if ev.ToolCallEvent? && ev.id == id {
      var ix := FindTool(out, id);
      var i := if ix.Some? then ix.value else |out|;
      assert next[i].ToolPart? && next[i].id == id;
    }
  }

  lemma NewTool(out: seq<MessagePart>, ev: AgentEvent, policy: SummaryPolicy, rules: Rules)
    requires !Resets(ev)
    ensures var next := FoldEvent(out, ev, policy, rules);
            |next| > |out| ==>
              |next| == |out| + 1 && (next[|out|].ToolPart? ==> ev.ToolCallEvent? && next[|out|].id == ev.id)
  {
  }

  lemma AskStep(out: seq<MessagePart>, ev: AgentEvent, r: Request, policy: SummaryPolicy, rules: Rules)
    requires !Resets(ev) && Named(out)
    ensures Shown(FoldEvent(out, ev, policy, rules), r) <==>
            Shown(out, r) || (Asks(ev, r) && !ToolNamed(out, PartIdOf(r)))
  {
    var next := FoldEvent(out, ev, policy, rules);
    EventGrows(out, ev, policy, rules);
    NewRequest(out, ev, r, policy, rules);
    forall i | 0 <= i < |out|
      ensures out[i].id == PartIdOf(r) <==> Shows(out[i], r) || (out[i].ToolPart? && out[i].id == PartIdOf(r))
    {
      OnlyToolsBorrow(out[i], i, r);
    }
    forall i | 0 <= i < |out| ensures Shows(next[i], r) == Shows(out[i], r) {
      assert Evolves(out[i], next[i]);
    }
    OneMoreRequest(out, next, r, Asks(ev, r));
  }

  /** The parts so far show what they showed, and a new one shows the request if it was asked. */
  lemma OneMoreRequest(out: seq<MessagePart>, next: seq<MessagePart>, r: Request, asked: bool)
    requires |out| <= |next| <= |out| + 1 && forall i :: 0 <= i < |out| ==> Shows(next[i], r) == Shows(out[i], r)
    requires |next| > |out| ==> (Shows(next[|out|], r) <==> asked)
    requires asked ==> (|next| > |out| <==> !HasId(out, PartIdOf(r)))
    requires forall i :: 0 <= i < |out| ==>
               (out[i].id == PartIdOf(r) <==> Shows(out[i], r) || (out[i].ToolPart? && out[i].id == PartIdOf(r)))
    ensures Shown(next, r) <==> Shown(out, r) || (asked && !ToolNamed(out, PartIdOf(r)))
  {
    if Shown(out, r) {
      var i :| 0 <= i < |out| && Shows(out[i], r);
      assert Shows(next[i], r);
    }
    if asked && |next| > |out| {
      assert Shows(next[|out|], r);
    }
  }

  lemma NewRequest(out: seq<MessagePart>, ev: AgentEvent, r: Request, policy: SummaryPolicy, rules: Rules)
    requires !Resets(ev)
    ensures var next := FoldEvent(out, ev, policy, rules);
            && |out| <= |next| <= |out| + 1
            && (|next| > |out| ==> (Shows(next[|out|], r) <==> Asks(ev, r)))
            && (Asks(ev, r) ==> (|next| > |out| <==> !HasId(out, PartIdOf(r))))
  {
  }

  /** After every run since the last reset, a question or an approval is shown exactly if it was asked
      before a tool call took the id its part would have. */
  lemma {:induction false} RequestsAreShown(events: seq<AgentEvent>, r: Request, policy: SummaryPolicy, rules: Rules)
    requires ResetFree(events)
    ensures Shown(FoldRun([], events, policy, rules), r) <==> AskedInTime(events, r)
  {
    if events != [] {
      var n := |events| - 1;
      var before := FoldRun([], events[..n], policy, rules);
      RequestsAreShown(events[..n], r, policy, rules);
      RunKeepsShape(events[..n], policy, rules);
      ToolsOfARun(events[..n], PartIdOf(r), policy, rules);
      AskStep(before, events[n], r, policy, rules);
    }
  }
}
