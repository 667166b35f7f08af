/** Runs of a streamed entry: events folded, ticks that sync, answers and decisions recorded in between from
    outside the run. */
module Streaming {
  import opened Options
  import opened Parts
  import opened Fold
  import opened FoldLaws
  import opened DocParts
  import opened RowUpdates
  import opened SegmentWriter
  import opened StreamLaws

  datatype Action =
    | Stream(ev: AgentEvent)
    | Tick
    | Respond(request: string, response: InputResponse)
    | Rule(request: string, decision: Option<PermissionChoice>, device: Option<string>, at: Option<int>)

  datatype Run = Run(folded: seq<MessagePart>, seg: Segment)

  const START: Run := Run([], Segment([], [], []))

  function Act(r: Run, a: Action, policy: SummaryPolicy, rules: Rules): (next: Run)
    requires Aligned(r.seg)
    ensures Aligned(next.seg)
  {
    match a
    case Stream(ev) => r.(folded := FoldEvent(r.folded, ev, policy, rules))
    case Tick => r.(seg := SyncTo(r.seg, r.folded, |r.folded|).seg)
    case Respond(request, response) => r.(seg := RecordAnswer(r.seg, request, response))
    case Rule(request, decision, device, at) => r.(seg := RecordDecision(r.seg, request, decision, device, at))
  }

  function Streamed(actions: seq<Action>, policy: SummaryPolicy, rules: Rules): (r: Run)
    ensures Aligned(r.seg)
  {
    if actions == [] then START
    else
      var n := |actions| - 1;
      Act(Streamed(actions[..n], policy, rules), actions[n], policy, rules)
  }

  // ── events that take something back ────────────────────────────────────────

  /** A further result leaves out what an earlier one has left on the part. */
  predicate ResultClears(p: MessagePart, ev: AgentEvent, rules: Rules)
    requires ev.ToolResult?
  {
    p.ToolPart? && p.id == ev.id &&
    (p.outputBytes.Some? || p.diff.Some? || (p.diffStats.Some? && ev.diff.None?) ||
     (p.output.Some? && !(ev.isError && ev.output.Some? && rules.summarize(ev.output.value).Some?)))
  }

  /** A summary becomes empty again. */
  predicate FrameClears(p: MessagePart, frame: CompactionFrame) {
    p.CompactionPart? && p.summaryInJournal &&
    !(BytesAfter(p.summaryBytes, frame).Some? && BytesAfter(p.summaryBytes, frame).value > 0)
  }

  /** The event takes a column back from part `i`. */
  predicate Clears(out: seq<MessagePart>, i: nat, ev: AgentEvent, rules: Rules)
    requires i < |out|
  {
    match ev
    case ToolResult(_, _, _, _) => ResultClears(out[i], ev, rules)
    case ContextCompaction(frame) => FindPart(out, CompactionId(frame.id)) == Some(i) && FrameClears(out[i], frame)
    case _ => false
  }

  lemma ResultKeeps(p: MessagePart, ev: AgentEvent, rules: Rules)
    requires ev.ToolResult?
    ensures KeepsColumns(p, Resulted(p, ev, rules)) <==> !ResultClears(p, ev, rules)
  {
    var q := Resulted(p, ev, rules);
    if KeepsColumns(p, q) {
      assert ColumnOf(p, OutputCol).Some? ==> ColumnOf(q, OutputCol).Some?;
      assert ColumnOf(p, OutputBytesCol).Some? ==> ColumnOf(q, OutputBytesCol).Some?;
      assert ColumnOf(p, DiffCol).Some? ==> ColumnOf(q, DiffCol).Some?;
      assert ColumnOf(p, DiffStatsCol).Some? ==> ColumnOf(q, DiffStatsCol).Some?;
    }
  }

  lemma CycleKeeps(p: MessagePart, frame: CompactionFrame, policy: SummaryPolicy)
    requires p.CompactionPart?
    ensures KeepsColumns(p, CycleAfter(p, frame, policy)) <==> !FrameClears(p, frame)
  {
    var q := CycleAfter(p, frame, policy);
    if KeepsColumns(p, q) {
      assert ColumnOf(p, SummaryInJournalCol).Some? ==> ColumnOf(q, SummaryInJournalCol).Some?;
    }
  }

  lemma TrackKeeps(p: MessagePart, parent: string, ev: AgentEvent)
    ensures KeepsColumns(p, Tracked(p, parent, ev))
  {
  }

  lemma DecideKeeps(p: MessagePart, request: string, choice: PermissionChoice)
    ensures KeepsColumns(p, Decided(p, request, choice)) && KeepsColumns(p, Answered(p, request))
  {
  }

  lemma CallKeeps(p: MessagePart, call: ToolCall)
    requires p.ToolPart?
    ensures KeepsColumns(p, p.(call := call))
  {
  }

  lemma TextKeeps(p: MessagePart, text: string)
    requires p.TextPart?
    ensures KeepsColumns(p, p.(text := text))
  {
  }

  lemma CycleSlot(out: seq<MessagePart>, i: nat, frame: CompactionFrame, policy: SummaryPolicy)
    requires i < |out|
    ensures var next := FoldCompaction(out, frame, policy);
            i < |next| &&
            (KeepsColumns(out[i], next[i]) <==>
             !(FindPart(out, CompactionId(frame.id)) == Some(i) && FrameClears(out[i], frame)))
  {
    KeepsItself(out[i]);
    if out[i].CompactionPart? {
      CycleKeeps(out[i], frame, policy);
    }
  }

  lemma SlotKeeps(out: seq<MessagePart>, i: nat, ev: AgentEvent, policy: SummaryPolicy, rules: Rules)
    requires i < |out| && !Resets(ev)
    ensures var next := FoldEvent(out, ev, policy, rules);
            i < |next| && (KeepsColumns(out[i], next[i]) <==> !Clears(out, i, ev, rules))
  {
    var p := out[i];
    KeepsItself(p);
    match ev {
      case ToolResult(_, _, _, _) => ResultKeeps(p, ev, rules);
      case Subagent(parent, event) => TrackKeeps(p, parent, event);
      case InputResolved(request) => DecideKeeps(p, request, Deny);
      case PermissionResolved(request, choice) => DecideKeeps(p, request, choice);
      case ToolCallEvent(_, call) =>
        if p.ToolPart? {
          CallKeeps(p, Refreshed(p.call, call));
        }
      case TextDelta(text) =>
        if p.TextPart? {
          TextKeeps(p, p.text + text);
        }
      case ContextCompaction(frame) => CycleSlot(out, i, frame, policy);
      case _ =>
    }
  }

  ghost predicate TakesBack(out: seq<MessagePart>, ev: AgentEvent, rules: Rules) {
    exists i: nat :: i < |out| && Clears(out, i, ev, rules)
  }

  /** One event keeps all columns of all parts exactly when it takes nothing back. */
  lemma EventKeeps(out: seq<MessagePart>, ev: AgentEvent, policy: SummaryPolicy, rules: Rules)
    requires !Resets(ev)
    ensures AllKept(out, FoldEvent(out, ev, policy, rules)) <==> !TakesBack(out, ev, rules)
  {
    var next := FoldEvent(out, ev, policy, rules);
    EventGrows(out, ev, policy, rules);
    forall i: nat | i < |out| ensures KeepsColumns(out[i], next[i]) <==> !Clears(out, i, ev, rules) {
      SlotKeeps(out, i, ev, policy, rules);
    }
  }

  // ── whole runs ─────────────────────────────────────────────────────────────

  /** The run never resets and no event takes anything back. */
  ghost predicate OnlyAdds(actions: seq<Action>, policy: SummaryPolicy, rules: Rules) {
    actions == [] ||
    var n := |actions| - 1;
    OnlyAdds(actions[..n], policy, rules) &&
    (actions[n].Stream? ==>
       !Resets(actions[n].ev) && !TakesBack(Streamed(actions[..n], policy, rules).folded, actions[n].ev, rules))
  }

  /** What holds between a list and the entry that follows it. */
  ghost predicate Following(r: Run) {
    InStep(r.seg) && Grown(r.seg.written, r.folded) && AllKept(r.seg.written, r.folded) && TypedOnce(r.seg)
  }

  lemma KeptOn(a: seq<MessagePart>, b: seq<MessagePart>, c: seq<MessagePart>)
    requires Grown(a, b) && AllKept(a, b) && AllKept(b, c) && Grown(b, c)
    ensures AllKept(a, c)
  {
    forall i | 0 <= i < |a| ensures KeepsColumns(a[i], c[i]) {
      KeepOn(a[i], b[i], c[i]);
    }
  }

  lemma KeepOn(p: MessagePart, q: MessagePart, r: MessagePart)
    requires Evolves(p, q) && Evolves(q, r) && KeepsColumns(p, q) && KeepsColumns(q, r)
    ensures KeepsColumns(p, r)
  {
    EvolvedIsNamed(p, q, 0);
    EvolvedIsNamed(q, r, 0);
    forall c: Column | !Shared(r, c) && ColumnOf(p, c).Some? ensures ColumnOf(r, c).Some? {
      assert !Shared(q, c) && ColumnOf(q, c).Some?;
    }
  }

  lemma EventFollows(r: Run, ev: AgentEvent, policy: SummaryPolicy, rules: Rules)
    requires Following(r) && !Resets(ev) && !TakesBack(r.folded, ev, rules)
    ensures var next := FoldEvent(r.folded, ev, policy, rules);
            Grown(r.seg.written, next) && AllKept(r.seg.written, next)
  {
    var next := FoldEvent(r.folded, ev, policy, rules);
    EventGrows(r.folded, ev, policy, rules);
    EventKeeps(r.folded, ev, policy, rules);
    GrownOn(r.seg.written, r.folded, next);
    KeptOn(r.seg.written, r.folded, next);
  }

  lemma GrownFromItself(parts: seq<MessagePart>)
    ensures Grown(parts, parts) && AllKept(parts, parts)
  {
    forall i | 0 <= i < |parts| ensures KeepsColumns(parts[i], parts[i]) {
      KeepsItself(parts[i]);
    }
  }

  lemma TickFollows(r: Run)
    requires Following(r)
    ensures var seg := SyncTo(r.seg, r.folded, |r.folded|).seg;
            Following(r.(seg := seg)) && seg.written == r.folded
  {
    SyncShows(r.seg, r.folded);
    SyncTypes(r.seg, r.folded, |r.folded|);
    GrownFromItself(r.folded);
  }

  lemma ActFollows(r: Run, a: Action, policy: SummaryPolicy, rules: Rules)
    requires Following(r)
    requires a.Stream? ==> !Resets(a.ev) && !TakesBack(r.folded, a.ev, rules)
    ensures Following(Act(r, a, policy, rules))
  {
    match a {
      case Stream(ev) => EventFollows(r, ev, policy, rules);
      case Tick => TickFollows(r);
      case Respond(request, response) => AnswerInStep(r.seg, request, response);
      case Rule(request, decision, device, at) => DecisionInStep(r.seg, request, decision, device, at);
    }
  }

  /** Over every run that only adds, however its events, ticks, answers and decisions interleave: the
      document mirrors the list of the last tick, every character streamed so far is inserted at most once,
      and no text is ever rewritten. */
  lemma {:induction false} RunFollows(actions: seq<Action>, policy: SummaryPolicy, rules: Rules)
    requires OnlyAdds(actions, policy, rules)
    ensures Following(Streamed(actions, policy, rules))
  {
    if actions != [] {
      var n := |actions| - 1;
      RunFollows(actions[..n], policy, rules);
      ActFollows(Streamed(actions[..n], policy, rules), actions[n], policy, rules);
    }
  }

  // ── rows nobody else has written to ────────────────────────────────────────

  /** The action writes to the row of `p` from outside the run. */
  predicate Touches(a: Action, p: MessagePart) {
    match a
    case Respond(request, _) => p.InputPart? && p.requestId == request
    case Rule(request, _, _, _) => p.PermissionPart? && (p.requestId == request || p.id == "perm-" + request)
    case _ => false
  }

  ghost predicate Untouched(actions: seq<Action>, p: MessagePart) {
    forall a <- actions :: !Touches(a, p)
  }

  lemma UntouchedMore(actions: seq<Action>, a: Action, p: MessagePart)
    ensures Untouched(actions + [a], p) <==> Untouched(actions, p) && !Touches(a, p)
  {
    assert a in actions + [a] && forall b <- actions :: b in actions + [a];
  }

  lemma TouchesAlike(a: Action, p: MessagePart, q: MessagePart)
    requires Evolves(p, q)
    ensures Touches(a, p) == Touches(a, q)
  {
  }

  ghost predicate OwnRows(r: Run, actions: seq<Action>) {
    |r.seg.rows| == |r.seg.written| &&
    forall i :: 0 <= i < |r.seg.rows| && Untouched(actions, r.seg.written[i]) ==> r.seg.rows[i] == Pushed(r.seg.written[i])
  }

  lemma TickOwns(r: Run, actions: seq<Action>)
    requires Following(r) && OwnRows(r, actions)
    ensures OwnRows(r.(seg := SyncTo(r.seg, r.folded, |r.folded|).seg), actions)
  {
    SyncShows(r.seg, r.folded);
    SyncRows(r.seg, r.folded, |r.folded|);
    var seg := SyncTo(r.seg, r.folded, |r.folded|).seg;
    forall i | 0 <= i < |seg.rows| && Untouched(actions, r.folded[i]) ensures seg.rows[i] == Pushed(r.folded[i]) {
      if i < |r.seg.written| {
        var p, part := r.seg.written[i], r.folded[i];
        assert Evolves(p, part) && KeepsColumns(p, part);
        forall a | a in actions ensures !Touches(a, p) {
          TouchesAlike(a, p, part);
        }
        PushedSlot(p, part);
      }
    }
  }

  lemma PartIsTouched(p: MessagePart, kind: Kind, id: string, request: string)
    requires IsPart(Pushed(p), kind, id, request)
    requires kind == InputRow ==> id == request
    ensures kind == InputRow ==> p.InputPart? && p.requestId == request
    ensures kind == PermissionRow ==> p.PermissionPart? && (p.requestId == request || p.id == id)
  {
    PushedMirrors(p);
    RowIsTouched(Pushed(p), p, kind, id, request);
  }

  lemma RowIsTouched(row: Row, p: MessagePart, kind: Kind, id: string, request: string)
    requires Mirrors(row, p) && IsPart(row, kind, id, request)
    requires kind == InputRow ==> id == request
    ensures kind == InputRow ==> p.InputPart? && p.requestId == request
    ensures kind == PermissionRow ==> p.PermissionPart? && (p.requestId == request || p.id == id)
  {
    assert Get(row, KindCol) == ColumnOf(p, KindCol) && Get(row, IdCol) == ColumnOf(p, IdCol);
    assert Get(row, RequestIdCol) == ColumnOf(p, RequestIdCol);
  }

  lemma ActOwns(r: Run, actions: seq<Action>, a: Action, policy: SummaryPolicy, rules: Rules)
    requires Following(r) && OwnRows(r, actions)
    ensures OwnRows(Act(r, a, policy, rules), actions + [a])
  {
    forall p: MessagePart ensures Untouched(actions + [a], p) <==> Untouched(actions, p) && !Touches(a, p) {
      UntouchedMore(actions, a, p);
    }
    match a {
      case Stream(_) =>
      case Tick => TickOwns(r, actions);
      case Respond(request, _) =>
        var ix := FindAsked(r.seg.rows, request);
        if ix.Some? && Untouched(actions, r.seg.written[ix.value]) {
          PartIsTouched(r.seg.written[ix.value], InputRow, request, request);
        }
      case Rule(request, _, _, _) =>
        var ix := FindRow(r.seg.rows, PermissionRow, "perm-" + request, request);
        if ix.Some? && Untouched(actions, r.seg.written[ix.value]) {
          PartIsTouched(r.seg.written[ix.value], PermissionRow, "perm-" + request, request);
        }
    }
  }

  lemma {:induction false} RunOwns(actions: seq<Action>, policy: SummaryPolicy, rules: Rules)
    requires OnlyAdds(actions, policy, rules)
    ensures OwnRows(Streamed(actions, policy, rules), actions)
  {
    if actions != [] {
      var n := |actions| - 1;
      RunOwns(actions[..n], policy, rules);
      RunFollows(actions[..n], policy, rules);
      ActOwns(Streamed(actions[..n], policy, rules), actions[..n], actions[n], policy, rules);
      assert actions[..n] + [actions[n]] == actions;
    }
  }

  // ── one shot ───────────────────────────────────────────────────────────────

  /** The row of a part written at once, with what `row` has recorded from outside the run. */
  function AtOnce(p: MessagePart, row: Row): Row {
    map c: Column | (if Shared(p, c) then c in row else ColumnOf(p, c).Some?) ::
      if Shared(p, c) then row[c] else ColumnOf(p, c).value
  }

  lemma MirrorIsPushed(row: Row, p: MessagePart)
    requires Mirrors(row, p)
    ensures row == AtOnce(p, row)
  {
    forall c: Column ensures Get(row, c) == Get(AtOnce(p, row), c) {
      if !Shared(p, c) {
        assert Get(row, c) == ColumnOf(p, c);
      }
    }
    SameRow(row, AtOnce(p, row));
  }

  /** The rows are those of writing the list at once: exactly where nobody else has written, and next to what
      was recorded from outside elsewhere. */
  ghost predicate WrittenAtOnce(r: Run, actions: seq<Action>) {
    && |r.seg.rows| == |r.folded|
    && forall i :: 0 <= i < |r.folded| ==>
         && r.seg.rows[i] == AtOnce(r.folded[i], r.seg.rows[i])
         && (Untouched(actions, r.folded[i]) ==> r.seg.rows[i] == Pushed(r.folded[i]))
  }

  /** After each tick of such a run the document is, row by row, what writing the whole list at once
      would give, and reads back as the list. */
  lemma StreamingIsOneShot(actions: seq<Action>, policy: SummaryPolicy, rules: Rules)
    requires OnlyAdds(actions, policy, rules)
    ensures var r := Streamed(actions + [Tick], policy, rules);
            && r.folded == Streamed(actions, policy, rules).folded
            && r.seg.written == r.folded && AllShown(r.seg.rows, r.folded)
            && WrittenAtOnce(r, actions) && TypedOnce(r.seg)
  {
    assert (actions + [Tick])[..|actions|] == actions;
    RunFollows(actions, policy, rules);
    RunOwns(actions, policy, rules);
    TickWritesAtOnce(Streamed(actions, policy, rules), actions);
  }

  lemma TickWritesAtOnce(r: Run, actions: seq<Action>)
    requires Following(r) && OwnRows(r, actions)
    ensures var seg := SyncTo(r.seg, r.folded, |r.folded|).seg;
            && seg.written == r.folded && AllShown(seg.rows, r.folded) && TypedOnce(seg)
            && WrittenAtOnce(r.(seg := seg), actions)
  {
    SyncShows(r.seg, r.folded);
    SyncTypes(r.seg, r.folded, |r.folded|);
    TickOwns(r, actions);
    MirroredAtOnce(r.(seg := SyncTo(r.seg, r.folded, |r.folded|).seg), actions);
  }

  lemma MirroredAtOnce(r: Run, actions: seq<Action>)
    requires InStep(r.seg) && r.seg.written == r.folded && OwnRows(r, actions)
    ensures WrittenAtOnce(r, actions)
  {
    forall i | 0 <= i < |r.folded| ensures r.seg.rows[i] == AtOnce(r.folded[i], r.seg.rows[i]) {
      assert Mirrors(r.seg.rows[i], r.seg.written[i]);
      MirrorIsPushed(r.seg.rows[i], r.folded[i]);
    }
  }

  // ── runs that are known to add only ────────────────────────────────────────

  function Events(actions: seq<Action>): seq<AgentEvent> {
    if actions == [] then []
    else
      var n := |actions| - 1;
      Events(actions[..n]) + if actions[n].Stream? then [actions[n].ev] else []
  }

  ghost predicate HasResult(events: seq<AgentEvent>, id: string) {
    exists ev <- events :: ev.ToolResult? && ev.id == id
  }

  /** No reset, at most one result per tool call, no empty full summary. */
  ghost predicate Tidy(events: seq<AgentEvent>) {
    events == [] ||
    var n := |events| - 1;
    var ev := events[n];
    Tidy(events[..n]) && !Resets(ev) &&
    (ev.ToolResult? ==> !HasResult(events[..n], ev.id)) &&
    (ev.ContextCompaction? ==> ev.cycle.summary != Some(""))
  }

  /** A tool part without a result has nothing a result leaves; a summary in the journal is not empty. */
  predicate Spare(p: MessagePart, resulted: bool) {
    && (p.ToolPart? && !resulted ==> p.output.None? && p.outputBytes.None? && p.diff.None? && p.diffStats.None?)
    && (p.CompactionPart? && p.summaryInJournal ==> p.summaryBytes.Some? && p.summaryBytes.value > 0)
  }

  ghost predicate AllSpare(out: seq<MessagePart>, events: seq<AgentEvent>) {
    forall i :: 0 <= i < |out| ==> Spare(out[i], HasResult(events, out[i].id))
  }

  lemma EventSpares(out: seq<MessagePart>, events: seq<AgentEvent>, ev: AgentEvent, policy: SummaryPolicy, rules: Rules)
    requires AllSpare(out, events) && !Resets(ev)
    ensures AllSpare(FoldEvent(out, ev, policy, rules), events + [ev])
  {
    var next := FoldEvent(out, ev, policy, rules);
    EventGrows(out, ev, policy, rules);
    forall i | 0 <= i < |next| ensures Spare(next[i], HasResult(events + [ev], next[i].id)) {
      assert HasResult(events, next[i].id) ==> HasResult(events + [ev], next[i].id);
      assert ev in events + [ev];
      if i < |out| {
        assert Spare(out[i], HasResult(events, out[i].id));
        EvolvedIsNamed(out[i], next[i], i);
      }
      SlotSpares(out, i, ev, policy, rules);
    }
  }

  lemma SlotSpares(out: seq<MessagePart>, i: nat, ev: AgentEvent, policy: SummaryPolicy, rules: Rules)
    requires !Resets(ev) && i < |FoldEvent(out, ev, policy, rules)|
    ensures var q := FoldEvent(out, ev, policy, rules)[i];
            if i < |out| then SparesOn(out[i], q, ev) else Spare(q, false)
  {
    if i < |out| {
      match ev {
        case ToolResult(_, _, _, _) => ResultSpares(out[i], ev, rules);
        case Subagent(parent, event) => TrackSpares(out[i], parent, event);
        case ContextCompaction(frame) => CycleSpares(out, i, frame, policy);
        case _ =>
      }
    }
  }

  /** A part that is spare stays so, unless the event is a result for it. */
  ghost predicate SparesOn(p: MessagePart, q: MessagePart, ev: AgentEvent) {
    forall r: bool :: Spare(p, r) ==> Spare(q, r || (ev.ToolResult? && ev.id == q.id))
  }

  lemma ResultSpares(p: MessagePart, ev: AgentEvent, rules: Rules)
    requires ev.ToolResult?
    ensures SparesOn(p, Resulted(p, ev, rules), ev)
  {
  }

  lemma TrackSpares(p: MessagePart, parent: string, ev: AgentEvent)
    ensures SparesOn(p, Tracked(p, parent, ev), Subagent(parent, ev))
  {
  }

  lemma CycleSpares(out: seq<MessagePart>, i: nat, frame: CompactionFrame, policy: SummaryPolicy)
    requires i < |out|
    ensures var next := FoldCompaction(out, frame, policy);
            i < |next| && SparesOn(out[i], next[i], ContextCompaction(frame))
  {
  }

  lemma SpareKeeps(out: seq<MessagePart>, events: seq<AgentEvent>, ev: AgentEvent, rules: Rules)
    requires AllSpare(out, events)
    requires ev.ToolResult? ==> !HasResult(events, ev.id)
    requires ev.ContextCompaction? ==> ev.cycle.summary != Some("")
    ensures !TakesBack(out, ev, rules)
  {
    forall i: nat | i < |out| ensures !Clears(out, i, ev, rules) {
      assert Spare(out[i], HasResult(events, out[i].id));
    }
  }

  lemma {:induction false} TidyIsSpare(actions: seq<Action>, policy: SummaryPolicy, rules: Rules)
    requires Tidy(Events(actions))
    ensures AllSpare(Streamed(actions, policy, rules).folded, Events(actions))
    ensures OnlyAdds(actions, policy, rules)
  {
    if actions != [] {
      var n := |actions| - 1;
      var events, before := Events(actions[..n]), Streamed(actions[..n], policy, rules);
      if actions[n].Stream? {
        var ev := actions[n].ev;
        assert (events + [ev])[..|events|] == events;
        TidyIsSpare(actions[..n], policy, rules);
        EventSpares(before.folded, events, ev, policy, rules);
        SpareKeeps(before.folded, events, ev, rules);
      } else {
        assert Events(actions) == events;
        TidyIsSpare(actions[..n], policy, rules);
      }
    }
  }

  /** For any interleaving of ticks and answers with a run of at most one result per tool call and no
      empty full summary, every tick leaves what writing the whole list at once would have left. */
  lemma TidyStreamsAreOneShot(actions: seq<Action>, policy: SummaryPolicy, rules: Rules)
    requires Tidy(Events(actions))
    ensures var r := Streamed(actions + [Tick], policy, rules);
            && r.seg.written == r.folded && AllShown(r.seg.rows, r.folded)
            && WrittenAtOnce(r, actions) && TypedOnce(r.seg)
  {
    TidyIsSpare(actions, policy, rules);
    StreamingIsOneShot(actions, policy, rules);
  }

  // ── what goes wrong otherwise ──────────────────────────────────────────────

  /** A failed tool call that succeeds on a second result keeps showing its old error output. */
  lemma SecondResultLeavesOutput(p: MessagePart, ev: AgentEvent, rules: Rules)
    requires p.ToolPart? && p.output.Some? && ev == ToolResult(p.id, false, None, None)
    ensures var q := Resulted(p, ev, rules);
            q.output == None && FromDoc(Updated(Pushed(p), q)).ToolPart? &&
            FromDoc(Updated(Pushed(p), q)).output == p.output
  {
    var q := Resulted(p, ev, rules);
    PushedMirrors(p);
    UpdatedReads(Pushed(p), p, q);
  }

  // ── the history ────────────────────────────────────────────────────────────

  lemma ActKeepsHistory(r: Run, a: Action, policy: SummaryPolicy, rules: Rules)
    requires Aligned(r.seg) && HistoryTells(r.seg)
    ensures HistoryTells(Act(r, a, policy, rules).seg)
  {
    match a
    case Stream(_) =>
    case Tick => SyncKeepsHistory(r.seg, r.folded, |r.folded|);
    case Respond(_, _) =>
    case Rule(_, _, _, _) =>
  }

  /** After every run, resets and failed syncs included, the recorded history replays to the texts of the document. */
  lemma {:induction false} RunKeepsHistory(actions: seq<Action>, policy: SummaryPolicy, rules: Rules)
    ensures HistoryTells(Streamed(actions, policy, rules).seg)
  {
    if actions != [] {
      var n := |actions| - 1;
      RunKeepsHistory(actions[..n], policy, rules);
      ActKeepsHistory(Streamed(actions[..n], policy, rules), actions[n], policy, rules);
    }
  }

  // ── answers ────────────────────────────────────────────────────────────────

  /** The answer an action gives to the row in slot `i`, if it gives any. */
  ghost function AnswerTo(r: Run, a: Action, i: nat): Option<InputResponse> {
    if a.Respond? && Addresses(r.seg.rows, a.request, i) then Some(a.response) else None
  }

  /** The answers of a run that addressed the row in slot `i`, in the order given. */
  ghost function AnswersTo(actions: seq<Action>, i: nat, policy: SummaryPolicy, rules: Rules): seq<InputResponse> {
    if actions == [] then []
    else
      var n := |actions| - 1;
      var given := AnswerTo(Streamed(actions[..n], policy, rules), actions[n], i);
      AnswersTo(actions[..n], i, policy, rules) + if given.Some? then [given.value] else []
  }

  /** The row in slot `i` is the first that asks for the request. */
  predicate Addresses(rows: seq<Row>, request: string, i: nat) {
    FirstPart(rows, InputRow, request, request, i)
  }

  predicate HasHeard(answers: seq<InputResponse>, device: string) {
    exists i :: 0 <= i < |answers| && answers[i].device == device
  }

  /** The first answer of each device. */
  function FirstOfEach(answers: seq<InputResponse>): seq<InputResponse> {
    if answers == [] then []
    else
      var n := |answers| - 1;
      FirstOfEach(answers[..n]) +
      if HasHeard(answers[..n], answers[n].device) then [] else [answers[n]]
  }

  /** One answer a device, each of them given, and one for every device that gave any. */
  ghost predicate OneOfEach(firsts: seq<InputResponse>, answers: seq<InputResponse>) {
    && (forall i :: 0 <= i < |firsts| ==> firsts[i] in answers)
    && (forall j :: 0 <= j < |answers| ==> HasHeard(firsts, answers[j].device))
    && (forall i, j :: 0 <= i < j < |firsts| ==> firsts[i].device != firsts[j].device)
  }

  lemma {:induction false} FirstsAreFirst(answers: seq<InputResponse>)
    ensures OneOfEach(FirstOfEach(answers), answers)
  {
    if answers != [] {
      var n := |answers| - 1;
      FirstsAreFirst(answers[..n]);
      assert answers == answers[..n] + [answers[n]];
      OneMore(FirstOfEach(answers[..n]), answers[..n], answers[n], answers, FirstOfEach(answers));
    }
  }

  lemma OneMore(firsts: seq<InputResponse>, init: seq<InputResponse>, last: InputResponse, answers: seq<InputResponse>,
                next: seq<InputResponse>)
    requires OneOfEach(firsts, init) && answers == init + [last]
    requires next == firsts + if HasHeard(init, last.device) then [] else [last]
    ensures HasHeard(init, last.device) <==> HasHeard(firsts, last.device)
    ensures OneOfEach(next, answers)
  {
    if i :| 0 <= i < |firsts| && firsts[i].device == last.device {
      assert firsts[i] in init;
    }
    if k :| 0 <= k < |init| && init[k].device == last.device {
      assert HasHeard(firsts, init[k].device);
    }
    forall j | 0 <= j < |answers| ensures HasHeard(next, answers[j].device) {
      if j < |init| {
        var i :| 0 <= i < |firsts| && firsts[i].device == init[j].device;
        assert next[i].device == answers[j].device;
      } else if !HasHeard(init, last.device) {
        assert next[|firsts|].device == answers[j].device;
      } else {
        var i :| 0 <= i < |firsts| && firsts[i].device == last.device;
        assert next[i].device == answers[j].device;
      }
    }
  }

  /** No folded part holds answers; they come from outside only. */
  ghost predicate Unanswered(parts: seq<MessagePart>) {
    forall i :: 0 <= i < |parts| && parts[i].InputPart? ==> parts[i].responses == []
  }

  lemma FoldAnswersNothing(out: seq<MessagePart>, ev: AgentEvent, policy: SummaryPolicy, rules: Rules)
    requires Unanswered(out)
    ensures Unanswered(FoldEvent(out, ev, policy, rules))
  {
  }

  lemma SyncPartKeepsAnswers(s: Segment, j: nat, part: MessagePart, i: nat)
    requires Aligned(s) && j <= |s.rows| && (part.InputPart? ==> part.responses == [])
    ensures var seg := SyncPart(s, j, part).seg;
            && |seg.rows| >= |s.rows|
            && (i < |s.rows| ==> ResponsesOf(seg.rows[i]) == ResponsesOf(s.rows[i]))
            && (|s.rows| <= i < |seg.rows| ==> ResponsesOf(seg.rows[i]) == [])
  {
    if j == |s.rows| {
      ToDocShape(part);
    } else {
      UpdatedCell(s.rows[j], part, ResponsesCol);
    }
  }

  lemma {:induction false} SyncKeepsAnswers(s: Segment, folded: seq<MessagePart>, n: nat, i: nat)
    requires Aligned(s) && Unanswered(folded) && n <= |folded|
    ensures var seg := SyncTo(s, folded, n).seg;
            && |seg.rows| >= |s.rows|
            && (i < |s.rows| ==> ResponsesOf(seg.rows[i]) == ResponsesOf(s.rows[i]))
            && (|s.rows| <= i < |seg.rows| ==> ResponsesOf(seg.rows[i]) == [])
  {
    if n > 0 {
      SyncKeepsAnswers(s, folded, n - 1, i);
      var before := SyncTo(s, folded, n - 1);
      var after := SyncStep(s, folded, n - 1, before);
      if before.ok {
        SyncPartKeepsAnswers(before.seg, n - 1, folded[n - 1], i);
      }
    }
  }

  /** What the row in slot `i` has recorded: nothing before there is such a row. */
  function RecordedAt(rows: seq<Row>, i: nat): seq<InputResponse> {
    if i < |rows| then ResponsesOf(rows[i]) else []
  }

  ghost function HeardNext(was: seq<InputResponse>, given: Option<InputResponse>): seq<InputResponse> {
    if given.None? || HasHeard(was, given.value.device) then was else was + [given.value]
  }

  lemma ActAnswers(r: Run, a: Action, policy: SummaryPolicy, rules: Rules, i: nat)
    requires Aligned(r.seg) && Unanswered(r.folded)
    ensures Unanswered(Act(r, a, policy, rules).folded)
    ensures RecordedAt(Act(r, a, policy, rules).seg.rows, i) ==
            HeardNext(RecordedAt(r.seg.rows, i), AnswerTo(r, a, i))
  {
    match a
    case Stream(ev) => FoldAnswersNothing(r.folded, ev, policy, rules);
    case Tick => SyncKeepsAnswers(r.seg, r.folded, |r.folded|, i);
    case Respond(request, response) => AnswerIsRecorded(r.seg, request, response);
    case Rule(_, _, _, _) =>
  }

  lemma {:induction false} FirstOfMore(answers: seq<InputResponse>, a: InputResponse)
    ensures FirstOfEach(answers + [a]) ==
            FirstOfEach(answers) + if HasHeard(FirstOfEach(answers), a.device) then [] else [a]
  {
    var all := answers + [a];
    assert all[..|answers|] == answers && all[|answers|] == a;
    FirstsAreFirst(answers);
    OneMore(FirstOfEach(answers), answers, a, all, FirstOfEach(all));
  }

  /** After every run, whatever it folded: a row holds exactly the first answer of each device that addressed it,
      in the order given. */
  lemma {:induction false} FirstAnswersStand(actions: seq<Action>, i: nat, policy: SummaryPolicy, rules: Rules)
    ensures var r := Streamed(actions, policy, rules);
            Unanswered(r.folded) && RecordedAt(r.seg.rows, i) == FirstOfEach(AnswersTo(actions, i, policy, rules))
  {
    if actions != [] {
      var n := |actions| - 1;
      var r, a := Streamed(actions[..n], policy, rules), actions[n];
      FirstAnswersStand(actions[..n], i, policy, rules);
      ActAnswers(r, a, policy, rules, i);
      HeardIsFirst(AnswersTo(actions[..n], i, policy, rules), AnswerTo(r, a, i));
    }
  }

  lemma HeardIsFirst(answers: seq<InputResponse>, given: Option<InputResponse>)
    ensures FirstOfEach(answers + if given.Some? then [given.value] else []) == HeardNext(FirstOfEach(answers), given)
  {
    if given.Some? {
      FirstOfMore(answers, given.value);
    } else {
      assert answers + [] == answers;
    }
  }

  // ── denials ────────────────────────────────────────────────────────────────

  predicate RecordsDenial(row: Row) {
    DecisionCol in row && row[DecisionCol] == DecisionCell(Deny)
  }

  /** The row of slot `i` records a denial. */
  predicate Denied(seg: Segment, i: nat)
    requires i < |seg.rows|
  {
    RecordsDenial(seg.rows[i])
  }

  /** The run has folded an approval into the slot since it was last written. */
  predicate Approving(prev: MessagePart, part: MessagePart) {
    prev != part && part.PermissionPart? && part.decision.Some? && part.decision != Some(Deny)
  }

  /** The tick gets as far as the slot, and has an approval to write there. */
  predicate Approves(r: Run, i: nat)
    requires Aligned(r.seg) && i < |r.seg.written|
  {
    i < |r.folded| && SyncTo(r.seg, r.folded, i).ok && Approving(r.seg.written[i], r.folded[i])
  }

  lemma UpdateDecides(row: Row, part: MessagePart)
    requires RecordsDenial(row)
    ensures RecordsDenial(Updated(row, part)) <==>
            !(part.PermissionPart? && part.decision.Some? && part.decision != Some(Deny))
  {
    UpdatedCell(row, part, DecisionCol);
  }

  lemma SlotDecides(s: Segment, i: nat, part: MessagePart)
    requires Aligned(s) && i < |s.rows| && RecordsDenial(s.rows[i])
    ensures var seg := SyncPart(s, i, part).seg;
            i < |seg.rows| && (RecordsDenial(seg.rows[i]) <==> !Approving(s.written[i], part))
  {
    UpdateDecides(s.rows[i], part);
  }

  lemma OtherSlots(s: Segment, i: nat, j: nat, part: MessagePart)
    requires Aligned(s) && i < |s.rows| && j <= |s.rows| && i != j
    ensures var seg := SyncPart(s, j, part).seg;
            i < |seg.rows| && seg.rows[i] == s.rows[i] && seg.written[i] == s.written[i]
  {
  }

  /** From slot `m` to slot `n` a sync of any list leaves slot `i` alone, unless it lies between them. */
  lemma {:induction false} SlotKept(s: Segment, folded: seq<MessagePart>, i: nat, m: nat, n: nat) returns (r: Synced)
    requires Aligned(s) && m <= n <= |folded| && (n <= i || i < m) && i < |SyncTo(s, folded, m).seg.rows|
    ensures r == SyncTo(s, folded, n) && Aligned(r.seg) && i < |r.seg.rows|
    ensures var start := SyncTo(s, folded, m).seg;
            r.seg.rows[i] == start.rows[i] && r.seg.written[i] == start.written[i]
  {
    if m == n {
      r := SyncTo(s, folded, n);
    } else {
      var before := SlotKept(s, folded, i, m, n - 1);
      r := SyncStep(s, folded, n - 1, before);
      DecidesAt(before, r, i, n - 1, folded[n - 1]);
    }
  }

  /** A sync that comes to the slot decides for it there, and not before or after. */
  lemma SyncReachesSlot(s: Segment, folded: seq<MessagePart>, i: nat) returns (before: Synced, last: Synced)
    requires Aligned(s) && i < |folded| && i < |s.rows| && RecordsDenial(s.rows[i])
    ensures before == SyncTo(s, folded, i) && last == SyncTo(s, folded, |folded|) && i < |last.seg.rows|
    ensures RecordsDenial(last.seg.rows[i]) <==> !(before.ok && Approving(s.written[i], folded[i]))
  {
    before := SlotKept(s, folded, i, 0, i);
    var after := SyncStep(s, folded, i, before);
    DecidesAt(before, after, i, i, folded[i]);
    last := SlotKept(s, folded, i, i + 1, |folded|);
  }

  /** The same for a sync of any list. */
  lemma SyncDecides(s: Segment, folded: seq<MessagePart>, i: nat)
    requires Aligned(s) && i < |s.rows| && RecordsDenial(s.rows[i])
    ensures var seg := SyncTo(s, folded, |folded|).seg;
            && i < |seg.rows|
            && (RecordsDenial(seg.rows[i]) <==>
                !(i < |folded| && SyncTo(s, folded, i).ok && Approving(s.written[i], folded[i])))
  {
    if i < |folded| {
      var before, last := SyncReachesSlot(s, folded, i);
    } else {
      var last := SlotKept(s, folded, i, 0, |folded|);
    }
  }

  lemma SyncStep(s: Segment, folded: seq<MessagePart>, n: nat, before: Synced) returns (after: Synced)
    requires Aligned(s) && n < |folded| && before == SyncTo(s, folded, n)
    ensures Aligned(before.seg) && (before.ok ==> n <= |before.seg.written| && after == SyncPart(before.seg, n, folded[n]))
    ensures !before.ok ==> after == before
    ensures after == SyncTo(s, folded, n + 1)
  {
    after := SyncTo(s, folded, n + 1);
  }

  lemma DecidesAt(before: Synced, after: Synced, i: nat, j: nat, part: MessagePart)
    requires Aligned(before.seg) && i < |before.seg.rows|
    requires before.ok ==> j <= |before.seg.written| && after == SyncPart(before.seg, j, part)
    requires !before.ok ==> after == before
    ensures i < |after.seg.rows| && i < |after.seg.written|
    ensures i != j || !before.ok ==>
              after.seg.rows[i] == before.seg.rows[i] && after.seg.written[i] == before.seg.written[i]
    ensures i == j && before.ok && RecordsDenial(before.seg.rows[i]) ==>
              (RecordsDenial(after.seg.rows[i]) <==> !Approving(before.seg.written[i], part))
  {
    if before.ok && i != j {
      OtherSlots(before.seg, i, j, part);
    } else if before.ok && RecordsDenial(before.seg.rows[i]) {
      SlotDecides(before.seg, i, part);
    }
  }

  lemma OthersKeepDenial(r: Run, i: nat, a: Action, policy: SummaryPolicy, rules: Rules)
    requires Aligned(r.seg) && i < |r.seg.rows| && Denied(r.seg, i) && !a.Tick?
    ensures i < |Act(r, a, policy, rules).seg.rows| && Denied(Act(r, a, policy, rules).seg, i)
  {
  }

  /** After every run, whatever it folded: a denial once recorded in a row survives every event, answer and
      decision recorded from outside; it survives a tick exactly if the run has not folded an approval into
      the slot since it was last written, or the tick fails before it gets there. */
  lemma DenialSurvives(actions: seq<Action>, a: Action, i: nat, policy: SummaryPolicy, rules: Rules)
    requires var seg := Streamed(actions, policy, rules).seg; i < |seg.rows| && Denied(seg, i)
    ensures var r, next := Streamed(actions, policy, rules), Streamed(actions + [a], policy, rules);
            i < |next.seg.rows| && (Denied(next.seg, i) <==> !(a.Tick? && Approves(r, i)))
  {
    var r := Streamed(actions, policy, rules);
    assert (actions + [a])[..|actions|] == actions;
    if a.Tick? {
      SyncDecides(r.seg, r.folded, i);
    } else {
      OthersKeepDenial(r, i, a, policy, rules);
    }
  }

  /** Ticks of a run that only adds never fail, so there it is the approval alone that decides. */
  lemma ApprovalDecides(actions: seq<Action>, i: nat, policy: SummaryPolicy, rules: Rules)
    requires OnlyAdds(actions, policy, rules) && i < |Streamed(actions, policy, rules).seg.rows|
    ensures var r := Streamed(actions, policy, rules);
            i < |r.folded| && (Approves(r, i) <==> Approving(r.seg.written[i], r.folded[i]))
  {
    RunFollows(actions, policy, rules);
    var r := Streamed(actions, policy, rules);
    SyncRows(r.seg, r.folded, i);
  }

  /** The writer of decisions itself leaves a denial alone, with its device and its time. */
  lemma DenialStands(row: Row, decision: Option<PermissionChoice>, device: Option<string>, at: Option<int>)
    requires KindOf(row) == PermissionRow && PermissionFrom(row).decision == Some(Deny)
    ensures PermissionFrom(Decide(row, decision, device, at))
         == PermissionFrom(row).(resolved := true)
  {
  }

  /** That happens: an approval folded after a denial was recorded replaces it at the next tick. */
  lemma TickOverrulesDenial(p: MessagePart, name: string, device: Option<string>, at: Option<int>)
    requires p.PermissionPart? && !p.resolved && p.decision == None
    ensures var denied := Decide(Pushed(p), Some(Deny), device, at);
            && PermissionFrom(denied).decision == Some(Deny)
            && PermissionFrom(SlotRow(denied, p, Decided(p, p.requestId, Allow(name)))).decision == Some(Allow(name))
  {
    var row := DenialIsRecorded(Pushed(p), device, at);
    ApprovalIsWritten(row, p, Decided(p, p.requestId, Allow(name)), name);
  }

  lemma DenialIsRecorded(row: Row, device: Option<string>, at: Option<int>) returns (denied: Row)
    ensures denied == Decide(row, Some(Deny), device, at) && RecordsDenial(denied)
    ensures PermissionFrom(denied).decision == Some(Deny)
  {
    denied := Decide(row, Some(Deny), device, at);
  }

  lemma ApprovalIsWritten(row: Row, p: MessagePart, approved: MessagePart, name: string)
    requires p.PermissionPart? && approved.PermissionPart? && p != approved && approved.decision == Some(Allow(name))
    ensures PermissionFrom(SlotRow(row, p, approved)).decision == Some(Allow(name))
  {
    UpdatedCell(row, approved, DecisionCol);
    assert ColumnOf(approved, DecisionCol) == Some(DecisionCell(Allow(name)));
  }
}
