/** Compaction cycles over whole runs (crates/doc/src/parts.rs, lines 735-843). */
module Cycles {
  import opened Options
  import opened Text
  import opened Parts
  import opened Fold
  import opened FoldLaws

  // ── one cycle at a time ────────────────────────────────────────────────────

  /** The frames of one cycle in a run. */
  function FramesOf(events: seq<AgentEvent>, cycle: string): seq<CompactionFrame> {
    if events == [] then []
    else
      var n := |events| - 1;
      var ev := events[n];
      MoreFrames(FramesOf(events[..n], cycle), ev, cycle)
  }

  function MoreFrames(frames: seq<CompactionFrame>, ev: AgentEvent, cycle: string): seq<CompactionFrame> {
    if ev.ContextCompaction? && ev.cycle.id == cycle then frames + [ev.cycle] else frames
  }

  /** A cycle's part after its frames, by themselves. */
  function CycleOf(frames: seq<CompactionFrame>, policy: SummaryPolicy): (p: MessagePart)
    requires frames != []
    ensures p.CompactionPart? && p.id == CompactionId(frames[0].id) && p.compactionId == frames[0].id
  {
    var n := |frames| - 1;
    CycleAfter(if n == 0 then FreshCycle(frames[0]) else CycleOf(frames[..n], policy), frames[n], policy)
  }

  /** No tool call borrows the part id of a cycle; only a tool brings an id from outside. */
  ghost predicate NoSquatter(events: seq<AgentEvent>, cycle: string) {
    forall ev <- events :: ev.ToolCallEvent? ==> ev.id != CompactionId(cycle)
  }

  /** Exactly the cycle's own part carries the cycle's part id. */
  ghost predicate Holds(parts: seq<MessagePart>, cycle: string, p: Option<MessagePart>) {
    if p.None? then !HasId(parts, CompactionId(cycle))
    else exists i: nat :: HoldsAt(parts, cycle, p.value, i)
  }

  ghost predicate HoldsAt(parts: seq<MessagePart>, cycle: string, p: MessagePart, i: nat) {
    i < |parts| && parts[i] == p && p.CompactionPart? && p.id == CompactionId(cycle) &&
    forall j :: 0 <= j < |parts| && parts[j].id == CompactionId(cycle) ==> j == i
  }

  function OfFrames(frames: seq<CompactionFrame>, policy: SummaryPolicy): Option<MessagePart> {
    if frames == [] then None else Some(CycleOf(frames, policy))
  }

  lemma OtherIdsStartDifferently(n: nat, id: string, cycle: string)
    ensures TextId(n) != CompactionId(cycle) && ErrorId(n) != CompactionId(cycle)
    ensures InputId(id) != CompactionId(cycle) && PermissionId(id) != CompactionId(cycle)
  {
    assert CompactionId(cycle)[0] == 'c' && TextId(n)[0] == 't' && ErrorId(n)[0] == 'e';
    assert InputId(id)[0] == 'i' && PermissionId(id)[0] == 'p';
  }

  lemma CycleIdsDiffer(a: string, b: string)
    requires a != b
    ensures CompactionId(a) != CompactionId(b)
  {
    assert CompactionId(a)[4..] == a && CompactionId(b)[4..] == b;
  }

  /** An event that is not about the cycle leaves its part alone. */
  lemma OtherEvent(out: seq<MessagePart>, ev: AgentEvent, cycle: string, p: Option<MessagePart>,
                   policy: SummaryPolicy, rules: Rules)
    requires !Resets(ev) && Holds(out, cycle, p)
    requires ev.ToolCallEvent? ==> ev.id != CompactionId(cycle)
    requires ev.ContextCompaction? ==> ev.cycle.id != cycle
    ensures Holds(FoldEvent(out, ev, policy, rules), cycle, p)
  {
    var next := FoldEvent(out, ev, policy, rules);
    EventGrows(out, ev, policy, rules);
    LeavesOthers(out, ev, cycle, policy, rules);
    forall i | 0 <= i < |out| ensures next[i].id == out[i].id {
      EvolvedIsNamed(out[i], next[i], i);
    }
    if p.Some? {
      var i: nat :| HoldsAt(out, cycle, p.value, i);
      assert HoldsAt(next, cycle, p.value, i);
    }
  }

  lemma LeavesOthers(out: seq<MessagePart>, ev: AgentEvent, cycle: string, policy: SummaryPolicy, rules: Rules)
    requires !Resets(ev)
    requires ev.ToolCallEvent? ==> ev.id != CompactionId(cycle)
    requires ev.ContextCompaction? ==> ev.cycle.id != cycle
    ensures var next := FoldEvent(out, ev, policy, rules);
            (|next| > |out| ==> next[|out|].id != CompactionId(cycle)) &&
            forall i :: 0 <= i < |out| && out[i].CompactionPart? && out[i].id == CompactionId(cycle) ==>
                i < |next| && next[i] == out[i]
  {
    OtherIdsStartDifferently(|out|, if ev.InputRequested? || ev.PermissionRequested? then ev.requestId else "", cycle);
    if ev.ContextCompaction? {
      CycleIdsDiffer(ev.cycle.id, cycle);
    }
  }

  lemma OwnFrame(out: seq<MessagePart>, frame: CompactionFrame, p: Option<MessagePart>, policy: SummaryPolicy)
    requires Holds(out, frame.id, p)
    ensures Holds(FoldCompaction(out, frame, policy), frame.id,
                  Some(CycleAfter(if p.Some? then p.value else FreshCycle(frame), frame, policy)))
  {
    var id := CompactionId(frame.id);
    var next := FoldCompaction(out, frame, policy);
    if p.Some? {
      var i: nat :| HoldsAt(out, frame.id, p.value, i);
      assert HasId(out, id);
      assert FindPart(out, id) == Some(i);
      assert HoldsAt(next, frame.id, CycleAfter(p.value, frame, policy), i);
    } else {
      var wide := out + [FreshCycle(frame)];
      assert wide[|out|].id == id;
      assert FindPart(wide, id) == Some(|out|);
      assert HoldsAt(next, frame.id, CycleAfter(FreshCycle(frame), frame, policy), |out|);
    }
  }

  /** One more frame of a cycle. */
  lemma CycleOfMore(frames: seq<CompactionFrame>, frame: CompactionFrame, policy: SummaryPolicy)
    ensures CycleOf(frames + [frame], policy)
         == CycleAfter(if frames == [] then FreshCycle(frame) else CycleOf(frames, policy), frame, policy)
  {
    assert (frames + [frame])[..|frames|] == frames;
  }

  lemma CycleStep(out: seq<MessagePart>, frames: seq<CompactionFrame>, ev: AgentEvent, cycle: string,
                  policy: SummaryPolicy, rules: Rules)
    requires !Resets(ev) && Holds(out, cycle, OfFrames(frames, policy))
    requires ev.ToolCallEvent? ==> ev.id != CompactionId(cycle)
    ensures Holds(FoldEvent(out, ev, policy, rules), cycle,
                  OfFrames(MoreFrames(frames, ev, cycle), policy))
  {
    if ev.ContextCompaction? && ev.cycle.id == cycle {
      OwnFrame(out, ev.cycle, OfFrames(frames, policy), policy);
      CycleOfMore(frames, ev.cycle, policy);
    } else {
      OtherEvent(out, ev, cycle, OfFrames(frames, policy), policy, rules);
    }
  }

  /** After every run since the last reset, a cycle with frames has exactly one part, which its own
      frames alone determine; a cycle without frames has none. */
  lemma {:induction false} OnePartPerCycle(events: seq<AgentEvent>, cycle: string, policy: SummaryPolicy, rules: Rules)
    requires ResetFree(events) && NoSquatter(events, cycle)
    ensures Holds(FoldRun([], events, policy, rules), cycle, OfFrames(FramesOf(events, cycle), policy))
  {
    if events != [] {
      var n := |events| - 1;
      OnePartPerCycle(events[..n], cycle, policy, rules);
      assert events[n] in events;
      var before, frames := FoldRun([], events[..n], policy, rules), FramesOf(events[..n], cycle);
      CycleStep(before, frames, events[n], cycle, policy, rules);
      assert FoldRun([], events, policy, rules) == FoldEvent(before, events[n], policy, rules);
      assert FramesOf(events, cycle) == MoreFrames(frames, events[n], cycle);
    }
  }

  // ── what the frames of a cycle add up to ───────────────────────────────────

  /** The last status that settles anything. */
  function FinalStatus(frames: seq<CompactionFrame>): CompactionStatus {
    if frames == [] then InProgress
    else
      var n := |frames| - 1;
      if Settled(frames[n].status) then frames[n].status else FinalStatus(frames[..n])
  }

  function TextOr(text: Option<string>, otherwise: string): string {
    if text.Some? then text.value else otherwise
  }

  /** The whole summary the agent produced: the last full one and every delta after it. */
  function Accumulated(frames: seq<CompactionFrame>): string {
    if frames == [] then ""
    else
      var n := |frames| - 1;
      TextOr(frames[n].summary, Accumulated(frames[..n])) + TextOr(frames[n].delta, "")
  }

  ghost predicate CarriesText(frames: seq<CompactionFrame>) {
    exists frame <- frames :: frame.summary.Some? || frame.delta.Some?
  }

  lemma CarriesTextMore(frames: seq<CompactionFrame>)
    requires frames != []
    ensures var n := |frames| - 1;
            CarriesText(frames) <==> CarriesText(frames[..n]) || frames[n].summary.Some? || frames[n].delta.Some?
  {
    var n := |frames| - 1;
    assert frames == frames[..n] + [frames[n]];
  }

  lemma BytesStep(before: string, carried: bool, bytes: Option<nat>, frame: CompactionFrame)
    requires bytes == if carried then Some(ByteLen(before)) else None
    requires !carried ==> before == ""
    ensures var after := TextOr(frame.summary, before) + TextOr(frame.delta, "");
            BytesAfter(bytes, frame) ==
            if carried || frame.summary.Some? || frame.delta.Some? then Some(ByteLen(after)) else None
  {
    ByteLenConcat(TextOr(frame.summary, before), TextOr(frame.delta, ""));
  }

  lemma {:induction false} NoTextYet(frames: seq<CompactionFrame>)
    requires !CarriesText(frames)
    ensures Accumulated(frames) == ""
  {
    if frames != [] {
      CarriesTextMore(frames);
      NoTextYet(frames[..|frames| - 1]);
    }
  }

  /** The status is the last that settled, so a cycle never reopens; the byte count is that of the
      whole summary, and there is one to fetch exactly when it is not empty. */
  lemma {:induction false} CycleCounts(frames: seq<CompactionFrame>, policy: SummaryPolicy)
    requires frames != []
    ensures var p := CycleOf(frames, policy);
            && p.status == FinalStatus(frames)
            && p.summaryBytes == (if CarriesText(frames) then Some(ByteLen(Accumulated(frames))) else None)
            && (p.summaryInJournal <==> Accumulated(frames) != "")
  {
    var n := |frames| - 1;
    var init := frames[..n];
    if n > 0 {
      CycleCounts(init, policy);
    } else {
      assert init == [];
    }
    CarriesTextMore(frames);
    if !CarriesText(init) {
      NoTextYet(init);
    }
    BytesStep(Accumulated(init), CarriesText(init),
              if n == 0 then None else CycleOf(init, policy).summaryBytes, frames[n]);
    if !CarriesText(frames) {
      NoTextYet(frames);
    }
  }

  /** `v` is the last value given, if any was. */
  ghost predicate LastGiven<T>(given: seq<Option<T>>, v: Option<T>) {
    if v.Some? then exists m :: 0 <= m < |given| && given[m] == v && forall j :: m < j < |given| ==> given[j].None?
    else forall j :: 0 <= j < |given| ==> given[j].None?
  }

  lemma GivenMore<T>(given: seq<Option<T>>, last: Option<T>, v: Option<T>, all: seq<Option<T>>)
    requires LastGiven(given, v) && all == given + [last]
    ensures LastGiven(all, Or(last, v))
  {
    if last.Some? {
      assert all[|given|] == last;
    } else if v.Some? {
      var m :| 0 <= m < |given| && given[m] == v && forall j :: m < j < |given| ==> given[j].None?;
      assert all[m] == v;
    }
  }

  function Triggers(frames: seq<CompactionFrame>): seq<Option<string>> {
    seq(|frames|, i requires 0 <= i < |frames| => frames[i].trigger)
  }

  function Errors(frames: seq<CompactionFrame>): seq<Option<string>> {
    seq(|frames|, i requires 0 <= i < |frames| => frames[i].error)
  }

  function CountsBefore(frames: seq<CompactionFrame>): seq<Option<nat>> {
    seq(|frames|, i requires 0 <= i < |frames| => frames[i].tokensBefore)
  }

  function CountsAfter(frames: seq<CompactionFrame>): seq<Option<nat>> {
    seq(|frames|, i requires 0 <= i < |frames| => frames[i].tokensAfter)
  }

  ghost predicate ShowsDetails(frames: seq<CompactionFrame>, p: MessagePart) {
    && p.CompactionPart?
    && LastGiven(Triggers(frames), p.trigger) && LastGiven(Errors(frames), p.error)
    && LastGiven(CountsBefore(frames), p.tokensBefore) && LastGiven(CountsAfter(frames), p.tokensAfter)
  }

  lemma DetailsMore(init: seq<CompactionFrame>, last: CompactionFrame, p: MessagePart, policy: SummaryPolicy)
    requires ShowsDetails(init, p)
    ensures ShowsDetails(init + [last], CycleAfter(p, last, policy))
  {
    GivenMore(Triggers(init), last.trigger, p.trigger, Triggers(init + [last]));
    GivenMore(Errors(init), last.error, p.error, Errors(init + [last]));
    GivenMore(CountsBefore(init), last.tokensBefore, p.tokensBefore, CountsBefore(init + [last]));
    GivenMore(CountsAfter(init), last.tokensAfter, p.tokensAfter, CountsAfter(init + [last]));
  }

  /** The part shows the last trigger, token counts and error that any frame gave; a frame without them takes none
      back. */
  lemma {:induction false} CycleDetails(frames: seq<CompactionFrame>, policy: SummaryPolicy)
    requires frames != []
    ensures ShowsDetails(frames, CycleOf(frames, policy))
  {
    var n := |frames| - 1;
    if n > 0 {
      CycleDetails(frames[..n], policy);
    }
    assert frames == frames[..n] + [frames[n]];
    DetailsMore(frames[..n], frames[n], if n == 0 then FreshCycle(frames[0]) else CycleOf(frames[..n], policy), policy);
  }

  /** Without a policy for it, no summary text reaches the document. */
  lemma {:induction false} JournalKeepsTheText(frames: seq<CompactionFrame>)
    requires frames != []
    ensures CycleOf(frames, JournalOnly).summary == None
  {
    if |frames| > 1 {
      JournalKeepsTheText(frames[..|frames| - 1]);
    }
  }

  // ── the cap ────────────────────────────────────────────────────────────────

  lemma {:induction false} FittingMore(a: string, d: string, budget: nat)
    ensures ByteLen(a) <= budget ==> Fitting(a + d, budget) == |a| + Fitting(d, budget - ByteLen(a))
    ensures ByteLen(a) > budget ==> Fitting(a + d, budget) == Fitting(a, budget)
  {
    if a == [] {
      assert a + d == d;
    } else {
      assert (a + d)[1..] == a[1..] + d;
      if Width(a[0]) <= budget {
        FittingMore(a[1..], d, budget - Width(a[0]));
      }
    }
  }

  /** Nothing of `d` would follow the cut of `a`: `a` was not cut, or `d` starts with a character too
      wide for the bytes the cut left over. */
  predicate NothingSlipsIn(a: string, d: string) {
    ByteLen(a) <= SUMMARY_MAX_BYTES || d == "" || Width(d[0]) > SUMMARY_MAX_BYTES - CutAt(a)
  }

  function CutAt(a: string): (n: nat)
    ensures n <= SUMMARY_MAX_BYTES
  {
    FittingIsLongest(a, SUMMARY_MAX_BYTES);
    ByteLen(CapSummary(a))
  }

  /** What the document's text `s` keeps of the whole summary `a`: at least all that a cut of the whole
      would keep, and all of it as long as it fits. */
  predicate Kept(s: string, a: string) {
    CapSummary(a) <= s && ByteLen(s) <= SUMMARY_MAX_BYTES && (ByteLen(a) <= SUMMARY_MAX_BYTES ==> s == a)
  }

  lemma CapFits(a: string)
    ensures Kept(CapSummary(a), a)
  {
    FittingIsLongest(a, SUMMARY_MAX_BYTES);
    assert a[..|a|] == a;
  }

  lemma CapStep(s: string, a: string, d: string)
    requires Kept(s, a)
    ensures Kept(CapSummary(s + d), a + d)
    ensures CapSummary(s + d) == CapSummary(a + d) <==> s == CapSummary(a) && NothingSlipsIn(a, d)
  {
    CapFits(a);
    CapFits(s + d);
    CapFits(a + d);
    FittingMore(s, d, SUMMARY_MAX_BYTES);
    FittingMore(a, d, SUMMARY_MAX_BYTES);
    if ByteLen(a) > SUMMARY_MAX_BYTES {
      ByteLenConcat(a, d);
      var k := Fitting(a, SUMMARY_MAX_BYTES);
      assert (a + d)[..k] == a[..k];
      var more := Fitting(d, SUMMARY_MAX_BYTES - ByteLen(s));
      assert (s + d)[..|s| + more] == s + d[..more];
    }
  }

  /** A cut prefix is the only cut that is a prefix. */
  lemma OnlyPrefix(s: string, a: string)
    requires Kept(s, a)
    ensures s <= a <==> s == CapSummary(a)
  {
    CapFits(a);
    if s <= a && s != CapSummary(a) {
      var k := Fitting(a, SUMMARY_MAX_BYTES);
      FittingIsLongest(a, SUMMARY_MAX_BYTES);
      assert s == a[..|s|];
      if |s| > k + 1 {
        LongerIsMore(a, k + 1, |s|);
      }
    }
  }

  /** No delta of the cycle slips in behind a cut. */
  predicate CutsHold(frames: seq<CompactionFrame>) {
    frames == [] ||
    var n := |frames| - 1;
    (frames[n].summary.Some? || CutsHold(frames[..n])) &&
    NothingSlipsIn(TextOr(frames[n].summary, Accumulated(frames[..n])), TextOr(frames[n].delta, ""))
  }

  lemma SummaryStep(s: Option<string>, a: string, clean: bool, frame: CompactionFrame)
    requires Kept(TextOr(s, ""), a) && (clean <==> TextOr(s, "") == CapSummary(a))
    ensures var t := TextOr(SummaryAfter(s, frame, SummaryInDoc), "");
            var base, d := TextOr(frame.summary, a), TextOr(frame.delta, "");
            && Kept(t, base + d)
            && ((frame.summary.Some? || clean) && NothingSlipsIn(base, d) <==> t == CapSummary(base + d))
  {
    var base, d := TextOr(frame.summary, a), TextOr(frame.delta, "");
    CapFits(base);
    var start := if frame.summary.Some? then CapSummary(base) else TextOr(s, "");
    CapStep(start, base, d);
    if frame.delta.None? {
      assert start + d == start && base + d == base;
      FittingIsLongest(start, SUMMARY_MAX_BYTES);
      assert start[..|start|] == start;
    }
  }

  /** The text in the document never exceeds the cap, and is all of the summary while that fits. Cutting
      delta by delta gives what cutting the whole would give, and a prefix of the summary at all, exactly
      when no delta slips in behind a cut. */
  lemma {:induction false} SummaryInTheDocument(frames: seq<CompactionFrame>)
    requires frames != []
    ensures var p, whole := CycleOf(frames, SummaryInDoc), Accumulated(frames);
            var t := TextOr(p.summary, "");
            && (p.summary.Some? <==> CarriesText(frames))
            && ByteLen(t) <= SUMMARY_MAX_BYTES
            && (ByteLen(whole) <= SUMMARY_MAX_BYTES ==> t == whole)
            && (t == CapSummary(whole) <==> CutsHold(frames))
            && (t <= whole <==> CutsHold(frames))
  {
    StoredSummary(frames);
    OnlyPrefix(TextOr(CycleOf(frames, SummaryInDoc).summary, ""), Accumulated(frames));
  }

  lemma {:induction false} StoredSummary(frames: seq<CompactionFrame>)
    requires frames != []
    ensures var p := CycleOf(frames, SummaryInDoc);
            && (p.summary.Some? <==> CarriesText(frames))
            && Kept(TextOr(p.summary, ""), Accumulated(frames))
            && (TextOr(p.summary, "") == CapSummary(Accumulated(frames)) <==> CutsHold(frames))
  {
    var n := |frames| - 1;
    var init := frames[..n];
    CarriesTextMore(frames);
    if n > 0 {
      StoredSummary(init);
    } else {
      assert init == [];
      CapFits("");
    }
    SummaryStep(if n == 0 then None else CycleOf(init, SummaryInDoc).summary, Accumulated(init), CutsHold(init), frames[n]);
  }

  // ── a delta that slips in ──────────────────────────────────────────────────

  function Exes(n: nat): string {
    seq(n, i => 'x')
  }

  lemma {:induction false} ExesLen(n: nat)
    ensures ByteLen(Exes(n)) == n
  {
    if n > 0 {
      assert Exes(n)[1..] == Exes(n - 1);
      ExesLen(n - 1);
    }
  }

  function DeltaFrame(text: string): CompactionFrame {
    CompactionFrame("c", InProgress, None, None, None, None, Some(text), None)
  }

  /** A euro sign that no longer fits is dropped, and the letter after it is kept: the text in the
      document is not a prefix of the summary. */
  lemma CutInTheMiddle()
    ensures var frames := [DeltaFrame(Exes(8191) + "\U{20AC}"), DeltaFrame("y")];
            !(TextOr(CycleOf(frames, SummaryInDoc).summary, "") <= Accumulated(frames))
  {
    var a := Exes(8191) + "\U{20AC}";
    var frames := [DeltaFrame(a), DeltaFrame("y")];
    ExesLen(8191);
    ByteLenConcat(Exes(8191), "\U{20AC}");
    assert ByteLen(a) == 8194;
    FittingMore(Exes(8191), "\U{20AC}", SUMMARY_MAX_BYTES);
    assert CapSummary(a) == Exes(8191);
    assert frames[..1] == [DeltaFrame(a)] && frames[..1][..0] == [];
    assert Accumulated(frames[..1]) == "" + a == a;
    assert !NothingSlipsIn(a, "y");
    assert !CutsHold(frames);
    SummaryInTheDocument(frames);
  }
}
