/** Writing a streamed entry bit by bit leaves what writing it at once would have left
    (crates/doc/src/schema.rs, lines 1712-1886; crates/doc/src/parts.rs, lines 423-733). */
module StreamLaws {
  import opened Options
  import opened Parts
  import opened FoldLaws
  import opened DocParts
  import opened RowUpdates
  import opened SegmentWriter

  // ── one slot ───────────────────────────────────────────────────────────────

  /** What `sync` makes of the row of a part that has grown from `prev` to `part`. */
  function SlotRow(row: Row, prev: MessagePart, part: MessagePart): Row {
    if prev == part then row
    else if prev.TextPart? && part.TextPart? && prev.text <= part.text then
      if prev.text == part.text then row else WithText(row, part.text[|prev.text|..])
    else Updated(row, part)
  }

  lemma KeepsItself(p: MessagePart)
    ensures KeepsColumns(p, p)
  {
  }

  lemma TextSlot(row: Row, prev: MessagePart, part: MessagePart)
    requires Mirrors(row, prev) && Evolves(prev, part) && prev.TextPart?
    ensures TextCol in row && Mirrors(SlotRow(row, prev, part), part) && KeepsColumns(prev, part)
  {
    assert Get(row, TextCol) == ColumnOf(prev, TextCol);
    assert part.text == prev.text + part.text[|prev.text|..];
    var after := SlotRow(row, prev, part);
    forall c: Column ensures Get(after, c) == ColumnOf(part, c) {
      assert Get(row, c) == ColumnOf(prev, c);
    }
  }

  /** The row shows the part exactly when no column of it has gone; the answers stay. */
  lemma SlotShows(row: Row, prev: MessagePart, part: MessagePart)
    requires Mirrors(row, prev) && Evolves(prev, part)
    ensures var after := SlotRow(row, prev, part);
            && (FromDoc(after) == AnsweredBy(Stored(part), after) <==> KeepsColumns(prev, part))
            && (KeepsColumns(prev, part) ==> Mirrors(after, part))
            && ResponsesOf(after) == ResponsesOf(row)
  {
    var after := SlotRow(row, prev, part);
    if prev.TextPart? {
      TextSlot(row, prev, part);
      MirrorReads(after, part);
      EvolvedIsNamed(prev, part, 0);
    } else if prev == part {
      KeepsItself(part);
      MirrorReads(row, part);
    } else {
      UpdatedReads(row, prev, part);
      if KeepsColumns(prev, part) {
        UpdatedHolds(row, prev, part);
      }
    }
  }

  lemma UpdatedHolds(row: Row, prev: MessagePart, part: MessagePart)
    requires Mirrors(row, prev) && Evolves(prev, part) && KeepsColumns(prev, part)
    ensures Mirrors(Updated(row, part), part)
  {
    UpdatedMirrors(row, prev, part);
    var after := Updated(row, part);
    forall c: Column | !Shared(part, c) ensures Get(after, c) == ColumnOf(part, c) {
      StaleColumns(prev, part, c);
      assert Get(after, c) == ColumnOf(Stale(prev, part), c);
    }
  }

  // ── all slots ──────────────────────────────────────────────────────────────

  ghost predicate InStep(s: Segment) {
    Aligned(s) && forall i :: 0 <= i < |s.rows| ==> Mirrors(s.rows[i], s.written[i])
  }

  function RowAfter(s: Segment, folded: seq<MessagePart>, i: nat): Row
    requires Aligned(s) && i < |folded|
  {
    if i < |s.written| then SlotRow(s.rows[i], s.written[i], folded[i]) else Pushed(folded[i])
  }

  /** The slots before `n` are written, the others as they were. */
  ghost predicate SyncedUpTo(s: Segment, folded: seq<MessagePart>, n: nat, t: Segment)
    requires Aligned(s) && n <= |folded|
  {
    && Aligned(t) && |t.written| == (if n > |s.written| then n else |s.written|)
    && (forall i :: 0 <= i < n ==> t.rows[i] == RowAfter(s, folded, i) && t.written[i] == folded[i])
    && (forall i :: n <= i < |s.written| ==> t.rows[i] == s.rows[i] && t.written[i] == s.written[i])
  }

  /** `sync` never fails on a list that has grown from the one it wrote, and treats every slot alike. */
  lemma SyncRows(s: Segment, folded: seq<MessagePart>, n: nat)
    requires InStep(s) && Grown(s.written, folded) && n <= |folded|
    ensures SyncTo(s, folded, n).ok && SyncedUpTo(s, folded, n, SyncTo(s, folded, n).seg)
  {
    var t := SyncReaches(s, folded, n);
  }

  lemma {:induction false} SyncReaches(s: Segment, folded: seq<MessagePart>, n: nat) returns (t: Segment)
    requires InStep(s) && Grown(s.written, folded) && n <= |folded|
    ensures SyncTo(s, folded, n) == Synced(true, t) && SyncedUpTo(s, folded, n, t)
  {
    if n == 0 {
      t := s;
    } else {
      var before := SyncReaches(s, folded, n - 1);
      var after := SlotSynced(s, folded, n - 1, before);
      t := after.seg;
    }
  }

  lemma SlotSynced(s: Segment, folded: seq<MessagePart>, n: nat, before: Segment) returns (after: Synced)
    requires InStep(s) && Grown(s.written, folded) && n < |folded| && SyncedUpTo(s, folded, n, before)
    ensures after == SyncPart(before, n, folded[n]) && after.ok && SyncedUpTo(s, folded, n + 1, after.seg)
  {
    after := SyncPart(before, n, folded[n]);
    RowStep(s, folded, n, before);
  }

  lemma RowStep(s: Segment, folded: seq<MessagePart>, i: nat, before: Segment)
    requires InStep(s) && Grown(s.written, folded) && i < |folded| && Aligned(before)
    requires |before.written| == if i > |s.written| then i else |s.written|
    requires i < |s.written| ==> before.rows[i] == s.rows[i] && before.written[i] == s.written[i]
    ensures var r := SyncPart(before, i, folded[i]);
            && r.ok && r.seg.rows[i] == RowAfter(s, folded, i) && r.seg.written[i] == folded[i]
            && (forall j :: 0 <= j < |before.written| && j != i ==>
                  r.seg.rows[j] == before.rows[j] && r.seg.written[j] == before.written[j])
  {
    if i < |s.written| {
      HasItsText(s, i);
      assert Evolves(s.written[i], folded[i]);
      if s.written[i].TextPart? && s.written[i].text == folded[i].text {
        assert folded[i].text[|s.written[i].text|..] == "";
      }
    }
  }

  ghost predicate AllKept(written: seq<MessagePart>, folded: seq<MessagePart>) {
    |written| <= |folded| && forall i :: 0 <= i < |written| ==> KeepsColumns(written[i], folded[i])
  }

  /** A row shows a part: read back, it is the part's stored form with the answers recorded so far. */
  predicate Shows(row: Row, p: MessagePart) {
    FromDoc(row) == AnsweredBy(Stored(p), row)
  }

  ghost predicate AllShown(rows: seq<Row>, folded: seq<MessagePart>) {
    |rows| == |folded| && forall i :: 0 <= i < |rows| ==> Shows(rows[i], folded[i])
  }

  /** After a `sync` the document shows the folded list exactly when no part lost a column since the
      last one; answers recorded meanwhile are still there. */
  lemma SyncShows(s: Segment, folded: seq<MessagePart>)
    requires InStep(s) && Grown(s.written, folded)
    ensures var r := SyncTo(s, folded, |folded|);
            && r.ok && r.seg.written == folded
            && (AllShown(r.seg.rows, folded) <==> AllKept(s.written, folded))
            && (AllKept(s.written, folded) ==> InStep(r.seg))
            && (forall i :: 0 <= i < |s.rows| ==> ResponsesOf(r.seg.rows[i]) == ResponsesOf(s.rows[i]))
  {
    SyncRows(s, folded, |folded|);
    var r := SyncTo(s, folded, |folded|).seg;
    forall i | 0 <= i < |folded|
      ensures Shows(r.rows[i], folded[i]) <==> (i < |s.written| ==> KeepsColumns(s.written[i], folded[i]))
      ensures (i < |s.written| ==> KeepsColumns(s.written[i], folded[i])) ==> Mirrors(r.rows[i], folded[i])
      ensures i < |s.rows| ==> ResponsesOf(r.rows[i]) == ResponsesOf(s.rows[i])
    {
      if i < |s.written| {
        assert Mirrors(s.rows[i], s.written[i]) && Evolves(s.written[i], folded[i]);
        SlotShows(s.rows[i], s.written[i], folded[i]);
      } else {
        PushedMirrors(folded[i]);
        MirrorReads(Pushed(folded[i]), folded[i]);
      }
    }
  }

  // ── texts ──────────────────────────────────────────────────────────────────

  /** Everything the history inserted into the text of slot `at`, in order. */
  function TypedInto(oplog: seq<TextOp>, at: nat): string {
    if oplog == [] then ""
    else
      var n := |oplog| - 1;
      TypedInto(oplog[..n], at) + if oplog[n].Inserted? && oplog[n].at == at then oplog[n].text else ""
  }

  function TextAt(parts: seq<MessagePart>, i: nat): string {
    if i < |parts| && parts[i].TextPart? then parts[i].text else ""
  }

  /** The history only ever inserted, and slot by slot inserted exactly the text that is there. */
  ghost predicate TypedOnce(s: Segment) {
    && (forall op <- s.oplog :: op.Inserted?)
    && (forall i: nat :: TypedInto(s.oplog, i) == TextAt(s.written, i))
  }

  lemma TypedMore(oplog: seq<TextOp>, op: TextOp, at: nat)
    ensures TypedInto(oplog + [op], at) ==
            TypedInto(oplog, at) + if op.Inserted? && op.at == at then op.text else ""
  {
    assert (oplog + [op])[..|oplog|] == oplog;
  }

  lemma PushTypes(s: Segment, part: MessagePart)
    requires Aligned(s) && TypedOnce(s)
    ensures TypedOnce(Push(s, part))
  {
    var t := Push(s, part);
    forall j: nat ensures TypedInto(t.oplog, j) == TextAt(t.written, j) {
      assert TypedInto(s.oplog, j) == TextAt(s.written, j);
      if part.TextPart? {
        TypedMore(s.oplog, Inserted(|s.rows|, part.text), j);
      } else {
        assert t.oplog == s.oplog;
      }
    }
  }

  lemma AppendTypes(s: Segment, t: Segment, i: nat, part: MessagePart, delta: string)
    requires TypedOnce(s) && i < |s.written| && s.written[i].TextPart? && part.TextPart?
    requires part.text == s.written[i].text + delta
    requires t.written == s.written[i := part] && t.oplog == s.oplog + [Inserted(i, delta)]
    ensures TypedOnce(t)
  {
    forall j: nat ensures TypedInto(t.oplog, j) == TextAt(t.written, j) {
      assert TypedInto(s.oplog, j) == TextAt(s.written, j);
      TypedMore(s.oplog, Inserted(i, delta), j);
    }
  }

  lemma QuietTypes(s: Segment, t: Segment, i: nat, part: MessagePart)
    requires TypedOnce(s) && i < |s.written| && t.written == s.written[i := part] && t.oplog == s.oplog
    requires TextAt([part], 0) == TextAt([s.written[i]], 0)
    ensures TypedOnce(t)
  {
    forall j: nat ensures TypedInto(t.oplog, j) == TextAt(t.written, j) {
      assert TypedInto(s.oplog, j) == TextAt(s.written, j);
    }
  }

  lemma SlotTypes(s: Segment, i: nat, part: MessagePart)
    requires Aligned(s) && i <= |s.written| && TypedOnce(s)
    requires i < |s.written| ==> Evolves(s.written[i], part) && (s.written[i].TextPart? ==> TextCol in s.rows[i])
    ensures TypedOnce(SyncPart(s, i, part).seg)
  {
    var t := SyncPart(s, i, part).seg;
    if i == |s.written| {
      PushTypes(s, part);
    } else if s.written[i] != part {
      var prev := s.written[i];
      if prev.TextPart? {
        var delta := part.text[|prev.text|..];
        assert part.text == prev.text + delta;
        if delta == "" {
          QuietTypes(s, t, i, part);
        } else {
          AppendTypes(s, t, i, part, delta);
        }
      } else {
        EvolvedIsNamed(prev, part, 0);
        assert t.oplog == s.oplog;
        QuietTypes(s, t, i, part);
      }
    }
  }

  lemma {:induction false} SyncTypes(s: Segment, folded: seq<MessagePart>, n: nat)
    requires InStep(s) && Grown(s.written, folded) && n <= |folded| && TypedOnce(s)
    ensures TypedOnce(SyncTo(s, folded, n).seg)
  {
    if n > 0 {
      SyncTypes(s, folded, n - 1);
      var before := Reached(s, folded, n - 1);
      TypeStep(s, folded, n - 1, before);
    }
  }

  /** The segment `sync` has reached before slot `i`. */
  lemma Reached(s: Segment, folded: seq<MessagePart>, i: nat) returns (before: Segment)
    requires InStep(s) && Grown(s.written, folded) && i < |folded|
    ensures before == SyncTo(s, folded, i).seg && Aligned(before)
    ensures |before.written| == if i > |s.written| then i else |s.written|
    ensures SyncTo(s, folded, i + 1) == SyncPart(before, i, folded[i])
    ensures i < |s.written| ==> before.rows[i] == s.rows[i] && before.written[i] == s.written[i]
  {
    SyncRows(s, folded, i);
    before := SyncTo(s, folded, i).seg;
  }

  lemma TypeStep(s: Segment, folded: seq<MessagePart>, i: nat, before: Segment)
    requires InStep(s) && Grown(s.written, folded) && i < |folded| && TypedOnce(before) && Aligned(before)
    requires |before.written| == if i > |s.written| then i else |s.written|
    requires i < |s.written| ==> before.rows[i] == s.rows[i] && before.written[i] == s.written[i]
    ensures TypedOnce(SyncPart(before, i, folded[i]).seg)
  {
    if i < |s.written| {
      HasItsText(s, i);
      assert Evolves(s.written[i], folded[i]);
    }
    SlotTypes(before, i, folded[i]);
  }

  lemma HasItsText(s: Segment, i: nat)
    requires InStep(s) && i < |s.written|
    ensures s.written[i].TextPart? ==> TextCol in s.rows[i]
  {
    assert Mirrors(s.rows[i], s.written[i]);
    assert Get(s.rows[i], TextCol) == ColumnOf(s.written[i], TextCol);
  }

  /** What the history makes of the text in slot `at`: an insertion goes behind what is there, a rewrite replaces it. */
  function TextFrom(oplog: seq<TextOp>, at: nat): string {
    if oplog == [] then ""
    else
      var n := |oplog| - 1;
      var before := TextFrom(oplog[..n], at);
      if oplog[n].at != at then before else if oplog[n].Inserted? then before + oplog[n].text else oplog[n].text
  }

  function TextIn(rows: seq<Row>, i: nat): string {
    if i < |rows| then StrOr(rows[i], TextCol, "") else ""
  }

  /** The history accounts for every text of the document. */
  ghost predicate HistoryTells(s: Segment) {
    forall i: nat :: TextFrom(s.oplog, i) == TextIn(s.rows, i)
  }

  lemma TextFromMore(oplog: seq<TextOp>, op: TextOp, at: nat)
    ensures TextFrom(oplog + [op], at) ==
            if op.at != at then TextFrom(oplog, at) else if op.Inserted? then TextFrom(oplog, at) + op.text else op.text
  {
    assert (oplog + [op])[..|oplog|] == oplog;
  }

  lemma OneTextChanges(s: Segment, t: Segment, op: TextOp)
    requires HistoryTells(s) && t.oplog == s.oplog + [op]
    requires TextIn(t.rows, op.at) == if op.Inserted? then TextIn(s.rows, op.at) + op.text else op.text
    requires forall i: nat :: i != op.at ==> TextIn(t.rows, i) == TextIn(s.rows, i)
    ensures HistoryTells(t)
  {
    forall i: nat ensures TextFrom(t.oplog, i) == TextIn(t.rows, i) {
      TextFromMore(s.oplog, op, i);
    }
  }

  /** Whatever is synced, fitting or not, the history stays an account of the texts. */
  lemma SlotKeepsHistory(s: Segment, i: nat, part: MessagePart)
    requires Aligned(s) && i <= |s.written| && HistoryTells(s)
    ensures HistoryTells(SyncPart(s, i, part).seg)
  {
    var t := SyncPart(s, i, part).seg;
    if i == |s.written| {
      assert Get(Pushed(part), TextCol) == ColumnOf(part, TextCol) by { PushedMirrors(part); }
      if part.TextPart? {
        OneTextChanges(s, t, Inserted(i, part.text));
      } else {
        assert t.oplog == s.oplog;
        assert forall j: nat :: TextIn(t.rows, j) == TextIn(s.rows, j);
      }
    } else {
      UpdatedCell(s.rows[i], part, TextCol);
      if t.oplog == s.oplog {
        assert forall j: nat :: TextIn(t.rows, j) == TextIn(s.rows, j);
      } else {
        OneTextChanges(s, t, t.oplog[|s.oplog|]);
      }
    }
  }

  lemma {:induction false} SyncKeepsHistory(s: Segment, folded: seq<MessagePart>, n: nat)
    requires Aligned(s) && HistoryTells(s) && n <= |folded|
    ensures HistoryTells(SyncTo(s, folded, n).seg)
  {
    if n > 0 {
      SyncKeepsHistory(s, folded, n - 1);
      var before := SyncTo(s, folded, n - 1);
      if before.ok {
        SlotKeepsHistory(before.seg, n - 1, folded[n - 1]);
      }
    }
  }

  // ── answers ────────────────────────────────────────────────────────────────

  lemma AnswerMirrors(row: Row, p: MessagePart, request: string, response: InputResponse)
    requires Mirrors(row, p) && AsksFor(row, request)
    ensures Mirrors(Answer(row, response), p)
    ensures ResponsesOf(row) <= ResponsesOf(Answer(row, response))
  {
    assert Get(row, KindCol) == ColumnOf(p, KindCol);
    assert p.InputPart?;
    var after := Answer(row, response);
    forall c: Column | !Shared(p, c) ensures Get(after, c) == ColumnOf(p, c) {
      assert Get(row, c) == ColumnOf(p, c);
    }
  }

  lemma AnswerInStep(s: Segment, request: string, response: InputResponse)
    requires InStep(s)
    ensures InStep(RecordAnswer(s, request, response))
    ensures RecordAnswer(s, request, response).written == s.written && RecordAnswer(s, request, response).oplog == s.oplog
  {
    var ix := FindAsked(s.rows, request);
    if ix.Some? {
      AnswerMirrors(s.rows[ix.value], s.written[ix.value], request, response);
    }
  }

  lemma DecideMirrors(row: Row, p: MessagePart, decision: Option<PermissionChoice>, device: Option<string>, at: Option<int>)
    requires Mirrors(row, p) && KindOf(row) == PermissionRow
    ensures Mirrors(Decide(row, decision, device, at), p)
  {
    assert Get(row, KindCol) == ColumnOf(p, KindCol);
    assert p.PermissionPart?;
    var after := Decide(row, decision, device, at);
    forall c: Column | !Shared(p, c) ensures Get(after, c) == ColumnOf(p, c) {
      assert Get(row, c) == ColumnOf(p, c);
    }
  }

  lemma DecisionInStep(s: Segment, request: string, decision: Option<PermissionChoice>, device: Option<string>,
                       at: Option<int>)
    requires InStep(s)
    ensures var t := RecordDecision(s, request, decision, device, at);
            InStep(t) && t.written == s.written && t.oplog == s.oplog
  {
    var ix := FindRow(s.rows, PermissionRow, "perm-" + request, request);
    if ix.Some? {
      DecideMirrors(s.rows[ix.value], s.written[ix.value], decision, device, at);
    }
  }

  // ── rows nobody else has written to ────────────────────────────────────────

  lemma PushedText(p: MessagePart, part: MessagePart)
    requires p.TextPart? && Evolves(p, part)
    ensures SlotRow(Pushed(p), p, part) == Pushed(part)
  {
    PushedMirrors(p);
    TextSlot(Pushed(p), p, part);
    PushedMirrors(part);
    forall c: Column ensures Get(SlotRow(Pushed(p), p, part), c) == Get(Pushed(part), c) {
      assert Get(Pushed(part), c) == ColumnOf(part, c);
    }
    SameRow(SlotRow(Pushed(p), p, part), Pushed(part));
  }

  lemma UpdatedPushed(p: MessagePart, part: MessagePart, c: Column)
    requires Evolves(p, part) && p != part && !p.TextPart? && KeepsColumns(p, part)
    ensures Get(Updated(Pushed(p), part), c) == Get(Pushed(part), c)
  {
    if Shared(part, c) {
      EvolvedIsNamed(p, part, 0);
      PushedShared(p, c);
      PushedShared(part, c);
      UpdatedAlike(Pushed(p), Pushed(part), p, part, c);
    } else {
      PushedMirrors(p);
      PushedMirrors(part);
      UpdatedHolds(Pushed(p), p, part);
      assert Get(Updated(Pushed(p), part), c) == ColumnOf(part, c);
      assert Get(Pushed(part), c) == ColumnOf(part, c);
    }
  }

  /** What a part itself says in a column that is shared with other writers. */
  function OwnColumn(p: MessagePart, c: Column): Option<Cell>
    requires p.InputPart? || p.PermissionPart?
  {
    if p.PermissionPart? then PermissionColumn(p, c)
    else if c.ResponsesCol? then Some(ResponsesCell(p.responses)) else InputColumn(p, c)
  }

  lemma PushedShared(p: MessagePart, c: Column)
    requires Shared(p, c)
    ensures Get(Pushed(p), c) == OwnColumn(p, c)
  {
    if !(p.InputPart? && c.ResponsesCol?) {
      InColumn(p, c);
      OwnIsColumn(p, c);
    }
  }

  lemma OwnIsColumn(p: MessagePart, c: Column)
    requires Shared(p, c) && (p.InputPart? ==> !c.ResponsesCol?)
    ensures ColumnOf(p, c) == OwnColumn(p, c)
  {
  }

  lemma UpdatedAlike(row: Row, written: Row, p: MessagePart, part: MessagePart, c: Column)
    requires Evolves(p, part) && p != part && SameThing(p, part) && Shared(p, c) && Shared(part, c)
    requires Get(row, c) == OwnColumn(p, c) && Get(written, c) == OwnColumn(part, c)
    ensures Get(Updated(row, part), c) == Get(written, c)
  {
    UpdatedCell(row, part, c);
  }

  /** Untouched from outside, a row that was written in bits is the row written at once. */
  lemma PushedSlot(p: MessagePart, part: MessagePart)
    requires Evolves(p, part) && KeepsColumns(p, part)
    ensures SlotRow(Pushed(p), p, part) == Pushed(part)
  {
    EvolvedIsNamed(p, part, 0);
    if p.TextPart? {
      PushedText(p, part);
    } else if p != part {
      forall c: Column ensures Get(Updated(Pushed(p), part), c) == Get(Pushed(part), c) {
        UpdatedPushed(p, part, c);
      }
      SameRow(Updated(Pushed(p), part), Pushed(part));
    }
  }
}
