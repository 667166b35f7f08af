/** The incremental writer of a streamed entry (crates/doc/src/schema.rs, lines 1643-1786), next to the
    writer of answers (lines 1091-1133). */
module SegmentWriter {
  import opened Options
  import opened Parts
  import opened DocParts

  /** What the document's history records of a text. */
  datatype TextOp = Inserted(at: nat, text: string) | Rewrote(at: nat, text: string)

  /** One entry of the document, as its writer sees it: the rows, the mirror of what has been written,
      and the history of its texts. */
  datatype Segment = Segment(rows: seq<Row>, written: seq<MessagePart>, oplog: seq<TextOp>)

  datatype Synced = Synced(ok: bool, seg: Segment)

  predicate Aligned(s: Segment) {
    |s.rows| == |s.written|
  }

  function Push(s: Segment, part: MessagePart): Segment {
    Segment(s.rows + [Pushed(part)], s.written + [part],
            s.oplog + if part.TextPart? then [Inserted(|s.rows|, part.text)] else [])
  }

  function WithText(row: Row, delta: string): Row {
    row[TextCol := Str(StrOr(row, TextCol, "") + delta)]
  }

  /** One slot of `sync`: push what is new, append what a text has grown by, update anything else in
      place. It fails only on a text whose row holds none. */
  function SyncPart(s: Segment, i: nat, part: MessagePart): (r: Synced)
    requires Aligned(s) && i <= |s.written|
    ensures Aligned(r.seg) && (r.ok ==> |r.seg.written| == if i == |s.written| then i + 1 else |s.written|)
  {
    if i == |s.written| then Synced(true, Push(s, part))
    else
      var prev := s.written[i];
      if prev == part then Synced(true, s)
      else if prev.TextPart? && part.TextPart? && prev.text <= part.text then
        var delta := part.text[|prev.text|..];
        if delta == "" then Synced(true, s.(written := s.written[i := part]))
        else if TextCol !in s.rows[i] then Synced(false, s)
        else Synced(true, Segment(s.rows[i := WithText(s.rows[i], delta)], s.written[i := part],
                                  s.oplog + [Inserted(i, delta)]))
      else
        Synced(true, Segment(s.rows[i := Updated(s.rows[i], part)], s.written[i := part],
                             s.oplog + if part.TextPart? && TextCol in s.rows[i] then [Rewrote(i, part.text)] else []))
  }

  /** `sync`, up to slot `n` or the first failure. */
  function SyncTo(s: Segment, folded: seq<MessagePart>, n: nat): (r: Synced)
    requires Aligned(s) && n <= |folded|
    ensures Aligned(r.seg) && (r.ok ==> |r.seg.written| == if n > |s.written| then n else |s.written|)
  {
    if n == 0 then Synced(true, s)
    else
      var before := SyncTo(s, folded, n - 1);
      if before.ok then SyncPart(before.seg, n - 1, folded[n - 1]) else before
  }

  lemma {:induction false} FailureStands(s: Segment, folded: seq<MessagePart>, i: nat, n: nat)
    requires Aligned(s) && i <= n <= |folded| && !SyncTo(s, folded, i).ok
    ensures SyncTo(s, folded, n) == SyncTo(s, folded, i)
  {
    if i < n {
      FailureStands(s, folded, i, n - 1);
    }
  }

  // ── answers ────────────────────────────────────────────────────────────────

  predicate IsPart(row: Row, kind: Kind, id: string, request: string) {
    KindOf(row) == kind && (GetStr(row, IdCol) == Some(id) || GetStr(row, RequestIdCol) == Some(request))
  }

  /** The row at `i` is the first of the part. */
  predicate FirstPart(rows: seq<Row>, kind: Kind, id: string, request: string, i: nat) {
    i < |rows| && IsPart(rows[i], kind, id, request) && forall j :: 0 <= j < i ==> !IsPart(rows[j], kind, id, request)
  }

  /** `find_part_map`, within the entry: by the id of the part or by its request. */
  function FindRow(rows: seq<Row>, kind: Kind, id: string, request: string): (ix: Option<nat>)
    ensures ix.Some? ==> FirstPart(rows, kind, id, request, ix.value)
    ensures ix.None? ==> forall j :: 0 <= j < |rows| ==> !IsPart(rows[j], kind, id, request)
  {
    if rows == [] then None
    else
      var before := FindRow(rows[..|rows| - 1], kind, id, request);
      if before.Some? then before
      else if IsPart(rows[|rows| - 1], kind, id, request) then Some(|rows| - 1)
      else None
  }

  predicate AsksFor(row: Row, request: string) {
    IsPart(row, InputRow, request, request)
  }

  function FindAsked(rows: seq<Row>, request: string): Option<nat> {
    FindRow(rows, InputRow, request, request)
  }

  predicate Recorded(responses: seq<InputResponse>, device: string) {
    exists i :: 0 <= i < |responses| && responses[i].device == device
  }

  /** Which written parts a request finds: its question, and its approval by either id. */
  lemma RequestFindsItsPart(p: MessagePart, request: string)
    ensures AsksFor(Pushed(p), request) <==> p.InputPart? && p.requestId == request
    ensures IsPart(Pushed(p), PermissionRow, "perm-" + request, request) <==>
            p.PermissionPart? && (p.id == "perm-" + request || p.requestId == request)
  {
    assert Get(Pushed(p), KindCol) == ColumnOf(p, KindCol) by { InColumn(p, KindCol); }
    assert Get(Pushed(p), IdCol) == ColumnOf(p, IdCol) by { InColumn(p, IdCol); }
    assert Get(Pushed(p), RequestIdCol) == ColumnOf(p, RequestIdCol) by { InColumn(p, RequestIdCol); }
  }

  /** A device answers a question once; every further answer of its own is ignored. */
  function Answer(row: Row, response: InputResponse): Row {
    var responses := ResponsesOf(row);
    row[ResponsesCol := ResponsesCell(if Recorded(responses, response.device) then responses else responses + [response])]
       [ResolvedCol := Flag(true)]
  }

  function RecordAnswer(s: Segment, request: string, response: InputResponse): Segment {
    var ix := FindAsked(s.rows, request);
    if ix.Some? then s.(rows := s.rows[ix.value := Answer(s.rows[ix.value], response)]) else s
  }

  /** The document reads back the question as it was, resolved, with one more answer if its device had given none. */
  ghost predicate ReadsAnswered(before: Row, after: Row, response: InputResponse) {
    var was, now := FromDoc(before), FromDoc(after);
    && was.InputPart? && now.InputPart?
    && now == was.(resolved := true, responses := now.responses)
    && (if exists r <- was.responses :: r.device == response.device then now.responses == was.responses
        else now.responses == was.responses + [response])
  }

  /** Only the row at `i` differs. */
  ghost predicate OnlyRow(before: seq<Row>, after: seq<Row>, i: nat) {
    |after| == |before| && i < |before| && forall j :: 0 <= j < |before| && j != i ==> after[j] == before[j]
  }

  lemma AnswerIsRead(row: Row, response: InputResponse)
    requires KindOf(row) == InputRow
    ensures ReadsAnswered(row, Answer(row, response), response)
  {
    var was := FromDoc(row).responses;
    if i :| 0 <= i < |was| && was[i].device == response.device {
      assert was[i] in was;
    }
  }

  /** What recording an answer does: to the first row that asks, and to that alone. */
  lemma AnswerIsRecorded(s: Segment, request: string, response: InputResponse)
    ensures var after := RecordAnswer(s, request, response);
            && after.written == s.written && after.oplog == s.oplog
            && if exists i: nat :: FirstPart(s.rows, InputRow, request, request, i) then
                 exists i: nat :: FirstPart(s.rows, InputRow, request, request, i) &&
                   OnlyRow(s.rows, after.rows, i) && ReadsAnswered(s.rows[i], after.rows[i], response)
               else after == s && forall row <- s.rows :: !AsksFor(row, request)
  {
    var ix := FindAsked(s.rows, request);
    if ix.Some? {
      AnswerIsRead(s.rows[ix.value], response);
      assert OnlyRow(s.rows, RecordAnswer(s, request, response).rows, ix.value);
    }
  }

  /** A decision written straight to the document: a denial that is already there stands. */
  function Decide(row: Row, decision: Option<PermissionChoice>, device: Option<string>, at: Option<int>): Row {
    var denied := DecisionCol in row && row[DecisionCol] == DecisionCell(Deny);
    var decided := if denied || decision.None? then row else row[DecisionCol := DecisionCell(decision.value)];
    var named := if denied || device.None? then decided else decided[DecidedByCol := Str(device.value)];
    var timed := if denied || at.None? then named else named[DecidedAtCol := Millis(at.value)];
    timed[ResolvedCol := Flag(true)]
  }

  /** The document reads back the request resolved; a denial stays as it was, and otherwise what was given of the
      decision, the device and the time is what it shows. */
  ghost predicate ReadsDecided(before: Row, after: Row, decision: Option<PermissionChoice>, device: Option<string>,
                               at: Option<int>) {
    var was, now := FromDoc(before), FromDoc(after);
    && was.PermissionPart? && now.PermissionPart?
    && if was.decision == Some(Deny) then now == was.(resolved := true)
       else now == was.(resolved := true,
                        decision := if decision.Some? then decision else was.decision,
                        decidedBy := if device.Some? then device else was.decidedBy,
                        decidedAt := if at.Some? then at else was.decidedAt)
  }

  lemma DecisionIsRead(row: Row, decision: Option<PermissionChoice>, device: Option<string>, at: Option<int>)
    requires KindOf(row) == PermissionRow
    ensures ReadsDecided(row, Decide(row, decision, device, at), decision, device, at)
  {
    var after := Decide(row, decision, device, at);
    forall c: Column ensures Get(after, c) == DecidedCell(row, c, decision, device, at) {
    }
    DecidedReads(row, after, decision, device, at);
  }

  function DecidedCell(row: Row, c: Column, decision: Option<PermissionChoice>, device: Option<string>, at: Option<int>)
    : Option<Cell>
  {
    if c == ResolvedCol then Some(Flag(true))
    else if Get(row, DecisionCol) == Some(DecisionCell(Deny)) then Get(row, c)
    else if c == DecisionCol && decision.Some? then Some(DecisionCell(decision.value))
    else if c == DecidedByCol && device.Some? then Some(Str(device.value))
    else if c == DecidedAtCol && at.Some? then Some(Millis(at.value))
    else Get(row, c)
  }

  lemma DecidedReads(row: Row, after: Row, decision: Option<PermissionChoice>, device: Option<string>, at: Option<int>)
    requires KindOf(row) == PermissionRow
    requires forall c: Column :: Get(after, c) == DecidedCell(row, c, decision, device, at)
    ensures ReadsDecided(row, after, decision, device, at)
  {
    UndecidedReads(row, after, decision, device, at);
    DecisionReadsBack(row, after, decision, device, at);
  }

  lemma UndecidedReads(row: Row, after: Row, decision: Option<PermissionChoice>, device: Option<string>, at: Option<int>)
    requires KindOf(row) == PermissionRow
    requires forall c: Column :: Get(after, c) == DecidedCell(row, c, decision, device, at)
    ensures KindOf(after) == PermissionRow
    ensures var was, now := PermissionFrom(row), PermissionFrom(after);
            now == was.(resolved := now.resolved, decision := now.decision, decidedBy := now.decidedBy,
                        decidedAt := now.decidedAt)
  {
    assert Get(after, KindCol) == Get(row, KindCol) && Get(after, IdCol) == Get(row, IdCol);
    assert Get(after, RequestIdCol) == Get(row, RequestIdCol) && Get(after, MessageCol) == Get(row, MessageCol);
    assert Get(after, QuestionsCol) == Get(row, QuestionsCol) && Get(after, ToolCallIdCol) == Get(row, ToolCallIdCol);
    SameQuestion(row, after);
  }

  lemma SameQuestion(row: Row, after: Row)
    requires Get(after, IdCol) == Get(row, IdCol) && Get(after, RequestIdCol) == Get(row, RequestIdCol)
    requires Get(after, MessageCol) == Get(row, MessageCol) && Get(after, QuestionsCol) == Get(row, QuestionsCol)
    requires Get(after, ToolCallIdCol) == Get(row, ToolCallIdCol)
    ensures var was, now := PermissionFrom(row), PermissionFrom(after);
            now == was.(resolved := now.resolved, decision := now.decision, decidedBy := now.decidedBy,
                        decidedAt := now.decidedAt)
  {
    assert RequestOf(after) == RequestOf(row);
  }

  lemma DecisionReadsBack(row: Row, after: Row, decision: Option<PermissionChoice>, device: Option<string>,
                          at: Option<int>)
    requires forall c: Column :: Get(after, c) == DecidedCell(row, c, decision, device, at)
    ensures var was, now := PermissionFrom(row), PermissionFrom(after);
            && now.resolved
            && (now.decision == if was.decision == Some(Deny) || decision.None? then was.decision else decision)
            && (now.decidedBy == if was.decision == Some(Deny) || device.None? then was.decidedBy else device)
            && (now.decidedAt == if was.decision == Some(Deny) || at.None? then was.decidedAt else at)
  {
    assert Get(after, ResolvedCol) == Some(Flag(true));
    assert Get(after, DecisionCol) == DecidedCell(row, DecisionCol, decision, device, at);
    assert Get(after, DecidedByCol) == DecidedCell(row, DecidedByCol, decision, device, at);
    assert Get(after, DecidedAtCol) == DecidedCell(row, DecidedAtCol, decision, device, at);
  }

  function RecordDecision(s: Segment, request: string, decision: Option<PermissionChoice>, device: Option<string>,
                          at: Option<int>): Segment {
    var ix := FindRow(s.rows, PermissionRow, "perm-" + request, request);
    if ix.Some? then s.(rows := s.rows[ix.value := Decide(s.rows[ix.value], decision, device, at)]) else s
  }

  // ── the writer ─────────────────────────────────────────────────────────────

  class SegmentWriter {
    var rows: seq<Row>
    var written: seq<MessagePart>
    var oplog: seq<TextOp>
    var head: Entry  // the entry's own columns

    ghost predicate Valid()
      reads this
    {
      |rows| == |written|
    }

    ghost function State(): Segment
      reads this
    {
      Segment(rows, written, oplog)
    }

    /** A streaming assistant entry without parts. */
    constructor Begin(id: EntryId, deviceId: string, createdAt: int)
      ensures Valid() && State() == Segment([], [], [])
      ensures head == Entry(id, Assistant, [], createdAt, deviceId, Some(Streaming), None)
    {
      rows, written, oplog := [], [], [];
      head := Entry(id, Assistant, [], createdAt, deviceId, Some(Streaming), None);
    }

    /** Diff `folded` into the document. */
    method Sync(folded: seq<MessagePart>) returns (ok: bool)
      requires Valid()
      modifies this`rows, this`written, this`oplog
      ensures Valid() && Synced(ok, State()) == SyncTo(old(State()), folded, |folded|)
    {
      ghost var start := State();
      for i := 0 to |folded|
        invariant Valid() && SyncTo(start, folded, i) == Synced(true, State())
      {
        ok := SyncSlot(i, folded[i]);
        if !ok {
          FailureStands(start, folded, i + 1, |folded|);
          return;
        }
      }
      ok := true;
    }

    method SyncSlot(i: nat, part: MessagePart) returns (ok: bool)
      requires Valid() && i <= |written|
      modifies this`rows, this`written, this`oplog
      ensures Synced(ok, State()) == SyncPart(old(State()), i, part)
    {
      ok := true;
      if i == |written| {
        var row := PushPart(part);
        if part.TextPart? {
          oplog := oplog + [Inserted(|rows|, part.text)];
        }
        rows := rows + [row];
        written := written + [part];
        return;
      }
      var prev := written[i];
      if prev == part {
        return;
      }
      if prev.TextPart? && part.TextPart? && prev.text <= part.text {
        var delta := part.text[|prev.text|..];
        if delta != "" {
          if TextCol !in rows[i] {
            return false;
          }
          rows := rows[i := WithText(rows[i], delta)];
          oplog := oplog + [Inserted(i, delta)];
        }
      } else {
        if part.TextPart? && TextCol in rows[i] {
          oplog := oplog + [Rewrote(i, part.text)];
        }
        var row := UpdatePartFields(rows[i], part);
        rows := rows[i := row];
      }
      written := written[i := part];
    }

    /** Sync the final parts and stamp a terminal status. */
    method Finish(folded: seq<MessagePart>, terminal: MessageStatus) returns (ok: bool)
      requires Valid()
      modifies this
      ensures Valid() && Synced(ok, State()) == SyncTo(old(State()), folded, |folded|)
      ensures head == if ok then old(head).(status := Some(terminal)) else old(head)
    {
      ok := Sync(folded);
      if ok {
        head := head.(status := Some(terminal));
      }
    }

    /** `record_input_response`, for a question of this entry. */
    method RecordInputResponse(request: string, response: InputResponse) returns (found: bool)
      requires Valid()
      modifies this`rows
      ensures Valid() && State() == RecordAnswer(old(State()), request, response)
      ensures found <==> exists row <- old(rows) :: AsksFor(row, request)
      ensures found ==> exists i: nat :: FirstPart(old(rows), InputRow, request, request, i) &&
                          OnlyRow(old(rows), rows, i) && ReadsAnswered(old(rows)[i], rows[i], response)
      ensures !found ==> rows == old(rows)
    {
      AnswerIsRecorded(State(), request, response);
      RowIsFound(rows, InputRow, request, request);
      var ix := FindAsked(rows, request);
      if ix.None? {
        return false;
      }
      var row := rows[ix.value];
      var responses := ResponsesOf(row);
      if !Recorded(responses, response.device) {
        responses := responses + [response];
      }
      row := row[ResponsesCol := ResponsesCell(responses)];
      row := row[ResolvedCol := Flag(true)];
      rows := rows[ix.value := row];
      found := true;
    }

    /** `decide_permission`, for a request of this entry. */
    method DecidePermission(request: string, decision: Option<PermissionChoice>, device: Option<string>, at: Option<int>)
      returns (found: bool)
      requires Valid()
      modifies this`rows
      ensures Valid() && State() == RecordDecision(old(State()), request, decision, device, at)
      ensures found <==> exists row <- old(rows) :: IsPart(row, PermissionRow, "perm-" + request, request)
      ensures found ==> exists i: nat :: FirstPart(old(rows), PermissionRow, "perm-" + request, request, i) &&
                          OnlyRow(old(rows), rows, i) && ReadsDecided(old(rows)[i], rows[i], decision, device, at)
      ensures !found ==> rows == old(rows)
    {
      RowIsFound(rows, PermissionRow, "perm-" + request, request);
      var ix := FindRow(rows, PermissionRow, "perm-" + request, request);
      if ix.None? {
        return false;
      }
      var row := rows[ix.value];
      if !(DecisionCol in row && row[DecisionCol] == DecisionCell(Deny)) {
        if decision.Some? {
          row := row[DecisionCol := DecisionCell(decision.value)];
        }
        if device.Some? {
          row := row[DecidedByCol := Str(device.value)];
        }
        if at.Some? {
          row := row[DecidedAtCol := Millis(at.value)];
        }
      }
      row := row[ResolvedCol := Flag(true)];
      DecisionIsRead(rows[ix.value], decision, device, at);
      rows := rows[ix.value := row];
      found := true;
    }
  }

  lemma {:induction false} RowIsFound(rows: seq<Row>, kind: Kind, id: string, request: string)
    ensures FindRow(rows, kind, id, request).Some? <==> exists row <- rows :: IsPart(row, kind, id, request)
  {
    if rows != [] {
      var n := |rows| - 1;
      RowIsFound(rows[..n], kind, id, request);
      assert rows == rows[..n] + [rows[n]];
    }
  }
}
