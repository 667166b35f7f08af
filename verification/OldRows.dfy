/** Rows written before a column existed (crates/doc/src/schema.rs, lines 400-422 and 453-462). */
module OldRows {
  import opened Options
  import opened Text
  import opened Parts
  import opened DocParts

  function Lacking(row: Row, c: Column): Row {
    row - {c}
  }

  lemma LackingReads(p: MessagePart, c: Column)
    requires p.CompactionPart?
    ensures forall d: Column :: Get(Lacking(Pushed(p), c), d) == if d == c then None else ColumnOf(p, d)
  {
    forall d: Column ensures Get(Lacking(Pushed(p), c), d) == if d == c then None else ColumnOf(p, d) {
      InColumn(p, d);
    }
  }

  function WithRequest(p: MessagePart, request: string): MessagePart
    requires p.PermissionPart?
  {
    match p
    case PermissionPart(id, _, kind, line, choices, actions, resolved, decision, tool, device, at, expires) =>
      PermissionPart(id, request, kind, line, choices, actions, resolved, decision, tool, device, at, expires)
  }

  /** Two rows that agree but for the request's column read alike but for the request. */
  lemma SameButRequest(a: Row, b: Row)
    requires QuestionsCol in a && a[QuestionsCol].ApprovalCell? && Get(a, QuestionsCol) == Get(b, QuestionsCol)
    requires Get(a, IdCol) == Get(b, IdCol) && Get(a, MessageCol) == Get(b, MessageCol)
    requires Get(a, ToolCallIdCol) == Get(b, ToolCallIdCol) && Get(a, ResolvedCol) == Get(b, ResolvedCol)
    requires Get(a, DecisionCol) == Get(b, DecisionCol)
    requires Get(a, DecidedByCol) == Get(b, DecidedByCol) && Get(a, DecidedAtCol) == Get(b, DecidedAtCol)
    ensures PermissionFrom(b) == WithRequest(PermissionFrom(a), RequestOf(b))
  {
  }

  lemma OldApprovalRequest(p: MessagePart, row: Row)
    requires p.PermissionPart? && row == Lacking(Pushed(p), RequestIdCol)
    ensures RequestOf(row) == StripPrefix(p.requestId, "perm-")
  {
    PushedMirrors(p);
    PermissionReadsA(Pushed(p), p);
    assert RequestIdCol !in row && QuestionsCol in row && row[QuestionsCol] == Pushed(p)[QuestionsCol];
  }

  lemma OldApprovalParts(full: Row, row: Row)
    requires row == Lacking(full, RequestIdCol) && KindOf(full) == PermissionRow
    requires QuestionsCol in full && full[QuestionsCol].ApprovalCell?
    ensures KindOf(row) == PermissionRow
    ensures PermissionFrom(row) == WithRequest(PermissionFrom(full), RequestOf(row))
  {
    OtherCells(full, row);
    SameButRequest(full, row);
  }

  lemma OtherCells(full: Row, row: Row)
    requires row == Lacking(full, RequestIdCol)
    ensures KindOf(full) == KindOf(row) && Get(full, QuestionsCol) == Get(row, QuestionsCol)
    ensures Get(full, IdCol) == Get(row, IdCol) && Get(full, MessageCol) == Get(row, MessageCol)
    ensures Get(full, ToolCallIdCol) == Get(row, ToolCallIdCol) && Get(full, ResolvedCol) == Get(row, ResolvedCol)
    ensures Get(full, DecisionCol) == Get(row, DecisionCol)
    ensures Get(full, DecidedByCol) == Get(row, DecidedByCol) && Get(full, DecidedAtCol) == Get(row, DecidedAtCol)
  {
  }

  /** An approval without the request's own column takes its request from the tuple, without the prefix of a part id: it
      reads as written exactly if the request has no such prefix of its own. */
  lemma OldApprovalReads(p: MessagePart)
    requires p.PermissionPart?
    ensures var row := Lacking(Pushed(p), RequestIdCol);
            FromDoc(row) == WithRequest(Stored(p), StripPrefix(p.requestId, "perm-")) &&
            (FromDoc(row) == Stored(p) <==> !("perm-" <= p.requestId))
  {
    OldApprovalRequest(p, Lacking(Pushed(p), RequestIdCol));
    ApprovalKind(p);
    OldApprovalParts(Pushed(p), Lacking(Pushed(p), RequestIdCol));
    PushedReadsBack(p);
  }

  lemma ApprovalKind(p: MessagePart)
    requires p.PermissionPart?
    ensures KindOf(Pushed(p)) == PermissionRow
    ensures QuestionsCol in Pushed(p) && Pushed(p)[QuestionsCol].ApprovalCell?
  {
    PushedMirrors(p);
    PermissionReadsA(Pushed(p), p);
  }

  /** A cycle without its id column is known by its part id, without the prefix: it reads as written exactly if that is
      the id of the cycle. */
  lemma OldCycleReads(p: MessagePart)
    requires p.CompactionPart?
    ensures var row := Lacking(Pushed(p), CompactionIdCol);
            && FromDoc(row).CompactionPart?
            && (FromDoc(row) == p <==> p.id == "cmp-" + p.compactionId || (p.id == p.compactionId && !("cmp-" <= p.id)))
  {
    var row := Lacking(Pushed(p), CompactionIdCol);
    LackingReads(p, CompactionIdCol);
    OldCycleCells(row, p);
    if "cmp-" <= p.id {
      assert p.id == "cmp-" + p.id[4..];
    }
  }

  lemma StrCellReads(row: Row, c: Column, s: Option<string>)
    requires Get(row, c) == StrCell(s)
    ensures GetStr(row, c) == s && StrOr(row, c, "") == if s.Some? then s.value else ""
  {
  }

  lemma OldCycleCells(row: Row, p: MessagePart)
    requires p.CompactionPart?
    requires forall d: Column :: Get(row, d) == if d == CompactionIdCol then None else ColumnOf(p, d)
    ensures FromDoc(row) == p.(compactionId := StripPrefix(p.id, "cmp-"))
  {
    StrCellReads(row, IdCol, Some(p.id));
    StrCellReads(row, TriggerCol, p.trigger);
    StrCellReads(row, CompactionErrorCol, p.error);
    StrCellReads(row, SummaryCol, p.summary);
    OldCycleCounts(row, p);
    CompactionFromCells(row, p.(compactionId := StripPrefix(p.id, "cmp-")));
  }

  lemma OldCycleCounts(row: Row, p: MessagePart)
    requires p.CompactionPart?
    requires forall d: Column :: Get(row, d) == if d == CompactionIdCol then None else ColumnOf(p, d)
    ensures KindOf(row) == CompactionRow && CompactionIdCol !in row
    ensures CompactionStatusCol in row && row[CompactionStatusCol] == CycleCell(p.status)
    ensures GetNum(row, TokensBeforeCol) == p.tokensBefore && GetNum(row, TokensAfterCol) == p.tokensAfter
    ensures GetNum(row, SummaryBytesCol) == p.summaryBytes && FlagOr(row, SummaryInJournalCol, false) == p.summaryInJournal
  {
    assert Get(row, KindCol) == Some(KindCell(CompactionRow)) && Get(row, CompactionIdCol) == None;
    assert Get(row, CompactionStatusCol) == Some(CycleCell(p.status));
    assert Get(row, TokensBeforeCol) == NumCell(p.tokensBefore) && Get(row, TokensAfterCol) == NumCell(p.tokensAfter);
    assert Get(row, SummaryBytesCol) == NumCell(p.summaryBytes);
    assert Get(row, SummaryInJournalCol) == ColumnOf(p, SummaryInJournalCol);
  }

  function BareRow(kind: Kind, id: string): Row {
    map[IdCol := Str(id), KindCol := KindCell(kind)]
  }

  /** What a row reads as that has nothing but its id and kind: a tool without a call and a switch without its tuple are
      empty texts, everything else is a part of that kind with nothing in it. */
  lemma BareRowsRead(id: string)
    ensures FromDoc(BareRow(TextRow, id)) == FromDoc(BareRow(OtherRow, id)) == TextPart(id, "")
    ensures FromDoc(BareRow(ToolRow, id)) == FromDoc(BareRow(SwitchRow, id)) == TextPart(id, "")
    ensures FromDoc(BareRow(InputRow, id)) == InputPart(id, id, "[]", false, [], Native)
    ensures FromDoc(BareRow(ErrorRow, id)) == ErrorPart(id, "", UnknownKind, None, false)
    ensures FromDoc(BareRow(PermissionRow, id)) ==
            PermissionPart(id, id, NO_COMMAND, "", "[]", "[]", false, None, None, None, None, None)
    ensures FromDoc(BareRow(CompactionRow, id)) ==
            CompactionPart(id, StripPrefix(id, "cmp-"), InProgress, None, None, None, None, None, None, false)
  {
    BareCycleReads(id);
    BareApprovalReads(id);
    BareQuestionReads(id);
  }

  lemma BareQuestionReads(id: string)
    ensures FromDoc(BareRow(InputRow, id)) == InputPart(id, id, "[]", false, [], Native)
    ensures FromDoc(BareRow(ErrorRow, id)) == ErrorPart(id, "", UnknownKind, None, false)
  {
  }

  lemma BareCycleReads(id: string)
    ensures FromDoc(BareRow(CompactionRow, id)) ==
            CompactionPart(id, StripPrefix(id, "cmp-"), InProgress, None, None, None, None, None, None, false)
  {
  }

  lemma BareApprovalReads(id: string)
    ensures FromDoc(BareRow(PermissionRow, id)) ==
            PermissionPart(id, id, NO_COMMAND, "", "[]", "[]", false, None, None, None, None, None)
  {
  }

  /** A switch whose tuple is broken reads as its message, a part of unknown kind as its text. */
  lemma BrokenRowsRead(row: Row, id: string, text: string)
    requires Get(row, IdCol) == Some(Str(id))
    ensures KindOf(row) == SwitchRow && !(QuestionsCol in row && row[QuestionsCol].SwitchCell?) ==>
              (Get(row, MessageCol) == Some(Str(text)) ==> FromDoc(row) == TextPart(id, text))
    ensures KindOf(row) == OtherRow ==> (Get(row, TextCol) == Some(Str(text)) ==> FromDoc(row) == TextPart(id, text))
    ensures KindOf(row) == ToolRow && !(CallCol in row && row[CallCol].CallCell?) ==> FromDoc(row) == TextPart(id, "")
  {
  }
}
