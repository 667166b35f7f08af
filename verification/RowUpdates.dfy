/** Refreshing a row in place (crates/doc/src/schema.rs, lines 1788-1886): what a row reads as after an
    update that writes every column the part has and removes none. */
module RowUpdates {
  import opened Options
  import opened Parts
  import opened Fold
  import opened FoldLaws
  import opened DocParts

  /** What the document shows after `part` has been written over `prev`: a column the part no longer has
      keeps what `prev` left there. */
  function Stale(prev: MessagePart, part: MessagePart): MessagePart
    requires SameThing(prev, part)
  {
    match part
    case ToolPart(id, call, isError, resolved, output, diff, outputRef, bytes, diffRef, stats, ref, status, tail, ms,
                  tools) =>
      ToolPart(id, call, if resolved then isError else prev.isError, resolved || prev.resolved,
               Or(output, prev.output), Or(diff, prev.diff), Or(outputRef, prev.outputRef), Or(bytes, prev.outputBytes),
               Or(diffRef, prev.diffRef), Or(stats, prev.diffStats), Or(ref, prev.subagentRef),
               Or(status, prev.subagentStatus), Or(tail, prev.subagentTail), Or(ms, prev.subagentMs), Or(tools, prev.subagentTools))
    case InputPart(id, request, questions, resolved, responses, source) =>
      InputPart(id, request, questions, resolved, responses, if source != Native then source else prev.source)
    case ErrorPart(id, message, kind, detail, retryable) =>
      ErrorPart(id, message, if kind != UnknownKind then kind else prev.kind, Or(detail, prev.detail),
                retryable || prev.retryable)
    case PermissionPart(id, request, kind, line, choices, actions, resolved, decision, tool, device, at, expires) =>
      PermissionPart(id, request, kind, line, choices, actions, resolved, Or(decision, prev.decision),
                     Or(tool, prev.toolCallId), Or(device, prev.decidedBy), Or(at, prev.decidedAt), expires)
    case CompactionPart(id, cycle, status, trigger, before, after, error, summary, bytes, inJournal) =>
      CompactionPart(id, cycle, status, Or(trigger, prev.trigger), Or(before, prev.tokensBefore),
                     Or(after, prev.tokensAfter), Or(error, prev.error), Or(summary, prev.summary), Or(bytes, prev.summaryBytes),
                     inJournal || prev.summaryInJournal)
    case _ => part
  }

  lemma StaleTool(prev: MessagePart, part: MessagePart, c: Column)
    requires SameThing(prev, part) && part.ToolPart?
    ensures ToolColumn(Stale(prev, part), c) == Or(ToolColumn(part, c), ToolColumn(prev, c))
  {
  }

  lemma StaleCycle(prev: MessagePart, part: MessagePart, c: Column)
    requires SameThing(prev, part) && part.CompactionPart?
    ensures CompactionColumn(Stale(prev, part), c) == Or(CompactionColumn(part, c), CompactionColumn(prev, c))
  {
  }

  lemma StalePermission(prev: MessagePart, part: MessagePart, c: Column)
    requires SameThing(prev, part) && part.PermissionPart?
    ensures PermissionColumn(Stale(prev, part), c) == Or(PermissionColumn(part, c), PermissionColumn(prev, c))
  {
  }

  lemma StaleColumns(prev: MessagePart, part: MessagePart, c: Column)
    requires SameThing(prev, part) && !Shared(part, c)
    ensures ColumnOf(Stale(prev, part), c) == Or(ColumnOf(part, c), ColumnOf(prev, c))
  {
    match part {
      case ToolPart(_, _, _, _, _, _, _, _, _, _, _, _, _, _, _) => StaleTool(prev, part, c);
      case CompactionPart(_, _, _, _, _, _, _, _, _, _) => StaleCycle(prev, part, c);
      case PermissionPart(_, _, _, _, _, _, _, _, _, _, _, _) => StalePermission(prev, part, c);
      case _ =>
    }
  }

  /** Every column `prev` has, `part` has too. */
  ghost predicate KeepsColumns(prev: MessagePart, part: MessagePart) {
    forall c: Column :: !Shared(part, c) && ColumnOf(prev, c).Some? ==> ColumnOf(part, c).Some?
  }

  lemma ColumnsOfStored(p: MessagePart, c: Column)
    ensures ColumnOf(Stored(p), c) == ColumnOf(p, c)
  {
    match p {
      case ToolPart(_, _, _, _, _, _, _, _, _, _, _, _, _, _, _) => assert ToolColumn(Stored(p), c) == ToolColumn(p, c);
      case InputPart(_, _, _, _, _, _) => assert InputColumn(Stored(p), c) == InputColumn(p, c);
      case PermissionPart(_, _, _, _, _, _, _, _, _, _, _, _) => StoredPermission(p, c);
      case _ =>
    }
  }

  lemma StoredPermission(p: MessagePart, c: Column)
    requires p.PermissionPart?
    ensures PermissionColumn(Stored(p), c) == PermissionColumn(p, c)
  {
  }

  /** A part without what is also written from outside the run. */
  function Bare(p: MessagePart): MessagePart {
    match p
    case InputPart(id, request, questions, _, _, source) => InputPart(id, request, questions, false, [], source)
    case PermissionPart(id, request, kind, line, choices, actions, _, _, tool, _, _, expires) =>
      PermissionPart(id, request, kind, line, choices, actions, false, None, tool, None, None, expires)
    case _ => p
  }

  lemma ColumnsOfBare(p: MessagePart, c: Column)
    requires !Shared(p, c)
    ensures !Shared(Bare(p), c) && ColumnOf(Bare(p), c) == ColumnOf(p, c)
  {
    if p.InputPart? {
      assert InputColumn(Bare(p), c) == InputColumn(p, c);
    } else if p.PermissionPart? {
      assert PermissionColumn(Bare(p), c) == PermissionColumn(p, c);
    }
  }

  /** Two parts read alike in a row exactly if they differ in nothing but that. */
  lemma ReadAlike(p: MessagePart, q: MessagePart, row: Row)
    ensures AnsweredBy(p, row) == AnsweredBy(q, row) <==> Bare(p) == Bare(q)
  {
  }

  /** Nothing stale is left exactly when every column is kept. */
  lemma NothingStale(prev: MessagePart, part: MessagePart)
    requires SameThing(prev, part)
    ensures Bare(Stored(Stale(prev, part))) == Bare(Stored(part)) <==> KeepsColumns(prev, part)
  {
    if Bare(Stored(Stale(prev, part))) == Bare(Stored(part)) {
      forall c: Column | !Shared(part, c) && ColumnOf(prev, c).Some? ensures ColumnOf(part, c).Some? {
        StaleColumns(prev, part, c);
        BareStoredColumns(part, c);
        BareStoredColumns(Stale(prev, part), c);
      }
    }
    if KeepsColumns(prev, part) {
      KeptLeavesNothing(prev, part);
    }
  }

  lemma BareStoredColumns(p: MessagePart, c: Column)
    requires !Shared(p, c)
    ensures ColumnOf(Bare(Stored(p)), c) == ColumnOf(p, c)
  {
    ColumnsOfStored(p, c);
    ColumnsOfBare(Stored(p), c);
  }

  lemma KeptLeavesNothing(prev: MessagePart, part: MessagePart)
    requires SameThing(prev, part) && KeepsColumns(prev, part)
    ensures Bare(Stored(Stale(prev, part))) == Bare(Stored(part))
  {
    var row := Pushed(part);
    PushedMirrors(part);
    forall c: Column | !Shared(part, c) ensures Get(row, c) == ColumnOf(Stale(prev, part), c) {
      StaleColumns(prev, part, c);
      assert Get(row, c) == ColumnOf(part, c);
    }
    MirrorReads(row, part);
    MirrorReads(row, Stale(prev, part));
    ReadAlike(Stored(Stale(prev, part)), Stored(part), row);
  }

  /** A row that held `prev` holds, after the update, what is stale of `prev` beneath `part`. */
  lemma UpdatedMirrors(row: Row, prev: MessagePart, part: MessagePart)
    requires Mirrors(row, prev) && Evolves(prev, part)
    ensures SameThing(prev, part) && Mirrors(Updated(row, part), Stale(prev, part))
    ensures ResponsesOf(Updated(row, part)) == ResponsesOf(row)
  {
    EvolvedIsNamed(prev, part, 0);
    forall c: Column | !Shared(part, c) ensures Get(Updated(row, part), c) == ColumnOf(Stale(prev, part), c) {
      StaleColumns(prev, part, c);
      assert Get(row, c) == ColumnOf(prev, c);
      UpdatedCell(row, part, c);
      if !Plain(c) {
        FixedColumns(prev, part, c);
      }
    }
    UpdatedShared(row, prev, part);
  }

  lemma UpdatedShared(row: Row, prev: MessagePart, part: MessagePart)
    requires SharedFit(row, prev) && Evolves(prev, part)
    ensures SharedFit(Updated(row, part), part)
    ensures ResponsesOf(Updated(row, part)) == ResponsesOf(row)
  {
    if part.InputPart? || part.PermissionPart? {
      UpdatedCell(row, part, ResponsesCol);
      UpdatedCell(row, part, ResolvedCol);
      UpdatedCell(row, part, DecisionCol);
      UpdatedCell(row, part, DecidedByCol);
      UpdatedCell(row, part, DecidedAtCol);
    } else {
      UpdatedCell(row, part, ResponsesCol);
    }
  }

  lemma FixedColumns(prev: MessagePart, part: MessagePart, c: Column)
    requires Evolves(prev, part) && !Plain(c) && !Shared(part, c)
    ensures if c.TextCol? then ColumnOf(part, c).Some? == ColumnOf(prev, c).Some?
            else ColumnOf(part, c) == ColumnOf(prev, c)
  {
  }

  /** So an update in place shows the part exactly when no column of it has gone, and never loses an
      answer another device recorded. */
  lemma UpdatedReads(row: Row, prev: MessagePart, part: MessagePart)
    requires Mirrors(row, prev) && Evolves(prev, part)
    ensures var after := Updated(row, part);
            && SameThing(prev, part)
            && FromDoc(after) == AnsweredBy(Stored(Stale(prev, part)), after)
            && (FromDoc(after) == AnsweredBy(Stored(part), after) <==> KeepsColumns(prev, part))
            && ResponsesOf(after) == ResponsesOf(row)
  {
    var after := Updated(row, part);
    UpdatedMirrors(row, prev, part);
    MirrorReads(after, Stale(prev, part));
    NothingStale(prev, part);
    ReadAlike(Stored(Stale(prev, part)), Stored(part), after);
  }
}
