/** Rebuilding a thin document (crates/doc/src/rebuild.rs, lines 20-131), with the parts of a session
    document it reads and writes (crates/doc/src/schema.rs, lines 494-500, 577-589 and 608-689). */
module Rebuild {
  import opened Options
  import opened Text
  import opened Parts
  import opened Fold
  import opened DocParts

  // ── the document ───────────────────────────────────────────────────────────

  datatype CommandStatus = Pending | Settled(name: string)

  datatype Command = Command(id: string, payload: Json, issuedBy: string, issuedAt: int, basedOn: Option<Json>,
                             expiresAt: Option<int>, status: CommandStatus, resolution: Option<string>)

  /** An entry of the document: its own columns, and a row for each part. */
  datatype Message = Message(head: Entry, rows: seq<Row>)

  datatype DocState = DocState(meta: map<string, Json>, messages: seq<Message>, commands: seq<Command>)

  const CHAT_ID := "chatId"
  const SCHEMA_VERSION := "schemaVersion"
  const EPOCH := "epoch"
  const SESSION_SCHEMA_VERSION: Json := "1"
  const THIN_DOC_EPOCH: Json := "2"

  function ReadParts(rows: seq<Row>): (parts: seq<MessagePart>)
    ensures |parts| == |rows| && forall i :: 0 <= i < |rows| ==> parts[i] == FromDoc(rows[i])
  {
    seq(|rows|, i requires 0 <= i < |rows| => FromDoc(rows[i]))
  }

  function WriteParts(parts: seq<MessagePart>): (rows: seq<Row>)
    ensures |rows| == |parts| && forall i :: 0 <= i < |parts| ==> rows[i] == Pushed(parts[i])
  {
    seq(|parts|, i requires 0 <= i < |parts| => Pushed(parts[i]))
  }

  function ReadEntry(m: Message): Entry {
    m.head.(parts := ReadParts(m.rows))
  }

  function WriteEntry(e: Entry): Message {
    Message(e.(parts := []), WriteParts(e.parts))
  }

  /** `read_entries`. */
  function ReadEntries(messages: seq<Message>): (entries: seq<Entry>)
    ensures |entries| == |messages| && forall i :: 0 <= i < |messages| ==> entries[i] == ReadEntry(messages[i])
  {
    seq(|messages|, i requires 0 <= i < |messages| => ReadEntry(messages[i]))
  }

  /** A queued command starts without a resolution. */
  function Queued(c: Command): Command {
    c.(resolution := None)
  }

  class SessionDoc {
    var meta: map<string, Json>
    var messages: seq<Message>
    var commands: seq<Command>

    ghost function State(): DocState
      reads this
    {
      DocState(meta, messages, commands)
    }

    constructor Init(chatId: Json)
      ensures State() == DocState(map[CHAT_ID := chatId, SCHEMA_VERSION := SESSION_SCHEMA_VERSION], [], [])
    {
      meta := map[CHAT_ID := chatId, SCHEMA_VERSION := SESSION_SCHEMA_VERSION];
      messages, commands := [], [];
    }

    method InsertMeta(key: string, value: Json)
      modifies this
      ensures State() == DocState(old(meta)[key := value], old(messages), old(commands))
    {
      meta := meta[key := value];
    }

    method PushMessage(entry: Entry)
      modifies this
      ensures State() == DocState(old(meta), old(messages) + [WriteEntry(entry)], old(commands))
    {
      var rows := PushParts(entry.parts);
      messages := messages + [Message(entry.(parts := []), rows)];
    }

    method QueueCommand(command: Command)
      modifies this
      ensures State() == DocState(old(meta), old(messages), old(commands) + [Queued(command)])
    {
      commands := commands + [command.(resolution := None)];
    }
  }

  method PushParts(parts: seq<MessagePart>) returns (rows: seq<Row>)
    ensures rows == WriteParts(parts)
  {
    rows := [];
    for i := 0 to |parts|
      invariant |rows| == i && forall j :: 0 <= j < i ==> rows[j] == Pushed(parts[j])
    {
      var row := PushPart(parts[i]);
      rows := rows + [row];
    }
  }

  // ── stripping a part ───────────────────────────────────────────────────────

  /** The text rules: what counts as blank, and how outputs and diffs are summed up. */
  datatype StripRules = StripRules(blank: string -> bool, rules: Rules)

  datatype Payload = Payload(partId: string, output: Option<string>, diff: Option<ToolDiff>)

  function OutputKey(chat: string, id: string): string { chat + "/" + id }

  function DiffKey(chat: string, id: string): string { chat + "/" + id + ".diff" }

  /** A tool part's inline output, text without a reference to the sidecar. */
  function InlineOutput(p: MessagePart): Option<string> {
    if p.ToolPart? && p.outputRef.None? then p.output else None
  }

  function FatOutput(p: MessagePart, r: StripRules): Option<string> {
    var full := InlineOutput(p);
    if full.Some? && !r.blank(full.value) then full else None
  }

  function InlineDiff(p: MessagePart): Option<ToolDiff> {
    if p.ToolPart? then p.diff else None
  }

  function Thin(chat: string, p: MessagePart, r: StripRules): MessagePart {
    if !p.ToolPart? then p
    else
      var fat, inline, diff := FatOutput(p, r), InlineOutput(p), p.diff;
      p.(output := if fat.Some? then r.rules.summarize(fat.value) else if inline.Some? then None else p.output,
         outputBytes := if fat.Some? then Some(ByteLen(fat.value)) else p.outputBytes,
         outputRef := if fat.Some? then Some(OutputKey(chat, p.id)) else p.outputRef,
         diff := None,
         diffStats := if diff.Some? then Some([r.rules.stat(diff.value)]) else p.diffStats,
         diffRef := if diff.Some? && p.diffRef.None? then Some(DiffKey(chat, p.id)) else p.diffRef)
  }

  function Owed(p: MessagePart, r: StripRules): Option<Payload> {
    if FatOutput(p, r).Some? || InlineDiff(p).Some? then Some(Payload(p.id, FatOutput(p, r), InlineDiff(p))) else None
  }

  /** `strip_part`. */
  method StripPart(chat: string, part: MessagePart, r: StripRules) returns (thin: MessagePart, payload: Option<Payload>)
    ensures thin == Thin(chat, part, r) && payload == Owed(part, r)
  {
    if !part.ToolPart? {
      return part, None;
    }
    var owedOutput: Option<string>, owedDiff: Option<ToolDiff> := None, None;
    var output, outputBytes, outputRef := part.output, part.outputBytes, part.outputRef;
    var diff, diffStats, diffRef := part.diff, part.diffStats, part.diffRef;
    if outputRef.None? && output.Some? {
      var full := output.value;
      if r.blank(full) {
        output := None;
      } else {
        output := r.rules.summarize(full);
        outputBytes := Some(ByteLen(full));
        outputRef := Some(chat + "/" + part.id);
        owedOutput := Some(full);
      }
    }
    if diff.Some? {
      var full := diff.value;
      diff := None;
      diffStats := Some([r.rules.stat(full)]);
      if diffRef.None? {
        diffRef := Some(chat + "/" + part.id + ".diff");
      }
      owedDiff := Some(full);
    }
    thin := ToolPart(part.id, part.call, part.isError, part.resolved, output, diff, outputRef, outputBytes, diffRef,
                     diffStats, part.subagentRef, part.subagentStatus, part.subagentTail, part.subagentMs,
                     part.subagentTools);
    payload := if owedOutput.Some? || owedDiff.Some? then Some(Payload(part.id, owedOutput, owedDiff)) else None;
  }

  // ── the rebuild ────────────────────────────────────────────────────────────

  function ThinParts(chat: string, parts: seq<MessagePart>, r: StripRules): (thin: seq<MessagePart>)
    ensures |thin| == |parts| && forall i :: 0 <= i < |parts| ==> thin[i] == Thin(chat, parts[i], r)
  {
    seq(|parts|, i requires 0 <= i < |parts| => Thin(chat, parts[i], r))
  }

  function OwedBy(parts: seq<MessagePart>, r: StripRules): seq<Payload> {
    if parts == [] then []
    else
      var n := |parts| - 1;
      OwedBy(parts[..n], r) + if Owed(parts[n], r).Some? then [Owed(parts[n], r).value] else []
  }

  function OwedByAll(entries: seq<Entry>, r: StripRules): seq<Payload> {
    if entries == [] then []
    else OwedByAll(entries[..|entries| - 1], r) + OwedBy(entries[|entries| - 1].parts, r)
  }

  function ThinEntry(chat: string, e: Entry, r: StripRules): Entry {
    e.(parts := ThinParts(chat, e.parts, r))
  }

  function ThinMessages(chat: string, entries: seq<Entry>, r: StripRules): (messages: seq<Message>)
    ensures |messages| == |entries|
    ensures forall i :: 0 <= i < |entries| ==> messages[i] == WriteEntry(ThinEntry(chat, entries[i], r))
  {
    seq(|entries|, i requires 0 <= i < |entries| => WriteEntry(ThinEntry(chat, entries[i], r)))
  }

  function StillPending(commands: seq<Command>): seq<Command> {
    if commands == [] then []
    else
      var n := |commands| - 1;
      StillPending(commands[..n]) + if commands[n].status == Pending then [Queued(commands[n])] else []
  }

  function ThinMeta(chat: Json): map<string, Json> {
    map[CHAT_ID := chat, SCHEMA_VERSION := SESSION_SCHEMA_VERSION, EPOCH := THIN_DOC_EPOCH]
  }

  function Rebuilt(s: DocState, r: StripRules): DocState
    requires CHAT_ID in s.meta
  {
    var chat := s.meta[CHAT_ID];
    DocState(ThinMeta(chat), ThinMessages(chat, ReadEntries(s.messages), r), StillPending(s.commands))
  }

  datatype ThinRebuild = ThinRebuild(doc: SessionDoc, sidecar: seq<Payload>, entries: nat, commandsCopied: nat)

  datatype RebuildResult = Rebuilding(thin: ThinRebuild) | NoChatId

  method StripParts(chat: string, parts: seq<MessagePart>, r: StripRules)
    returns (thin: seq<MessagePart>, owed: seq<Payload>)
    ensures thin == ThinParts(chat, parts, r) && owed == OwedBy(parts, r)
  {
    thin, owed := parts, [];
    for i := 0 to |parts|
      invariant |thin| == |parts| && owed == OwedBy(parts[..i], r)
      invariant forall j :: 0 <= j < i ==> thin[j] == Thin(chat, parts[j], r)
      invariant forall j :: i <= j < |parts| ==> thin[j] == parts[j]
    {
      var part, payload := StripPart(chat, thin[i], r);
      thin := thin[i := part];
      if payload.Some? {
        owed := owed + [payload.value];
      }
      assert parts[..i + 1][..i] == parts[..i];
    }
    assert parts[..|parts|] == parts;
  }

  /** `rebuild_thin_doc`. */
  method RebuildThinDoc(source: SessionDoc, r: StripRules) returns (result: RebuildResult)
    ensures result.NoChatId? <==> CHAT_ID !in source.meta
    ensures result.Rebuilding? ==>
              && fresh(result.thin.doc)
              && result.thin.doc.State() == Rebuilt(source.State(), r)
              && result.thin.sidecar == OwedByAll(ReadEntries(source.messages), r)
              && result.thin.entries == |source.messages|
              && result.thin.commandsCopied == |result.thin.doc.commands|
  {
    if CHAT_ID !in source.meta {
      return NoChatId;
    }
    var chat := source.meta[CHAT_ID];
    var entries, commands := ReadEntries(source.messages), source.commands;
    var thin := new SessionDoc.Init(chat);
    thin.InsertMeta(EPOCH, THIN_DOC_EPOCH);
    var sidecar := CopyEntries(chat, entries, thin, r);
    var copied := CopyCommands(commands, thin);
    result := Rebuilding(ThinRebuild(thin, sidecar, |entries|, copied));
  }

  method CopyEntries(chat: string, entries: seq<Entry>, thin: SessionDoc, r: StripRules) returns (sidecar: seq<Payload>)
    requires thin.messages == []
    modifies thin
    ensures thin.State() == DocState(old(thin.meta), ThinMessages(chat, entries, r), old(thin.commands))
    ensures sidecar == OwedByAll(entries, r)
  {
    sidecar := [];
    for i := 0 to |entries|
      invariant thin.meta == old(thin.meta) && thin.commands == old(thin.commands)
      invariant |thin.messages| == i
      invariant forall j :: 0 <= j < i ==> thin.messages[j] == WriteEntry(ThinEntry(chat, entries[j], r))
      invariant sidecar == OwedByAll(entries[..i], r)
    {
      var parts, owed := StripParts(chat, entries[i].parts, r);
      thin.PushMessage(entries[i].(parts := parts));
      sidecar := sidecar + owed;
      assert entries[..i + 1][..i] == entries[..i];
    }
    assert entries[..|entries|] == entries;
  }

  method CopyCommands(commands: seq<Command>, thin: SessionDoc) returns (copied: nat)
    requires thin.commands == []
    modifies thin
    ensures thin.State() == DocState(old(thin.meta), old(thin.messages), StillPending(commands))
    ensures copied == |StillPending(commands)|
  {
    copied := 0;
    for i := 0 to |commands|
      invariant thin.meta == old(thin.meta) && thin.messages == old(thin.messages)
      invariant thin.commands == StillPending(commands[..i]) && copied == |thin.commands|
    {
      assert commands[..i + 1][..i] == commands[..i];
      if commands[i].status == Pending {
        thin.QueueCommand(commands[i]);
        copied := copied + 1;
      }
    }
    assert commands[..|commands|] == commands;
  }
}
