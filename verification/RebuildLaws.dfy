/** The thin rebuild loses no output and no diff, and a second one changes nothing
    (crates/doc/src/rebuild.rs, lines 39-131). */
module RebuildLaws {
  import opened Options
  import opened Text
  import opened Parts
  import opened DocParts
  import opened Rebuild

  // ── one part ───────────────────────────────────────────────────────────────

  /** An output that weighs on the document: text of a tool part with no reference to the sidecar, and not blank. */
  predicate Fat(p: MessagePart, r: StripRules) {
    p.ToolPart? && p.outputRef.None? && p.output.Some? && !r.blank(p.output.value)
  }

  predicate HasDiff(p: MessagePart) {
    p.ToolPart? && p.diff.Some?
  }

  /** What a stripped part shows: a fat output gives way to a summary, a byte count and a reference, blank text to
      nothing, an inline diff to statistics and, if it had none, a reference; all else is kept. */
  lemma ThinPart(chat: string, p: MessagePart, r: StripRules)
    ensures var thin := Thin(chat, p, r);
            && (!p.ToolPart? ==> thin == p)
            && (p.ToolPart? ==>
                  && thin == p.(output := thin.output, outputBytes := thin.outputBytes, outputRef := thin.outputRef,
                                diff := None, diffStats := thin.diffStats, diffRef := thin.diffRef)
                  && (if Fat(p, r) then
                        thin.output == r.rules.summarize(p.output.value) &&
                        thin.outputBytes == Some(ByteLen(p.output.value)) && thin.outputRef == Some(chat + "/" + p.id)
                      else
                        thin.outputBytes == p.outputBytes && thin.outputRef == p.outputRef &&
                        thin.output == if p.outputRef.None? then None else p.output)
                  && (if HasDiff(p) then
                        thin.diffStats == Some([r.rules.stat(p.diff.value)]) &&
                        thin.diffRef == if p.diffRef.Some? then p.diffRef else Some(chat + "/" + p.id + ".diff")
                      else thin.diffStats == p.diffStats && thin.diffRef == p.diffRef))
  {
  }

  /** What is owed for a part is what the strip took out of it; so nothing but blank text is lost. */
  lemma StripLosesNothing(p: MessagePart, r: StripRules)
    ensures var owed := Owed(p, r);
            && (owed.Some? <==> Fat(p, r) || HasDiff(p))
            && (owed.Some? ==>
                  && owed.value.partId == p.id
                  && owed.value.output == (if Fat(p, r) then p.output else None)
                  && owed.value.diff == p.diff)
  {
  }

  lemma ThinTwice(chat: string, p: MessagePart, r: StripRules)
    ensures Thin(chat, Thin(chat, p, r), r) == Thin(chat, p, r)
    ensures Owed(Thin(chat, p, r), r) == None
  {
  }

  lemma ThinStaysStorable(chat: string, p: MessagePart, r: StripRules)
    requires Storable(p)
    ensures Storable(Thin(chat, p, r))
  {
  }

  lemma ReadIsStorable(row: Row)
    ensures Storable(FromDoc(row))
  {
  }

  /** What the rebuilt document shows for a row is the stripped part itself. */
  lemma ThinReadsBack(chat: string, row: Row, r: StripRules)
    ensures FromDoc(Pushed(Thin(chat, FromDoc(row), r))) == Thin(chat, FromDoc(row), r)
  {
    ReadIsStorable(row);
    ThinStaysStorable(chat, FromDoc(row), r);
    PushedReadsBack(Thin(chat, FromDoc(row), r));
  }

  // ── the whole document ─────────────────────────────────────────────────────

  lemma RebuiltMessage(chat: string, m: Message, r: StripRules)
    ensures ReadEntry(WriteEntry(ThinEntry(chat, ReadEntry(m), r))) == ThinEntry(chat, ReadEntry(m), r)
  {
    var e := ThinEntry(chat, ReadEntry(m), r);
    var back := ReadEntry(WriteEntry(e));
    forall i | 0 <= i < |e.parts| ensures back.parts[i] == e.parts[i] {
      ThinReadsBack(chat, m.rows[i], r);
    }
    assert back.parts == e.parts;
  }

  /** The metadata starts afresh: only the chat id is carried over, so all is kept exactly if there was nothing
      but that id, the schema version and the epoch of thin documents. */
  lemma MetaStartsAfresh(s: DocState, r: StripRules)
    requires CHAT_ID in s.meta
    ensures Rebuilt(s, r).meta == map["chatId" := s.meta["chatId"], "schemaVersion" := "1", "epoch" := "2"]
    ensures Rebuilt(s, r).meta == s.meta <==> s.meta == ThinMeta(s.meta[CHAT_ID])
    ensures forall mark :: mark in Rebuilt(s, r).meta <==> mark in [CHAT_ID, SCHEMA_VERSION, EPOCH]
    ensures Rebuilt(s, r).meta[CHAT_ID] == s.meta[CHAT_ID]
  {
    assert CHAT_ID != SCHEMA_VERSION && CHAT_ID != EPOCH;
  }

  /** The rebuilt document reads as the old one, entry by entry and in order, with every part stripped. */
  lemma RebuiltReads(s: DocState, r: StripRules)
    requires CHAT_ID in s.meta
    ensures var before, after := ReadEntries(s.messages), ReadEntries(Rebuilt(s, r).messages);
            |after| == |before| && forall i :: 0 <= i < |before| ==> after[i] == ThinEntry(s.meta[CHAT_ID], before[i], r)
  {
    var before := ReadEntries(s.messages);
    forall i | 0 <= i < |before|
      ensures ReadEntry(Rebuilt(s, r).messages[i]) == ThinEntry(s.meta[CHAT_ID], before[i], r)
    {
      RebuiltMessage(s.meta[CHAT_ID], s.messages[i], r);
    }
  }

  lemma ThinEntryTwice(chat: string, e: Entry, r: StripRules)
    ensures ThinEntry(chat, ThinEntry(chat, e, r), r) == ThinEntry(chat, e, r)
  {
    var once := ThinParts(chat, e.parts, r);
    forall i | 0 <= i < |e.parts| ensures ThinParts(chat, once, r)[i] == once[i] {
      ThinTwice(chat, e.parts[i], r);
    }
    assert ThinParts(chat, once, r) == once;
  }

  lemma {:induction false} ThinOwesNothing(parts: seq<MessagePart>, r: StripRules)
    requires forall p <- parts :: Owed(p, r).None?
    ensures OwedBy(parts, r) == []
  {
    if parts != [] {
      ThinOwesNothing(parts[..|parts| - 1], r);
    }
  }

  ghost predicate OwesNothing(e: Entry, r: StripRules) {
    forall p <- e.parts :: Owed(p, r).None?
  }

  lemma ThinEntryOwesNothing(chat: string, e: Entry, r: StripRules)
    ensures OwesNothing(ThinEntry(chat, e, r), r)
  {
    forall i | 0 <= i < |e.parts| ensures Owed(ThinEntry(chat, e, r).parts[i], r).None? {
      ThinTwice(chat, e.parts[i], r);
    }
  }

  lemma {:induction false} AllOweNothing(entries: seq<Entry>, r: StripRules)
    requires forall i :: 0 <= i < |entries| ==> OwesNothing(entries[i], r)
    ensures OwedByAll(entries, r) == []
  {
    if entries != [] {
      var n := |entries| - 1;
      AllOweNothing(entries[..n], r);
      assert OwesNothing(entries[n], r);
      ThinOwesNothing(entries[n].parts, r);
    }
  }

  predicate Open(c: Command) {
    c.status == Pending && c.resolution.None?
  }

  lemma {:induction false} PendingAreOpen(commands: seq<Command>)
    ensures forall c <- StillPending(commands) :: Open(c)
  {
    if commands != [] {
      PendingAreOpen(commands[..|commands| - 1]);
    }
  }

  lemma {:induction false} OpenStay(commands: seq<Command>)
    requires forall c <- commands :: Open(c)
    ensures StillPending(commands) == commands
  {
    if commands != [] {
      var n := |commands| - 1;
      OpenStay(commands[..n]);
      assert Open(commands[n]);
      assert Queued(commands[n]) == commands[n];
    }
  }

  // ── the commands ───────────────────────────────────────────────────────────

  /** `picks` are the places of the pending commands, in order. */
  ghost predicate PicksPending(commands: seq<Command>, picks: seq<nat>) {
    && (forall i, j :: 0 <= i < j < |picks| ==> picks[i] < picks[j])
    && (forall i: nat :: i in picks <==> i < |commands| && commands[i].status == Pending)
  }

  /** The rebuilt commands are those at `picks`, as they were but for a resolution. */
  ghost predicate Carries(after: seq<Command>, before: seq<Command>, picks: seq<nat>) {
    && |after| == |picks|
    && forall j :: 0 <= j < |picks| ==> picks[j] < |before| && after[j] == before[picks[j]].(resolution := None)
  }

  lemma {:induction false} PendingArePicked(commands: seq<Command>) returns (picks: seq<nat>)
    ensures PicksPending(commands, picks) && Carries(StillPending(commands), commands, picks)
  {
    picks := [];
    if commands != [] {
      var n := |commands| - 1;
      var before := PendingArePicked(commands[..n]);
      picks := before + if commands[n].status == Pending then [n] else [];
      assert forall i <- before :: i < n;
      assert forall i: nat :: i in picks <==> i in before || (i == n && commands[n].status == Pending);
    }
  }

  /** The rebuilt document has the pending commands, each once and in order, and no trace of the settled ones. */
  lemma OnlyPendingCross(s: DocState, r: StripRules)
    requires CHAT_ID in s.meta
    ensures exists picks: seq<nat> :: PicksPending(s.commands, picks) && Carries(Rebuilt(s, r).commands, s.commands, picks)
    ensures forall c <- Rebuilt(s, r).commands ::
              c.status == Pending && exists b <- s.commands :: b.status == Pending && c == b.(resolution := None)
  {
    var picks := PendingArePicked(s.commands);
    assert PicksPending(s.commands, picks) && Carries(Rebuilt(s, r).commands, s.commands, picks);
    var after := Rebuilt(s, r).commands;
    forall c | c in after
      ensures c.status == Pending && exists b <- s.commands :: b.status == Pending && c == b.(resolution := None)
    {
      var j :| 0 <= j < |after| && after[j] == c;
      assert picks[j] in picks;
      assert s.commands[picks[j]] in s.commands;
    }
  }

  /** Rebuilding a rebuilt document gives the same document, and nothing more for the sidecar. */
  lemma RebuildTwice(s: DocState, r: StripRules)
    requires CHAT_ID in s.meta
    ensures var once := Rebuilt(s, r);
            && CHAT_ID in once.meta
            && Rebuilt(once, r) == once
            && OwedByAll(ReadEntries(once.messages), r) == []
  {
    var chat, once := s.meta[CHAT_ID], Rebuilt(s, r);
    var entries, thin := ReadEntries(s.messages), ReadEntries(once.messages);
    assert CHAT_ID != SCHEMA_VERSION && CHAT_ID != EPOCH by {
      assert |CHAT_ID| == 6 && |SCHEMA_VERSION| == 13 && |EPOCH| == 5;
    }
    RebuiltReads(s, r);
    forall i | 0 <= i < |thin| ensures WriteEntry(ThinEntry(chat, thin[i], r)) == once.messages[i] {
      ThinEntryTwice(chat, entries[i], r);
    }
    assert ThinMessages(chat, thin, r) == once.messages;
    forall i | 0 <= i < |thin| ensures OwesNothing(thin[i], r) {
      ThinEntryOwesNothing(chat, entries[i], r);
    }
    AllOweNothing(thin, r);
    PendingAreOpen(s.commands);
    OpenStay(StillPending(s.commands));
  }

  // ── the sidecar ────────────────────────────────────────────────────────────

  function PartsOf(entries: seq<Entry>): seq<MessagePart> {
    if entries == [] then [] else PartsOf(entries[..|entries| - 1]) + entries[|entries| - 1].parts
  }

  /** Every fat output of a list of parts, with the part it belongs to. */
  function FatOutputs(parts: seq<MessagePart>, r: StripRules): seq<(string, string)> {
    if parts == [] then []
    else
      var n := |parts| - 1;
      FatOutputs(parts[..n], r) + if Fat(parts[n], r) then [(parts[n].id, parts[n].output.value)] else []
  }

  function InlineDiffs(parts: seq<MessagePart>): seq<(string, ToolDiff)> {
    if parts == [] then []
    else
      var n := |parts| - 1;
      InlineDiffs(parts[..n]) + if HasDiff(parts[n]) then [(parts[n].id, parts[n].diff.value)] else []
  }

  /** The outputs and the diffs of a sidecar. */
  function OutputsIn(sidecar: seq<Payload>): seq<(string, string)> {
    if sidecar == [] then []
    else
      var n := |sidecar| - 1;
      OutputsIn(sidecar[..n]) + if sidecar[n].output.Some? then [(sidecar[n].partId, sidecar[n].output.value)] else []
  }

  function DiffsIn(sidecar: seq<Payload>): seq<(string, ToolDiff)> {
    if sidecar == [] then []
    else
      var n := |sidecar| - 1;
      DiffsIn(sidecar[..n]) + if sidecar[n].diff.Some? then [(sidecar[n].partId, sidecar[n].diff.value)] else []
  }

  lemma {:induction false} InConcat(a: seq<Payload>, b: seq<Payload>)
    ensures OutputsIn(a + b) == OutputsIn(a) + OutputsIn(b) && DiffsIn(a + b) == DiffsIn(a) + DiffsIn(b)
  {
    if b == [] {
      assert a + b == a;
    } else {
      assert (a + b)[..|a + b| - 1] == a + b[..|b| - 1];
      InConcat(a, b[..|b| - 1]);
    }
  }

  lemma {:induction false} FatConcat(a: seq<MessagePart>, b: seq<MessagePart>, r: StripRules)
    ensures FatOutputs(a + b, r) == FatOutputs(a, r) + FatOutputs(b, r)
    ensures InlineDiffs(a + b) == InlineDiffs(a) + InlineDiffs(b)
  {
    if b == [] {
      assert a + b == a;
    } else {
      assert (a + b)[..|a + b| - 1] == a + b[..|b| - 1];
      FatConcat(a, b[..|b| - 1], r);
    }
  }

  lemma InMore(sidecar: seq<Payload>, p: Payload)
    ensures OutputsIn(sidecar + [p]) == OutputsIn(sidecar) + if p.output.Some? then [(p.partId, p.output.value)] else []
    ensures DiffsIn(sidecar + [p]) == DiffsIn(sidecar) + if p.diff.Some? then [(p.partId, p.diff.value)] else []
  {
    assert (sidecar + [p])[..|sidecar|] == sidecar;
  }

  lemma OwedMore(parts: seq<MessagePart>, p: MessagePart, r: StripRules)
    ensures OutputsIn(OwedBy(parts + [p], r)) ==
            OutputsIn(OwedBy(parts, r)) + if Fat(p, r) then [(p.id, p.output.value)] else []
    ensures DiffsIn(OwedBy(parts + [p], r)) ==
            DiffsIn(OwedBy(parts, r)) + if HasDiff(p) then [(p.id, p.diff.value)] else []
  {
    var owed := OwedBy(parts, r);
    assert (parts + [p])[..|parts|] == parts;
    StripLosesNothing(p, r);
    if Owed(p, r).Some? {
      InMore(owed, Owed(p, r).value);
    } else {
      assert owed + [] == owed;
    }
  }

  lemma {:induction false} OwedIsFat(parts: seq<MessagePart>, r: StripRules)
    ensures OutputsIn(OwedBy(parts, r)) == FatOutputs(parts, r) && DiffsIn(OwedBy(parts, r)) == InlineDiffs(parts)
  {
    if parts != [] {
      var init, p := parts[..|parts| - 1], parts[|parts| - 1];
      OwedIsFat(init, r);
      OwedMore(init, p, r);
      FatMore(init, p, r);
      assert init + [p] == parts;
    }
  }

  lemma FatMore(parts: seq<MessagePart>, p: MessagePart, r: StripRules)
    ensures FatOutputs(parts + [p], r) ==
            FatOutputs(parts, r) + if Fat(p, r) then [(p.id, p.output.value)] else []
    ensures InlineDiffs(parts + [p]) ==
            InlineDiffs(parts) + if HasDiff(p) then [(p.id, p.diff.value)] else []
  {
    assert (parts + [p])[..|parts|] == parts;
  }

  /** Every output that is not blank and has no reference yet, and every inline diff, is in the sidecar
      once, under its part, in document order; and nothing else is. */
  lemma {:induction false} SidecarHoldsAll(entries: seq<Entry>, r: StripRules)
    ensures OutputsIn(OwedByAll(entries, r)) == FatOutputs(PartsOf(entries), r)
    ensures DiffsIn(OwedByAll(entries, r)) == InlineDiffs(PartsOf(entries))
  {
    if entries != [] {
      var n := |entries| - 1;
      SidecarHoldsAll(entries[..n], r);
      InConcat(OwedByAll(entries[..n], r), OwedBy(entries[n].parts, r));
      FatConcat(PartsOf(entries[..n]), entries[n].parts, r);
      OwedIsFat(entries[n].parts, r);
    }
  }

  // ── finding it again ───────────────────────────────────────────────────────

  datatype Blob = OutputBlob(text: string) | DiffBlob(diff: ToolDiff)

  /** The uploads a sidecar stands for, in order (crates/engine/src/doc_host.rs, lines 2018-2066). */
  function Puts(chat: string, sidecar: seq<Payload>): seq<(string, Blob)> {
    if sidecar == [] then []
    else
      var n := |sidecar| - 1;
      var p := sidecar[n];
      Puts(chat, sidecar[..n])
      + (if p.output.Some? then [(OutputKey(chat, p.partId), OutputBlob(p.output.value))] else [])
      + (if p.diff.Some? then [(DiffKey(chat, p.partId), DiffBlob(p.diff.value))] else [])
  }

  /** What the store holds after uploads that land in this order: a later one under the same key replaces an
      earlier one. */
  function Uploaded(order: seq<(string, Blob)>): map<string, Blob> {
    if order == [] then map[] else Uploaded(order[..|order| - 1])[order[|order| - 1].0 := order[|order| - 1].1]
  }

  ghost predicate NoClash(puts: seq<(string, Blob)>) {
    forall p, q :: p in puts && q in puts && p.0 == q.0 ==> p.1 == q.1
  }

  /** The store holds under each key something that was uploaded under it. */
  lemma {:induction false} StoreIsUploaded(order: seq<(string, Blob)>, key: string)
    ensures key in Uploaded(order) <==> exists p :: p in order && p.0 == key
    ensures key in Uploaded(order) ==> (key, Uploaded(order)[key]) in order
  {
    if order != [] {
      var n := |order| - 1;
      assert order == order[..n] + [order[n]];
      StoreIsUploaded(order[..n], key);
      if order[n].0 == key {
        assert order[n] == (key, order[n].1);
      }
    }
  }

  ghost predicate Found(store: map<string, Blob>, put: (string, Blob)) {
    put.0 in store && store[put.0] == put.1
  }

  /** The uploads are sent by independent workers and land in any order. Without a clash every one of them can
      be fetched back whatever the order; with a clash, whatever the order, one of them cannot: two tool calls
      of a chat that share a part id, or one named like the other's diff, cost an output. */
  lemma AllCanBeFetched(puts: seq<(string, Blob)>, order: seq<(string, Blob)>)
    requires multiset(order) == multiset(puts)
    ensures (forall put <- puts :: Found(Uploaded(order), put)) <==> NoClash(puts)
  {
    forall put ensures put in order <==> put in puts {
      assert put in multiset(order) <==> put in multiset(puts);
    }
    if NoClash(puts) {
      forall put | put in puts ensures Found(Uploaded(order), put) {
        StoreIsUploaded(order, put.0);
      }
    }
    if forall put <- puts :: Found(Uploaded(order), put) {
      forall p, q | p in puts && q in puts && p.0 == q.0 ensures p.1 == q.1 {
        assert Found(Uploaded(order), p) && Found(Uploaded(order), q);
      }
    }
  }

  /** The keys of a chat tell its parts apart. */
  lemma KeysAreInjective(chat: string, a: string, b: string)
    ensures OutputKey(chat, a) == OutputKey(chat, b) <==> a == b
    ensures DiffKey(chat, a) == DiffKey(chat, b) <==> a == b
    ensures OutputKey(chat, a) == DiffKey(chat, b) <==> a == b + ".diff"
  {
    var n := |chat| + 1;
    assert OutputKey(chat, a)[n..] == a && OutputKey(chat, b)[n..] == b;
    assert DiffKey(chat, a)[n..] == a + ".diff" && DiffKey(chat, b)[n..] == b + ".diff";
    assert (a + ".diff")[..|a|] == a && (b + ".diff")[..|b|] == b;
    assert DiffKey(chat, b) == OutputKey(chat, b + ".diff");
  }

  lemma {:induction false} FatIsListed(parts: seq<MessagePart>, p: MessagePart, r: StripRules)
    requires p in parts && Fat(p, r)
    ensures (p.id, p.output.value) in FatOutputs(parts, r)
  {
    var n := |parts| - 1;
    if p != parts[n] {
      assert p in parts[..n];
      FatIsListed(parts[..n], p, r);
    }
  }

  lemma {:induction false} OutputIsPut(chat: string, sidecar: seq<Payload>, id: string, text: string)
    requires (id, text) in OutputsIn(sidecar)
    ensures (OutputKey(chat, id), OutputBlob(text)) in Puts(chat, sidecar)
  {
    var n := |sidecar| - 1;
    if (id, text) in OutputsIn(sidecar[..n]) {
      OutputIsPut(chat, sidecar[..n], id, text);
    }
  }

  lemma {:induction false} DiffIsListed(parts: seq<MessagePart>, p: MessagePart)
    requires p in parts && HasDiff(p)
    ensures (p.id, p.diff.value) in InlineDiffs(parts)
  {
    var n := |parts| - 1;
    if p != parts[n] {
      assert p in parts[..n];
      DiffIsListed(parts[..n], p);
    }
  }

  lemma {:induction false} DiffIsPut(chat: string, sidecar: seq<Payload>, id: string, diff: ToolDiff)
    requires (id, diff) in DiffsIn(sidecar)
    ensures (DiffKey(chat, id), DiffBlob(diff)) in Puts(chat, sidecar)
  {
    var n := |sidecar| - 1;
    if (id, diff) in DiffsIn(sidecar[..n]) {
      DiffIsPut(chat, sidecar[..n], id, diff);
    }
  }

  /** Once the sidecar is uploaded, in any order and without a clash, the reference left on a stripped part
      leads back to its whole output. */
  lemma OutputIsFound(chat: string, entries: seq<Entry>, p: MessagePart, r: StripRules, order: seq<(string, Blob)>)
    requires p in PartsOf(entries) && Fat(p, r)
    requires multiset(order) == multiset(Puts(chat, OwedByAll(entries, r))) && NoClash(order)
    ensures var store, key := Uploaded(order), Thin(chat, p, r).outputRef;
            key.Some? && key.value in store && store[key.value] == OutputBlob(p.output.value)
  {
    var puts, put := Puts(chat, OwedByAll(entries, r)), (OutputKey(chat, p.id), OutputBlob(p.output.value));
    ThinPart(chat, p, r);
    FatIsListed(PartsOf(entries), p, r);
    SidecarHoldsAll(entries, r);
    OutputIsPut(chat, OwedByAll(entries, r), p.id, p.output.value);
    assert put in multiset(puts);
    AllCanBeFetched(order, order);
    assert put in order && Found(Uploaded(order), put);
  }

  /** And so does the reference left for an inline diff that had none. */
  lemma DiffIsFound(chat: string, entries: seq<Entry>, p: MessagePart, r: StripRules, order: seq<(string, Blob)>)
    requires p in PartsOf(entries) && HasDiff(p) && p.diffRef.None?
    requires multiset(order) == multiset(Puts(chat, OwedByAll(entries, r))) && NoClash(order)
    ensures var store, key := Uploaded(order), Thin(chat, p, r).diffRef;
            key.Some? && key.value in store && store[key.value] == DiffBlob(p.diff.value)
  {
    var puts, put := Puts(chat, OwedByAll(entries, r)), (DiffKey(chat, p.id), DiffBlob(p.diff.value));
    ThinPart(chat, p, r);
    DiffIsListed(PartsOf(entries), p);
    SidecarHoldsAll(entries, r);
    DiffIsPut(chat, OwedByAll(entries, r), p.id, p.diff.value);
    assert put in multiset(puts);
    AllCanBeFetched(order, order);
    assert put in order && Found(Uploaded(order), put);
  }
}
