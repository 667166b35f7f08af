/** Patching any list a viewer may hold, whether or not it is the one the frame was made for
    (crates/doc/src/transcript_delta.rs, lines 180-249). */
module PatchLaws {
  import opened Options
  import opened Text
  import opened Parts
  import opened IdLists
  import opened Transcript
  import opened TranscriptLaws

  // ── what a viewer shows ────────────────────────────────────────────────────

  predicate IsText(p: MessagePart, id: string) {
    p.TextPart? && p.id == id
  }

  ghost predicate FirstOf(list: seq<Entry>, id: EntryId, i: nat) {
    i < |list| && list[i].id == id && forall j :: 0 <= j < i ==> list[j].id != id
  }

  ghost predicate FirstText(parts: seq<MessagePart>, id: string, k: nat) {
    k < |parts| && IsText(parts[k], id) && forall j :: 0 <= j < k ==> !IsText(parts[j], id)
  }

  /** Where the text `part` of `entry` stands: both look-ups take the first hit. */
  ghost predicate TextAt(list: seq<Entry>, entry: EntryId, part: string, i: nat, k: nat) {
    FirstOf(list, entry, i) && FirstText(list[i].parts, part, k)
  }

  ghost predicate Shows(list: seq<Entry>, entry: EntryId, part: string, text: string) {
    exists i: nat, k: nat :: TextAt(list, entry, part, i, k) && list[i].parts[k].text == text
  }

  lemma {:induction false} IndexIsFirst(list: seq<Entry>, id: EntryId)
    ensures var ix := IndexOf(list, id);
            if ix.Some? then FirstOf(list, id, ix.value) else forall j :: 0 <= j < |list| ==> list[j].id != id
  {
    if list != [] && list[0].id != id {
      IndexIsFirst(list[1..], id);
      assert forall j :: 0 < j < |list| ==> list[j] == list[1..][j - 1];
    }
  }

  lemma {:induction false} TextIndexIsFirst(parts: seq<MessagePart>, id: string)
    ensures var k := TextIndex(parts, id);
            if k.Some? then FirstText(parts, id, k.value) else forall j :: 0 <= j < |parts| ==> !IsText(parts[j], id)
  {
    if parts != [] && !IsText(parts[0], id) {
      TextIndexIsFirst(parts[1..], id);
      assert forall j :: 0 < j < |parts| ==> parts[j] == parts[1..][j - 1];
    }
  }

  // ── appends ────────────────────────────────────────────────────────────────

  /** Everything a run of appends adds to one text. */
  function Added(appends: seq<TextAppend>, entry: EntryId, part: string): string {
    if appends == [] then ""
    else
      var last := appends[|appends| - 1];
      Added(appends[..|appends| - 1], entry, part) + if last.entry == entry && last.part == part then last.text else ""
  }

  /** The part at `i`, `k` once the appends are in: only a text that is found by its name takes them. */
  ghost function PartAfter(list: seq<Entry>, appends: seq<TextAppend>, i: nat, k: nat): MessagePart
    requires i < |list| && k < |list[i].parts|
  {
    var p := list[i].parts[k];
    if p.TextPart? && TextAt(list, list[i].id, p.id, i, k) then TextPart(p.id, p.text + Added(appends, list[i].id, p.id))
    else p
  }

  /** `after` is `before` with its texts as long as the appends make them, and nothing else changed. */
  ghost predicate Lengthened(before: seq<Entry>, after: seq<Entry>, appends: seq<TextAppend>) {
    && |after| == |before|
    && (forall i :: 0 <= i < |before| ==>
          |after[i].parts| == |before[i].parts| && after[i] == before[i].(parts := after[i].parts))
    && forall i, k :: 0 <= i < |before| && 0 <= k < |before[i].parts| ==>
         after[i].parts[k] == PartAfter(before, appends, i, k)
  }

  /** The tripwire of append `n`: its text is there, and with this and the earlier appends to it as long as told. */
  ghost predicate Fits(list: seq<Entry>, appends: seq<TextAppend>, n: nat)
    requires n < |appends|
  {
    var a := appends[n];
    exists text: string ::
      Shows(list, a.entry, a.part, text) && ByteLen(text + Added(appends[..n + 1], a.entry, a.part)) == a.len
  }

  lemma ShownOnce(list: seq<Entry>, entry: EntryId, part: string, i: nat, k: nat, text: string)
    requires TextAt(list, entry, part, i, k) && Shows(list, entry, part, text)
    ensures text == list[i].parts[k].text
  {
    var j: nat, m: nat :| TextAt(list, entry, part, j, m) && list[j].parts[m].text == text;
    assert i == j && k == m;
  }

  /** One append: the text it names, in full, or a desync. */
  lemma ExtendIs(list: seq<Entry>, a: TextAppend) returns (i: nat, k: nat)
    ensures Extend(list, a).Applied? ==>
              && TextAt(list, a.entry, a.part, i, k)
              && var text := list[i].parts[k].text + a.text;
                 ByteLen(text) == a.len &&
                 Extend(list, a).entries == list[i := list[i].(parts := list[i].parts[k := TextPart(a.part, text)])]
    ensures Extend(list, a).Desync? ==>
              forall text :: Shows(list, a.entry, a.part, text) ==> ByteLen(text + a.text) != a.len
  {
    i, k := 0, 0;
    IndexIsFirst(list, a.entry);
    var ix := IndexOf(list, a.entry);
    if ix.Some? {
      i := ix.value;
      TextIndexIsFirst(list[i].parts, a.part);
      var kx := TextIndex(list[i].parts, a.part);
      if kx.Some? {
        k := kx.value;
        forall text | Shows(list, a.entry, a.part, text) ensures text == list[i].parts[k].text {
          ShownOnce(list, a.entry, a.part, i, k, text);
        }
      }
    }
  }

  lemma SamePlaces(before: seq<Entry>, after: seq<Entry>, appends: seq<TextAppend>, entry: EntryId, part: string,
                   i: nat, k: nat)
    requires Lengthened(before, after, appends)
    ensures TextAt(after, entry, part, i, k) <==> TextAt(before, entry, part, i, k)
  {
    if i < |before| {
      forall m | 0 <= m < |before[i].parts| ensures IsText(after[i].parts[m], part) <==> IsText(before[i].parts[m], part) {
        assert after[i].parts[m] == PartAfter(before, appends, i, m);
      }
    }
  }

  lemma LengthenedShows(before: seq<Entry>, after: seq<Entry>, appends: seq<TextAppend>, entry: EntryId, part: string,
                        i: nat, k: nat)
    requires Lengthened(before, after, appends) && TextAt(before, entry, part, i, k)
    ensures TextAt(after, entry, part, i, k)
    ensures after[i].parts[k].text == before[i].parts[k].text + Added(appends, entry, part)
  {
    SamePlaces(before, after, appends, entry, part, i, k);
    assert after[i].parts[k] == PartAfter(before, appends, i, k);
  }

  lemma AddedSnoc(init: seq<TextAppend>, a: TextAppend, entry: EntryId, part: string)
    ensures Added(init + [a], entry, part) ==
            Added(init, entry, part) + if a.entry == entry && a.part == part then a.text else ""
  {
    assert (init + [a])[..|init|] == init;
  }

  /** One more append to a list that has taken the earlier ones. */
  lemma LengthenMore(start: seq<Entry>, list: seq<Entry>, init: seq<TextAppend>, a: TextAppend, i: nat, k: nat)
    requires Lengthened(start, list, init) && TextAt(list, a.entry, a.part, i, k)
    ensures var text := list[i].parts[k].text + a.text;
            Lengthened(start, list[i := list[i].(parts := list[i].parts[k := TextPart(a.part, text)])], init + [a])
  {
    var text := list[i].parts[k].text + a.text;
    var after := list[i := list[i].(parts := list[i].parts[k := TextPart(a.part, text)])];
    SamePlaces(start, list, init, a.entry, a.part, i, k);
    forall j, m | 0 <= j < |start| && 0 <= m < |start[j].parts|
      ensures after[j].parts[m] == PartAfter(start, init + [a], j, m)
    {
      var p := start[j].parts[m];
      assert list[j].parts[m] == PartAfter(start, init, j, m);
      if p.TextPart? && TextAt(start, start[j].id, p.id, j, m) {
        AddedSnoc(init, a, start[j].id, p.id);
        Regroup(p.text, Added(init, start[j].id, p.id), a.text);
      }
    }
  }

  ghost predicate AllFit(list: seq<Entry>, appends: seq<TextAppend>) {
    forall n :: 0 <= n < |appends| ==> Fits(list, appends, n)
  }

  lemma AllFitMore(list: seq<Entry>, appends: seq<TextAppend>)
    requires appends != []
    ensures AllFit(list, appends) <==> AllFit(list, appends[..|appends| - 1]) && Fits(list, appends, |appends| - 1)
  {
    var init := appends[..|appends| - 1];
    forall n | 0 <= n < |init| ensures Fits(list, appends, n) <==> Fits(list, init, n) {
      assert init[..n + 1] == appends[..n + 1];
    }
  }

  /** Appends on any list: they are taken exactly if every tripwire fits, and then each text has grown by all that
      names it. */
  lemma {:induction false} AppendsAreExact(list: seq<Entry>, appends: seq<TextAppend>)
    ensures ExtendAll(list, appends).Applied? <==> AllFit(list, appends)
    ensures ExtendAll(list, appends).Applied? ==> Lengthened(list, ExtendAll(list, appends).entries, appends)
  {
    if appends == [] {
      NothingLengthened(list);
    } else {
      var init := appends[..|appends| - 1];
      AppendsAreExact(list, init);
      AllFitMore(list, appends);
      if ExtendAll(list, init).Applied? {
        LastAppend(list, appends, ExtendAll(list, init).entries);
      }
    }
  }

  lemma NothingLengthened(list: seq<Entry>)
    ensures Lengthened(list, list, [])
  {
    forall i, k | 0 <= i < |list| && 0 <= k < |list[i].parts| ensures list[i].parts[k] == PartAfter(list, [], i, k) {
      if list[i].parts[k].TextPart? {
        assert list[i].parts[k].text + "" == list[i].parts[k].text;
      }
    }
  }

  lemma LastAppend(list: seq<Entry>, appends: seq<TextAppend>, now: seq<Entry>)
    requires appends != [] && Lengthened(list, now, appends[..|appends| - 1])
    ensures var n := |appends| - 1;
            && (Extend(now, appends[n]).Applied? <==> Fits(list, appends, n))
            && (Extend(now, appends[n]).Applied? ==> Lengthened(list, Extend(now, appends[n]).entries, appends))
  {
    var n := |appends| - 1;
    var init, a := appends[..n], appends[n];
    assert appends == init + [a] == appends[..n + 1];
    AddedSnoc(init, a, a.entry, a.part);
    var i, k := ExtendIs(now, a);
    if Extend(now, a).Applied? {
      LengthenMore(list, now, init, a, i, k);
      SamePlaces(list, now, init, a.entry, a.part, i, k);
      LengthenedShows(list, now, init, a.entry, a.part, i, k);
      var text := list[i].parts[k].text;
      Regroup(text, Added(init, a.entry, a.part), a.text);
      assert Shows(list, a.entry, a.part, text);
    }
    if Fits(list, appends, n) {
      var text :| Shows(list, a.entry, a.part, text) && ByteLen(text + Added(appends, a.entry, a.part)) == a.len;
      var j: nat, m: nat :| TextAt(list, a.entry, a.part, j, m) && list[j].parts[m].text == text;
      LengthenedShows(list, now, init, a.entry, a.part, j, m);
      Regroup(text, Added(init, a.entry, a.part), a.text);
      assert Shows(now, a.entry, a.part, text + Added(init, a.entry, a.part));
    }
  }

  // ── removals and upserts ───────────────────────────────────────────────────

  /** `kept` lists, in their order, exactly the entries at `picks`: those whose id is not gone. */
  ghost predicate Left(list: seq<Entry>, gone: seq<EntryId>, kept: seq<Entry>, picks: seq<nat>) {
    && |picks| == |kept|
    && (forall m, n :: 0 <= m < n < |picks| ==> picks[m] < picks[n])
    && (forall m :: 0 <= m < |picks| ==> picks[m] < |list| && kept[m] == list[picks[m]])
    && forall i :: 0 <= i < |list| ==> (i in picks <==> list[i].id !in gone)
  }

  lemma {:induction false} RetainedIsLeft(list: seq<Entry>, gone: seq<EntryId>) returns (picks: seq<nat>)
    ensures Left(list, gone, Retained(list, gone), picks)
  {
    picks := [];
    if list != [] {
      var rest := RetainedIsLeft(list[1..], gone);
      picks := LeftCons(list, gone, Retained(list[1..], gone), rest);
    }
  }

  lemma LeftCons(list: seq<Entry>, gone: seq<EntryId>, kept: seq<Entry>, rest: seq<nat>) returns (picks: seq<nat>)
    requires list != [] && Left(list[1..], gone, kept, rest)
    ensures Left(list, gone, (if list[0].id in gone then [] else [list[0]]) + kept, picks)
  {
    var later := Shifted(rest);
    forall i | 0 < i < |list| ensures i in later <==> list[i].id !in gone {
      assert list[i] == list[1..][i - 1];
    }
    if list[0].id in gone {
      picks := later;
      assert [] + kept == kept;
    } else {
      picks := [0] + later;
      LeftHead(list, gone, kept, later);
    }
  }

  lemma Shifted(rest: seq<nat>) returns (later: seq<nat>)
    ensures |later| == |rest| && forall m :: 0 <= m < |rest| ==> later[m] == rest[m] + 1
    ensures forall i :: i in later <==> i - 1 in rest
  {
    later := seq(|rest|, m requires 0 <= m < |rest| => rest[m] + 1);
    forall i | i - 1 in rest ensures i in later {
      var m :| 0 <= m < |rest| && rest[m] == i - 1;
      assert later[m] == i;
    }
  }

  lemma LeftHead(list: seq<Entry>, gone: seq<EntryId>, kept: seq<Entry>, later: seq<nat>)
    requires list != [] && list[0].id !in gone && |later| == |kept|
    requires forall m, n :: 0 <= m < n < |later| ==> later[m] < later[n]
    requires forall m :: 0 <= m < |later| ==> 0 < later[m] < |list| && kept[m] == list[later[m]]
    requires forall i :: 0 < i < |list| ==> (i in later <==> list[i].id !in gone)
    ensures Left(list, gone, [list[0]] + kept, [0] + later)
  {
    var picks := [0] + later;
    forall i | 0 <= i < |list| ensures i in picks <==> list[i].id !in gone {
      if i == 0 {
        assert picks[0] == 0;
      }
    }
  }

  ghost predicate WithoutFirst(list: seq<Entry>, id: EntryId, rest: seq<Entry>) {
    if exists i: nat :: FirstOf(list, id, i) then exists i: nat :: FirstOf(list, id, i) && rest == list[..i] + list[i + 1..]
    else rest == list
  }

  /** The entry stands right behind the first entry of its anchor, or in front; its old copy is out. */
  ghost predicate PlacedAs(before: seq<Entry>, up: Upsert, rest: seq<Entry>, at: nat, after: seq<Entry>) {
    && WithoutFirst(before, up.entry.id, rest)
    && (if up.after.None? then at == 0 else at > 0 && FirstOf(rest, up.after.value, at - 1))
    && at <= |rest| && after == rest[..at] + [up.entry] + rest[at..]
  }

  ghost predicate Places(before: seq<Entry>, up: Upsert, after: seq<Entry>) {
    exists rest: seq<Entry>, at: nat :: PlacedAs(before, up, rest, at, after)
  }

  /** With its old copy out, the list has no entry of the anchor's id. */
  ghost predicate MissesAnchor(before: seq<Entry>, up: Upsert) {
    up.after.Some? && exists rest: seq<Entry> ::
      WithoutFirst(before, up.entry.id, rest) && forall j :: 0 <= j < |rest| ==> rest[j].id != up.after.value
  }

  lemma DroppedIsWithout(list: seq<Entry>, id: EntryId)
    ensures WithoutFirst(list, id, Dropped(list, id))
  {
    IndexIsFirst(list, id);
    if IndexOf(list, id).Some? {
      DroppedByIndex(list, id);
    } else {
      NothingDropped(list, id);
    }
  }

  lemma PlaceIs(before: seq<Entry>, up: Upsert)
    ensures Place(before, up).Applied? ==> Places(before, up, Place(before, up).entries)
    ensures Place(before, up).Desync? ==> MissesAnchor(before, up)
  {
    var rest := Dropped(before, up.entry.id);
    DroppedIsWithout(before, up.entry.id);
    if up.after.None? {
      assert [up.entry] + rest == rest[..0] + [up.entry] + rest[0..];
      assert PlacedAs(before, up, rest, 0, [up.entry] + rest);
    } else {
      IndexIsFirst(rest, up.after.value);
      AnchorByIndex(rest, up.after.value);
      if IndexOf(rest, up.after.value).Some? {
        BehindByIndex(rest, up.after.value, up.entry);
        assert PlacedAs(before, up, rest, IndexOf(rest, up.after.value).value + 1, Place(before, up).entries);
      }
    }
  }

  /** The lists a viewer passes through, one upsert after another, as far as it gets. */
  ghost predicate Passes(start: seq<Entry>, ups: seq<Upsert>, lists: seq<seq<Entry>>) {
    && 0 < |lists| <= |ups| + 1 && lists[0] == start
    && (forall n :: 0 <= n < |lists| - 1 ==> Places(lists[n], ups[n], lists[n + 1]))
    && (|lists| <= |ups| ==> MissesAnchor(lists[|lists| - 1], ups[|lists| - 1]))
  }

  lemma {:induction false} PlaceAllPasses(start: seq<Entry>, ups: seq<Upsert>) returns (lists: seq<seq<Entry>>)
    ensures Passes(start, ups, lists)
    ensures PlaceAll(start, ups) == if |lists| == |ups| + 1 then Transcript.Applied(lists[|ups|]) else Desync
  {
    if ups == [] {
      lists := [start];
    } else {
      var n := |ups| - 1;
      var init := PlaceAllPasses(start, ups[..n]);
      lists := PassesMore(start, ups, init);
    }
  }

  lemma PassesMore(start: seq<Entry>, ups: seq<Upsert>, init: seq<seq<Entry>>) returns (lists: seq<seq<Entry>>)
    requires ups != [] && Passes(start, ups[..|ups| - 1], init)
    ensures Passes(start, ups, lists)
    ensures var n := |ups| - 1;
            if |init| == n + 1 && Place(init[n], ups[n]).Applied? then
              |lists| == n + 2 && lists[n + 1] == Place(init[n], ups[n]).entries
            else |lists| <= n + 1
  {
    var n := |ups| - 1;
    lists := init;
    if |init| == n + 1 {
      PlaceIs(init[n], ups[n]);
      if Place(init[n], ups[n]).Applied? {
        lists := init + [Place(init[n], ups[n]).entries];
        forall m | 0 <= m < |lists| - 1 ensures Places(lists[m], ups[m], lists[m + 1]) {
          if m < n {
            assert Places(init[m], ups[..n][m], init[m + 1]);
          }
        }
      }
    }
  }

  // ── any patch ──────────────────────────────────────────────────────────────

  /** A delta on any list: it is taken exactly if every anchor is found in its turn, every append fits and the count is
      right, and then the texts have grown and nothing else has changed since the last upsert. */
  lemma PatchIsExact(held: seq<Entry>, frame: Frame)
    returns (kept: seq<Entry>, picks: seq<nat>, lists: seq<seq<Entry>>)
    requires frame.Delta?
    ensures Left(held, frame.remove, kept, picks) && Passes(kept, frame.upsert, lists)
    ensures var placed := lists[|lists| - 1];
            && (Patch(held, frame).Applied? <==>
                |lists| == |frame.upsert| + 1 && |placed| == frame.count && AllFit(placed, frame.append))
            && (Patch(held, frame).Applied? ==> Lengthened(placed, Patch(held, frame).entries, frame.append))
    ensures |lists| == |frame.upsert| + 1 ==>
              PlaceAll(Retained(held, frame.remove), frame.upsert) == Transcript.Applied(lists[|lists| - 1])
  {
    kept := Retained(held, frame.remove);
    picks := RetainedIsLeft(held, frame.remove);
    lists := PlaceAllPasses(kept, frame.upsert);
    AppendsAreExact(lists[|lists| - 1], frame.append);
  }

  // ── entries a delta leaves alone ───────────────────────────────────────────

  function First(list: seq<Entry>, id: EntryId): Option<Entry> {
    if list == [] then None else if list[0].id == id then Some(list[0]) else First(list[1..], id)
  }

  lemma {:induction false} FirstIs(list: seq<Entry>, id: EntryId)
    ensures First(list, id) == if IndexOf(list, id).Some? then Some(list[IndexOf(list, id).value]) else None
  {
    if list != [] && list[0].id != id {
      FirstIs(list[1..], id);
    }
  }

  lemma {:induction false} FirstRetained(list: seq<Entry>, gone: seq<EntryId>, id: EntryId)
    requires id !in gone
    ensures First(Retained(list, gone), id) == First(list, id)
  {
    if list != [] {
      FirstRetained(list[1..], gone, id);
      var rest := Retained(list[1..], gone);
      if list[0].id in gone {
        assert Retained(list, gone) == rest;
      } else {
        assert Retained(list, gone) == [list[0]] + rest && ([list[0]] + rest)[1..] == rest;
      }
    }
  }

  lemma {:induction false} FirstDropped(list: seq<Entry>, other: EntryId, id: EntryId)
    requires id != other
    ensures First(Dropped(list, other), id) == First(list, id)
  {
    if list != [] && list[0].id != other {
      FirstDropped(list[1..], other, id);
      assert Dropped(list, other)[1..] == Dropped(list[1..], other);
    }
  }

  lemma {:induction false} FirstBehind(list: seq<Entry>, anchor: EntryId, e: Entry, id: EntryId)
    requires id != e.id
    ensures First(Behind(list, anchor, e), id) == First(list, id)
  {
    if list != [] {
      if list[0].id == anchor {
        assert Behind(list, anchor, e) == [list[0]] + ([e] + list[1..]);
        assert ([e] + list[1..])[1..] == list[1..];
      } else {
        FirstBehind(list[1..], anchor, e, id);
        assert Behind(list, anchor, e)[1..] == Behind(list[1..], anchor, e);
      }
    }
  }

  lemma {:induction false} FirstPlaced(list: seq<Entry>, ups: seq<Upsert>, id: EntryId)
    requires PlaceAll(list, ups).Applied? && forall up <- ups :: up.entry.id != id
    ensures First(PlaceAll(list, ups).entries, id) == First(list, id)
  {
    if ups != [] {
      var n := |ups| - 1;
      FirstPlaced(list, ups[..n], id);
      var now, up := PlaceAll(list, ups[..n]).entries, ups[n];
      assert up in ups;
      var rest := Dropped(now, up.entry.id);
      FirstDropped(now, up.entry.id, id);
      if up.after.None? {
        assert ([up.entry] + rest)[1..] == rest;
      } else {
        FirstBehind(rest, up.after.value, up.entry, id);
      }
    }
  }

  ghost predicate ShownIn(e: Option<Entry>, part: string, text: string) {
    e.Some? && exists k: nat :: FirstText(e.value.parts, part, k) && e.value.parts[k].text == text
  }

  /** What a list shows of an entry depends on its first entry of the id alone. */
  lemma ShowsFirst(list: seq<Entry>, entry: EntryId, part: string, text: string)
    ensures Shows(list, entry, part, text) <==> ShownIn(First(list, entry), part, text)
  {
    IndexIsFirst(list, entry);
    FirstIs(list, entry);
    if IndexOf(list, entry).Some? {
      var i := IndexOf(list, entry).value;
      if k: nat :| FirstText(list[i].parts, part, k) && list[i].parts[k].text == text {
        assert TextAt(list, entry, part, i, k);
      }
    }
  }

  ghost predicate Untouched(frame: Frame, id: EntryId)
    requires frame.Delta?
  {
    id !in frame.remove && forall up <- frame.upsert :: up.entry.id != id
  }

  /** No text is named twice. */
  ghost predicate OneEach(appends: seq<TextAppend>) {
    forall m, n :: 0 <= m < n < |appends| ==> appends[m].entry != appends[n].entry || appends[m].part != appends[n].part
  }

  lemma {:induction false} AddedAlone(appends: seq<TextAppend>, n: nat)
    requires n < |appends| && OneEach(appends)
    ensures Added(appends, appends[n].entry, appends[n].part) == appends[n].text
    ensures Added(appends[..n + 1], appends[n].entry, appends[n].part) == appends[n].text
  {
    var last := |appends| - 1;
    if n < last {
      assert appends[..last][..n + 1] == appends[..n + 1];
      AddedAlone(appends[..last], n);
    } else {
      assert appends[..n + 1] == appends;
      NothingAdded(appends[..n], appends[n].entry, appends[n].part);
    }
  }

  lemma {:induction false} NothingAdded(appends: seq<TextAppend>, entry: EntryId, part: string)
    requires forall a <- appends :: a.entry != entry || a.part != part
    ensures Added(appends, entry, part) == ""
  {
    if appends != [] {
      assert appends[|appends| - 1] in appends;
      NothingAdded(appends[..|appends| - 1], entry, part);
    }
  }

  /** What a viewer shows after a delta it took: of every text that was appended to, the text it held and what was
      added, in just the length it was told; and as many entries as it was told. */
  lemma AppendedTexts(held: seq<Entry>, frame: Frame, n: nat) returns (text: string)
    requires frame.Delta? && n < |frame.append| && OneEach(frame.append) && Patch(held, frame).Applied?
    ensures var a, r := frame.append[n], Patch(held, frame).entries;
            && |r| == frame.count
            && Shows(r, a.entry, a.part, text + a.text) && ByteLen(text + a.text) == a.len
            && (Untouched(frame, a.entry) ==> Shows(held, a.entry, a.part, text))
  {
    var kept, picks, lists := PatchIsExact(held, frame);
    var a, r, placed := frame.append[n], Patch(held, frame).entries, lists[|lists| - 1];
    AddedAlone(frame.append, n);
    assert Fits(placed, frame.append, n);
    text :| Shows(placed, a.entry, a.part, text) && ByteLen(text + a.text) == a.len;
    var i: nat, k: nat :| TextAt(placed, a.entry, a.part, i, k) && placed[i].parts[k].text == text;
    LengthenedShows(placed, r, frame.append, a.entry, a.part, i, k);
    if Untouched(frame, a.entry) {
      HeldIsPlaced(held, frame, a.entry, a.part, text);
    }
  }

  lemma HeldIsPlaced(held: seq<Entry>, frame: Frame, entry: EntryId, part: string, text: string)
    requires frame.Delta? && Untouched(frame, entry) && PlaceAll(Retained(held, frame.remove), frame.upsert).Applied?
    ensures Shows(PlaceAll(Retained(held, frame.remove), frame.upsert).entries, entry, part, text) <==>
            Shows(held, entry, part, text)
  {
    FirstRetained(held, frame.remove, entry);
    FirstPlaced(Retained(held, frame.remove), frame.upsert, entry);
    ShowsFirst(held, entry, part, text);
    ShowsFirst(PlaceAll(Retained(held, frame.remove), frame.upsert).entries, entry, part, text);
  }

  // ── a viewer that has missed a frame ───────────────────────────────────────

  lemma {:induction false} UpsertsNameOthers(prev: seq<Entry>, next: seq<Entry>, i: nat, upTo: nat)
    requires i < |next| && upTo <= |next| && Unique(Ids(next)) && !ChangeAt(prev, next, i).Placed?
    ensures forall up <- Upserts(prev, next, upTo) :: up.entry.id != next[i].id
  {
    if upTo > 0 {
      UpsertsNameOthers(prev, next, i, upTo - 1);
      if upTo - 1 < i {
        DistinctEntries(next, upTo - 1, i);
      } else if i < upTo - 1 {
        DistinctEntries(next, i, upTo - 1);
      }
    }
  }

  ghost predicate NamesOneOf(a: TextAppend, next: seq<Entry>, i: nat) {
    exists j :: 0 <= j < i && j < |next| && a.entry == next[j].id
  }

  lemma {:induction false} AppendsNameEntries(prev: seq<Entry>, next: seq<Entry>, i: nat)
    requires i <= |next|
    ensures forall a <- Appends(prev, next, i) :: NamesOneOf(a, next, i)
  {
    if i > 0 {
      AppendsNameEntries(prev, next, i - 1);
      var init := Appends(prev, next, i - 1);
      forall a | a in Appends(prev, next, i) ensures NamesOneOf(a, next, i) {
        if a in init {
          var j :| 0 <= j < i - 1 && a.entry == next[j].id;
        } else {
          assert a.entry == next[i - 1].id;
        }
      }
    }
  }

  lemma {:induction false} AppendsAreGrown(prev: seq<Entry>, next: seq<Entry>, i: nat)
    requires i <= |next| && Unique(Ids(next))
    ensures OneEach(Appends(prev, next, i))
  {
    if i > 0 {
      AppendsAreGrown(prev, next, i - 1);
      AppendsNameEntries(prev, next, i - 1);
      var init := Appends(prev, next, i - 1);
      forall a | a in init ensures a.entry != next[i - 1].id {
        var j :| 0 <= j < i - 1 && a.entry == next[j].id;
        DistinctEntries(next, j, i - 1);
      }
      if ChangeAt(prev, next, i - 1).Grown? {
        OneEachMore(init, ChangeAt(prev, next, i - 1).append);
      } else {
        assert Appends(prev, next, i) == init;
      }
    }
  }

  lemma OneEachMore(init: seq<TextAppend>, a: TextAppend)
    requires OneEach(init) && forall b <- init :: b.entry != a.entry
    ensures OneEach(init + [a])
  {
    forall m, n | 0 <= m < n < |init| + 1
      ensures (init + [a])[m].entry != (init + [a])[n].entry || (init + [a])[m].part != (init + [a])[n].part
    {
      assert init[m] in init;
    }
  }

  lemma {:induction false} GrownIsAppended(prev: seq<Entry>, next: seq<Entry>, i: nat, upTo: nat) returns (n: nat)
    requires i < upTo <= |next| && ChangeAt(prev, next, i).Grown?
    ensures n < |Appends(prev, next, upTo)| && Appends(prev, next, upTo)[n] == ChangeAt(prev, next, i).append
  {
    if i == upTo - 1 {
      n := |Appends(prev, next, i)|;
    } else {
      n := GrownIsAppended(prev, next, i, upTo - 1);
    }
  }

  lemma GrownIsUntouched(prev: seq<Entry>, next: seq<Entry>, i: nat)
    requires i < |next| && Unique(Ids(next)) && ChangeAt(prev, next, i).Grown? && Diff(prev, next).Delta?
    ensures Untouched(Diff(prev, next), next[i].id)
  {
    GoneFacts(prev, next);
    IdsAt(next, i);
    UpsertsNameOthers(prev, next, i, |next|);
  }

  /** The list shows a text of this name that has as many bytes as `was`. */
  ghost predicate HoldsAsLong(list: seq<Entry>, entry: EntryId, part: string, was: string) {
    exists text: string :: Shows(list, entry, part, text) && ByteLen(text) == ByteLen(was)
  }

  /** An append that was cut for `was` is taken by a text of the length of `was` alone. */
  lemma HeldIsAsLong(held: seq<Entry>, frame: Frame, n: nat, was: string)
    requires frame.Delta? && n < |frame.append| && OneEach(frame.append) && Patch(held, frame).Applied?
    requires Untouched(frame, frame.append[n].entry) && ByteLen(was + frame.append[n].text) == frame.append[n].len
    ensures HoldsAsLong(held, frame.append[n].entry, frame.append[n].part, was)
  {
    var text := AppendedTexts(held, frame, n);
    ByteLenConcat(text, frame.append[n].text);
    ByteLenConcat(was, frame.append[n].text);
  }

  lemma GrownFrame(prev: seq<Entry>, next: seq<Entry>, i: nat, k: nat, p: Entry) returns (n: nat)
    requires Diff(prev, next).Delta? && Unique(Ids(next)) && i < |next| && ChangeAt(prev, next, i).Grown?
    requires PrevIndex(prev, next[i].id).Some? && p == prev[PrevIndex(prev, next[i].id).value] && GrowsAt(p, next[i], k)
    ensures var frame := Diff(prev, next);
            && OneEach(frame.append) && Untouched(frame, next[i].id)
            && n < |frame.append| && frame.append[n] == AppendAt(p, next[i], k)
  {
    GrowsAtOnePlace(p, next[i], k);
    n := GrownIsAppended(prev, next, i, |next|);
    AppendsAreGrown(prev, next, |next|);
    GrownIsUntouched(prev, next, i);
  }

  /** A viewer takes the frame of a grown text only if it shows a text of that name, as long as the host's was: one
      that has missed a frame of it desyncs, whatever else it holds. */
  lemma MissedFrameIsNoticed(held: seq<Entry>, prev: seq<Entry>, next: seq<Entry>, i: nat, k: nat, p: Entry)
    requires Diff(prev, next).Delta? && Unique(Ids(next)) && i < |next| && ChangeAt(prev, next, i).Grown?
    requires PrevIndex(prev, next[i].id).Some? && p == prev[PrevIndex(prev, next[i].id).value] && GrowsAt(p, next[i], k)
    ensures Patch(held, Diff(prev, next)).Applied? ==> HoldsAsLong(held, next[i].id, p.parts[k].id, p.parts[k].text)
  {
    if Patch(held, Diff(prev, next)).Applied? {
      var n := GrownFrame(prev, next, i, k, p);
      AppendIsTheRest(p, next[i], k);
      HeldIsAsLong(held, Diff(prev, next), n, p.parts[k].text);
    }
  }

  lemma AppendIsTheRest(p: Entry, n: Entry, k: nat)
    requires GrowsAt(p, n, k)
    ensures var a := AppendAt(p, n, k);
            a.entry == n.id && a.part == p.parts[k].id && ByteLen(p.parts[k].text + a.text) == a.len
  {
    assert p.parts[k].text + AppendAt(p, n, k).text == n.parts[k].text;
  }
}
