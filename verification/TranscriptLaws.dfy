/** Patching a transcript with its own diff (crates/doc/src/transcript_delta.rs, lines 110-249). */
module TranscriptLaws {
  import opened Options
  import opened Text
  import opened Parts
  import opened IdLists
  import opened Transcript

  // ── placing an entry, seen through its ids ─────────────────────────────────

  lemma IdsCons(e: Entry, rest: seq<Entry>)
    ensures Ids([e] + rest) == [e.id] + Ids(rest)
  {
    assert ([e] + rest)[1..] == rest;
  }

  lemma {:induction false} IdsOfDropped(c: seq<Entry>, id: EntryId)
    ensures Ids(Dropped(c, id)) == DropId(Ids(c), id)
  {
    if c != [] {
      assert Ids(c)[1..] == Ids(c[1..]);
      IdsOfDropped(c[1..], id);
      IdsCons(c[0], Dropped(c[1..], id));
    }
  }

  lemma {:induction false} IdsOfBehind(c: seq<Entry>, anchor: EntryId, e: Entry)
    ensures Ids(Behind(c, anchor, e)) == BehindId(Ids(c), anchor, e.id)
  {
    if c != [] {
      assert Ids(c)[1..] == Ids(c[1..]);
      if c[0].id == anchor {
        assert [c[0], e] + c[1..] == [c[0]] + ([e] + c[1..]);
        IdsCons(e, c[1..]);
        IdsCons(c[0], [e] + c[1..]);
      } else {
        IdsOfBehind(c[1..], anchor, e);
        IdsCons(c[0], Behind(c[1..], anchor, e));
      }
    }
  }

  lemma {:induction false} EntryIdIsIn(c: seq<Entry>, e: Entry)
    requires e in c
    ensures e.id in Ids(c)
  {
    if c[0] != e {
      EntryIdIsIn(c[1..], e);
    }
  }

  lemma {:induction false} InDropped(c: seq<Entry>, id: EntryId)
    requires Unique(Ids(c))
    ensures forall e <- Dropped(c, id) :: e in c && e.id != id
  {
    if c != [] {
      assert Ids(c)[1..] == Ids(c[1..]);
      if c[0].id == id {
        forall e | e in c[1..] ensures e.id != id {
          EntryIdIsIn(c[1..], e);
        }
      } else {
        InDropped(c[1..], id);
      }
    }
  }

  lemma {:induction false} InBehind(c: seq<Entry>, anchor: EntryId, n: Entry)
    ensures forall e <- Behind(c, anchor, n) :: e in c || e == n
  {
    if c != [] && c[0].id != anchor {
      InBehind(c[1..], anchor, n);
    }
  }

  /** Placing an entry places its id; every other entry stays what it was. */
  lemma PlaceFacts(c: seq<Entry>, up: Upsert)
    requires Placeable(Ids(c), up.after, up.entry.id)
    ensures Place(c, up).Applied?
    ensures Ids(Place(c, up).entries) == PlaceId(Ids(c), up.after, up.entry.id)
    ensures forall e <- Place(c, up).entries :: e == up.entry || (e in c && e.id != up.entry.id)
  {
    var rest := Dropped(c, up.entry.id);
    IdsOfDropped(c, up.entry.id);
    DropIdFacts(Ids(c), up.entry.id);
    InDropped(c, up.entry.id);
    if up.after.None? {
      IdsCons(up.entry, rest);
    } else {
      IdsOfBehind(rest, up.after.value, up.entry);
      InBehind(rest, up.after.value, up.entry);
    }
  }

  // ── the frame of a diff ────────────────────────────────────────────────────

  ghost predicate UniqueTexts(e: Entry) {
    forall i, j :: 0 <= i < j < |e.parts| && e.parts[i].TextPart? && e.parts[j].TextPart? ==>
      e.parts[i].id != e.parts[j].id
  }

  /** What the protocol expects of two states: distinct entry ids in each, and distinct text part ids
      within each entry of the old one. */
  ghost predicate Diffable(prev: seq<Entry>, next: seq<Entry>) {
    Unique(Ids(prev)) && Unique(Ids(next)) && forall e <- prev :: UniqueTexts(e)
  }

  /** The ids of the entries a delta leaves in place. */
  ghost function KeptIds(prev: seq<Entry>, next: seq<Entry>): set<EntryId> {
    set i | 0 <= i < |next| && !ChangeAt(prev, next, i).Placed? :: next[i].id
  }

  /** The entries a delta leaves in place stand in the same order in both states. */
  ghost predicate KeptInOrder(prev: seq<Entry>, next: seq<Entry>) {
    Filter(Ids(prev), KeptIds(prev, next)) == Filter(Ids(next), KeptIds(prev, next))
  }

  lemma DistinctEntries(entries: seq<Entry>, i: nat, j: nat)
    requires Unique(Ids(entries)) && i < j < |entries|
    ensures entries[i].id != entries[j].id
  {
    IdsAt(entries, i);
    IdsAt(entries, j);
    UniqueAt(Ids(entries), i, j);
  }

  lemma IndexIsUnique(entries: seq<Entry>, i: nat)
    requires Unique(Ids(entries)) && i < |entries|
    ensures PrevIndex(entries, entries[i].id) == Some(i)
  {
    IndexTotal(entries, i);
    var ix := Index(entries)[entries[i].id];
    if i < ix {
      DistinctEntries(entries, i, ix);
    } else if ix < i {
      DistinctEntries(entries, ix, i);
    }
  }

  lemma KeptIsOld(prev: seq<Entry>, next: seq<Entry>, i: nat)
    requires Unique(Ids(next)) && i < |next|
    ensures next[i].id in KeptIds(prev, next) <==> !ChangeAt(prev, next, i).Placed?
    ensures !ChangeAt(prev, next, i).Placed? ==> next[i].id in Ids(prev)
    ensures Ids(next)[i] == next[i].id
  {
    IdsAt(next, i);
    if next[i].id in KeptIds(prev, next) {
      var j :| 0 <= j < |next| && !ChangeAt(prev, next, j).Placed? && next[j].id == next[i].id;
      IndexIsUnique(next, i);
      IndexIsUnique(next, j);
    }
    if !ChangeAt(prev, next, i).Placed? {
      IdsAt(prev, PrevIndex(prev, next[i].id).value);
    }
  }

  lemma KeptInBoth(prev: seq<Entry>, next: seq<Entry>, x: EntryId)
    requires Unique(Ids(next)) && x in KeptIds(prev, next)
    ensures x in Ids(prev) && x in Ids(next)
  {
    var j :| 0 <= j < |next| && !ChangeAt(prev, next, j).Placed? && next[j].id == x;
    KeptIsOld(prev, next, j);
  }

  /** The entry that a viewer should hold after the upserts for the first `i` entries of `next`. */
  ghost predicate Stage1(prev: seq<Entry>, next: seq<Entry>, i: nat, e: Entry) {
    var j := PrevIndex(next, e.id);
    && j.Some?
    && if j.value < i && ChangeAt(prev, next, j.value).Placed? then e == next[j.value]
       else PrevIndex(prev, e.id).Some? && e == prev[PrevIndex(prev, e.id).value]
  }

  ghost predicate ContentMidway(prev: seq<Entry>, next: seq<Entry>, i: nat, c: seq<Entry>) {
    forall e <- c :: Stage1(prev, next, i, e)
  }

  lemma {:induction false} RetainedIds(prev: seq<Entry>, gone: seq<EntryId>)
    requires Unique(Ids(prev))
    ensures Unique(Ids(Retained(prev, gone)))
    ensures forall x :: x in Ids(Retained(prev, gone)) <==> x in Ids(prev) && x !in gone
    ensures forall e <- Retained(prev, gone) :: e in prev
  {
    if prev != [] {
      assert Ids(prev)[1..] == Ids(prev[1..]);
      RetainedIds(prev[1..], gone);
      var rest := Retained(prev[1..], gone);
      IdsCons(prev[0], rest);
      UniqueCons(prev[0].id, Ids(rest));
      if prev[0].id !in gone {
        assert Retained(prev, gone) == [prev[0]] + rest;
      } else {
        assert Retained(prev, gone) == rest;
      }
    }
  }

  lemma {:induction false} RetainedFilter(prev: seq<Entry>, gone: seq<EntryId>, keep: set<EntryId>)
    requires forall id <- gone :: id !in keep
    ensures Filter(Ids(Retained(prev, gone)), keep) == Filter(Ids(prev), keep)
  {
    if prev != [] {
      assert Ids(prev) == [prev[0].id] + Ids(prev[1..]);
      RetainedFilter(prev[1..], gone, keep);
      var rest := Retained(prev[1..], gone);
      IdsCons(prev[0], rest);
      FilterCons(prev[0].id, Ids(rest), keep);
      FilterCons(prev[0].id, Ids(prev[1..]), keep);
      if prev[0].id !in gone {
        assert Retained(prev, gone) == [prev[0]] + rest;
      } else {
        assert Retained(prev, gone) == rest;
      }
    }
  }

  lemma {:induction false} GoneFacts(prev: seq<Entry>, next: seq<Entry>)
    ensures forall id :: id in Gone(prev, next) <==> id in Ids(prev) && id !in Ids(next)
  {
    if prev != [] {
      GoneFacts(prev[1..], next);
      assert Ids(prev) == [prev[0].id] + Ids(prev[1..]);
    }
  }

  /** The viewer's list once the entries that are gone have been removed. */
  ghost function Survivors(prev: seq<Entry>, next: seq<Entry>): seq<Entry> {
    Retained(prev, Gone(prev, next))
  }

  lemma SurvivorFacts(prev: seq<Entry>, next: seq<Entry>)
    requires Diffable(prev, next)
    ensures Shufflable(Ids(Survivors(prev, next)), Ids(next), KeptIds(prev, next))
    ensures Filter(Ids(Survivors(prev, next)), KeptIds(prev, next)) == Filter(Ids(prev), KeptIds(prev, next))
    ensures ContentMidway(prev, next, 0, Survivors(prev, next))
  {
    var kept, gone, c := KeptIds(prev, next), Gone(prev, next), Survivors(prev, next);
    GoneFacts(prev, next);
    RetainedIds(prev, gone);
    forall x | x in kept ensures x in Ids(prev) && x in Ids(next) {
      KeptInBoth(prev, next, x);
    }
    RetainedFilter(prev, gone, kept);
    forall e | e in c ensures Stage1(prev, next, 0, e) {
      EntryIdIsIn(c, e);
      var j :| 0 <= j < |next| && Ids(next)[j] == e.id;
      IdsAt(next, j);
      var i :| 0 <= i < |prev| && prev[i] == e;
      IndexIsUnique(prev, i);
      IndexIsUnique(next, j);
    }
  }

  /** An entry that is sent: it lands right behind the previous one. */
  lemma MidwayPlace(prev: seq<Entry>, next: seq<Entry>, i: nat, c: seq<Entry>)
    requires Diffable(prev, next) && i < |next| && ChangeAt(prev, next, i).Placed?
    requires Placeable(Ids(c), Before(next, i), next[i].id) && ContentMidway(prev, next, i, c)
    ensures var placed := Place(c, Upsert(Before(next, i), next[i]));
            && placed.Applied? && Ids(placed.entries) == PlaceId(Ids(c), Before(next, i), next[i].id)
            && ContentMidway(prev, next, i + 1, placed.entries)
  {
    var up := Upsert(Before(next, i), next[i]);
    PlaceFacts(c, up);
    IndexIsUnique(next, i);
    forall e | e in Place(c, up).entries ensures Stage1(prev, next, i + 1, e) {
      if e != next[i] {
        assert Stage1(prev, next, i, e);
      }
    }
  }

  lemma ContentSkip(prev: seq<Entry>, next: seq<Entry>, i: nat, c: seq<Entry>)
    requires i < |next| && !ChangeAt(prev, next, i).Placed? && ContentMidway(prev, next, i, c)
    ensures ContentMidway(prev, next, i + 1, c)
  {
    forall e | e in c ensures Stage1(prev, next, i + 1, e) {
      assert Stage1(prev, next, i, e);
    }
  }

  lemma BeforeIsNeighbour(next: seq<Entry>, i: nat)
    requires i < |next|
    ensures Before(next, i) == Neighbour(Ids(next), i) && Ids(next)[i] == next[i].id
  {
    IdsAt(next, i);
    if i > 0 {
      IdsAt(next, i - 1);
    }
  }

  /** The viewer's list after the upserts for the first `i` entries: ids rearranged, new entries in. */
  ghost predicate Arranged(prev: seq<Entry>, next: seq<Entry>, i: nat, c: seq<Entry>)
    requires i <= |next|
  {
    && Ids(c) == Shuffle(Ids(Survivors(prev, next)), Ids(next), KeptIds(prev, next), i)
    && ContentMidway(prev, next, i, c)
  }

  lemma ArrangedPlace(prev: seq<Entry>, next: seq<Entry>, i: nat, c: seq<Entry>)
    requires Diffable(prev, next) && i < |next| && Arranged(prev, next, i, c) && ChangeAt(prev, next, i).Placed?
    ensures var placed := Place(c, Upsert(Before(next, i), next[i]));
            placed.Applied? && Arranged(prev, next, i + 1, placed.entries)
  {
    var start := Survivors(prev, next);
    SurvivorFacts(prev, next);
    KeptIsOld(prev, next, i);
    ShuffleMembers(Ids(start), Ids(next), KeptIds(prev, next), i);
    NeighbourPlaceable(Ids(c), Ids(start), Ids(next), i);
    BeforeIsNeighbour(next, i);
    MidwayPlace(prev, next, i, c);
  }

  lemma ArrangedSkip(prev: seq<Entry>, next: seq<Entry>, i: nat, c: seq<Entry>)
    requires Diffable(prev, next) && i < |next| && Arranged(prev, next, i, c) && !ChangeAt(prev, next, i).Placed?
    ensures Arranged(prev, next, i + 1, c)
  {
    KeptIsOld(prev, next, i);
    ContentSkip(prev, next, i, c);
  }

  lemma UpsertsStep(prev: seq<Entry>, next: seq<Entry>, i: nat, start: seq<Entry>, before: seq<Entry>)
    requires i < |next| && PlaceAll(start, Upserts(prev, next, i)) == Transcript.Applied(before)
    ensures PlaceAll(start, Upserts(prev, next, i + 1)) ==
            if ChangeAt(prev, next, i).Placed? then Place(before, Upsert(Before(next, i), next[i]))
            else Transcript.Applied(before)
  {
    var ups := Upserts(prev, next, i + 1);
    if ChangeAt(prev, next, i).Placed? {
      assert ups[..|ups| - 1] == Upserts(prev, next, i);
    } else {
      assert ups == Upserts(prev, next, i);
    }
  }

  /** The upserts never miss their anchor, rearrange the ids, and bring the new entries in. */
  lemma {:induction false} UpsertsPlace(prev: seq<Entry>, next: seq<Entry>, i: nat) returns (c: seq<Entry>)
    requires Diffable(prev, next) && i <= |next|
    ensures PlaceAll(Survivors(prev, next), Upserts(prev, next, i)) == Transcript.Applied(c)
    ensures Arranged(prev, next, i, c)
  {
    if i == 0 {
      SurvivorFacts(prev, next);
      c := Survivors(prev, next);
    } else {
      var before := UpsertsPlace(prev, next, i - 1);
      UpsertsStep(prev, next, i - 1, Survivors(prev, next), before);
      c := ArrangedStep(prev, next, i - 1, before);
    }
  }

  lemma ArrangedStep(prev: seq<Entry>, next: seq<Entry>, i: nat, before: seq<Entry>) returns (c: seq<Entry>)
    requires Diffable(prev, next) && i < |next| && Arranged(prev, next, i, before)
    ensures Transcript.Applied(c) == if ChangeAt(prev, next, i).Placed? then Place(before, Upsert(Before(next, i), next[i]))
                                     else Transcript.Applied(before)
    ensures Arranged(prev, next, i + 1, c)
  {
    if ChangeAt(prev, next, i).Placed? {
      ArrangedPlace(prev, next, i, before);
      c := Place(before, Upsert(Before(next, i), next[i])).entries;
    } else {
      ArrangedSkip(prev, next, i, before);
      c := before;
    }
  }

  // ── growing texts ──────────────────────────────────────────────────────────

  /** The entry a viewer should hold after the appends for the first `i` entries: the new one, or the old
      one of an entry whose append is still to come. */
  ghost predicate Stage2(prev: seq<Entry>, next: seq<Entry>, i: nat, e: Entry) {
    var j := PrevIndex(next, e.id);
    && j.Some?
    && if j.value < i || !ChangeAt(prev, next, j.value).Grown? then e == next[j.value]
       else PrevIndex(prev, e.id).Some? && e == prev[PrevIndex(prev, e.id).value]
  }

  ghost predicate ContentGrowing(prev: seq<Entry>, next: seq<Entry>, i: nat, c: seq<Entry>) {
    forall m :: 0 <= m < |c| ==> Stage2(prev, next, i, c[m])
  }

  /** The append of a grown entry turns the old entry into the new one. */
  lemma GrownEntry(p: Entry, n: Entry)
    requires Grows(p, n) && UniqueTexts(p)
    ensures var a := AppendOf(p, n);
            var k := TextIndex(p.parts, a.part);
            && a.entry == n.id == p.id && k.Some?
            && var text := p.parts[k.value].text + a.text;
               ByteLen(text) == a.len && p.(parts := p.parts[k.value := TextPart(a.part, text)]) == n
  {
    var k: nat :| GrowsAt(p, n, k);
    GrowsAtOnePlace(p, n, k);
    var a := AppendAt(p, n, k);
    TextIndexIs(p.parts, a.part, k);
    assert p.parts[k].text + a.text == n.parts[k].text;
    assert p.parts[k := n.parts[k]] == n.parts;
  }

  lemma {:induction false} TextIndexIs(parts: seq<MessagePart>, id: string, k: nat)
    requires k < |parts| && parts[k].TextPart? && parts[k].id == id
    requires forall i :: 0 <= i < k ==> !(parts[i].TextPart? && parts[i].id == id)
    ensures TextIndex(parts, id) == Some(k)
  {
    if k > 0 {
      TextIndexIs(parts[1..], id, k - 1);
    }
  }

  lemma {:induction false} IdsUpdated(c: seq<Entry>, at: nat, e: Entry)
    requires at < |c| && e.id == c[at].id
    ensures Ids(c[at := e]) == Ids(c)
  {
    if at == 0 {
      assert c[at := e][1..] == c[1..];
    } else {
      IdsUpdated(c[1..], at - 1, e);
      assert c[at := e][1..] == c[1..][at - 1 := e];
    }
  }

  /** The viewer still holds the old entry when its append arrives, and the append makes it the new one. */
  lemma ExtendTarget(prev: seq<Entry>, next: seq<Entry>, i: nat, c: seq<Entry>)
    requires Diffable(prev, next) && i < |next| && ChangeAt(prev, next, i).Grown?
    requires ContentGrowing(prev, next, i, c) && next[i].id in Ids(c)
    ensures IndexOf(c, next[i].id).Some?
    ensures Extend(c, ChangeAt(prev, next, i).append) == Transcript.Applied(c[IndexOf(c, next[i].id).value := next[i]])
  {
    var p := prev[PrevIndex(prev, next[i].id).value];
    assert p in prev;
    GrownEntry(p, next[i]);
    IndexIsUnique(next, i);
    AnchorByIndex(c, next[i].id);
    var at := IndexOf(c, next[i].id).value;
    assert c[at] in c && Stage2(prev, next, i, c[at]);
  }

  lemma ContentExtended(prev: seq<Entry>, next: seq<Entry>, i: nat, c: seq<Entry>, at: nat)
    requires i < |next| && at < |c| && Unique(Ids(c)) && Unique(Ids(next)) && c[at].id == next[i].id
    requires ContentGrowing(prev, next, i, c)
    ensures ContentGrowing(prev, next, i + 1, c[at := next[i]])
  {
    IndexIsUnique(next, i);
    IndexIsUnique(c, at);
    var c' := c[at := next[i]];
    forall m | 0 <= m < |c'| ensures Stage2(prev, next, i + 1, c'[m]) {
      if m != at {
        assert Stage2(prev, next, i, c[m]);
        IndexIsUnique(c, m);
      }
    }
  }

  lemma ExtendStep(prev: seq<Entry>, next: seq<Entry>, i: nat, c: seq<Entry>)
    requires Diffable(prev, next) && i < |next| && ChangeAt(prev, next, i).Grown?
    requires Unique(Ids(c)) && ContentGrowing(prev, next, i, c) && next[i].id in Ids(c)
    ensures var grown := Extend(c, ChangeAt(prev, next, i).append);
            grown.Applied? && Ids(grown.entries) == Ids(c) && ContentGrowing(prev, next, i + 1, grown.entries)
  {
    ExtendTarget(prev, next, i, c);
    var at := IndexOf(c, next[i].id).value;
    IdsUpdated(c, at, next[i]);
    ContentExtended(prev, next, i, c, at);
  }

  lemma GrowingStart(prev: seq<Entry>, next: seq<Entry>, c: seq<Entry>)
    requires ContentMidway(prev, next, |next|, c)
    ensures ContentGrowing(prev, next, 0, c)
  {
    forall m | 0 <= m < |c| ensures Stage2(prev, next, 0, c[m]) {
      assert c[m] in c && Stage1(prev, next, |next|, c[m]);
    }
  }

  lemma GrowingSkip(prev: seq<Entry>, next: seq<Entry>, i: nat, c: seq<Entry>)
    requires i < |next| && !ChangeAt(prev, next, i).Grown? && ContentGrowing(prev, next, i, c)
    ensures ContentGrowing(prev, next, i + 1, c)
  {
    forall m | 0 <= m < |c| ensures Stage2(prev, next, i + 1, c[m]) {
      assert Stage2(prev, next, i, c[m]);
    }
  }

  lemma AppendsStep(prev: seq<Entry>, next: seq<Entry>, i: nat, c: seq<Entry>, before: seq<Entry>)
    requires i < |next| && ExtendAll(c, Appends(prev, next, i)) == Transcript.Applied(before)
    ensures ExtendAll(c, Appends(prev, next, i + 1)) ==
            if ChangeAt(prev, next, i).Grown? then Extend(before, ChangeAt(prev, next, i).append)
            else Transcript.Applied(before)
  {
    var appends := Appends(prev, next, i + 1);
    if ChangeAt(prev, next, i).Grown? {
      assert appends[..|appends| - 1] == Appends(prev, next, i);
    } else {
      assert appends == Appends(prev, next, i);
    }
  }

  /** The list `c` with the same ids, as far as the appends for the first `i` entries take it. */
  ghost predicate GrownFrom(prev: seq<Entry>, next: seq<Entry>, i: nat, c: seq<Entry>, r: seq<Entry>) {
    Ids(r) == Ids(c) && ContentGrowing(prev, next, i, r)
  }

  lemma GrowOne(prev: seq<Entry>, next: seq<Entry>, i: nat, c: seq<Entry>, before: seq<Entry>) returns (r: seq<Entry>)
    requires Diffable(prev, next) && i < |next| && Unique(Ids(c)) && next[i].id in Ids(c)
    requires GrownFrom(prev, next, i, c, before)
    ensures Transcript.Applied(r) == if ChangeAt(prev, next, i).Grown? then Extend(before, ChangeAt(prev, next, i).append)
                                     else Transcript.Applied(before)
    ensures GrownFrom(prev, next, i + 1, c, r)
  {
    if ChangeAt(prev, next, i).Grown? {
      ExtendStep(prev, next, i, before);
      r := Extend(before, ChangeAt(prev, next, i).append).entries;
    } else {
      GrowingSkip(prev, next, i, before);
      r := before;
    }
  }

  lemma AppendsNext(prev: seq<Entry>, next: seq<Entry>, i: nat, c: seq<Entry>, before: seq<Entry>) returns (r: seq<Entry>)
    requires Diffable(prev, next) && i < |next| && Unique(Ids(c)) && next[i].id in Ids(c)
    requires GrownFrom(prev, next, i, c, before)
    requires ExtendAll(c, Appends(prev, next, i)) == Transcript.Applied(before)
    ensures ExtendAll(c, Appends(prev, next, i + 1)) == Transcript.Applied(r) && GrownFrom(prev, next, i + 1, c, r)
  {
    r := GrowOne(prev, next, i, c, before);
    AppendsStep(prev, next, i, c, before);
  }

  /** The appends always find their entry, their part and the length they expect. */
  lemma {:induction false} AppendsExtend(prev: seq<Entry>, next: seq<Entry>, i: nat, c: seq<Entry>) returns (r: seq<Entry>)
    requires Diffable(prev, next) && i <= |next| && Unique(Ids(c)) && ContentMidway(prev, next, |next|, c)
    requires forall j :: 0 <= j < |next| ==> next[j].id in Ids(c)
    ensures ExtendAll(c, Appends(prev, next, i)) == Transcript.Applied(r)
    ensures GrownFrom(prev, next, i, c, r)
  {
    if i == 0 {
      GrowingStart(prev, next, c);
      r := c;
    } else {
      var before := AppendsExtend(prev, next, i - 1, c);
      r := AppendsNext(prev, next, i - 1, c, before);
    }
  }

  // ── the theorem ────────────────────────────────────────────────────────────

  lemma SameEntries(r: seq<Entry>, next: seq<Entry>)
    requires Unique(Ids(next)) && Ids(r) == Ids(next) && forall m :: 0 <= m < |r| ==> r[m] in next
    ensures r == next
  {
    forall i | 0 <= i < |r| ensures r[i] == next[i] {
      IdsAt(r, i);
      IdsAt(next, i);
      var j :| 0 <= j < |next| && next[j] == r[i];
      IndexIsUnique(next, i);
      IndexIsUnique(next, j);
    }
  }

  /** A viewer holding `prev` that applies the diff to `next` never desyncs, and ends at `next` exactly
      when the frame was a reset or the entries it leaves in place stand in the same order in both. */
  lemma DiffThenPatch(prev: seq<Entry>, next: seq<Entry>)
    requires Diffable(prev, next)
    ensures Patch(prev, Diff(prev, next)).Applied?
    ensures Patch(prev, Diff(prev, next)) == Transcript.Applied(next) <==>
            Diff(prev, next).Reset? || KeptInOrder(prev, next)
  {
    if !Diff(prev, next).Reset? {
      SurvivorFacts(prev, next);
      var c := UpsertsPlace(prev, next, |next|);
      ShuffleMembers(Ids(Survivors(prev, next)), Ids(next), KeptIds(prev, next), |next|);
      ShuffleReaches(Ids(Survivors(prev, next)), Ids(next), KeptIds(prev, next));
      assert Ids(next)[..|next|] == Ids(next);
      forall j | 0 <= j < |next| ensures next[j].id in Ids(c) {
        IdsAt(next, j);
        assert next[j].id in Elems(Ids(next));
      }
      var r := AppendsExtend(prev, next, |next|, c);
      assert Patch(prev, Diff(prev, next)) == Transcript.Applied(r);
      forall m | 0 <= m < |r| ensures r[m] in next {
        assert Stage2(prev, next, |next|, r[m]);
      }
      if KeptInOrder(prev, next) {
        SameEntries(r, next);
      }
    }
  }

  /** The entries of `next` that a delta would have to send whole. */
  ghost function Sent(prev: seq<Entry>, next: seq<Entry>, i: nat): set<nat>
    requires i <= |next|
  {
    set j: nat | j < i && ChangeAt(prev, next, j).Placed?
  }

  lemma SentMore(prev: seq<Entry>, next: seq<Entry>, i: nat)
    requires 0 < i <= |next|
    ensures |Sent(prev, next, i)| ==
            |Sent(prev, next, i - 1)| + if ChangeAt(prev, next, i - 1).Placed? then 1 else 0
  {
    var before, after := Sent(prev, next, i - 1), Sent(prev, next, i);
    assert forall j: nat :: j in after <==> j in before || (j == i - 1 && ChangeAt(prev, next, i - 1).Placed?);
    AtMostOneMore(before, after, i - 1);
  }

  lemma AtMostOneMore(before: set<nat>, after: set<nat>, last: nat)
    requires last !in before && forall j: nat :: j in after <==> j in before || (j == last && last in after)
    ensures |after| == |before| + if last in after then 1 else 0
  {
    if last in after {
      assert after == before + {last};
    } else {
      assert after == before;
    }
  }

  lemma UpsertsMore(prev: seq<Entry>, next: seq<Entry>, i: nat)
    requires 0 < i <= |next|
    ensures |Upserts(prev, next, i)| ==
            |Upserts(prev, next, i - 1)| + if ChangeAt(prev, next, i - 1).Placed? then 1 else 0
  {
  }

  lemma {:induction false} UpsertsAreSent(prev: seq<Entry>, next: seq<Entry>, i: nat)
    requires i <= |next|
    ensures |Upserts(prev, next, i)| == |Sent(prev, next, i)|
  {
    if i == 0 {
      assert Sent(prev, next, 0) == {};
    } else {
      UpsertsAreSent(prev, next, i - 1);
      UpsertsMore(prev, next, i);
      SentMore(prev, next, i);
    }
  }

  /** The old list has this entry, unchanged or with a text grown, behind the same neighbour. */
  ghost predicate Stays(prev: seq<Entry>, next: seq<Entry>, j: nat)
    requires j < |next|
  {
    exists m :: 0 <= m < |prev| && prev[m].id == next[j].id && Before(prev, m) == Before(next, j) &&
                (prev[m] == next[j] || Grows(prev[m], next[j]))
  }

  /** An entry is sent whole only if it has to be: what stays costs nothing, or one appended text. */
  lemma WholeOnlyIfNeeded(prev: seq<Entry>, next: seq<Entry>, j: nat)
    requires Unique(Ids(prev)) && j < |next|
    ensures j in Sent(prev, next, |next|) <==> !Stays(prev, next, j)
    ensures ChangeAt(prev, next, j).Same? ==> next[j] in prev
  {
    var ix := PrevIndex(prev, next[j].id);
    forall m | 0 <= m < |prev| && prev[m].id == next[j].id ensures ix == Some(m) {
      IndexIsUnique(prev, m);
    }
  }

  /** A host falls back to a reset exactly if the list has more than four entries and at least half of them would
      have to be sent whole. */
  lemma ResetWhenMostChange(prev: seq<Entry>, next: seq<Entry>)
    ensures Diff(prev, next).Reset? <==> |next| > 4 && |Sent(prev, next, |next|)| * 2 >= |next|
  {
    UpsertsAreSent(prev, next, |next|);
  }

  /** The state a viewer reaches by applying, to its first reset, the frames of a run of states. */
  ghost function Watch(states: seq<seq<Entry>>): Outcome
    requires states != []
  {
    if |states| == 1 then Patch([], Reset(states[0]))
    else
      var before := Watch(states[..|states| - 1]);
      if before.Desync? then Desync
      else Patch(before.entries, Diff(states[|states| - 2], states[|states| - 1]))
  }

  /** So a chain of frames after a first reset keeps the viewer on the host's state. */
  lemma {:induction false} WatchFollows(states: seq<seq<Entry>>)
    requires states != []
    requires forall i :: 0 <= i < |states| - 1 ==> Followable(states[i], states[i + 1])
    ensures Watch(states) == Transcript.Applied(states[|states| - 1])
  {
    if |states| > 1 {
      var init, i := states[..|states| - 1], |states| - 2;
      forall j | 0 <= j < |init| - 1 ensures Followable(init[j], init[j + 1]) {
        assert init[j] == states[j] && init[j + 1] == states[j + 1];
      }
      WatchFollows(init);
      assert init[|init| - 1] == states[i] && Followable(states[i], states[i + 1]);
      DiffThenPatch(states[i], states[i + 1]);
    }
  }

  ghost predicate Followable(prev: seq<Entry>, next: seq<Entry>) {
    Diffable(prev, next) && (Diff(prev, next).Reset? || KeptInOrder(prev, next))
  }

  /** Survivors in the same relative order, as the list merge behind the transcript leaves them, are more
      than enough. */
  lemma SurvivorsInOrder(prev: seq<Entry>, next: seq<Entry>)
    requires Unique(Ids(next))
    requires var both := set x | x in Ids(prev) && x in Ids(next);
             Filter(Ids(prev), both) == Filter(Ids(next), both)
    ensures KeptInOrder(prev, next)
  {
    var both := set x | x in Ids(prev) && x in Ids(next);
    var kept := KeptIds(prev, next);
    forall x | x in kept ensures x in both {
      KeptInBoth(prev, next, x);
    }
    FilterTwice(Ids(prev), both, kept);
    FilterTwice(Ids(next), both, kept);
  }

  /** Moving two survivors past two others is beyond the delta form: the frame applies cleanly, the count
      tripwire stays silent, and the viewer ends in another order. */
  lemma MovedEntriesGoAstray(p: Entry, e: Entry, a: Entry, b: Entry)
    requires p.id == EntryId("p") && e.id == EntryId("e") && a.id == EntryId("a") && b.id == EntryId("b")
    requires UniqueTexts(p) && UniqueTexts(e) && UniqueTexts(a) && UniqueTexts(b)
    ensures var prev, next := [p, e, a, b], [a, b, p, e];
            Diffable(prev, next) && Patch(prev, Diff(prev, next)).Applied? &&
            Patch(prev, Diff(prev, next)) != Transcript.Applied(next)
  {
    var prev, next := [p, e, a, b], [a, b, p, e];
    FourIds(p, e, a, b);
    FourIds(a, b, p, e);
    MovedKept(p, e, a, b);
    FilterFour(p.id, e.id, a.id, b.id, KeptIds(prev, next));
    FilterFour(a.id, b.id, p.id, e.id, KeptIds(prev, next));
    assert Filter(Ids(prev), KeptIds(prev, next))[0] != Filter(Ids(next), KeptIds(prev, next))[0];
    assert !KeptInOrder(prev, next) && !TooLarge(|Upserts(prev, next, 4)|, 4);
    DiffThenPatch(prev, next);
  }

  /** Each moved pair is kept by its second entry, whose predecessor came along. */
  lemma MovedKept(p: Entry, e: Entry, a: Entry, b: Entry)
    requires p.id == EntryId("p") && e.id == EntryId("e") && a.id == EntryId("a") && b.id == EntryId("b")
    ensures var kept := KeptIds([p, e, a, b], [a, b, p, e]);
            b.id in kept && e.id in kept && a.id !in kept && p.id !in kept
  {
    var prev, next := [p, e, a, b], [a, b, p, e];
    FourIds(p, e, a, b);
    FourIds(a, b, p, e);
    IndexIsUnique(prev, 0);
    IndexIsUnique(prev, 1);
    IndexIsUnique(prev, 2);
    IndexIsUnique(prev, 3);
    ChangeByIndex(prev, next, 0, 2);
    ChangeByIndex(prev, next, 1, 3);
    ChangeByIndex(prev, next, 2, 0);
    ChangeByIndex(prev, next, 3, 1);
    KeptIsOld(prev, next, 0);
    KeptIsOld(prev, next, 1);
    KeptIsOld(prev, next, 2);
    KeptIsOld(prev, next, 3);
  }

  lemma ChangeByIndex(prev: seq<Entry>, next: seq<Entry>, i: nat, k: nat)
    requires i < |next| && k < |prev| && prev[k] == next[i] && PrevIndex(prev, next[i].id) == Some(k)
    ensures ChangeAt(prev, next, i).Placed? <==> Before(prev, k) != Before(next, i)
  {
  }

  lemma FourIds(w: Entry, x: Entry, y: Entry, z: Entry)
    ensures Ids([w, x, y, z]) == [w.id, x.id, y.id, z.id]
    ensures w.id != x.id && w.id != y.id && w.id != z.id && x.id != y.id && x.id != z.id && y.id != z.id ==>
              Unique(Ids([w, x, y, z]))
  {
    assert [w, x, y, z] == [w] + ([x] + ([y] + ([z] + [])));
    IdsCons(w, [x] + ([y] + ([z] + [])));
    IdsCons(x, [y] + ([z] + []));
    IdsCons(y, [z] + []);
    IdsCons(z, []);
    FourUnique(w.id, x.id, y.id, z.id);
  }

  lemma FourUnique(w: EntryId, x: EntryId, y: EntryId, z: EntryId)
    ensures [w, x, y, z] == [w] + ([x] + ([y] + ([z] + [])))
    ensures w != x && w != y && w != z && x != y && x != z && y != z ==> Unique([w, x, y, z])
  {
    assert [w, x, y, z] == [w] + ([x] + ([y] + ([z] + [])));
    UniqueCons(w, [x] + ([y] + ([z] + [])));
    UniqueCons(x, [y] + ([z] + []));
    UniqueCons(y, [z] + []);
    UniqueCons(z, []);
  }

  lemma FilterFour(w: EntryId, x: EntryId, y: EntryId, z: EntryId, keep: set<EntryId>)
    ensures Filter([w, x, y, z], keep) ==
            (if w in keep then [w] else []) + ((if x in keep then [x] else []) +
            ((if y in keep then [y] else []) + (if z in keep then [z] else [])))
  {
    var three, two, one := [x, y, z], [y, z], [z];
    assert [w, x, y, z] == [w] + three && three == [x] + two && two == [y] + one && one == [z] + [];
    FilterCons(w, three, keep);
    FilterCons(x, two, keep);
    FilterCons(y, one, keep);
    FilterCons(z, [], keep);
  }
}
