/** Delta frames for a watched transcript: the diff a host sends and the patch a viewer applies
    (crates/doc/src/transcript_delta.rs). */
module Transcript {
  import opened Options
  import opened Text
  import opened Parts

  datatype Upsert = Upsert(after: Option<EntryId>, entry: Entry)

  datatype TextAppend = TextAppend(entry: EntryId, part: string, text: string, len: nat)

  datatype Frame =
    | Reset(entries: seq<Entry>)
    | Delta(upsert: seq<Upsert>, append: seq<TextAppend>, remove: seq<EntryId>, count: nat)

  // ── one entry: is the change a text append? ────────────────────────────────

  /** `n` is `p` with text appended to the text part at `k`, and nothing else changed. */
  ghost predicate GrowsAt(p: Entry, n: Entry, k: nat) {
    && n == p.(parts := n.parts)
    && |n.parts| == |p.parts| && k < |p.parts|
    && (forall i :: 0 <= i < |p.parts| && i != k ==> p.parts[i] == n.parts[i])
    && p.parts[k].TextPart? && n.parts[k].TextPart? && p.parts[k] != n.parts[k]
    && p.parts[k].id == n.parts[k].id && p.parts[k].text <= n.parts[k].text
  }

  ghost predicate Grows(p: Entry, n: Entry) {
    exists k: nat :: GrowsAt(p, n, k)
  }

  function AppendAt(p: Entry, n: Entry, k: nat): TextAppend
    requires k < |p.parts| && k < |n.parts| && p.parts[k].TextPart? && n.parts[k].TextPart?
    requires p.parts[k].text <= n.parts[k].text
  {
    TextAppend(n.id, n.parts[k].id, n.parts[k].text[|p.parts[k].text|..], ByteLen(n.parts[k].text))
  }

  ghost function AppendOf(p: Entry, n: Entry): TextAppend
    requires Grows(p, n)
  {
    var k: nat :| GrowsAt(p, n, k);
    AppendAt(p, n, k)
  }

  lemma GrowsAtOnePlace(p: Entry, n: Entry, k: nat)
    requires GrowsAt(p, n, k)
    ensures Grows(p, n) && AppendOf(p, n) == AppendAt(p, n, k)
  {
  }

  /** `try_text_append`. */
  method TryTextAppend(p: Entry, n: Entry) returns (append: Option<TextAppend>)
    ensures append.Some? <==> Grows(p, n)
    ensures append.Some? ==> append.value == AppendOf(p, n)
  {
    append := None;
    if n != p.(parts := n.parts) || |p.parts| != |n.parts| {
      return;
    }
    ghost var at: nat := 0;
    for i := 0 to |p.parts|
      invariant append.None? ==> forall j :: 0 <= j < i ==> p.parts[j] == n.parts[j]
      invariant append.Some? ==> at < i && p.parts[at].TextPart? && n.parts[at].TextPart? && p.parts[at] != n.parts[at] &&
                                 p.parts[at].id == n.parts[at].id && p.parts[at].text <= n.parts[at].text &&
                                 append.value == AppendAt(p, n, at) &&
                                 forall j :: 0 <= j < i && j != at ==> p.parts[j] == n.parts[j]
    {
      if p.parts[i] == n.parts[i] {
        continue;
      }
      if !p.parts[i].TextPart? || !n.parts[i].TextPart? {
        return None;
      }
      if p.parts[i].id != n.parts[i].id || !(p.parts[i].text <= n.parts[i].text) || append.Some? {
        return None;
      }
      append := Some(AppendAt(p, n, i));
      at := i;
    }
    if append.Some? {
      GrowsAtOnePlace(p, n, at);
    }
  }

  // ── the diff ───────────────────────────────────────────────────────────────

  /** Positions by id, the last one winning: the map `diff_transcript` builds of the old entries. */
  function Index(entries: seq<Entry>): (m: map<EntryId, nat>)
    ensures forall id <- m :: m[id] < |entries| && entries[m[id]].id == id
  {
    if entries == [] then map[] else Index(entries[..|entries| - 1])[entries[|entries| - 1].id := |entries| - 1]
  }

  lemma {:induction false} IndexTotal(entries: seq<Entry>, i: nat)
    requires i < |entries|
    ensures entries[i].id in Index(entries)
  {
    if i < |entries| - 1 {
      IndexTotal(entries[..|entries| - 1], i);
    }
  }

  function PrevIndex(prev: seq<Entry>, id: EntryId): (ix: Option<nat>)
    ensures ix.Some? ==> ix.value < |prev| && prev[ix.value].id == id
  {
    Get(Index(prev), id)
  }

  function Before(entries: seq<Entry>, i: nat): Option<EntryId>
    requires i < |entries|
  {
    if i == 0 then None else Some(entries[i - 1].id)
  }

  datatype Change = Same | Grown(append: TextAppend) | Placed

  ghost function ChangeAt(prev: seq<Entry>, next: seq<Entry>, i: nat): Change
    requires i < |next|
  {
    var ix := PrevIndex(prev, next[i].id);
    if ix.None? || Before(prev, ix.value) != Before(next, i) then Placed
    else if prev[ix.value] == next[i] then Same
    else if Grows(prev[ix.value], next[i]) then Grown(AppendOf(prev[ix.value], next[i]))
    else Placed
  }

  ghost function Upserts(prev: seq<Entry>, next: seq<Entry>, i: nat): seq<Upsert>
    requires i <= |next|
  {
    if i == 0 then []
    else Upserts(prev, next, i - 1) +
         if ChangeAt(prev, next, i - 1).Placed? then [Upsert(Before(next, i - 1), next[i - 1])] else []
  }

  ghost function Appends(prev: seq<Entry>, next: seq<Entry>, i: nat): seq<TextAppend>
    requires i <= |next|
  {
    if i == 0 then []
    else Appends(prev, next, i - 1) +
         if ChangeAt(prev, next, i - 1).Grown? then [ChangeAt(prev, next, i - 1).append] else []
  }

  function Ids(entries: seq<Entry>): (ids: seq<EntryId>)
    ensures |ids| == |entries|
  {
    if entries == [] then [] else [entries[0].id] + Ids(entries[1..])
  }

  lemma {:induction false} IdsAt(entries: seq<Entry>, i: nat)
    requires i < |entries|
    ensures Ids(entries)[i] == entries[i].id
  {
    if i > 0 {
      IdsAt(entries[1..], i - 1);
    }
  }

  function Gone(prev: seq<Entry>, next: seq<Entry>): seq<EntryId> {
    if prev == [] then []
    else (if prev[0].id in Ids(next) then [] else [prev[0].id]) + Gone(prev[1..], next)
  }

  /** A delta that touches most entries is sent as a reset instead. */
  predicate TooLarge(upserts: nat, len: nat) {
    upserts * 2 >= (if len > 1 then len else 1) && len > 4
  }

  ghost function Diff(prev: seq<Entry>, next: seq<Entry>): Frame {
    var upsert := Upserts(prev, next, |next|);
    if TooLarge(|upsert|, |next|) then Reset(next)
    else Delta(upsert, Appends(prev, next, |next|), Gone(prev, next), |next|)
  }

  /** `diff_transcript`. */
  method DiffTranscript(prev: seq<Entry>, next: seq<Entry>) returns (frame: Frame)
    ensures frame == Diff(prev, next)
  {
    var prevById := IndexEntries(prev);
    var remove := GoneIds(prev, next);
    var upsert: seq<Upsert>, append: seq<TextAppend> := [], [];
    for i := 0 to |next|
      invariant upsert == Upserts(prev, next, i) && append == Appends(prev, next, i)
    {
      var change := Classify(prev, next, i, prevById);
      match change {
        case Same =>
        case Grown(a) => append := append + [a];
        case Placed => upsert := upsert + [Upsert(Before(next, i), next[i])];
      }
    }
    if TooLarge(|upsert|, |next|) {
      return Reset(next);
    }
    frame := Delta(upsert, append, remove, |next|);
  }

  /** The body of the loop of `diff_transcript`. */
  method Classify(prev: seq<Entry>, next: seq<Entry>, i: nat, prevById: map<EntryId, nat>) returns (change: Change)
    requires i < |next| && prevById == Index(prev)
    ensures change == ChangeAt(prev, next, i)
  {
    var entry, after := next[i], Before(next, i);
    if entry.id in prevById {
      var ix := prevById[entry.id];
      var prevEntry, prevAfter := prev[ix], Before(prev, ix);
      if prevEntry == entry && prevAfter == after {
        return Same;
      }
      if prevAfter == after {
        var grown := TryTextAppend(prevEntry, entry);
        if grown.Some? {
          return Grown(grown.value);
        }
      }
    }
    change := Placed;
  }

  method IndexEntries(entries: seq<Entry>) returns (m: map<EntryId, nat>)
    ensures m == Index(entries)
  {
    m := map[];
    for i := 0 to |entries|
      invariant m == Index(entries[..i])
    {
      assert entries[..i + 1][..i] == entries[..i];
      m := m[entries[i].id := i];
    }
    assert entries[..|entries|] == entries;
  }

  method GoneIds(prev: seq<Entry>, next: seq<Entry>) returns (remove: seq<EntryId>)
    ensures remove == Gone(prev, next)
  {
    remove := [];
    var rest := prev;
    while rest != []
      invariant remove + Gone(rest, next) == Gone(prev, next)
      decreases |rest|
    {
      if rest[0].id !in Ids(next) {
        remove := remove + [rest[0].id];
      }
      rest := rest[1..];
    }
  }

  // ── applying a frame ───────────────────────────────────────────────────────

  datatype Outcome = Applied(entries: seq<Entry>) | Desync

  function Retained(entries: seq<Entry>, gone: seq<EntryId>): seq<Entry> {
    if entries == [] then []
    else (if entries[0].id in gone then [] else [entries[0]]) + Retained(entries[1..], gone)
  }

  /** `iter().position(..)`: where the first entry with this id is. */
  function IndexOf(entries: seq<Entry>, id: EntryId): (ix: Option<nat>)
    ensures ix.Some? ==> ix.value < |entries| && entries[ix.value].id == id
  {
    if entries == [] then None
    else if entries[0].id == id then Some(0)
    else
      var rest := IndexOf(entries[1..], id);
      if rest.Some? then Some(rest.value + 1) else None
  }

  /** The list without its first entry of this id. */
  function Dropped(entries: seq<Entry>, id: EntryId): seq<Entry> {
    if entries == [] then []
    else if entries[0].id == id then entries[1..]
    else [entries[0]] + Dropped(entries[1..], id)
  }

  /** The list with `entry` right behind the first entry of id `anchor`. */
  function Behind(entries: seq<Entry>, anchor: EntryId, entry: Entry): seq<Entry> {
    if entries == [] then []
    else if entries[0].id == anchor then [entries[0], entry] + entries[1..]
    else [entries[0]] + Behind(entries[1..], anchor, entry)
  }

  lemma SliceCons(entries: seq<Entry>, i: nat)
    requires entries != [] && i < |entries|
    ensures entries[..i + 1] == [entries[0]] + entries[1..][..i]
    ensures entries[i + 1..] == entries[1..][i..]
  {
  }

  /** Removing at the found position is dropping the first entry of the id. */
  lemma {:induction false} DroppedByIndex(entries: seq<Entry>, id: EntryId)
    requires IndexOf(entries, id).Some?
    ensures var ix := IndexOf(entries, id).value;
            Dropped(entries, id) == entries[..ix] + entries[ix + 1..]
  {
    if entries[0].id != id {
      DroppedByIndex(entries[1..], id);
      var ix := IndexOf(entries, id).value;
      SliceCons(entries, ix - 1);
      SliceCons(entries, ix);
    }
  }

  lemma {:induction false} NothingDropped(entries: seq<Entry>, id: EntryId)
    requires IndexOf(entries, id).None?
    ensures Dropped(entries, id) == entries
  {
    if entries != [] {
      NothingDropped(entries[1..], id);
      assert entries == [entries[0]] + entries[1..];
    }
  }

  /** Inserting behind the found position is placing behind the first entry of the id. */
  lemma {:induction false} BehindByIndex(entries: seq<Entry>, anchor: EntryId, entry: Entry)
    requires IndexOf(entries, anchor).Some?
    ensures var at := IndexOf(entries, anchor).value + 1;
            Behind(entries, anchor, entry) == entries[..at] + [entry] + entries[at..]
  {
    if entries[0].id != anchor {
      BehindByIndex(entries[1..], anchor, entry);
      SliceCons(entries, IndexOf(entries, anchor).value);
    }
  }

  function Place(entries: seq<Entry>, up: Upsert): Outcome {
    var rest := Dropped(entries, up.entry.id);
    if up.after.None? then Applied([up.entry] + rest)
    else if up.after.value !in Ids(rest) then Desync
    else Applied(Behind(rest, up.after.value, up.entry))
  }

  function PlaceAll(entries: seq<Entry>, ups: seq<Upsert>): Outcome {
    if ups == [] then Applied(entries)
    else
      var before := PlaceAll(entries, ups[..|ups| - 1]);
      if before.Desync? then Desync else Place(before.entries, ups[|ups| - 1])
  }

  function TextIndex(parts: seq<MessagePart>, id: string): (ix: Option<nat>)
    ensures ix.Some? ==> ix.value < |parts| && parts[ix.value].TextPart? && parts[ix.value].id == id
  {
    if parts == [] then None
    else if parts[0].TextPart? && parts[0].id == id then Some(0)
    else
      var rest := TextIndex(parts[1..], id);
      if rest.Some? then Some(rest.value + 1) else None
  }

  function Extend(entries: seq<Entry>, a: TextAppend): Outcome {
    var ix := IndexOf(entries, a.entry);
    if ix.None? then Desync
    else
      var target := entries[ix.value];
      var k := TextIndex(target.parts, a.part);
      if k.None? then Desync
      else
        var text := target.parts[k.value].text + a.text;
        if ByteLen(text) != a.len then Desync
        else Applied(entries[ix.value := target.(parts := target.parts[k.value := TextPart(a.part, text)])])
  }

  function ExtendAll(entries: seq<Entry>, appends: seq<TextAppend>): Outcome {
    if appends == [] then Applied(entries)
    else
      var before := ExtendAll(entries, appends[..|appends| - 1]);
      if before.Desync? then Desync else Extend(before.entries, appends[|appends| - 1])
  }

  function Patch(current: seq<Entry>, frame: Frame): Outcome {
    match frame
    case Reset(entries) => Applied(entries)
    case Delta(upsert, append, remove, count) =>
      var placed := PlaceAll(Retained(current, remove), upsert);
      if placed.Desync? then Desync
      else
        var grown := ExtendAll(placed.entries, append);
        if grown.Desync? || |grown.entries| != count then Desync else grown
  }

  /** A viewer's copy of the transcript. */
  class Viewer {
    var current: seq<Entry>

    constructor ()
      ensures current == []
    {
      current := [];
    }

    /** `apply_transcript_frame`: on an error the copy is unreliable, otherwise it is patched. */
    method Apply(frame: Frame) returns (ok: bool)
      modifies this
      ensures ok <==> Patch(old(current), frame).Applied?
      ensures ok ==> current == Patch(old(current), frame).entries
      ensures ok && frame.Delta? ==> |current| == frame.count
    {
      match frame
      case Reset(entries) =>
        current := entries;
        return true;
      case Delta(upsert, append, remove, count) =>
        var kept := Keep(current, remove);
        current := kept;
        ok := PlaceEach(upsert);
        if !ok { return; }
        ok := ExtendEach(append);
        if !ok { return; }
        return |current| == count;
    }

    method PlaceEach(ups: seq<Upsert>) returns (ok: bool)
      modifies this
      ensures ok <==> PlaceAll(old(current), ups).Applied?
      ensures ok ==> current == PlaceAll(old(current), ups).entries
    {
      for i := 0 to |ups|
        invariant PlaceAll(old(current), ups[..i]) == Applied(current)
      {
        assert ups[..i + 1][..i] == ups[..i];
        PlaceFailsForGood(old(current), ups, i + 1);
        ok := PlaceOne(ups[i]);
        if !ok {
          return;
        }
      }
      assert ups[..|ups|] == ups;
      ok := true;
    }

    /** One upsert: take the old copy out, find the anchor, insert behind it. */
    method PlaceOne(up: Upsert) returns (ok: bool)
      modifies this
      ensures ok <==> Place(old(current), up).Applied?
      ensures ok ==> current == Place(old(current), up).entries
    {
      var rest := TakeOut(current, up.entry.id);
      current := rest;
      if up.after.None? {
        current := [up.entry] + current;
        return true;
      }
      var ix := IndexOf(current, up.after.value);
      AnchorByIndex(current, up.after.value);
      if ix.None? {
        return false;
      }
      BehindByIndex(current, up.after.value, up.entry);
      current := current[..ix.value + 1] + [up.entry] + current[ix.value + 1..];
      ok := true;
    }

    method ExtendEach(appends: seq<TextAppend>) returns (ok: bool)
      modifies this
      ensures ok <==> ExtendAll(old(current), appends).Applied?
      ensures ok ==> current == ExtendAll(old(current), appends).entries
    {
      for i := 0 to |appends|
        invariant ExtendAll(old(current), appends[..i]) == Applied(current)
      {
        assert appends[..i + 1][..i] == appends[..i];
        ExtendFailsForGood(old(current), appends, i + 1);
        var a := appends[i];
        var ix := IndexOf(current, a.entry);
        if ix.None? {
          return false;
        }
        var target := current[ix.value];
        var k := TextIndex(target.parts, a.part);
        if k.None? {
          return false;
        }
        var text := target.parts[k.value].text + a.text;
        current := current[ix.value := target.(parts := target.parts[k.value := TextPart(a.part, text)])];
        if ByteLen(text) != a.len {
          return false;
        }
      }
      assert appends[..|appends|] == appends;
      ok := true;
    }
  }

  method TakeOut(entries: seq<Entry>, id: EntryId) returns (rest: seq<Entry>)
    ensures rest == Dropped(entries, id)
  {
    var existing := IndexOf(entries, id);
    if existing.Some? {
      DroppedByIndex(entries, id);
      rest := entries[..existing.value] + entries[existing.value + 1..];
    } else {
      NothingDropped(entries, id);
      rest := entries;
    }
  }

  lemma {:induction false} AnchorByIndex(entries: seq<Entry>, id: EntryId)
    ensures IndexOf(entries, id).Some? <==> id in Ids(entries)
  {
    if entries != [] {
      AnchorByIndex(entries[1..], id);
      assert Ids(entries) == [entries[0].id] + Ids(entries[1..]);
    }
  }

  /** `Vec::retain` on the ids that are not gone. */
  method Keep(entries: seq<Entry>, gone: seq<EntryId>) returns (kept: seq<Entry>)
    ensures kept == Retained(entries, gone)
  {
    kept := [];
    var rest := entries;
    while rest != []
      invariant kept + Retained(rest, gone) == Retained(entries, gone)
      decreases |rest|
    {
      if rest[0].id !in gone {
        kept := kept + [rest[0]];
      }
      rest := rest[1..];
    }
  }

  lemma {:induction false} PlaceFailsForGood(entries: seq<Entry>, ups: seq<Upsert>, i: nat)
    requires i <= |ups|
    ensures PlaceAll(entries, ups[..i]).Desync? ==> PlaceAll(entries, ups).Desync?
    decreases |ups|
  {
    if i == |ups| {
      assert ups[..i] == ups;
    } else {
      assert ups[..|ups| - 1][..i] == ups[..i];
      PlaceFailsForGood(entries, ups[..|ups| - 1], i);
    }
  }

  lemma {:induction false} ExtendFailsForGood(entries: seq<Entry>, appends: seq<TextAppend>, i: nat)
    requires i <= |appends|
    ensures ExtendAll(entries, appends[..i]).Desync? ==> ExtendAll(entries, appends).Desync?
    decreases |appends|
  {
    if i == |appends| {
      assert appends[..i] == appends;
    } else {
      assert appends[..|appends| - 1][..i] == appends[..i];
      ExtendFailsForGood(entries, appends[..|appends| - 1], i);
    }
  }
}
