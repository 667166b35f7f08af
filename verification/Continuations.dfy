/** Joining continuation entries onto their roots (crates/doc/src/schema.rs, lines 1616-1641). */
module Continuations {
  import opened Options
  import opened Text
  import opened Parts
  import opened Fold
  import opened FoldLaws
  import opened Split
  import opened SplitLaws

  /** The entries joined so far, and where the latest root of each id stands among them. */
  datatype Joined = Joined(out: seq<Entry>, roots: map<EntryId, nat>)

  predicate Indexed(j: Joined) {
    forall id <- j.roots :: j.roots[id] < |j.out|
  }

  function JoinOne(j: Joined, e: Entry): (r: Joined)
    requires Indexed(j)
    ensures Indexed(r)
  {
    if e.continuationOf.None? then Joined(j.out + [e], j.roots[e.id := |j.out|])
    else if e.continuationOf.value in j.roots then
      var at := j.roots[e.continuationOf.value];
      j.(out := j.out[at := j.out[at].(parts := j.out[at].parts + e.parts)])
    else j.(out := j.out + [e])
  }

  function JoinFrom(entries: seq<Entry>): (j: Joined)
    ensures Indexed(j)
  {
    if entries == [] then Joined([], map[]) else JoinOne(JoinFrom(entries[..|entries| - 1]), entries[|entries| - 1])
  }

  function Join(entries: seq<Entry>): seq<Entry> {
    JoinFrom(entries).out
  }

  lemma {:induction false} NothingToJoin(entries: seq<Entry>)
    requires forall e <- entries :: e.continuationOf.None?
    ensures Join(entries) == entries
  {
    if entries != [] {
      NothingToJoin(entries[..|entries| - 1]);
    }
  }

  /** `join_continuation_entries`. */
  method JoinContinuationEntries(entries: seq<Entry>) returns (out: seq<Entry>)
    ensures out == Join(entries)
  {
    if !(exists i :: 0 <= i < |entries| && entries[i].continuationOf.Some?) {
      NothingToJoin(entries);
      return entries;
    }
    out := [];
    var rootIndex: map<EntryId, nat> := map[];
    for i := 0 to |entries|
      invariant JoinFrom(entries[..i]) == Joined(out, rootIndex)
    {
      var entry := entries[i];
      assert entries[..i + 1][..i] == entries[..i];
      match entry.continuationOf {
        case Some(rootId) =>
          if rootId in rootIndex {
            var at := rootIndex[rootId];
            out := out[at := out[at].(parts := out[at].parts + entry.parts)];
          } else {
            out := out + [entry];
          }
        case None =>
          rootIndex := rootIndex[entry.id := |out|];
          out := out + [entry];
      }
    }
    assert entries[..|entries|] == entries;
  }

  // ── where every entry goes ─────────────────────────────────────────────────

  predicate IsRoot(e: Entry, id: EntryId) {
    e.continuationOf.None? && e.id == id
  }

  function LatestRoot(entries: seq<Entry>, id: EntryId): (ix: Option<nat>)
    ensures ix.Some? ==> ix.value < |entries| && IsRoot(entries[ix.value], id)
    ensures forall j :: (if ix.Some? then ix.value else -1) < j < |entries| ==> !IsRoot(entries[j], id)
  {
    if entries == [] then None
    else
      var n := |entries| - 1;
      if IsRoot(entries[n], id) then Some(n) else LatestRoot(entries[..n], id)
  }

  /** The entry that shows entry `j`: the latest root before it that it continues, or itself. */
  function Home(entries: seq<Entry>, j: nat): (i: nat)
    requires j < |entries|
    ensures i <= j
  {
    var root := entries[j].continuationOf;
    if root.None? then j
    else
      var ix := LatestRoot(entries[..j], root.value);
      if ix.Some? then ix.value else j
  }

  /** The parts of all entries among the first `n` that entry `i` shows, in order. */
  function Gathered(entries: seq<Entry>, i: nat, n: nat): seq<MessagePart>
    requires n <= |entries|
  {
    if n == 0 then []
    else Gathered(entries, i, n - 1) + if Home(entries, n - 1) == i then entries[n - 1].parts else []
  }

  /** The entries among the first `m` that show themselves, each with what it shows of the first `n`. */
  function ShownBy(entries: seq<Entry>, m: nat, n: nat): seq<Entry>
    requires m <= |entries| && n <= |entries|
  {
    if m == 0 then []
    else
      var i := m - 1;
      ShownBy(entries, i, n) + if Home(entries, i) == i then [entries[i].(parts := Gathered(entries, i, n))] else []
  }

  /** How many entries are shown before entry `i`. */
  function Place(entries: seq<Entry>, i: nat): nat
    requires i <= |entries|
  {
    |ShownBy(entries, i, 0)|
  }

  lemma {:induction false} PlaceAnyway(entries: seq<Entry>, m: nat, n: nat)
    requires m <= |entries| && n <= |entries|
    ensures |ShownBy(entries, m, n)| == Place(entries, m)
  {
    if m > 0 {
      PlaceAnyway(entries, m - 1, n);
    }
  }

  lemma {:induction false} GatheredLater(entries: seq<Entry>, i: nat, n: nat)
    requires n <= i <= |entries|
    ensures Gathered(entries, i, n) == []
  {
    if n > 0 {
      GatheredLater(entries, i, n - 1);
    }
  }

  /** An entry that is not shown among the first `m` changes nothing there. */
  lemma {:induction false} ShownElsewhere(entries: seq<Entry>, m: nat, n: nat)
    requires m <= n < |entries| && Home(entries, n) >= m
    ensures ShownBy(entries, m, n + 1) == ShownBy(entries, m, n)
  {
    if m > 0 {
      ShownElsewhere(entries, m - 1, n);
      GatheredMore(entries, m - 1, n);
    }
  }

  /** The entry at `at` shows some more parts. */
  function Longer(shown: seq<Entry>, at: nat, parts: seq<MessagePart>): seq<Entry>
    requires at < |shown|
  {
    shown[at := shown[at].(parts := shown[at].parts + parts)]
  }

  lemma LongerBefore(shown: seq<Entry>, at: nat, parts: seq<MessagePart>, more: seq<Entry>)
    requires at < |shown|
    ensures Longer(shown + more, at, parts) == Longer(shown, at, parts) + more
  {
  }

  /** Entry `n` adds its parts to the entry that shows it, and to no other. */
  lemma {:induction false} ShownAt(entries: seq<Entry>, m: nat, n: nat)
    requires m <= n < |entries|
    requires var home := Home(entries, n); home < m && Home(entries, home) == home
    ensures var before, at := ShownBy(entries, m, n), Place(entries, Home(entries, n));
            at < |before| &&
            ShownBy(entries, m, n + 1) == Longer(before, at, entries[n].parts)
  {
    var i, home := m - 1, Home(entries, n);
    var before, at := ShownBy(entries, i, n), Place(entries, home);
    if home < i {
      ShownAt(entries, i, n);
      var more := ShownMore(entries, i, n);
      LongerBefore(before, at, entries[n].parts, more);
    } else {
      ShownLast(entries, i, n);
    }
  }

  lemma ShownMore(entries: seq<Entry>, i: nat, n: nat) returns (more: seq<Entry>)
    requires i < n < |entries| && Home(entries, n) != i
    ensures ShownBy(entries, i + 1, n) == ShownBy(entries, i, n) + more
    ensures ShownBy(entries, i + 1, n + 1) == ShownBy(entries, i, n + 1) + more
  {
    GatheredMore(entries, i, n);
    more := if Home(entries, i) == i then [entries[i].(parts := Gathered(entries, i, n))] else [];
  }

  lemma ShownLast(entries: seq<Entry>, i: nat, n: nat)
    requires i < n < |entries| && Home(entries, n) == i && Home(entries, i) == i
    ensures var before, at := ShownBy(entries, i + 1, n), Place(entries, i);
            at < |before| &&
            ShownBy(entries, i + 1, n + 1) == Longer(before, at, entries[n].parts)
  {
    PlaceAnyway(entries, i, n);
    GatheredMore(entries, i, n);
    ShownElsewhere(entries, i, n);
  }

  lemma GatheredMore(entries: seq<Entry>, i: nat, n: nat)
    requires n < |entries|
    ensures Gathered(entries, i, n + 1) ==
            if Home(entries, n) == i then Gathered(entries, i, n) + entries[n].parts else Gathered(entries, i, n)
  {
  }

  ghost predicate Tracks(roots: map<EntryId, nat>, entries: seq<Entry>, n: nat)
    requires n <= |entries|
  {
    forall id: EntryId ::
      var ix := LatestRoot(entries[..n], id);
      if ix.Some? then id in roots && roots[id] == Place(entries, ix.value) else id !in roots
  }

  lemma PrefixHome(entries: seq<Entry>, n: nat, id: EntryId)
    requires n < |entries|
    ensures var ix := LatestRoot(entries[..n], id);
            LatestRoot(entries[..n + 1], id) ==
            if entries[n].continuationOf.None? && entries[n].id == id then Some(n) else ix
  {
    assert entries[..n + 1][..n] == entries[..n];
  }

  lemma LatestRootIsHome(entries: seq<Entry>, n: nat, id: EntryId)
    requires n <= |entries| && LatestRoot(entries[..n], id).Some?
    ensures var i := LatestRoot(entries[..n], id).value; i < n && Home(entries, i) == i
  {
    var i := LatestRoot(entries[..n], id).value;
    assert entries[i] == entries[..n][i];
  }

  lemma NewShown(entries: seq<Entry>, n: nat)
    requires n < |entries| && Home(entries, n) == n
    ensures ShownBy(entries, n + 1, n + 1) == ShownBy(entries, n, n) + [entries[n]]
  {
    ShownElsewhere(entries, n, n);
    GatheredLater(entries, n, n);
    GatheredMore(entries, n, n);
    assert Gathered(entries, n, n + 1) == [] + entries[n].parts == entries[n].parts;
  }

  lemma OldShown(entries: seq<Entry>, n: nat)
    requires n < |entries| && Home(entries, n) < n
    ensures var home := Home(entries, n);
            Home(entries, home) == home &&
            var before, at := ShownBy(entries, n, n), Place(entries, home);
            at < |before| &&
            ShownBy(entries, n + 1, n + 1) == Longer(before, at, entries[n].parts)
  {
    LatestRootIsHome(entries, n, entries[n].continuationOf.value);
    ShownAt(entries, n, n);
    assert ShownBy(entries, n + 1, n + 1) == ShownBy(entries, n, n + 1) + [];
  }

  lemma TracksNext(entries: seq<Entry>, n: nat, roots: map<EntryId, nat>)
    requires n < |entries| && Tracks(roots, entries, n)
    ensures var e := entries[n];
            Tracks(if e.continuationOf.None? then roots[e.id := Place(entries, n)] else roots, entries, n + 1)
  {
    var e := entries[n];
    var next := if e.continuationOf.None? then roots[e.id := Place(entries, n)] else roots;
    forall id: EntryId
      ensures var ix := LatestRoot(entries[..n + 1], id);
              if ix.Some? then id in next && next[id] == Place(entries, ix.value) else id !in next
    {
      PrefixHome(entries, n, id);
    }
  }

  /** Joining one more entry is what showing it says. */
  lemma JoinStep(entries: seq<Entry>, n: nat, j: Joined)
    requires n < |entries| && j.out == ShownBy(entries, n, n) && Tracks(j.roots, entries, n) && Indexed(j)
    ensures var r := JoinOne(j, entries[n]);
            r.out == ShownBy(entries, n + 1, n + 1) && Tracks(r.roots, entries, n + 1)
  {
    PlaceAnyway(entries, n, n);
    TracksNext(entries, n, j.roots);
    var root := entries[n].continuationOf;
    assert root.Some? ==> (root.value in j.roots <==> LatestRoot(entries[..n], root.value).Some?);
    if Home(entries, n) == n {
      NewShown(entries, n);
    } else {
      OldShown(entries, n);
    }
  }

  lemma {:induction false} JoinTo(entries: seq<Entry>, n: nat)
    requires n <= |entries|
    ensures JoinFrom(entries[..n]).out == ShownBy(entries, n, n) && Tracks(JoinFrom(entries[..n]).roots, entries, n)
  {
    if n > 0 {
      JoinTo(entries, n - 1);
      assert entries[..n][..n - 1] == entries[..n - 1];
      JoinStep(entries, n - 1, JoinFrom(entries[..n - 1]));
    }
  }

  /** The joined list: every root and every orphan in its place, holding its own parts and then those of
      the continuations for which it is the latest root, in list order. */
  lemma JoinShows(entries: seq<Entry>)
    ensures Join(entries) == ShownBy(entries, |entries|, |entries|)
  {
    JoinTo(entries, |entries|);
    assert entries[..|entries|] == entries;
  }

  // ── nothing is lost ────────────────────────────────────────────────────────

  function PartsOf(entries: seq<Entry>): seq<MessagePart> {
    if entries == [] then [] else PartsOf(entries[..|entries| - 1]) + entries[|entries| - 1].parts
  }

  lemma {:induction false} MorePartsAt(entries: seq<Entry>, at: nat, more: seq<MessagePart>)
    requires at < |entries|
    ensures multiset(PartsOf(entries[at := entries[at].(parts := entries[at].parts + more)]))
         == multiset(PartsOf(entries)) + multiset(more)
  {
    var n := |entries| - 1;
    var changed := entries[at := entries[at].(parts := entries[at].parts + more)];
    if at < n {
      MorePartsAt(entries[..n], at, more);
      assert changed[..n] == entries[..n][at := entries[at].(parts := entries[at].parts + more)];
    } else {
      assert changed[..n] == entries[..n];
    }
  }

  /** Every part appears exactly as often as before. */
  lemma {:induction false} JoinKeepsParts(entries: seq<Entry>)
    ensures multiset(PartsOf(Join(entries))) == multiset(PartsOf(entries))
  {
    if entries != [] {
      var n := |entries| - 1;
      JoinKeepsParts(entries[..n]);
      var j, e := JoinFrom(entries[..n]), entries[n];
      if e.continuationOf.Some? && e.continuationOf.value in j.roots {
        MorePartsAt(j.out, j.roots[e.continuationOf.value], e.parts);
      } else {
        assert (j.out + [e])[..|j.out|] == j.out;
      }
    }
  }

  // ── joining again ──────────────────────────────────────────────────────────

  /** Whatever is left as a continuation has no root before it. */
  ghost predicate OnlyOrphans(entries: seq<Entry>) {
    forall k :: 0 <= k < |entries| && entries[k].continuationOf.Some? ==>
      LatestRoot(entries[..k], entries[k].continuationOf.value).None?
  }

  lemma {:induction false} OrphansStay(entries: seq<Entry>)
    requires OnlyOrphans(entries)
    ensures Join(entries) == entries
  {
    if entries != [] {
      var n := |entries| - 1;
      var init := entries[..n];
      forall k | 0 <= k < n && init[k].continuationOf.Some?
        ensures LatestRoot(init[..k], init[k].continuationOf.value).None?
      {
        assert init[..k] == entries[..k];
      }
      OrphansStay(init);
      RootsAreTracked(init);
      OrphanIsPutOut(JoinFrom(init), entries[n]);
    }
  }

  lemma RootsAreTracked(entries: seq<Entry>)
    ensures forall id: EntryId :: id in JoinFrom(entries).roots <==> LatestRoot(entries, id).Some?
  {
    JoinTo(entries, |entries|);
    assert entries[..|entries|] == entries;
  }

  lemma OrphanIsPutOut(j: Joined, e: Entry)
    requires Indexed(j) && (e.continuationOf.Some? ==> e.continuationOf.value !in j.roots)
    ensures JoinOne(j, e).out == j.out + [e]
  {
  }

  lemma {:induction false} SameRoots(a: seq<Entry>, b: seq<Entry>, id: EntryId)
    requires |a| == |b| && forall k :: 0 <= k < |a| ==> a[k].id == b[k].id && a[k].continuationOf == b[k].continuationOf
    ensures LatestRoot(a, id).Some? <==> LatestRoot(b, id).Some?
  {
    if a != [] {
      SameRoots(a[..|a| - 1], b[..|b| - 1], id);
    }
  }

  /** The join keeps track of all roots it has put out. */
  ghost predicate KnowsRoots(j: Joined) {
    forall id: EntryId :: LatestRoot(j.out, id).Some? ==> id in j.roots
  }

  lemma JoinOneOrphans(j: Joined, e: Entry)
    requires Indexed(j) && KnowsRoots(j) && OnlyOrphans(j.out)
    ensures KnowsRoots(JoinOne(j, e)) && OnlyOrphans(JoinOne(j, e).out)
  {
    var r := JoinOne(j, e);
    if |r.out| == |j.out| {
      forall id: EntryId ensures LatestRoot(j.out, id).Some? <==> LatestRoot(r.out, id).Some? {
        SameRoots(j.out, r.out, id);
      }
      forall k | 0 <= k < |r.out| && r.out[k].continuationOf.Some?
        ensures LatestRoot(r.out[..k], r.out[k].continuationOf.value).None?
      {
        SameRoots(j.out[..k], r.out[..k], r.out[k].continuationOf.value);
      }
    } else {
      assert r.out[..|j.out|] == j.out;
      forall k | 0 <= k < |r.out| && r.out[k].continuationOf.Some?
        ensures LatestRoot(r.out[..k], r.out[k].continuationOf.value).None?
      {
        assert r.out[..k] == j.out[..k];
      }
    }
  }

  lemma {:induction false} JoinLeavesOrphans(entries: seq<Entry>)
    ensures KnowsRoots(JoinFrom(entries)) && OnlyOrphans(Join(entries))
  {
    if entries != [] {
      var n := |entries| - 1;
      JoinLeavesOrphans(entries[..n]);
      JoinOneOrphans(JoinFrom(entries[..n]), entries[n]);
    }
  }

  /** Joining again changes nothing. */
  lemma JoinTwice(entries: seq<Entry>)
    ensures Join(Join(entries)) == Join(entries)
  {
    JoinLeavesOrphans(entries);
    OrphansStay(Join(entries));
  }

  // ── joining a split entry ──────────────────────────────────────────────────

  function ContinuationId(root: EntryId, index: nat): EntryId {
    EntryId(root.text + "#c" + Decimal(index))
  }

  /** An entry and its chunks: the first keeps the id, the others continue it. */
  function SplitEntry(e: Entry, chunks: seq<seq<MessagePart>>): seq<Entry>
    requires chunks != []
  {
    var n := |chunks| - 1;
    if n == 0 then [e.(parts := chunks[0])]
    else SplitEntry(e, chunks[..n]) +
         [e.(id := ContinuationId(e.id, n), parts := chunks[n], continuationOf := Some(e.id))]
  }

  /** The root keeps the id and the first chunk; every further chunk goes into a numbered entry that names the root. */
  lemma {:induction false} SplitEntryAt(e: Entry, chunks: seq<seq<MessagePart>>, j: nat)
    requires j < |chunks|
    ensures |SplitEntry(e, chunks)| == |chunks|
    ensures SplitEntry(e, chunks)[j] ==
            if j == 0 then e.(parts := chunks[0])
            else e.(id := EntryId(e.id.text + "#c" + Decimal(j)), parts := chunks[j], continuationOf := Some(e.id))
  {
    var n := |chunks| - 1;
    if n > 0 {
      SplitEntryAt(e, chunks[..n], if j < n then j else 0);
    }
  }

  lemma {:induction false} JoinOfSplit(e: Entry, chunks: seq<seq<MessagePart>>)
    requires chunks != [] && e.continuationOf.None?
    ensures JoinFrom(SplitEntry(e, chunks)) == Joined([e.(parts := Flatten(chunks))], map[e.id := 0])
  {
    var n := |chunks| - 1;
    if n == 0 {
      assert SplitEntry(e, chunks)[..0] == [];
      assert chunks[..0] == [] && Flatten(chunks) == [] + chunks[0] == chunks[0];
    } else {
      var init := SplitEntry(e, chunks[..n]);
      JoinOfSplit(e, chunks[..n]);
      assert SplitEntry(e, chunks)[..|init|] == init;
    }
  }

  /** Writing an oversized entry as a root and continuations and joining them again gives the entry with
      its oversized texts cut; gluing the pieces gives the entry's own parts, for every folded list. */
  lemma SplitThenJoin(e: Entry, events: seq<AgentEvent>, policy: SummaryPolicy, rules: Rules, cap: nat, z: Sizes)
    requires e.continuationOf.None? && e.parts == FoldRun([], events, policy, rules)
    ensures var chunks := Chunks(e.parts, cap, z);
            && chunks != []
            && Join(SplitEntry(e, chunks)) == [e.(parts := Cut(e.parts, cap))]
            && Glue(Join(SplitEntry(e, chunks))[0].parts) == e.parts
  {
    var acc := PackAllPacks(Cut(e.parts, cap), cap, z);
    JoinOfSplit(e, acc.chunks);
    FoldedListsComeBack(events, policy, rules, cap, z);
  }
}
