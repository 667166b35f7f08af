/** What collapsing a run of queued ops into one op does to a row
    (crates/doc/src/registry.rs, lines 371-425 over 166-284). */
module Compaction {
  import opened Hlc
  import opened Merge
  import opened Options

  // ── the seed of a row over another row ─────────────────────────────────────

  /** `a` holds nothing at `k` that is newer than the value `now` shows there. */
  predicate NotOutdone(a: Row, now: Row, k: string)
    requires k in now.clocks
  {
    k !in a.clocks || now.clocks[k] > a.clocks[k] ||
    (now.clocks[k] == a.clocks[k] && Get(now.fields, k) == Get(a.fields, k))
  }

  /** The seed of `now` turns the server row into what `now` shows: a delete is newer than all it removes, a
      revival newer than the tombstone, and among live rows no field is missing and none is outdone. */
  ghost predicate HoldsUp(slot: Option<Row>, now: Row)
    requires WellFormed(now)
  {
    slot.None? ||
    var a := slot.value;
    if now.deleted then a.deleted || NewerThanAll(now.delHlc.value, a)
    else if a.deleted then Newer(SeedOp(now).hlc, a.delHlc)
    else a.fields.Keys <= now.fields.Keys && forall k <- now.fields :: NotOutdone(a, now, k)
  }

  /** Whatever the two rows are and however `now` came about: laying the seed of `now` over the server row
      shows what `now` shows exactly when it holds up. */
  lemma SeedShows(slot: Option<Row>, now: Row, key: Key)
    requires WellFormedSlot(slot, key) && WellFormedSlot(Some(now), key)
    ensures ViewOf(Apply(slot, SeedOp(now)).row) == ViewOf(Some(now)) <==> HoldsUp(slot, now)
  {
    if slot.None? {
      SeedRoundTrip(now);
    } else if now.deleted {
      MaxClockMeaning(slot.value, MaxClockOf(slot.value), now.delHlc.value);
    } else if slot.value.deleted {
      SeedOverTombstone(slot.value, now);
    } else {
      SeedOverLive(slot.value, now);
    }
  }

  lemma SeedOverTombstone(a: Row, now: Row)
    requires WellFormed(a) && WellFormed(now) && a.key == now.key && a.deleted && !now.deleted
    ensures ViewOf(Apply(Some(a), SeedOp(now)).row) == ViewOf(Some(now)) <==> Newer(SeedOp(now).hlc, a.delHlc)
  {
    var seed := SeedOp(now);
    if Newer(seed.hlc, a.delHlc) {
      var next := Apply(Some(a), seed).row.value;
      assert next == Merged(Revived(a), seed);
      forall k | k in now.fields ensures Wins(Revived(a), seed, k) && now.fields[k] != Null {
        assert now.fields[k] in now.fields.Values;
      }
      SameMap(next.fields, now.fields);
    }
  }

  lemma SeedAtField(a: Row, now: Row, k: string)
    requires WellFormed(a) && WellFormed(now) && !a.deleted && !now.deleted
    ensures var next := Merged(a, SeedOp(now));
            if k in now.fields then
              NotOutdone(a, now, k) <==>
              Get(next.fields, k) == Get(now.fields, k) && Get(next.clocks, k) == Get(now.clocks, k)
            else Get(next.fields, k) == Get(a.fields, k)
  {
    MergedAt(a, SeedOp(now), k);
    if k in now.fields {
      assert now.fields[k] in now.fields.Values;
      assert SeedOp(now).ClockFor(k) == now.clocks[k];
    }
  }

  lemma SeedOverLive(a: Row, now: Row)
    requires WellFormed(a) && WellFormed(now) && a.key == now.key && !a.deleted && !now.deleted
    ensures ViewOf(Apply(Some(a), SeedOp(now)).row) == ViewOf(Some(now)) <==> HoldsUp(Some(a), now)
  {
    var seed := SeedOp(now);
    LiveRowsMerge(a, seed);
    var next := Merged(a, seed);
    forall k
      ensures k in now.fields ==> (NotOutdone(a, now, k) <==>
                Get(next.fields, k) == Get(now.fields, k) && Get(next.clocks, k) == Get(now.clocks, k))
      ensures k !in now.fields ==> Get(next.fields, k) == Get(a.fields, k)
    {
      SeedAtField(a, now, k);
    }
    if HoldsUp(Some(a), now) {
      forall k ensures Get(next.fields, k) == Get(now.fields, k) {
        assert k in now.fields ==> NotOutdone(a, now, k);
      }
      SameMap(next.fields, now.fields);
      forall k | k in now.fields ensures k in next.clocks && next.clocks[k] == now.clocks[k] {
        assert NotOutdone(a, now, k) && Get(next.clocks, k) == Get(now.clocks, k);
      }
    }
    if ViewOf(Some(next)) == ViewOf(Some(now)) {
      assert next.fields == now.fields;
      forall k | k in now.fields ensures NotOutdone(a, now, k) {
        assert k in next.fields && k in next.clocks;
        assert ViewOf(Some(next)).clocks[k] == ViewOf(Some(now)).clocks[k];
      }
      forall k | k in a.fields ensures k in now.fields {
        assert Get(next.fields, k) == Get(now.fields, k);
      }
    }
  }

  /** Collapsing a row's queue to the seed op of its net row is invisible exactly when that seed holds up
      against the server row, whatever was queued. */
  lemma CollapsedRow(slot: Option<Row>, ops: seq<RowOp>, key: Key)
    requires WellFormedSlot(slot, key) && AllOn(ops, key) && Replay(slot, ops).Some?
    ensures WellFormedSlot(Replay(slot, ops), key)
    ensures var now := Replay(slot, ops);
            ViewOf(Apply(slot, SeedOp(now.value)).row) == ViewOf(now) <==> HoldsUp(slot, now.value)
  {
    ReplayKeepsWellFormed(slot, ops, key);
    SeedShows(slot, Replay(slot, ops).value, key);
  }

  // ── queues as the replica builds them ──────────────────────────────────────

  /** Behind a delete of the row there are only local writes, with rising stamps. Seeds, the only ops that
      override field clocks, come before any delete or are the delete. */
  ghost predicate QueuedInOrder(ops: seq<RowOp>) {
    && (forall i, j :: 0 <= i < j < |ops| && ops[i].op == Delete ==> ops[j].clocks.None?)
    && (forall d, i, j :: 0 <= d < i < j < |ops| && ops[d].op == Delete ==> ops[i].hlc < ops[j].hlc)
  }

  ghost predicate Queue(ops: seq<RowOp>, key: Key) {
    AllOn(ops, key) && QueuedInOrder(ops)
  }

  /** The run has never deleted the live row `a`: every field of `now` is `a`'s own or a newer write. */
  ghost predicate Refined(a: Row, now: Row) {
    && now.delHlc == a.delHlc
    && forall k | k in a.clocks ::
         k in now.clocks && now.clocks[k] >= a.clocks[k] &&
         (now.clocks[k] == a.clocks[k] ==> Get(now.fields, k) == Get(a.fields, k))
  }

  /** The run deleted the live row `a` and built a new one: nothing old is left. */
  ghost predicate Reborn(a: Row, now: Row) {
    && now.delHlc.Some?
    && NewerThanAll(now.delHlc.value, a)
    && forall k | k in now.clocks :: now.clocks[k] > now.delHlc.value
  }

  /** How a row stands to the row `a` its run of ops started from. */
  ghost predicate Descends(a: Row, now: Row)
    requires WellFormed(a)
  {
    if a.deleted then now.delHlc.Some? && now.delHlc.value >= a.delHlc.value
    else if now.deleted then now.delHlc.Some? && NewerThanAll(now.delHlc.value, a)
    else Refined(a, now) || Reborn(a, now)
  }

  /** Where a changed delete clock comes from: a delete of the run, and for a live row also a later op that
      is newer than the delete. */
  ghost predicate DeletedBy(a: Row, ops: seq<RowOp>, now: Row) {
    now.delHlc != a.delHlc ==>
      now.delHlc.Some? && exists d :: 0 <= d < |ops| && BroughtBack(ops, d, now)
  }

  ghost predicate BroughtBack(ops: seq<RowOp>, d: nat, now: Row)
    requires d < |ops| && now.delHlc.Some?
  {
    ops[d].op == Delete && (now.deleted || exists i :: d < i < |ops| && ops[i].hlc > now.delHlc.value)
  }

  lemma DescendsStep(a: Row, now: Row, op: RowOp)
    requires WellFormed(a) && WellFormed(now) && Descends(a, now)
    requires !a.deleted && !now.deleted && now.delHlc != a.delHlc ==> op.clocks.None? && op.hlc > now.delHlc.value
    requires !a.deleted && now.deleted ==> op.clocks.None?
    ensures Descends(a, Apply(Some(now), op).row.value)
  {
    MaxClockMeaning(now, MaxClockOf(now), op.hlc);
    var next := Apply(Some(now), op).row.value;
    if next == now {
    } else if op.op == Delete {
      if !a.deleted && !now.deleted {
        forall k | k in a.clocks ensures op.hlc > a.clocks[k] {}
      }
    } else if !a.deleted && now.deleted {
      assert Reborn(a, next);
    } else if !a.deleted && Refined(a, now) {
      assert Refined(a, next);
    } else if !a.deleted {
      assert Reborn(a, next);
    }
  }

  lemma QueuePrefix(init: seq<RowOp>, last: RowOp, key: Key)
    requires Queue(init + [last], key)
    ensures Queue(init, key) && last.key == key
    ensures forall d :: 0 <= d < |init| && init[d].op == Delete ==> last.clocks.None?
    ensures forall d, i :: 0 <= d < i < |init| && init[d].op == Delete ==> init[i].hlc < last.hlc
  {
    var ops := init + [last];
    assert last in ops && ops[|init|] == last;
    assert forall i :: 0 <= i < |init| ==> ops[i] == init[i];
    assert forall op <- init :: op in ops;
  }

  lemma DeletedByStep(a: Row, init: seq<RowOp>, now: Row, last: RowOp)
    requires DeletedBy(a, init, now)
    ensures DeletedBy(a, init + [last], Apply(Some(now), last).row.value)
  {
    var ops, next := init + [last], Apply(Some(now), last).row.value;
    assert ops[|init|] == last && forall i :: 0 <= i < |init| ==> ops[i] == init[i];
    if next.delHlc != a.delHlc {
      if next.delHlc != now.delHlc {
        assert BroughtBack(ops, |init|, next);
      } else {
        var d :| 0 <= d < |init| && BroughtBack(init, d, now);
        if !next.deleted && !now.deleted {
          var i :| d < i < |init| && init[i].hlc > now.delHlc.value;
          assert ops[i].hlc > next.delHlc.value;
        }
        assert BroughtBack(ops, d, next);
      }
    }
  }

  lemma {:induction false} ReplayDescends(a: Row, ops: seq<RowOp>, key: Key)
    requires WellFormedSlot(Some(a), key) && Queue(ops, key)
    ensures var now := Replay(Some(a), ops);
            now.Some? && WellFormedSlot(now, key) && Descends(a, now.value) && DeletedBy(a, ops, now.value)
    decreases |ops|
  {
    if ops != [] {
      var init, last := ops[..|ops| - 1], ops[|ops| - 1];
      assert ops == init + [last];
      QueuePrefix(init, last, key);
      ReplayDescends(a, init, key);
      ReplaySnoc(Some(a), init, last);
      var now := Replay(Some(a), init).value;
      if now.delHlc != a.delHlc {
        var d :| 0 <= d < |init| && BroughtBack(init, d, now);
      }
      DescendsStep(a, now, last);
      DeletedByStep(a, init, now, last);
      ApplyKeepsWellFormed(Some(now), last);
    }
  }

  /** The net row still has every field of the live server row under it, and over a tombstone its seed is
      newer than the delete. */
  ghost predicate KeepsEveryField(slot: Option<Row>, now: Option<Row>) {
    slot.Some? && now.Some? && !now.value.deleted ==>
      if slot.value.deleted then Newer(SeedOp(now.value).hlc, slot.value.delHlc)
      else slot.value.fields.Keys <= now.value.fields.Keys
  }

  /** For queues as the replica builds them nothing can be outdone, and a delete always holds up. */
  lemma QueueHoldsUp(slot: Option<Row>, ops: seq<RowOp>, key: Key)
    requires WellFormedSlot(slot, key) && Queue(ops, key) && Replay(slot, ops).Some?
    ensures WellFormedSlot(Replay(slot, ops), key)
    ensures HoldsUp(slot, Replay(slot, ops).value) <==> KeepsEveryField(slot, Replay(slot, ops))
  {
    ReplayKeepsWellFormed(slot, ops, key);
    if slot.Some? {
      ReplayDescends(slot.value, ops, key);
    }
  }

  lemma {:induction false} CarriedOpsOutlive(slot: Option<Row>, ops: seq<RowOp>, key: Key)
    requires WellFormedSlot(slot, key) && (slot.Some? ==> OutlivesDelete(slot.value))
    requires AllOn(ops, key) && forall op <- ops :: CarriesClock(op)
    ensures WellFormedSlot(Replay(slot, ops), key) && (Replay(slot, ops).Some? ==> OutlivesDelete(Replay(slot, ops).value))
    decreases |ops|
  {
    if ops != [] {
      ApplyKeepsWellFormed(slot, ops[0]);
      ApplyKeepsOutliving(slot, ops[0]);
      CarriedOpsOutlive(Apply(slot, ops[0]).row, ops[1..], key);
    }
  }

  /** A tombstone never stands in the way of ops that carry their clocks, as local writes do. */
  lemma CarriedOpsClearTombstones(a: Row, ops: seq<RowOp>, key: Key)
    requires WellFormedSlot(Some(a), key) && a.deleted && Queue(ops, key) && forall op <- ops :: CarriesClock(op)
    ensures KeepsEveryField(Some(a), Replay(Some(a), ops))
  {
    CarriedOpsOutlive(Some(a), ops, key);
    ReplayDescends(a, ops, key);
    var now := Replay(Some(a), ops).value;
    if !now.deleted {
      var k :| k in now.clocks && now.clocks[k] > now.delHlc.value;
      assert SeedOp(now).hlc >= now.clocks[k];
    }
  }

  /** The failing family is real: a queued clear of a server field is undone by compaction. */
  lemma ClearedFieldComesBack(key: Key)
    ensures var a := Row(key, 7, false, None, map["t" := Json("hi")], map["t" := 1.0]);
            var clear := RowOp(key, Update, Some(map["t" := Null]), 2.0, None);
            var now := Replay(Some(a), [clear]);
            && WellFormed(a) && Queue([clear], key) && now.Some? && !KeepsEveryField(Some(a), now)
            && ViewOf(now) != ViewOf(Apply(Some(a), SeedOp(now.value)).row)
            && ViewOf(Some(a)) == ViewOf(Apply(Some(a), SeedOp(now.value)).row)
  {
    var a := Row(key, 7, false, None, map["t" := Json("hi")], map["t" := 1.0]);
    var clear := RowOp(key, Update, Some(map["t" := Null]), 2.0, None);
    assert Wins(a, clear, "t");
    ReplayThree(Some(a), clear, clear, clear);
    var now := Replay(Some(a), [clear]);
    assert now.value == Merged(a, clear) && "t" !in now.value.fields;
    assert now.value.fields == map[];
    CollapsedRow(Some(a), [clear], key);
    assert !AnyWins(a, SeedOp(now.value));
  }

  // ── compacting twice ───────────────────────────────────────────────────────

  function Buried2(key: Key): Row { Row(key, 7, true, Some(2.0), map[], map[]) }

  function Empty2(key: Key, clocks: map<string, Clock>): Row { Row(key, 7, false, Some(2.0), map[], clocks) }

  function BornAt3(key: Key): RowOp { RowOp(key, Upsert, Some(map["t" := Json("hi")]), 3.0, None) }

  function ClearedAt5(key: Key): RowOp { RowOp(key, Update, Some(map["t" := Null]), 5.0, None) }

  lemma BornThenCleared(key: Key)
    ensures Replay(Some(Buried2(key)), [BornAt3(key), ClearedAt5(key)]) == Some(Empty2(key, map["t" := 5.0]))
  {
    var a, born, clear := Buried2(key), BornAt3(key), ClearedAt5(key);
    ReplayThree(Some(a), born, clear, clear);
    var up := Merged(Revived(a), born);
    assert Wins(Revived(a), born, "t") && up.clocks == map["t" := 3.0];
    assert Wins(up, clear, "t");
    assert Merged(up, clear).fields == map[] && Merged(up, clear).clocks == map["t" := 5.0];
  }

  lemma SeedOfCleared(key: Key)
    ensures SeedOp(Empty2(key, map["t" := 5.0])) == RowOp(key, Upsert, Some(map[]), 5.0, Some(map["t" := 5.0]))
    ensures SeedOp(Empty2(key, map[])) == RowOp(key, Upsert, Some(map[]), 2.0, Some(map[]))
  {
    var first, second := Empty2(key, map["t" := 5.0]), Empty2(key, map[]);
    assert "t" in first.clocks && first.clocks["t"] == 5.0;
    assert MaxClockOf(first) == Some(5.0);
    assert MaxClockOf(second) == Some(2.0);
  }

  lemma SeedOverBuried(key: Key)
    ensures var seed := SeedOp(Empty2(key, map["t" := 5.0]));
            Replay(Some(Buried2(key)), [seed]) == Some(Empty2(key, map[]))
  {
    var seed := SeedOp(Empty2(key, map["t" := 5.0]));
    SeedOfCleared(key);
    ReplayThree(Some(Buried2(key)), seed, seed, seed);
    assert Merged(Revived(Buried2(key)), seed).fields == map[] && Merged(Revived(Buried2(key)), seed).clocks == map[];
  }

  /** And a second compaction can undo the first: the seed of a row whose only field has been cleared is as
      new as that clear, but the row it leaves has lost the clear's clock, so its own seed is no newer than
      the tombstone and the row disappears. */
  lemma SecondCompactionHidesTheRow(key: Key)
    ensures var slot, queue := Some(Buried2(key)), [BornAt3(key), ClearedAt5(key)];
            && Queue(queue, key) && Replay(slot, queue).Some? && KeepsEveryField(slot, Replay(slot, queue))
            && var again := [SeedOp(Replay(slot, queue).value)];
               && Queue(again, key) && Replay(slot, again).Some?
               && ViewOf(Replay(slot, again)) == ViewOf(Replay(slot, queue)) != Absent
               && !KeepsEveryField(slot, Replay(slot, again))
               && ViewOf(Apply(slot, SeedOp(Replay(slot, again).value)).row) == Absent
  {
    BornThenCleared(key);
    SeedOfCleared(key);
    SeedOverBuried(key);
  }
}
