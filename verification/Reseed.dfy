/** Recovery from a wiped server when the queue has been compacted: the client pushes the seed of the net row,
    the writes made since, and then the seed of the row it had cached
    (crates/doc/src/registry.rs, lines 371-425 and 472-533). */
module Reseed {
  import opened Hlc
  import opened Merge
  import opened Options
  import opened Compaction
  import opened Recovery
  import opened Arrival

  /** `row` is cached, `net` is what a compaction made of the ops queued on it, and `more` are local writes
      behind that. */
  ghost predicate CompactedQueue(row: Row, net: Row, more: seq<RowOp>, key: Key) {
    && WellFormedSlot(Some(row), key) && WellFormedSlot(Some(net), key) && Descends(row, net)
    && LocalWrites(Some(net), more, key) && LocalWrites(Some(row), more, key)
    && (net.deleted ==> net.delHlc.value > SeedClock())
  }

  // ── the last writes of such a queue ────────────────────────────────────────

  /** What the run writes last is newer than what the row has, or the same. */
  ghost predicate Updates(row: Row, ops: seq<RowOp>, k: string)
    requires k in row.clocks
  {
    var w := LastWrite(ops, k);
    w.Some? ==> w.value.at > row.clocks[k] ||
                (w.value.at == row.clocks[k] && Get(row.fields, k) == Stored(w.value.value))
  }

  /** On a live cached row the queue writes nothing older than what it has there. */
  lemma NothingOlder(row: Row, net: Row, more: seq<RowOp>, key: Key, k: string)
    requires CompactedQueue(row, net, more, key) && !row.deleted && !net.deleted && k in row.clocks
    ensures Updates(row, [SeedOp(net)] + more, k)
  {
    var seed := SeedOp(net);
    LastWriteConcat([seed], more, k);
    if LastWrite(more, k).Some? {
      LocalInTurn(Some(row), more, key);
      LastWriteAbove(more, k);
      assert more[0] in more;
    } else {
      LastWriteSnoc([], seed, k);
      assert [] + [seed] == [seed];
      if k in net.fields {
        assert net.fields[k] in net.fields.Values;
      }
    }
  }

  // ── no delete queued, the cached row live ──────────────────────────────────

  /** What the empty server builds, what it finds once the cached row's seed has come, and what the client keeps. */
  lemma LiveRowIsRebuilt(row: Row, net: Row, more: seq<RowOp>, key: Key)
    requires CompactedQueue(row, net, more, key) && !row.deleted && !net.deleted && !HasDelete(more)
    ensures var ops := [SeedOp(net)] + more;
            && Replay(Some(row), ops).Some?
            && ViewOf(Recovered(row, ops)) == ViewOf(Replay(Some(row), ops))
            && Apply(Replay(Some(row), ops), SeedOp(row)) == Applied(Replay(Some(row), ops), false)
  {
    var ops := [SeedOp(net)] + more;
    SeedThenWrites(Some(row), net, more, key);
    NoDeletes(net, more);
    AllLaid(row, ops);
    BuiltFromSeed(net, more, key);
    var wiped, kept := Replay(None, ops).value, Replay(Some(row), ops).value;
    forall k | k in row.clocks ensures Updates(row, ops, k) {
      NothingOlder(row, net, more, key, k);
    }
    FoundIsKept(row, ops, wiped, kept);
  }

  lemma NoDeletes(net: Row, more: seq<RowOp>)
    requires !net.deleted && !HasDelete(more)
    ensures !HasDelete([SeedOp(net)] + more)
  {
    var ops := [SeedOp(net)] + more;
    assert forall op <- ops :: op == SeedOp(net) || op in more;
  }

  lemma BuiltFromSeed(net: Row, more: seq<RowOp>, key: Key)
    requires WellFormedSlot(Some(net), key) && !net.deleted && LocalWrites(Some(net), more, key) && !HasDelete(more)
    ensures var ops := [SeedOp(net)] + more;
            && Replay(None, ops).Some? && WellFormed(Replay(None, ops).value)
            && Laid(Fresh(key), ops, Replay(None, ops).value)
  {
    var ops := [SeedOp(net)] + more;
    SeedThenWrites(None, net, more, key);
    NoDeletes(net, more);
    RevivedIsLaid(None, ops, key);
    assert RevivesAt(ops, None) == 0 && ops[0..] == ops;
  }

  lemma FoundIsKept(row: Row, ops: seq<RowOp>, wiped: Row, kept: Row)
    requires WellFormed(row) && !row.deleted && WellFormed(wiped) && WellFormed(kept)
    requires Laid(Fresh(row.key), ops, wiped) && Laid(row, ops, kept)
    requires forall k | k in row.clocks :: Updates(row, ops, k)
    ensures ViewOf(Apply(Some(wiped), SeedOp(row)).row) == ViewOf(Some(kept))
    ensures Apply(Some(kept), SeedOp(row)) == Applied(Some(kept), false)
  {
    var seed := SeedOp(row);
    LiveRowsMerge(wiped, seed);
    ApplyKeepsWellFormed(Some(wiped), seed);
    var found := Merged(wiped, seed);
    ViewsAgree(found, kept);
    forall k
      ensures AgreeAt(found, kept, k)
      ensures k in row.fields ==> k in kept.clocks && kept.clocks[k] >= row.clocks[k]
    {
      FoundAtField(row, ops, wiped, kept, k);
    }
    OldSeedDoesNothing(row, kept);
  }

  lemma FoundAtField(row: Row, ops: seq<RowOp>, wiped: Row, kept: Row, k: string)
    requires WellFormed(row) && !row.deleted && WellFormed(wiped) && WellFormed(kept)
    requires LaidAt(Fresh(row.key), ops, wiped, k) && LaidAt(row, ops, kept, k)
    requires k in row.clocks ==> Updates(row, ops, k)
    ensures var found := Merged(wiped, SeedOp(row));
            AgreeAt(found, kept, k)
    ensures k in row.fields ==> k in kept.clocks && kept.clocks[k] >= row.clocks[k]
  {
    SeedLaidAt(wiped, row, k);
    assert k in kept.clocks <==> Get(kept.clocks, k).Some?;
  }

  // ── no delete queued, the cached row deleted ───────────────────────────────

  ghost predicate WritesFrom(ops: seq<RowOp>, h: Clock) {
    exists k :: LastWrite(ops, k).Some? && LastWrite(ops, k).value.at >= h
  }

  /** What the run last shows at `k`, if anything, its tail writes. */
  ghost predicate WrittenByTail(ops: seq<RowOp>, tail: seq<RowOp>, k: string) {
    LastWrite(ops, k).Some? && LastWrite(ops, k).value.value != Null ==> LastWrite(tail, k) == LastWrite(ops, k)
  }

  /** The queue brings the row back on an empty server, where the cached tombstone follows it, exactly as it does
      over that tombstone: neither does; or both, and what is shown was written where the tombstone lets it. */
  ghost predicate RevivesAlike(ops: seq<RowOp>, h: Clock) {
    var tail := Reviving(ops, Some(h));
    if tail == [] then !WritesFrom(ops, h)
    else WritesFrom(ops, h) && forall k :: WrittenByTail(ops, tail, k)
  }

  lemma DeadRowIsRebuilt(row: Row, net: Row, more: seq<RowOp>, key: Key)
    requires CompactedQueue(row, net, more, key) && row.deleted && !net.deleted && !HasDelete(more)
    ensures var ops := [SeedOp(net)] + more;
            && Replay(Some(row), ops).Some?
            && (ViewOf(Recovered(row, ops)) == ViewOf(Replay(Some(row), ops)) <==> RevivesAlike(ops, row.delHlc.value))
            && Apply(Replay(Some(row), ops), SeedOp(row)) == Applied(Replay(Some(row), ops), false)
  {
    var ops := [SeedOp(net)] + more;
    SeedThenWrites(Some(row), net, more, key);
    NoDeletes(net, more);
    RevivedIsLaid(Some(row), ops, key);
    BuiltFromSeed(net, more, key);
    var wiped, kept := Replay(None, ops).value, Replay(Some(row), ops).value;
    OldTombstoneDoesNothing(row, kept);
    TombstoneOverBuilt(row, ops, wiped);
    var tail := Reviving(ops, row.delHlc);
    if tail != [] && WritesFrom(ops, row.delHlc.value) {
      SameRevival(Fresh(key), Blank(Some(row), key), ops, tail, wiped, kept);
    }
  }

  lemma OldTombstoneDoesNothing(row: Row, kept: Row)
    requires WellFormed(row) && row.deleted && kept.delHlc.Some? && kept.delHlc.value >= row.delHlc.value
    ensures Apply(Some(kept), SeedOp(row)) == Applied(Some(kept), false)
  {
    MaxClockMeaning(kept, MaxClockOf(kept), row.delHlc.value);
  }

  lemma TombstoneOverBuilt(row: Row, ops: seq<RowOp>, wiped: Row)
    requires WellFormed(row) && row.deleted && WellFormed(wiped) && Laid(Fresh(row.key), ops, wiped)
    ensures var found := Apply(Some(wiped), SeedOp(row)).row;
            if WritesFrom(ops, row.delHlc.value) then found == Some(wiped) else ViewOf(found) == Absent
  {
    var h := row.delHlc.value;
    MaxClockMeaning(wiped, MaxClockOf(wiped), h);
    forall k ensures k in wiped.clocks <==> LastWrite(ops, k).Some?
             ensures k in wiped.clocks ==> wiped.clocks[k] == LastWrite(ops, k).value.at {
      assert LaidAt(Fresh(row.key), ops, wiped, k);
      assert k in wiped.clocks <==> Get(wiped.clocks, k).Some?;
    }
    if WritesFrom(ops, h) {
      var k :| LastWrite(ops, k).Some? && LastWrite(ops, k).value.at >= h;
      assert k in wiped.clocks && wiped.clocks[k] >= h;
    }
  }

  lemma SameRevival(x: Row, y: Row, ops: seq<RowOp>, tail: seq<RowOp>, wiped: Row, kept: Row)
    requires x.fields == y.fields == map[] && x.clocks == y.clocks == map[] && x.key == y.key
    requires WellFormed(wiped) && WellFormed(kept) && Laid(x, ops, wiped) && Laid(y, tail, kept)
    requires exists m :: 0 <= m <= |ops| && tail == ops[m..]
    ensures ViewOf(Some(wiped)) == ViewOf(Some(kept)) <==> forall k :: WrittenByTail(ops, tail, k)
  {
    var m :| 0 <= m <= |ops| && tail == ops[m..];
    ViewsAgree(wiped, kept);
    forall k
      ensures AgreeAt(wiped, kept, k) <==> WrittenByTail(ops, tail, k)
    {
      LastWriteOfTail(ops, m, k);
      assert LaidAt(x, ops, wiped, k) && LaidAt(y, tail, kept, k);
    }
  }

  lemma LastWriteOfTail(ops: seq<RowOp>, m: nat, k: string)
    requires m <= |ops|
    ensures LastWrite(ops[m..], k).Some? ==> LastWrite(ops, k) == LastWrite(ops[m..], k)
  {
    assert ops == ops[..m] + ops[m..];
    LastWriteConcat(ops[..m], ops[m..], k);
  }

  // ── a delete queued ────────────────────────────────────────────────────────

  /** Local writes behind a row whose newest stamp is `top`, all newer than the old row `slot`. */
  ghost predicate Behind(rest: seq<RowOp>, slot: Option<Row>, top: Clock, key: Key) {
    && AllOn(rest, key)
    && (forall op <- rest :: op.clocks.None? && op.hlc > top && op.hlc > SeedClock())
    && (forall op <- rest :: slot.Some? ==> NewerThanAll(op.hlc, slot.value))
    && forall i, j :: 0 <= i < j < |rest| ==> rest[i].hlc < rest[j].hlc
  }

  function TopOf(rest: seq<RowOp>, top: Clock): Clock {
    if rest == [] then top else rest[|rest| - 1].hlc
  }

  lemma BehindPrefix(init: seq<RowOp>, last: RowOp, slot: Option<Row>, top: Clock, key: Key)
    requires Behind(init + [last], slot, top, key)
    ensures Behind(init, slot, top, key) && last.key == key && last.clocks.None?
    ensures last.hlc > TopOf(init, top) && last.hlc > SeedClock() && (slot.Some? ==> NewerThanAll(last.hlc, slot.value))
  {
    var rest := init + [last];
    assert last in rest && rest[|init|] == last;
    assert forall op <- init :: op in rest;
    assert forall i :: 0 <= i < |init| ==> rest[i] == init[i];
  }

  lemma {:induction false} BetweenRun(built: Row, slot: Option<Row>, top: Clock, rest: seq<RowOp>)
    requires WellFormed(built) && AllBetween(built, slot, top) && Behind(rest, slot, top, built.key)
    ensures var now := Replay(Some(built), rest);
            WellFormedSlot(now, built.key) && now.Some? && AllBetween(now.value, slot, TopOf(rest, top))
    decreases |rest|
  {
    if rest != [] {
      var init, last := rest[..|rest| - 1], rest[|rest| - 1];
      assert rest == init + [last];
      BehindPrefix(init, last, slot, top, built.key);
      BetweenRun(built, slot, top, init);
      ReplaySnoc(Some(built), init, last);
      BetweenStep(Replay(Some(built), init).value, slot, TopOf(init, top), last);
      ApplyKeepsWellFormed(Replay(Some(built), init), last);
    }
  }

  /** The last delete, and what is behind it. */
  lemma BuiltBehindDelete(row: Row, ops: seq<RowOp>, key: Key)
    requires WellFormedSlot(Some(row), key) && AllOn(ops, key) && InTurn(ops) && UpToDelete(ops) > 0
    requires var h := ops[UpToDelete(ops) - 1].hlc; h > SeedClock() && NewerThanAll(h, row)
    ensures Replay(None, ops).Some? && WellFormedSlot(Replay(None, ops), key)
    ensures AllBetween(Replay(None, ops).value, Some(row), ops[|ops| - 1].hlc)
  {
    var init, h, rest := CutAtDelete(ops, key);
    Lands(None, ops, key);
    RestIsBehind(row, ops, UpToDelete(ops), key);
    ReplayConcat(None, init, rest);
    BetweenRun(Replay(None, init).value, Some(row), h, rest);
  }

  lemma RestIsBehind(row: Row, ops: seq<RowOp>, n: nat, key: Key)
    requires AllOn(ops, key) && InTurn(ops) && 0 < n <= |ops| && ops[n - 1].hlc > SeedClock() &&
             NewerThanAll(ops[n - 1].hlc, row)
    ensures Behind(ops[n..], Some(row), ops[n - 1].hlc, key) && TopOf(ops[n..], ops[n - 1].hlc) == ops[|ops| - 1].hlc
  {
    var rest := ops[n..];
    forall op | op in rest
      ensures op.key == key && op.clocks.None? && op.hlc > ops[n - 1].hlc
    {
      var i :| n <= i < |ops| && ops[i] == op;
      assert op in ops;
    }
  }

  lemma {:induction false} HasDeleteAt(ops: seq<RowOp>)
    ensures UpToDelete(ops) > 0 <==> HasDelete(ops)
  {
    if HasDelete(ops) {
      var op :| op in ops && op.op == Delete;
      var i :| 0 <= i < |ops| && ops[i] == op;
    }
    if UpToDelete(ops) > 0 {
      assert ops[UpToDelete(ops) - 1] in ops;
    }
  }

  lemma DeleteIsNewer(row: Row, net: Row, more: seq<RowOp>, key: Key) returns (h: Clock)
    requires CompactedQueue(row, net, more, key) && UpToDelete([SeedOp(net)] + more) > 0
    ensures var ops := [SeedOp(net)] + more; h == ops[UpToDelete(ops) - 1].hlc
    ensures h > SeedClock() && if row.deleted then h >= row.delHlc.value else NewerThanAll(h, row)
  {
    var ops := [SeedOp(net)] + more;
    h := ops[UpToDelete(ops) - 1].hlc;
    DeletesBehindSeed(SeedOp(net), more);
    SeedStamp(net, "");
  }

  lemma {:induction false} DeleteStays(row: Row, ops: seq<RowOp>)
    requires row.delHlc.Some?
    ensures Replay(Some(row), ops).Some? && Replay(Some(row), ops).value.delHlc.Some?
    ensures Replay(Some(row), ops).value.delHlc.value >= row.delHlc.value
    decreases |ops|
  {
    if ops != [] {
      MaxClockMeaning(row, MaxClockOf(row), ops[0].hlc);
      DeleteStays(Apply(Some(row), ops[0]).row.value, ops[1..]);
    }
  }

  /** Wherever the last delete lands, its time stays on the row. */
  lemma LandedStays(slot: Option<Row>, ops: seq<RowOp>, key: Key)
    requires WellFormedSlot(slot, key) && AllOn(ops, key) && InTurn(ops) && DeleteLands(slot, ops)
    ensures Replay(slot, ops).Some? && Replay(slot, ops).value.delHlc.Some?
    ensures Replay(slot, ops).value.delHlc.value >= ops[UpToDelete(ops) - 1].hlc
  {
    var n := UpToDelete(ops);
    Lands(slot, ops, key);
    assert ops == ops[..n] + ops[n..];
    ReplayConcat(slot, ops[..n], ops[n..]);
    DeleteStays(Replay(slot, ops[..n]).value, ops[n..]);
  }

  lemma DeletedRowIsRebuilt(row: Row, net: Row, more: seq<RowOp>, key: Key)
    requires CompactedQueue(row, net, more, key) && HasDelete([SeedOp(net)] + more)
    ensures var ops := [SeedOp(net)] + more;
            && Replay(Some(row), ops).Some?
            && ViewOf(Recovered(row, ops)) == ViewOf(Apply(Replay(Some(row), ops), SeedOp(row)).row)
            && (ViewOf(Recovered(row, ops)) == ViewOf(Replay(Some(row), ops)) <==>
                RewritesEveryField(row, ops, Replay(Some(row), ops)))
  {
    var ops := [SeedOp(net)] + more;
    SeedThenWrites(Some(row), net, more, key);
    HasDeleteAt(ops);
    LandedAlike(Some(row), None, ops, key);
    ReplayKeepsWellFormed(None, ops, key);
    var wiped, kept := Replay(None, ops).value, Replay(Some(row), ops).value;
    var h := DeleteIsNewer(row, net, more, key);
    LandedStays(None, ops, key);
    if row.deleted {
      OldTombstoneDoesNothing(row, wiped);
      OldTombstoneDoesNothing(row, kept);
    } else {
      BuiltBehindDelete(row, ops, key);
      SeedAfterDelete(row, ops, wiped, kept);
    }
  }

  // ── recovery, whatever is queued ───────────────────────────────────────────

  /** What the queue starts with is not missed: the cached row is live, or a delete is queued, or the cached
      tombstone lets the queue bring back the same. */
  ghost predicate SeedSurvives(row: Row, ops: seq<RowOp>)
    requires WellFormed(row)
  {
    !row.deleted || HasDelete(ops) || RevivesAlike(ops, row.delHlc.value)
  }

  /** A wiped server is rebuilt row by row from a compacted queue. The server and the client agree on the row
      afterwards exactly when `SeedSurvives`; and it is the row the client showed before the wipe exactly if,
      besides, a queued delete left no old field for the cached row's seed to bring back. Updates are no longer
      lost: compaction has put the row in front of them. */
  lemma CompactedIsRebuilt(row: Row, net: Row, more: seq<RowOp>, key: Key)
    requires CompactedQueue(row, net, more, key)
    ensures var ops := [SeedOp(net)] + more;
            && (ViewOf(Recovered(row, ops)) == ViewOf(Replay(Some(row), ops + [SeedOp(row)])) <==> SeedSurvives(row, ops))
            && (ViewOf(Recovered(row, ops)) == ViewOf(Replay(Some(row), ops)) <==>
                SeedSurvives(row, ops) && RewritesEveryField(row, ops, Replay(Some(row), ops)))
  {
    var ops := [SeedOp(net)] + more;
    ReplaySnoc(Some(row), ops, SeedOp(row));
    if HasDelete(ops) {
      DeletedRowIsRebuilt(row, net, more, key);
    } else {
      assert SeedOp(net) in ops && forall op <- more :: op in ops;
      if row.deleted {
        DeadRowIsRebuilt(row, net, more, key);
      } else {
        LiveRowIsRebuilt(row, net, more, key);
      }
    }
  }

  /** Compaction that no reader sees can cost the row on a wiped server: the queue itself would have rebuilt it,
      but its seed carries no field, so the cached tombstone buries what the seed has built. */
  lemma CompactionCostsRecovery(key: Key)
    ensures var row, queue := Buried2(key), [BornAt3(key), ClearedAt5(key)];
            var net := Replay(Some(row), queue);
            && net.Some? && WellFormed(net.value) && HoldsUp(Some(row), net.value)
            && ViewOf(Recovered(row, queue)) == ViewOf(net) != Absent
            && ViewOf(Recovered(row, [SeedOp(net.value)])) == Absent
  {
    BornThenCleared(key);
    SeedOfCleared(key);
    BuiltFromBirth(key);
    var row, seed := Buried2(key), SeedOp(Empty2(key, map["t" := 5.0]));
    ReplayThree(None, seed, seed, seed);
    var built := Merged(Fresh(key), seed);
    assert built.clocks == map[] && built.fields == map[];
    MaxClockMeaning(built, MaxClockOf(built), 2.0);
  }

  lemma BuiltFromBirth(key: Key)
    ensures var built := Row(key, 0, false, None, map[], map["t" := 5.0]);
            && Replay(None, [BornAt3(key), ClearedAt5(key)]) == Some(built)
            && Apply(Some(built), SeedOp(Buried2(key))) == Applied(Some(built), false)
  {
    var born, clear := BornAt3(key), ClearedAt5(key);
    ReplayThree(None, born, clear, clear);
    var up := Merged(Fresh(key), born);
    assert Wins(Fresh(key), born, "t") && up.clocks == map["t" := 3.0];
    assert Wins(up, clear, "t");
    var built := Merged(up, clear);
    assert built.fields == map[] && built.clocks == map["t" := 5.0];
    assert "t" in built.clocks;
    MaxClockMeaning(built, MaxClockOf(built), 2.0);
  }
}
