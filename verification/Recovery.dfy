/** Recovery from a wiped server: the client pushes what it had queued and then one seed op per row it
    knows (crates/doc/src/registry.rs, lines 472-533 over 254-284). */
module Recovery {
  import opened Hlc
  import opened Merge
  import opened Options

  /** Local writes on one row: no clock overrides, rising stamps, all newer than the row they are made on
      and than the stamp of a clockless seed. */
  ghost predicate LocalWrites(slot: Option<Row>, ops: seq<RowOp>, key: Key) {
    && AllOn(ops, key)
    && (forall op <- ops :: op.clocks.None? && CarriesClock(op) && op.hlc > SeedClock())
    && (forall op <- ops :: slot.Some? ==> NewerThanAll(op.hlc, slot.value))
    && (forall i, j :: 0 <= i < j < |ops| ==> ops[i].hlc < ops[j].hlc)
  }

  /** The seed stamp is the clock of time zero; any clock read at a positive time is newer. */
  lemma LiveStampsBeatSeed(ms: nat, counter: nat, device: string)
    requires 0 < ms < MS_LIMIT && counter < COUNTER_LIMIT
    ensures Rank(EncodeHlc(ms, counter, device)) > SeedClock()
  {
    EncodeOrder(0, 0, "seed", ms, counter, device);
  }

  ghost predicate HasDelete(ops: seq<RowOp>) {
    exists op <- ops :: op.op == Delete
  }

  /** `c` is newer than the old row `slot` and than the seed stamp, and at most `top`. */
  ghost predicate InRange(c: Clock, slot: Option<Row>, top: Clock) {
    SeedClock() < c <= top && (slot.Some? ==> NewerThanAll(c, slot.value))
  }

  ghost predicate AllBetween(row: Row, slot: Option<Row>, top: Clock) {
    && (forall k <- row.clocks :: InRange(row.clocks[k], slot, top))
    && (row.delHlc.Some? ==> InRange(row.delHlc.value, slot, top))
  }

  /** At field `k`, `kept` holds what `wiped` holds, or else what the live old row holds. */
  ghost predicate ParallelAt(slot: Option<Row>, wiped: Row, kept: Row, k: string) {
    if k in wiped.clocks then
      Get(kept.clocks, k) == Some(wiped.clocks[k]) && Get(kept.fields, k) == Get(wiped.fields, k)
    else if slot.Some? && !slot.value.deleted then
      Get(kept.clocks, k) == Get(slot.value.clocks, k) && Get(kept.fields, k) == Get(slot.value.fields, k)
    else k !in kept.clocks && k !in kept.fields
  }

  /** `wiped` is the row the ops build on an empty server, `kept` the row they build over the live or
      missing or deleted row `slot`; no delete has been seen yet. */
  ghost predicate Parallel(slot: Option<Row>, wiped: Row, kept: Row) {
    && !wiped.deleted && !kept.deleted && wiped.delHlc.None? && wiped.clocks.Keys != {}
    && kept.delHlc == (if slot.Some? then slot.value.delHlc else None)
    && forall k :: ParallelAt(slot, wiped, kept, k)
  }

  /** Once a delete has passed, the two rows agree on everything but their sequence number. */
  ghost predicate Twins(wiped: Row, kept: Row) {
    SameContent(Some(kept), Some(wiped))
  }

  ghost predicate Related(slot: Option<Row>, ops: seq<RowOp>, wiped: Option<Row>, kept: Option<Row>)
    requires ops != []
  {
    && wiped.Some? && kept.Some?
    && WellFormed(wiped.value) && WellFormed(kept.value)
    && AllBetween(wiped.value, slot, ops[|ops| - 1].hlc)
    && if HasDelete(ops) then Twins(wiped.value, kept.value) && wiped.value.delHlc.Some?
       else Parallel(slot, wiped.value, kept.value)
  }

  /** A newer local write on any row keeps its clocks in range, with the write's stamp as the new top. */
  lemma BetweenStep(row: Row, slot: Option<Row>, top: Clock, op: RowOp)
    requires WellFormed(row) && AllBetween(row, slot, top)
    requires op.clocks.None? && op.hlc > top && op.hlc > SeedClock()
    requires slot.Some? ==> NewerThanAll(op.hlc, slot.value)
    ensures AllBetween(Apply(Some(row), op).row.value, slot, op.hlc)
    ensures NewerThanAll(op.hlc, row)
  {
    MaxClockMeaning(row, MaxClockOf(row), op.hlc);
    var next := Apply(Some(row), op).row.value;
    assert InRange(op.hlc, slot, op.hlc);
    forall c | InRange(c, slot, top) ensures InRange(c, slot, op.hlc) && op.hlc > c {}
    if op.op != Delete && !row.deleted {
      LiveRowsMerge(row, op);
    }
    forall k | k in next.clocks ensures InRange(next.clocks[k], slot, op.hlc) {
      if next != row && op.op != Delete {
        var base := if row.deleted then Revived(row) else row;
        assert next == Merged(base, op);
        MergedAt(base, op, k);
        assert Get(next.clocks, k) == Some(next.clocks[k]);
      }
    }
  }

  lemma FirstOp(slot: Option<Row>, op: RowOp, key: Key)
    requires WellFormedSlot(slot, key) && LocalWrites(slot, [op], key) && op.op != Update
    ensures Related(slot, [op], Apply(None, op).row, Apply(slot, op).row)
  {
    assert op in [op];
    ApplyKeepsWellFormed(None, op);
    ApplyKeepsWellFormed(slot, op);
    if slot.Some? {
      MaxClockMeaning(slot.value, MaxClockOf(slot.value), op.hlc);
    }
    if op.op == Upsert {
      assert !HasDelete([op]);
      FirstUpsert(slot, op, key);
    } else {
      assert HasDelete([op]);
    }
  }

  lemma FirstUpsert(slot: Option<Row>, op: RowOp, key: Key)
    requires WellFormedSlot(slot, key) && op.key == key && op.op == Upsert && op.clocks.None? && CarriesClock(op)
    requires slot.Some? ==> NewerThanAll(op.hlc, slot.value)
    ensures Apply(None, op).row.Some? && Apply(slot, op).row.Some?
    ensures Parallel(slot, Apply(None, op).row.value, Apply(slot, op).row.value)
  {
    var base := if slot.None? then Fresh(key) else if slot.value.deleted then Revived(slot.value) else slot.value;
    if slot.Some? && !slot.value.deleted {
      LiveRowsMerge(slot.value, op);
    }
    var wiped, kept := Apply(None, op).row.value, Apply(slot, op).row.value;
    assert wiped == Merged(Fresh(key), op) && kept == Merged(base, op);
    forall k
      ensures k in wiped.clocks <==> k in op.Set()
      ensures k in op.Set() ==> Get(kept.clocks, k) == Get(wiped.clocks, k) && Get(kept.fields, k) == Get(wiped.fields, k)
      ensures k !in op.Set() ==> Get(kept.clocks, k) == Get(base.clocks, k) && Get(kept.fields, k) == Get(base.fields, k)
    {
      MergedAt(Fresh(key), op, k);
      MergedAt(base, op, k);
      assert k in wiped.clocks <==> Get(wiped.clocks, k).Some?;
    }
    forall k ensures ParallelAt(slot, wiped, kept, k) {}
    var j :| j in op.Set();
    assert j in wiped.clocks.Keys;
  }

  lemma NextOp(slot: Option<Row>, ops: seq<RowOp>, op: RowOp, wiped: Row, kept: Row, key: Key)
    requires WellFormedSlot(slot, key) && ops != [] && LocalWrites(slot, ops + [op], key)
    requires wiped.key == key && kept.key == key
    requires Related(slot, ops, Some(wiped), Some(kept))
    ensures Related(slot, ops + [op], Apply(Some(wiped), op).row, Apply(Some(kept), op).row)
  {
    var all := ops + [op];
    assert op in all && all[|ops| - 1] == ops[|ops| - 1] && all[|ops|] == op && all[|all| - 1] == op;
    assert HasDelete(all) <==> HasDelete(ops) || op.op == Delete by {
      assert forall o <- all :: o in ops || o == op;
      assert forall o <- ops :: o in all;
    }
    var top := ops[|ops| - 1].hlc;
    assert op.hlc > top;
    ApplyKeepsWellFormed(Some(wiped), op);
    ApplyKeepsWellFormed(Some(kept), op);
    BetweenStep(wiped, slot, top, op);
    if HasDelete(ops) {
      TwinsStep(wiped, kept, op);
    } else {
      ParallelStep(slot, top, op, wiped, kept);
    }
  }

  lemma TwinsStep(wiped: Row, kept: Row, op: RowOp)
    requires WellFormed(wiped) && Twins(wiped, kept) && wiped.delHlc.Some?
    ensures var next := Apply(Some(wiped), op).row.value;
            Twins(next, Apply(Some(kept), op).row.value) && next.delHlc.Some?
  {
    ApplyIgnoresVersion(Some(kept), Some(wiped), op);
  }

  lemma ParallelIsOlder(slot: Option<Row>, top: Clock, h: Clock, wiped: Row, kept: Row)
    requires Parallel(slot, wiped, kept) && AllBetween(wiped, slot, top)
    requires h > top && (slot.Some? ==> NewerThanAll(h, slot.value))
    ensures NewerThanAll(h, wiped) && NewerThanAll(h, kept)
  {
    forall k | k in wiped.clocks ensures h > wiped.clocks[k] {
      assert InRange(wiped.clocks[k], slot, top);
    }
    forall k | k in kept.clocks ensures h > kept.clocks[k] {
      assert ParallelAt(slot, wiped, kept, k);
      assert Get(kept.clocks, k) == Some(kept.clocks[k]);
    }
  }

  lemma ParallelStep(slot: Option<Row>, top: Clock, op: RowOp, wiped: Row, kept: Row)
    requires WellFormed(wiped) && WellFormed(kept) && wiped.key == kept.key
    requires Parallel(slot, wiped, kept) && AllBetween(wiped, slot, top)
    requires op.clocks.None? && op.hlc > top && (slot.Some? ==> NewerThanAll(op.hlc, slot.value))
    ensures var w, k := Apply(Some(wiped), op).row.value, Apply(Some(kept), op).row.value;
            if op.op == Delete then Twins(w, k) && w.delHlc.Some? else Parallel(slot, w, k)
  {
    ParallelIsOlder(slot, top, op.hlc, wiped, kept);
    if op.op == Delete {
      MaxClockMeaning(wiped, MaxClockOf(wiped), op.hlc);
      MaxClockMeaning(kept, MaxClockOf(kept), op.hlc);
    } else {
      LiveRowsMerge(wiped, op);
      LiveRowsMerge(kept, op);
      forall k ensures ParallelAt(slot, Merged(wiped, op), Merged(kept, op), k) {
        ParallelMerge(slot, op, wiped, kept, k);
      }
      assert wiped.clocks.Keys <= Merged(wiped, op).clocks.Keys;
    }
  }

  lemma ParallelMerge(slot: Option<Row>, op: RowOp, wiped: Row, kept: Row, k: string)
    requires ParallelAt(slot, wiped, kept, k)
    requires op.clocks.None? && NewerThanAll(op.hlc, wiped) && NewerThanAll(op.hlc, kept)
    ensures ParallelAt(slot, Merged(wiped, op), Merged(kept, op), k)
  {
    MergedAt(wiped, op, k);
    MergedAt(kept, op, k);
    var w, q := Merged(wiped, op), Merged(kept, op);
    assert k in w.clocks <==> Get(w.clocks, k).Some?;
    assert k in op.Set() ==> Wins(wiped, op, k) && Wins(kept, op, k);
  }

  lemma {:induction false} RunsStayRelated(slot: Option<Row>, ops: seq<RowOp>, key: Key)
    requires WellFormedSlot(slot, key) && LocalWrites(slot, ops, key)
    requires ops != [] && ops[0].op != Update
    ensures Related(slot, ops, Replay(None, ops), Replay(slot, ops))
    decreases |ops|
  {
    var init, last := ops[..|ops| - 1], ops[|ops| - 1];
    assert ops == init + [last];
    ReplaySnoc(None, init, last);
    ReplaySnoc(slot, init, last);
    if init == [] {
      assert ops == [last];
      FirstOp(slot, last, key);
    } else {
      LocalPrefix(slot, init, last, key);
      RunsStayRelated(slot, init, key);
      ReplayKeepsWellFormed(None, init, key);
      ReplayKeepsWellFormed(slot, init, key);
      NextOp(slot, init, last, Replay(None, init).value, Replay(slot, init).value, key);
    }
  }

  lemma LocalPrefix(slot: Option<Row>, init: seq<RowOp>, last: RowOp, key: Key)
    requires LocalWrites(slot, init + [last], key)
    ensures LocalWrites(slot, init, key)
  {
    var ops := init + [last];
    assert forall op <- init :: op in ops;
    assert forall i :: 0 <= i < |init| ==> ops[i] == init[i];
  }

  /** The row the wiped server ends up with: the queued ops, then the seed of the row the client knew. */
  ghost function Recovered(row: Row, ops: seq<RowOp>): Option<Row> {
    Apply(Replay(None, ops), SeedOp(row)).row
  }

  /** Nothing the delete of a live row removed is missing from the row written after it. */
  ghost predicate RewritesEveryField(row: Row, ops: seq<RowOp>, kept: Option<Row>) {
    HasDelete(ops) && !row.deleted && kept.Some? && !kept.value.deleted ==>
      row.fields.Keys <= kept.value.clocks.Keys
  }

  lemma SeedIsOlder(row: Row, wiped: Row, top: Clock)
    requires WellFormed(row) && AllBetween(wiped, Some(row), top)
    ensures wiped.delHlc.Some? ==> !Newer(SeedOp(row).hlc, wiped.delHlc)
    ensures forall k | k in SeedOp(row).Set() && k in wiped.clocks :: !Wins(wiped, SeedOp(row), k)
  {
    var m := MaxClockOf(row);
    if !row.deleted && m.Some? && row.delHlc != m {
      var k :| k in row.clocks && row.clocks[k] == m.value;
    }
  }

  // ── updates at the head of the queue ───────────────────────────────────────

  /** How many updates the queue starts with. */
  function Leading(ops: seq<RowOp>): (n: nat)
    ensures n <= |ops|
  {
    if ops == [] || ops[0].op != Update then 0 else 1 + Leading(ops[1..])
  }

  lemma {:induction false} LeadingAre(ops: seq<RowOp>)
    ensures forall i :: 0 <= i < Leading(ops) ==> ops[i].op == Update
    ensures Leading(ops) < |ops| ==> ops[Leading(ops)].op != Update
    decreases |ops|
  {
    if ops != [] && ops[0].op == Update {
      LeadingAre(ops[1..]);
      forall i | 0 <= i < Leading(ops) ensures ops[i].op == Update {
        if i > 0 {
          assert ops[1..][i - 1] == ops[i];
        }
      }
    }
  }

  /** An empty server has no row to put an update on: all that come first are lost. */
  lemma {:induction false} LeadingUpdatesAreLost(ups: seq<RowOp>, rest: seq<RowOp>)
    requires forall op <- ups :: op.op == Update
    ensures Replay(None, ups + rest) == Replay(None, rest)
    decreases |ups|
  {
    if ups == [] {
      assert ups + rest == rest;
    } else {
      assert (ups + rest)[1..] == ups[1..] + rest;
      LeadingUpdatesAreLost(ups[1..], rest);
    }
  }

  ghost predicate Wrote(ops: seq<RowOp>, k: string) {
    exists op <- ops :: k in op.Set()
  }

  /** `now` is `row` with the fields of the updates laid over it, each newer than what it replaced. */
  ghost predicate UpdatesLaid(row: Row, ups: seq<RowOp>, now: Row) {
    && (forall k | k in now.clocks ::
          Get(row.clocks, k) == Some(now.clocks[k]) || exists op <- ups :: now.clocks[k] == op.hlc)
    && (forall k | !Wrote(ups, k) :: Get(now.fields, k) == Get(row.fields, k) && Get(now.clocks, k) == Get(row.clocks, k))
    && (forall k | Wrote(ups, k) :: k in now.clocks && (k in row.clocks ==> now.clocks[k] > row.clocks[k]))
  }

  /** Over a live row, updates leave it live and change just the fields they write. */
  lemma {:induction false} UpdatesOverLive(row: Row, ups: seq<RowOp>, key: Key)
    requires WellFormedSlot(Some(row), key) && !row.deleted && LocalWrites(Some(row), ups, key)
    requires forall op <- ups :: op.op == Update
    ensures var now := Replay(Some(row), ups);
            && now.Some? && WellFormedSlot(now, key) && !now.value.deleted && now.value.delHlc == row.delHlc
            && UpdatesLaid(row, ups, now.value)
  {
    if ups != [] {
      var init, last := ups[..|ups| - 1], ups[|ups| - 1];
      assert ups == init + [last] && last in ups;
      LocalPrefix(Some(row), init, last, key);
      UpdatesOverLive(row, init, key);
      ReplaySnoc(Some(row), init, last);
      var mid := Replay(Some(row), init).value;
      UpdateStep(row, init, last, mid, key);
      LaidMore(row, init, last, mid, Merged(mid, last));
    }
  }

  lemma LaidMore(row: Row, init: seq<RowOp>, last: RowOp, mid: Row, now: Row)
    requires UpdatesLaid(row, init, mid) && NewerThanAll(last.hlc, row)
    requires forall k | k in now.clocks :: Get(mid.clocks, k) == Some(now.clocks[k]) || now.clocks[k] == last.hlc
    requires forall k | k !in last.Set() ::
               Get(now.fields, k) == Get(mid.fields, k) && Get(now.clocks, k) == Get(mid.clocks, k)
    requires forall k | k in last.Set() :: k in now.clocks && now.clocks[k] == last.hlc
    ensures UpdatesLaid(row, init + [last], now)
  {
    var ups := init + [last];
    assert last in ups && forall op <- init :: op in ups;
    forall k ensures Wrote(ups, k) <==> Wrote(init, k) || k in last.Set() {
      WroteMore(init, last, k);
    }
  }

  lemma UpdateStep(row: Row, init: seq<RowOp>, last: RowOp, mid: Row, key: Key)
    requires WellFormedSlot(Some(mid), key) && !mid.deleted && last.op == Update && last.clocks.None? && last.key == key
    requires forall op <- init :: op.hlc < last.hlc
    requires NewerThanAll(last.hlc, row)
    requires forall k | k in mid.clocks ::
               Get(row.clocks, k) == Some(mid.clocks[k]) || exists op <- init :: mid.clocks[k] == op.hlc
    ensures var now := Apply(Some(mid), last).row;
            && now == Some(Merged(mid, last)) && WellFormedSlot(now, key)
            && (forall k | k in now.value.clocks ::
                  Get(mid.clocks, k) == Some(now.value.clocks[k]) || now.value.clocks[k] == last.hlc)
            && (forall k | k !in last.Set() ::
                  Get(now.value.fields, k) == Get(mid.fields, k) && Get(now.value.clocks, k) == Get(mid.clocks, k))
            && (forall k | k in last.Set() :: k in now.value.clocks && now.value.clocks[k] == last.hlc)
  {
    LiveRowsMerge(mid, last);
    ApplyKeepsWellFormed(Some(mid), last);
    forall k
      ensures k in last.Set() ==> Wins(mid, last, k)
      ensures Get(MergedClocks(mid, last), k) == if k in last.Set() then Some(last.hlc) else Get(mid.clocks, k)
      ensures k !in last.Set() ==> Get(MergedFields(mid, last), k) == Get(mid.fields, k)
    {
      MergedAt(mid, last, k);
      if k in last.Set() && k in mid.clocks {
        assert Get(row.clocks, k) == Some(mid.clocks[k]) || exists op <- init :: mid.clocks[k] == op.hlc;
      }
    }
  }

  /** Over a tombstone updates do nothing. */
  lemma {:induction false} UpdatesOverTombstone(row: Row, ups: seq<RowOp>)
    requires row.deleted && forall op <- ups :: op.op == Update
    ensures Replay(Some(row), ups) == Some(row)
    decreases |ups|
  {
    if ups != [] {
      UpdatesOverTombstone(row, ups[1..]);
    }
  }

  /** Behind an upsert and without deletes, a row built from nothing holds exactly the fields written. */
  lemma {:induction false} WrittenIsHeld(slot: Option<Row>, ops: seq<RowOp>, key: Key)
    requires WellFormedSlot(slot, key) && LocalWrites(slot, ops, key)
    requires ops != [] && ops[0].op != Update && !HasDelete(ops)
    ensures Replay(None, ops).Some? && forall k :: k in Replay(None, ops).value.clocks <==> Wrote(ops, k)
    decreases |ops|
  {
    var init, last := ops[..|ops| - 1], ops[|ops| - 1];
    assert ops == init + [last] && last in ops;
    ReplaySnoc(None, init, last);
    if init == [] {
      HeldStep(Fresh(last.key), [], last);
      assert [] + [last] == ops;
    } else {
      var mid := BuiltSoFar(slot, init, last, key);
      WrittenIsHeld(slot, init, key);
      HeldStep(mid, init, last);
    }
  }

  /** The row an empty server has built before the last of such ops, which is laid over it. */
  lemma BuiltSoFar(slot: Option<Row>, init: seq<RowOp>, last: RowOp, key: Key) returns (mid: Row)
    requires WellFormedSlot(slot, key) && LocalWrites(slot, init + [last], key)
    requires init != [] && (init + [last])[0].op != Update && !HasDelete(init + [last])
    ensures LocalWrites(slot, init, key) && init[0].op != Update && !HasDelete(init)
    ensures Replay(None, init) == Some(mid) && Apply(Some(mid), last).row == Some(Merged(mid, last))
    ensures last.clocks.None? && NewerThanAll(last.hlc, mid)
  {
    var ops := init + [last];
    LocalPrefix(slot, init, last, key);
    assert ops[0] == init[0] && ops[|init|] == last && ops[|init| - 1] == init[|init| - 1];
    assert forall op <- init :: op in ops;
    RunsStayRelated(slot, init, key);
    mid := Replay(None, init).value;
    BetweenStep(mid, slot, init[|init| - 1].hlc, last);
    LiveRowsMerge(mid, last);
  }

  lemma HeldStep(mid: Row, init: seq<RowOp>, last: RowOp)
    requires last.clocks.None? && NewerThanAll(last.hlc, mid)
    requires forall k :: k in mid.clocks <==> Wrote(init, k)
    ensures forall k :: k in Merged(mid, last).clocks <==> Wrote(init + [last], k)
  {
    forall k ensures Wrote(init + [last], k) <==> Wrote(init, k) || k in last.Set() {
      WroteMore(init, last, k);
    }
  }

  lemma WroteMore(init: seq<RowOp>, last: RowOp, k: string)
    ensures Wrote(init + [last], k) <==> Wrote(init, k) || k in last.Set()
  {
    var ops := init + [last];
    assert last in ops && forall op <- init :: op in ops;
  }

  // ── recovery, whatever is queued ───────────────────────────────────────────

  function FieldsOf(slot: Option<Row>): map<string, Value> {
    if slot.Some? then slot.value.fields else map[]
  }

  /** The updates the queue starts with are not missed: the old row is gone anyway, or every field they wrote
      is written again behind them or shown neither before nor after them. */
  ghost predicate UpdatesSurvive(row: Row, ops: seq<RowOp>) {
    var n := Leading(ops);
    row.deleted || HasDelete(ops) ||
    forall k :: Wrote(ops[..n], k) ==>
      Wrote(ops[n..], k) || (k !in row.fields && k !in FieldsOf(Replay(Some(row), ops[..n])))
  }

  lemma SliceWrites(slot: Option<Row>, ops: seq<RowOp>, i: nat, j: nat, key: Key)
    requires LocalWrites(slot, ops, key) && i <= j <= |ops|
    ensures LocalWrites(slot, ops[i..j], key)
  {
    var slice := ops[i..j];
    assert forall op <- slice :: op in ops;
    assert forall k :: 0 <= k < |slice| ==> slice[k] == ops[i + k];
  }

  lemma QueueParts(row: Row, ops: seq<RowOp>, key: Key) returns (ups: seq<RowOp>, rest: seq<RowOp>)
    requires LocalWrites(Some(row), ops, key)
    ensures ups == ops[..Leading(ops)] && rest == ops[Leading(ops)..] && ops == ups + rest
    ensures LocalWrites(Some(row), ups, key) && LocalWrites(Some(row), rest, key)
    ensures (forall op <- ups :: op.op == Update) && (rest != [] ==> rest[0].op != Update)
    ensures HasDelete(ops) <==> HasDelete(rest)
    ensures forall a, b :: a in ups && b in rest ==> a.hlc < b.hlc
  {
    var n := Leading(ops);
    ups, rest := SplitAtLeading(ops);
    SliceWrites(Some(row), ops, 0, n, key);
    SliceWrites(Some(row), ops, n, |ops|, key);
    InOrderAcross(ops, n);
  }

  lemma SplitAtLeading(ops: seq<RowOp>) returns (ups: seq<RowOp>, rest: seq<RowOp>)
    ensures ups == ops[..Leading(ops)] && rest == ops[Leading(ops)..] && ops == ups + rest
    ensures (forall op <- ups :: op.op == Update) && (rest != [] ==> rest[0].op != Update)
    ensures HasDelete(ops) <==> HasDelete(rest)
  {
    var n := Leading(ops);
    LeadingAre(ops);
    ups, rest := ops[..n], ops[n..];
    DeletesAreBehind(ups, rest);
  }

  lemma DeletesAreBehind(ups: seq<RowOp>, rest: seq<RowOp>)
    requires forall op <- ups :: op.op == Update
    ensures HasDelete(ups + rest) <==> HasDelete(rest)
  {
    assert forall op <- rest :: op in ups + rest;
  }

  lemma InOrderAcross(ops: seq<RowOp>, n: nat)
    requires n <= |ops| && forall i, j :: 0 <= i < j < |ops| ==> ops[i].hlc < ops[j].hlc
    ensures forall a, b :: a in ops[..n] && b in ops[n..] ==> a.hlc < b.hlc
  {
    forall a, b | a in ops[..n] && b in ops[n..] ensures a.hlc < b.hlc {
      var i :| 0 <= i < n && ops[i] == a;
      var j :| n <= j < |ops| && ops[j] == b;
    }
  }

  /** The row behind the leading updates is itself one that local writes are made on. */
  lemma RestOverUpdated(row: Row, ups: seq<RowOp>, rest: seq<RowOp>, key: Key)
    requires WellFormedSlot(Some(row), key) && !row.deleted
    requires LocalWrites(Some(row), ups, key) && LocalWrites(Some(row), rest, key)
    requires forall op <- ups :: op.op == Update
    requires forall a, b :: a in ups && b in rest ==> a.hlc < b.hlc
    ensures var u := Replay(Some(row), ups);
            u.Some? && WellFormedSlot(u, key) && LocalWrites(u, rest, key)
  {
    UpdatesOverLive(row, ups, key);
    var u := Replay(Some(row), ups).value;
    forall op | op in rest ensures NewerThanAll(op.hlc, u) {
      forall k | k in u.clocks ensures op.hlc > u.clocks[k] {
        if Get(row.clocks, k) != Some(u.clocks[k]) {
          var up :| up in ups && u.clocks[k] == up.hlc;
        }
      }
    }
  }

  /** A live row that holds, field by field, nothing older than `row` is not moved by the seed of `row`. */
  lemma OldSeedDoesNothing(row: Row, kept: Row)
    requires WellFormed(row) && !row.deleted && !kept.deleted
    requires forall k | k in row.fields :: k in kept.clocks && kept.clocks[k] >= row.clocks[k]
    ensures Apply(Some(kept), SeedOp(row)) == Applied(Some(kept), false)
  {
  }

  /** Both rows show the same at `k`, under the same clock. */
  ghost predicate AgreeAt(a: Row, b: Row, k: string) {
    Get(a.fields, k) == Get(b.fields, k) && (k in a.fields ==> Get(a.clocks, k) == Get(b.clocks, k))
  }

  lemma ViewsAgree(a: Row, b: Row)
    requires WellFormed(a) && WellFormed(b) && a.key == b.key && !a.deleted && !b.deleted
    ensures ViewOf(Some(a)) == ViewOf(Some(b)) <==>
            forall k :: AgreeAt(a, b, k)
  {
    if forall k :: AgreeAt(a, b, k) {
      forall k ensures Get(a.fields, k) == Get(b.fields, k) && (k in a.fields ==> Get(a.clocks, k) == Get(b.clocks, k)) {
        assert AgreeAt(a, b, k);
      }
      SameMap(a.fields, b.fields);
      SameView(a, b);
    } else if ViewOf(Some(a)) == ViewOf(Some(b)) {
      forall k ensures AgreeAt(a, b, k) {
        if k in a.fields {
          assert ViewOf(Some(a)).clocks[k] == ViewOf(Some(b)).clocks[k];
        }
      }
    }
  }

  /** `found` is `row`, or what was written behind the updates laid over it; `kept` is the same over `u`. */
  ghost predicate FoundAt(row: Row, u: Row, rest: seq<RowOp>, found: Row, kept: Row, k: string) {
    if Wrote(rest, k) then Get(found.fields, k) == Get(kept.fields, k) && Get(found.clocks, k) == Get(kept.clocks, k)
    else
      && Get(found.fields, k) == Get(row.fields, k) && (k in row.fields ==> Get(found.clocks, k) == Get(row.clocks, k))
      && Get(kept.fields, k) == Get(u.fields, k) && Get(kept.clocks, k) == Get(u.clocks, k)
  }

  lemma MissedUpdates(row: Row, ups: seq<RowOp>, rest: seq<RowOp>, u: Row, found: Row, kept: Row, key: Key)
    requires WellFormedSlot(Some(row), key) && !row.deleted && LocalWrites(Some(row), ups, key)
    requires (forall op <- ups :: op.op == Update) && Replay(Some(row), ups) == Some(u)
    requires WellFormedSlot(Some(found), key) && WellFormedSlot(Some(kept), key) && !found.deleted && !kept.deleted
    requires forall k :: FoundAt(row, u, rest, found, kept, k)
    ensures ViewOf(Some(found)) == ViewOf(Some(kept)) <==>
            forall k :: Wrote(ups, k) ==> Wrote(rest, k) || (k !in row.fields && k !in u.fields)
  {
    UpdatesOverLive(row, ups, key);
    ViewsAgree(found, kept);
    forall k
      ensures AgreeAt(found, kept, k) <==>
              (Wrote(ups, k) ==> Wrote(rest, k) || (k !in row.fields && k !in u.fields))
    {
      assert FoundAt(row, u, rest, found, kept, k);
    }
  }

  /** The live row, no delete queued: what the server finds and what the client keeps. */
  lemma FoundAndKept(row: Row, ups: seq<RowOp>, rest: seq<RowOp>, key: Key) returns (u: Row, found: Row, kept: Row)
    requires WellFormedSlot(Some(row), key) && !row.deleted && !HasDelete(rest)
    requires LocalWrites(Some(row), ups, key) && LocalWrites(Some(row), rest, key)
    requires (forall op <- ups :: op.op == Update) && (rest != [] ==> rest[0].op != Update)
    requires forall a, b :: a in ups && b in rest ==> a.hlc < b.hlc
    ensures Replay(Some(row), ups) == Some(u) && Recovered(row, rest) == Some(found) && Replay(Some(u), rest) == Some(kept)
    ensures WellFormedSlot(Some(found), key) && WellFormedSlot(Some(kept), key) && !found.deleted && !kept.deleted
    ensures forall k :: FoundAt(row, u, rest, found, kept, k)
    ensures Apply(Some(kept), SeedOp(row)) == Applied(Some(kept), false)
  {
    UpdatesOverLive(row, ups, key);
    u := Replay(Some(row), ups).value;
    if rest == [] {
      SeedRoundTrip(row);
      found, kept := Recovered(row, rest).value, u;
      forall k | k in row.fields ensures Get(found.clocks, k) == Get(row.clocks, k) {
        assert found.clocks[k] == row.clocks[k];
      }
      KeptIsNewer(row, ups, rest, u, kept, key);
    } else {
      RestOverUpdated(row, ups, rest, key);
      WrittenIsHeld(Some(row), rest, key);
      RunsStayRelated(Some(row), rest, key);
      RunsStayRelated(Some(u), rest, key);
      var wiped := Replay(None, rest).value;
      kept := Replay(Some(u), rest).value;
      ReplayKeepsWellFormed(None, rest, key);
      ReplayKeepsWellFormed(Some(u), rest, key);
      found := FoundOver(row, rest, wiped, key);
      forall k ensures FoundAt(row, u, rest, found, kept, k) {
        assert ParallelAt(Some(u), wiped, kept, k);
      }
      KeptIsNewer(row, ups, rest, u, kept, key);
    }
  }

  /** What the server finds: the rows written, or else the fields of the seed. */
  lemma FoundOver(row: Row, rest: seq<RowOp>, wiped: Row, key: Key) returns (found: Row)
    requires WellFormedSlot(Some(row), key) && !row.deleted && WellFormedSlot(Some(wiped), key) && !wiped.deleted
    requires Replay(None, rest) == Some(wiped) && rest != [] && AllBetween(wiped, Some(row), rest[|rest| - 1].hlc)
    ensures Recovered(row, rest) == Some(found) && WellFormedSlot(Some(found), key) && !found.deleted
    ensures forall k :: if k in wiped.clocks
                        then Get(found.fields, k) == Get(wiped.fields, k) && Get(found.clocks, k) == Get(wiped.clocks, k)
                        else Get(found.fields, k) == Get(row.fields, k) &&
                             (k in row.fields ==> Get(found.clocks, k) == Get(row.clocks, k))
  {
    var seed := SeedOp(row);
    found := Merged(wiped, seed);
    LiveRowsMerge(wiped, seed);
    ApplyKeepsWellFormed(Some(wiped), seed);
    SeedIsOlder(row, wiped, rest[|rest| - 1].hlc);
    forall k
      ensures if k in wiped.clocks
              then Get(found.fields, k) == Get(wiped.fields, k) && Get(found.clocks, k) == Get(wiped.clocks, k)
              else Get(found.fields, k) == Get(row.fields, k) &&
                   (k in row.fields ==> Get(found.clocks, k) == Get(row.clocks, k))
    {
      MergedAt(wiped, seed, k);
      if k in row.fields {
        assert row.fields[k] in row.fields.Values;
      }
    }
  }

  lemma KeptIsNewer(row: Row, ups: seq<RowOp>, rest: seq<RowOp>, u: Row, kept: Row, key: Key)
    requires WellFormedSlot(Some(row), key) && !row.deleted && !kept.deleted && LocalWrites(Some(row), ups, key)
    requires (forall op <- ups :: op.op == Update) && Replay(Some(row), ups) == Some(u)
    requires if rest == [] then kept == u
             else Replay(None, rest).Some? && Parallel(Some(u), Replay(None, rest).value, kept) &&
                  AllBetween(Replay(None, rest).value, Some(row), rest[|rest| - 1].hlc)
    ensures Apply(Some(kept), SeedOp(row)) == Applied(Some(kept), false)
  {
    UpdatesOverLive(row, ups, key);
    forall k | k in row.fields ensures k in kept.clocks && kept.clocks[k] >= row.clocks[k] {
      assert k in u.clocks && u.clocks[k] >= row.clocks[k] by {
        assert !Wrote(ups, k) ==> Get(u.clocks, k) == Get(row.clocks, k);
      }
      if rest != [] {
        var wiped := Replay(None, rest).value;
        assert ParallelAt(Some(u), wiped, kept, k);
        if k in wiped.clocks {
          assert InRange(wiped.clocks[k], Some(row), rest[|rest| - 1].hlc);
        }
      }
    }
    OldSeedDoesNothing(row, kept);
  }

  /** A wiped server is rebuilt row by row, for every queue of local writes. The server and the client agree
      on the row afterwards exactly when the updates the queue starts with are not missed; and it is the row
      the client showed before the wipe exactly if, besides, a queued delete left no old field for the seed
      to bring back. */
  lemma WipedServerIsRebuilt(row: Row, ops: seq<RowOp>, key: Key)
    requires WellFormedSlot(Some(row), key) && LocalWrites(Some(row), ops, key)
    ensures ViewOf(Recovered(row, ops)) == ViewOf(Replay(Some(row), ops + [SeedOp(row)])) <==> UpdatesSurvive(row, ops)
    ensures ViewOf(Recovered(row, ops)) == ViewOf(Replay(Some(row), ops)) <==>
            UpdatesSurvive(row, ops) && RewritesEveryField(row, ops, Replay(Some(row), ops))
  {
    var ups, rest := QueueParts(row, ops, key);
    LeadingUpdatesAreLost(ups, rest);
    ReplayConcat(Some(row), ups, rest);
    ReplaySnoc(Some(row), ops, SeedOp(row));
    if row.deleted {
      UpdatesOverTombstone(row, ups);
      RestIsRebuilt(row, rest, key);
      ReplaySnoc(Some(row), rest, SeedOp(row));
    } else if HasDelete(rest) {
      RestOverUpdated(row, ups, rest, key);
      var u := Replay(Some(row), ups);
      RunsStayRelated(Some(row), rest, key);
      RunsStayRelated(u, rest, key);
      ReplayKeepsWellFormed(None, rest, key);
      SeedAfterDelete(row, rest, Replay(None, rest).value, Replay(u, rest).value);
    } else {
      var u, found, kept := FoundAndKept(row, ups, rest, key);
      MissedUpdates(row, ups, rest, u, found, kept, key);
    }
  }

  /** Without updates in front nothing is missed. */
  lemma RestIsRebuilt(row: Row, ops: seq<RowOp>, key: Key)
    requires WellFormedSlot(Some(row), key) && LocalWrites(Some(row), ops, key)
    requires ops != [] ==> ops[0].op != Update
    ensures ViewOf(Recovered(row, ops)) == ViewOf(Replay(Some(row), ops + [SeedOp(row)]))
    ensures ViewOf(Recovered(row, ops)) == ViewOf(Replay(Some(row), ops)) <==>
            RewritesEveryField(row, ops, Replay(Some(row), ops))
  {
    ReplaySnoc(Some(row), ops, SeedOp(row));
    if ops == [] {
      SeedRoundTrip(row);
    } else {
      RunsStayRelated(Some(row), ops, key);
      ReplayKeepsWellFormed(None, ops, key);
      ReplayKeepsWellFormed(Some(row), ops, key);
      SeedAfterRun(row, ops, Replay(None, ops).value, Replay(Some(row), ops).value);
    }
  }

  lemma SeedAfterRun(row: Row, ops: seq<RowOp>, wiped: Row, kept: Row)
    requires WellFormed(row) && ops != [] && Related(Some(row), ops, Some(wiped), Some(kept))
    requires wiped.key == kept.key
    ensures ViewOf(Apply(Some(wiped), SeedOp(row)).row) == ViewOf(Apply(Some(kept), SeedOp(row)).row)
    ensures ViewOf(Apply(Some(wiped), SeedOp(row)).row) == ViewOf(Some(kept)) <==>
            RewritesEveryField(row, ops, Some(kept))
  {
    if HasDelete(ops) {
      SeedAfterDelete(row, ops, wiped, kept);
    } else {
      SeedAfterUpdates(row, wiped, kept, ops[|ops| - 1].hlc);
    }
  }

  lemma SeedAfterDelete(row: Row, ops: seq<RowOp>, wiped: Row, kept: Row)
    requires WellFormed(row) && WellFormed(wiped) && Twins(wiped, kept) && wiped.delHlc.Some?
    requires ops != [] && HasDelete(ops) && AllBetween(wiped, Some(row), ops[|ops| - 1].hlc)
    ensures ViewOf(Apply(Some(wiped), SeedOp(row)).row) == ViewOf(Apply(Some(kept), SeedOp(row)).row)
    ensures ViewOf(Apply(Some(wiped), SeedOp(row)).row) == ViewOf(Some(kept)) <==>
            RewritesEveryField(row, ops, Some(kept))
  {
    var seed := SeedOp(row);
    TwinsStep(wiped, kept, seed);
    SeedIsOlder(row, wiped, ops[|ops| - 1].hlc);
    MaxClockMeaning(wiped, MaxClockOf(wiped), seed.hlc);
    if !wiped.deleted && !row.deleted {
      LiveRowsMerge(wiped, seed);
      var next := Merged(wiped, seed);
      forall k
        ensures k !in wiped.clocks && k in row.fields ==> k in next.fields && k !in kept.fields
        ensures k in wiped.clocks || k !in row.fields ==> Get(next.fields, k) == Get(kept.fields, k)
                                                          && Get(next.clocks, k) == Get(kept.clocks, k)
      {
        MergedAt(wiped, seed, k);
        if k in row.fields { assert row.fields[k] in row.fields.Values; }
      }
      if row.fields.Keys <= wiped.clocks.Keys {
        SameMap(next.fields, kept.fields);
        SameMap(next.clocks, kept.clocks);
      }
    }
  }

  lemma SeedAfterUpdates(row: Row, wiped: Row, kept: Row, top: Clock)
    requires WellFormed(row) && WellFormed(wiped) && WellFormed(kept) && wiped.key == kept.key
    requires Parallel(Some(row), wiped, kept) && AllBetween(wiped, Some(row), top)
    ensures ViewOf(Apply(Some(wiped), SeedOp(row)).row) == ViewOf(Some(kept))
    ensures ViewOf(Apply(Some(kept), SeedOp(row)).row) == ViewOf(Some(kept))
  {
    var seed := SeedOp(row);
    SeedIsOlder(row, wiped, top);
    if row.deleted {
      var k :| k in wiped.clocks;
      assert InRange(wiped.clocks[k], Some(row), top) && ParallelAt(Some(row), wiped, kept, k);
      assert k in kept.clocks && kept.clocks[k] == wiped.clocks[k];
      MaxClockMeaning(wiped, MaxClockOf(wiped), seed.hlc);
      MaxClockMeaning(kept, MaxClockOf(kept), seed.hlc);
      forall f ensures Get(wiped.fields, f) == Get(kept.fields, f) && Get(wiped.clocks, f) == Get(kept.clocks, f) {
        assert ParallelAt(Some(row), wiped, kept, f);
      }
      SameMap(wiped.fields, kept.fields);
      SameMap(wiped.clocks, kept.clocks);
    } else {
      LiveRowsMerge(wiped, seed);
      LiveRowsMerge(kept, seed);
      forall k
        ensures Get(Merged(wiped, seed).fields, k) == Get(kept.fields, k) == Get(Merged(kept, seed).fields, k)
        ensures k in kept.fields ==> Get(Merged(wiped, seed).clocks, k) == Get(kept.clocks, k)
        ensures Get(Merged(kept, seed).clocks, k) == Get(kept.clocks, k)
      {
        assert ParallelAt(Some(row), wiped, kept, k);
        SeedMerge(row, wiped, kept, k);
      }
      SameView(Merged(wiped, seed), kept);
      SameView(Merged(kept, seed), kept);
    }
  }

  lemma SameView(a: Row, b: Row)
    requires WellFormed(b) && a.key == b.key && !a.deleted && !b.deleted
    requires forall k :: Get(a.fields, k) == Get(b.fields, k)
    requires forall k | k in b.fields :: Get(a.clocks, k) == Get(b.clocks, k)
    ensures ViewOf(Some(a)) == ViewOf(Some(b))
  {
    SameMap(a.fields, b.fields);
    forall k | k in b.fields ensures k in a.clocks && a.clocks[k] == b.clocks[k] {
      assert Get(a.clocks, k) == Get(b.clocks, k);
    }
  }

  lemma SeedMerge(row: Row, wiped: Row, kept: Row, k: string)
    requires WellFormed(row) && WellFormed(wiped) && !row.deleted
    requires ParallelAt(Some(row), wiped, kept, k)
    requires k in row.fields && k in wiped.clocks ==> !Wins(wiped, SeedOp(row), k)
    ensures Get(Merged(wiped, SeedOp(row)).fields, k) == Get(kept.fields, k) == Get(Merged(kept, SeedOp(row)).fields, k)
    ensures k in kept.fields ==> Get(Merged(wiped, SeedOp(row)).clocks, k) == Get(kept.clocks, k)
    ensures Get(Merged(kept, SeedOp(row)).clocks, k) == Get(kept.clocks, k)
  {
    MergedAt(wiped, SeedOp(row), k);
    MergedAt(kept, SeedOp(row), k);
    if k in row.fields {
      assert row.fields[k] in row.fields.Values;
      assert SeedOp(row).ClockFor(k) == row.clocks[k];
    }
  }

  /** Updates with nothing behind them are lost altogether: the server shows the old row, which is what the
      client showed only if they showed nothing new. */
  lemma UpdatesAloneAreLost(row: Row, ups: seq<RowOp>, key: Key)
    requires WellFormedSlot(Some(row), key) && !row.deleted && LocalWrites(Some(row), ups, key)
    requires forall op <- ups :: op.op == Update
    ensures ViewOf(Recovered(row, ups)) == ViewOf(Some(row))
    ensures ViewOf(Recovered(row, ups)) == ViewOf(Replay(Some(row), ups)) <==>
            forall k :: Wrote(ups, k) ==> k !in row.fields && k !in FieldsOf(Replay(Some(row), ups))
  {
    LeadingUpdatesAreLost(ups, []);
    assert ups + [] == ups;
    SeedRoundTrip(row);
    var u, found, kept := FoundAndKept(row, ups, [], key);
    MissedUpdates(row, ups, [], u, found, kept, key);
  }
}
