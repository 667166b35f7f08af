/** The client's replica of the workspace registry (crates/doc/src/registry.rs, lines 322-703). */
module Registry {
  import opened Hlc
  import opened Merge
  import opened Options
  import opened Delivery
  import opened Outbox
  import opened Arrival
  import opened Compaction
  import Recovery
  import Reseed

  datatype StateOutcome = Delta | Replaced | Reseeded

  // ── specification functions ────────────────────────────────────────────────

  function PutAll(table: Table, rows: seq<Row>): Table
    decreases |rows|
  {
    if rows == [] then table else PutAll(table[rows[0].key := rows[0]], rows[1..])
  }

  lemma {:induction false} PutAllSnoc(table: Table, rows: seq<Row>, row: Row)
    ensures PutAll(table, rows + [row]) == PutAll(table, rows)[row.key := row]
    decreases |rows|
  {
    if rows == [] {
      assert rows + [row] == [row];
      assert PutAll(table, [row]) == PutAll(table[row.key := row], [row][1..]);
    } else {
      assert (rows + [row])[1..] == rows[1..] + [row];
      PutAllSnoc(table[rows[0].key := rows[0]], rows[1..], row);
    }
  }

  lemma {:induction false} PutAllKeeps(table: Table, rows: seq<Row>)
    requires Keyed(table)
    ensures Keyed(PutAll(table, rows)) && table.Keys <= PutAll(table, rows).Keys
    ensures forall key :: key in PutAll(table, rows) ==> key in table || exists row <- rows :: row.key == key
    decreases |rows|
  {
    if rows != [] {
      PutAllKeeps(table[rows[0].key := rows[0]], rows[1..]);
      forall key | key in PutAll(table, rows) ensures key in table || exists row <- rows :: row.key == key {
        if key !in table && key != rows[0].key {
          assert exists row <- rows[1..] :: row.key == key;
        } else if key !in table {
          assert rows[0] in rows;
        }
      }
    }
  }

  function Without(batches: seq<Batch>, id: Tick): seq<Batch> {
    if batches == [] then []
    else (if batches[0].id != id then [batches[0]] else []) + Without(batches[1..], id)
  }

  function ToPush(b: Batch): seq<Batch> {
    if b.inFlight then [] else [b.(inFlight := true)]
  }

  function Pushable(batches: seq<Batch>): seq<Batch> {
    if batches == [] then [] else ToPush(batches[0]) + Pushable(batches[1..])
  }

  function WithFlight(batches: seq<Batch>, inFlight: bool): (r: seq<Batch>)
    ensures |r| == |batches|
    ensures forall i :: 0 <= i < |r| ==> r[i] == batches[i].(inFlight := inFlight)
  {
    if batches == [] then [] else [batches[0].(inFlight := inFlight)] + WithFlight(batches[1..], inFlight)
  }

  ghost function Seeds(table: Table, keys: seq<Key>): (ops: seq<RowOp>)
    requires forall key <- keys :: key in table
    ensures |ops| == |keys|
  {
    if keys == [] then [] else Seeds(table, keys[..|keys| - 1]) + [SeedOp(table[keys[|keys| - 1]])]
  }

  lemma {:induction false} SeedsFor(table: Table, keys: seq<Key>, key: Key)
    requires Keyed(table) && NoRepeats(keys) && forall k <- keys :: k in table
    ensures OpsFor(Seeds(table, keys), key) == if key in keys then [SeedOp(table[key])] else []
  {
    if keys != [] {
      var init, last := keys[..|keys| - 1], keys[|keys| - 1];
      assert keys == init + [last];
      SeedsFor(table, init, key);
      OpsForSnoc(Seeds(table, init), SeedOp(table[last]), key);
    }
  }

  lemma {:induction false} WithoutConcat(a: seq<Batch>, b: seq<Batch>, id: Tick)
    ensures Without(a + b, id) == Without(a, id) + Without(b, id)
  {
    if a == [] {
      assert a + b == b;
    } else {
      assert (a + b)[1..] == a[1..] + b;
      WithoutConcat(a[1..], b, id);
    }
  }

  lemma {:induction false} WithoutNone(batches: seq<Batch>, id: Tick)
    requires forall j :: 0 <= j < |batches| ==> batches[j].id != id
    ensures Without(batches, id) == batches
  {
    if batches != [] {
      WithoutNone(batches[1..], id);
    }
  }

  /** Retiring an id that only one batch has drops that batch and keeps the order of the others. */
  lemma {:induction false} WithoutSplits(batches: seq<Batch>, i: nat)
    requires i < |batches| && forall j :: 0 <= j < |batches| && j != i ==> batches[j].id != batches[i].id
    ensures Without(batches, batches[i].id) == batches[..i] + batches[i + 1..]
  {
    if i == 0 {
      WithoutNone(batches[1..], batches[0].id);
    } else {
      var rest := batches[1..];
      WithoutSplits(rest, i - 1);
      assert Without(batches, batches[i].id) == [batches[0]] + Without(rest, batches[i].id);
      assert batches[..i] == [batches[0]] + rest[..i - 1] && rest[i..] == batches[i + 1..];
    }
  }

  lemma OthersDiffer(batches: seq<Batch>, i: nat)
    requires Increasing(batches) && i < |batches|
    ensures forall j :: 0 <= j < |batches| && j != i ==> batches[j].id != batches[i].id
  {
    forall j | 0 <= j < |batches| && j != i ensures batches[j].id != batches[i].id {
      if j < i {
        assert Before(batches[j].id, batches[i].id);
      } else {
        assert Before(batches[i].id, batches[j].id);
      }
    }
  }

  // ── what every call keeps of the queue ─────────────────────────────────────

  /** Ids strictly increase in queue order up to the last tick read, every batch holds 1 to 400 ops, and
      a batch is in flight exactly when it was handed out on the current connection. */
  ghost predicate QueueOk(pending: seq<Batch>, handed: set<Tick>, last: Tick) {
    && Increasing(pending)
    && Sized(pending)
    && (forall b <- pending :: AtMost(b.id, last))
    && (forall id <- handed :: AtMost(id, last))
    && (forall b <- pending :: b.inFlight <==> b.id in handed)
  }

  lemma EnqueueKeepsQueue(pending: seq<Batch>, handed: set<Tick>, last: Tick, more: seq<Batch>)
    requires QueueOk(pending, handed, last) && Sized(more) && BatchesAfter(more, last)
    requires forall b <- more :: !b.inFlight
    ensures QueueOk(pending + more, handed, LastTick(more, last))
  {
    var all, now := pending + more, LastTick(more, last);
    forall i, j | 0 <= i < j < |all| ensures Before(all[i].id, all[j].id) {
      if i < |pending| <= j {
        assert pending[i] in pending && more[j - |pending|] in more;
      }
    }
    assert forall b <- all :: b in pending || b in more;
    forall b | b in more ensures b.id !in handed {
      assert Before(last, b.id);
    }
  }

  /** Everything queueing a run of ops does. */
  lemma EnqueueEffect(pending: seq<Batch>, handed: set<Tick>, last: Tick, ops: seq<RowOp>, wall: nat -> int, from: nat)
    requires QueueOk(pending, handed, last) && last.counter < COUNTER_LIMIT
    ensures var more := Batches(ops, last, wall, from);
            && QueueOk(pending + more, handed, LastTick(more, last))
            && AllOps(pending + more) == AllOps(pending) + ops
  {
    BatchesAreChunks(ops, last, wall, from);
    BatchesAreFresh(ops, last, wall, from);
    AllOpsConcat(pending, Batches(ops, last, wall, from));
    EnqueueKeepsQueue(pending, handed, last, Batches(ops, last, wall, from));
  }

  /** One more chunk is done. */
  lemma ChunkDone(all: seq<Batch>, done: seq<Batch>, rest: seq<RowOp>, first: Tick, last: Tick, wall: nat -> int, i: nat)
    returns (more: seq<Batch>)
    requires rest != [] && all == done + Batches(rest, last, wall, i)
    ensures var tick, n := Advance(last, wall(i)), FirstChunk(rest);
            && 0 < n <= |rest| && more == done + [Batch(tick, rest[..n], false)]
            && all == more + Batches(rest[n..], tick, wall, i + 1) && tick == LastTick(more, first)
  {
    BatchesUnfold(rest, last, wall, i);
    var tick, n := Advance(last, wall(i)), FirstChunk(rest);
    var chunk, later := [Batch(tick, rest[..n], false)], Batches(rest[n..], tick, wall, i + 1);
    more := done + chunk;
    assert done + (chunk + later) == more + later;
  }

  lemma TickKeepsQueue(pending: seq<Batch>, handed: set<Tick>, last: Tick, now: Tick)
    requires QueueOk(pending, handed, last) && Before(last, now)
    ensures QueueOk(pending, handed, now)
  {
  }

  function Ids(batches: seq<Batch>): set<Tick> {
    set b | b in batches :: b.id
  }

  lemma TakeKeepsQueue(pending: seq<Batch>, handed: set<Tick>, last: Tick)
    requires QueueOk(pending, handed, last)
    ensures QueueOk(WithFlight(pending, true), handed + Ids(Pushable(pending)), last)
    ensures forall b <- Pushable(pending) :: b.id !in handed
    ensures forall b <- pending :: b.id !in handed ==> b.(inFlight := true) in Pushable(pending)
  {
    PushableCovers(pending);
    var after := WithFlight(pending, true);
    forall b | b in Pushable(pending) ensures b.id !in handed && AtMost(b.id, last) {
      assert b.(inFlight := false) in pending;
    }
    forall b | b in after ensures AtMost(b.id, last) && b.id in handed + Ids(Pushable(pending)) {
      var i :| 0 <= i < |after| && after[i] == b;
      assert pending[i] in pending && b == pending[i].(inFlight := true);
    }
    SizedAgain(pending, after);
  }

  lemma SizedAgain(a: seq<Batch>, b: seq<Batch>)
    requires |a| == |b| && forall i :: 0 <= i < |a| ==> a[i].ops == b[i].ops && a[i].id == b[i].id
    requires Sized(a) && Increasing(a)
    ensures Sized(b) && Increasing(b)
  {
    forall x | x in b ensures 1 <= |x.ops| <= 400 {
      var i :| 0 <= i < |b| && b[i] == x;
      assert a[i] in a;
    }
  }

  lemma DisconnectKeepsQueue(pending: seq<Batch>, handed: set<Tick>, last: Tick)
    requires QueueOk(pending, handed, last)
    ensures QueueOk(WithFlight(pending, false), {}, last)
  {
    var after := WithFlight(pending, false);
    forall b | b in after ensures AtMost(b.id, last) && !b.inFlight {
      var i :| 0 <= i < |after| && after[i] == b;
      assert pending[i] in pending;
    }
    SizedAgain(pending, after);
  }

  lemma DroppingKeepsOrder(batches: seq<Batch>, i: nat)
    requires Increasing(batches) && i < |batches|
    ensures Increasing(batches[..i] + batches[i + 1..])
  {
    var after := batches[..i] + batches[i + 1..];
    forall j, k | 0 <= j < k < |after| ensures Before(after[j].id, after[k].id) {
      var j', k' := if j < i then j else j + 1, if k < i then k else k + 1;
      assert after[j] == batches[j'] && after[k] == batches[k'] && j' < k';
    }
  }

  lemma AckKeepsQueue(pending: seq<Batch>, handed: set<Tick>, last: Tick, id: Tick)
    requires QueueOk(pending, handed, last)
    ensures QueueOk(Without(pending, id), handed, last)
    ensures |Without(pending, id)| == |pending| - if exists b <- pending :: b.id == id then 1 else 0
  {
    if i :| 0 <= i < |pending| && pending[i].id == id {
      OthersDiffer(pending, i);
      WithoutSplits(pending, i);
      assert pending[i] in pending;
      DroppingKeepsOrder(pending, i);
    } else {
      WithoutNone(pending, id);
    }
  }

  // ── acking ─────────────────────────────────────────────────────────────────

  /** The server row of `key` has taken in every op of the batch on that row, and the ops queued before
      the batch revive nothing there. */
  ghost predicate Landed(table: Table, before: seq<Batch>, batch: Batch, key: Key) {
    forall op <- OpsFor(batch.ops, key) ::
      && CarriesClock(op)
      && Settled(Get(table, key), op)
      && RevivalFree(Get(table, key), OpsFor(AllOps(before), key))
  }

  ghost predicate AckLanded(table: Table, batches: seq<Batch>, id: Tick, key: Key) {
    forall i :: 0 <= i < |batches| && batches[i].id == id ==> Landed(table, batches[..i], batches[i], key)
  }

  /** Retiring a batch whose ops the server row already holds shows no difference. */
  lemma AckIsInvisible(table: Table, batches: seq<Batch>, id: Tick, key: Key)
    requires WellFormedTable(table) && Increasing(batches) && AckLanded(table, batches, id, key)
    ensures Overlay(table, AllOps(Without(batches, id)), key) == Overlay(table, AllOps(batches), key)
  {
    if i :| 0 <= i < |batches| && batches[i].id == id {
      OthersDiffer(batches, i);
      WithoutSplits(batches, i);
      DroppingIsInvisible(table, batches, i, key);
    } else {
      WithoutNone(batches, id);
    }
  }

  lemma DroppingIsInvisible(table: Table, batches: seq<Batch>, i: nat, key: Key)
    requires WellFormedTable(table) && i < |batches|
    requires Landed(table, batches[..i], batches[i], key)
    ensures Overlay(table, AllOps(batches[..i] + batches[i + 1..]), key) == Overlay(table, AllOps(batches), key)
  {
    var slot := Get(table, key);
    var before, own := OpsFor(AllOps(batches[..i]), key), OpsFor(batches[i].ops, key);
    var after := OpsFor(AllOps(batches[i + 1..]), key);
    assert batches == batches[..i + 1] + batches[i + 1..];
    AllOpsConcat(batches[..i + 1], batches[i + 1..]);
    AllOpsPrefix(batches, i);
    AllOpsConcat(batches[..i], batches[i + 1..]);
    OpsForConcat(AllOps(batches[..i + 1]), AllOps(batches[i + 1..]), key);
    OpsForConcat(AllOps(batches[..i]), batches[i].ops, key);
    OpsForConcat(AllOps(batches[..i]), AllOps(batches[i + 1..]), key);
    ReplayConcat(slot, before + own, after);
    ReplayConcat(slot, before, own);
    ReplayConcat(slot, before, after);
    var mid := Replay(slot, before);
    OpsForOwn(AllOps(batches[..i]), key);
    OpsForOwn(batches[i].ops, key);
    ReplayKeepsWellFormed(slot, before, key);
    forall op | op in own ensures Settled(mid, op) {
      SettledThroughRun(slot, op, before);
    }
    SettledRunIsNoOp(mid, own, key);
  }

  /** If nothing else is queued for the row, the ack shows exactly when some op of the batch has not landed. */
  lemma LastAckShows(table: Table, batch: Batch, key: Key)
    requires WellFormedTable(table) && key in table
    ensures Overlay(table, AllOps(Without([batch], batch.id)), key) == Overlay(table, AllOps([batch]), key) <==>
            forall op <- OpsFor(batch.ops, key) :: Settled(Get(table, key), op)
  {
    assert [batch][1..] == [] && batch.ops + [] == batch.ops;
    assert AllOps([batch]) == batch.ops + AllOps([]);
    OpsForOwn(batch.ops, key);
    RunsNeverReturn(table[key], OpsFor(batch.ops, key));
  }

  /** Local writes on a live row, none of them a delete, and `later` queued behind the batch: the ack of the head
      batch shows exactly in the fields it wrote last, with something new to show. */
  ghost predicate ShowsAt(row: Row, own: seq<RowOp>, later: seq<RowOp>, k: string) {
    LastWrite(later, k).None? && WinsOver(row, own, k) &&
    (LastWrite(own, k).value.value != Null || k in row.fields)
  }

  lemma HeadAckShows(table: Table, batch: Batch, rest: seq<Batch>, key: Key)
    requires WellFormedTable(table) && key in table && !table[key].deleted && Increasing([batch] + rest)
    requires var all := OpsFor(batch.ops, key) + OpsFor(AllOps(rest), key);
             InTurn(all) && InTurn(OpsFor(AllOps(rest), key)) && forall op <- all :: op.op != Delete
    ensures ViewOf(Overlay(table, AllOps(Without([batch] + rest, batch.id)), key)) ==
            ViewOf(Overlay(table, AllOps([batch] + rest), key)) <==>
            forall k :: !ShowsAt(table[key], OpsFor(batch.ops, key), OpsFor(AllOps(rest), key), k)
  {
    var all := [batch] + rest;
    OthersDiffer(all, 0);
    WithoutSplits(all, 0);
    assert all[..0] + all[1..] == rest && all[1..] == rest;
    OpsForConcat(batch.ops, AllOps(rest), key);
    OpsForOwn(batch.ops, key);
    OpsForOwn(AllOps(rest), key);
    AckedRow(table[key], OpsFor(batch.ops, key), OpsFor(AllOps(rest), key));
  }

  lemma AckedRow(row: Row, own: seq<RowOp>, later: seq<RowOp>)
    requires WellFormed(row) && !row.deleted && AllOn(own, row.key) && AllOn(later, row.key)
    requires InTurn(own + later) && InTurn(later) && forall op <- own + later :: op.op != Delete
    ensures ViewOf(Replay(Some(row), later)) == ViewOf(Replay(Some(row), own + later)) <==>
            forall k :: !ShowsAt(row, own, later, k)
  {
    assert forall op <- later :: op in own + later;
    AllLaid(row, later);
    AllLaid(row, own + later);
    var acked, before := Replay(Some(row), later).value, Replay(Some(row), own + later).value;
    Recovery.ViewsAgree(acked, before);
    forall k
      ensures Recovery.AgreeAt(acked, before, k) <==> !ShowsAt(row, own, later, k)
    {
      LastWriteConcat(own, later, k);
      assert LaidAt(row, later, acked, k) && LaidAt(row, own + later, before, k);
    }
  }

  /** The server sends the ack of a push ahead of the rows. Until they come the replica has lost the write. */
  lemma AckBeforeRowsShows(key: Key, id: Tick)
    ensures var table, batch := map[key := CachedAt1(key)], Batch(id, [RenamedAt5(key)], true);
            && !AckLanded(table, [batch], id, key)
            && ViewOf(Overlay(table, AllOps([batch]), key)) == ViewOf(Some(RenamedRow(key)))
            && ViewOf(Overlay(table, AllOps(Without([batch], id)), key)) == ViewOf(Some(CachedAt1(key)))
                 != ViewOf(Some(RenamedRow(key)))
  {
    var table, rename := map[key := CachedAt1(key)], RenamedAt5(key);
    var batch := Batch(id, [rename], true);
    assert [batch][1..] == [] && AllOps([batch]) == [rename] + AllOps([]) == [rename];
    OpsForAll([rename], key);
    RenameAlone(key);
    assert Wins(CachedAt1(key), rename, "t") && rename in OpsFor(batch.ops, key);
    assert [batch][0].id == id;
    assert CachedAt1(key).fields["t"] != RenamedRow(key).fields["t"];
  }

  /** When every op of the head batch on a row has reached the server, followed by other ops that revived
      nothing, the rows the server sends back have landed: acking the batch is then invisible. */
  lemma ServerRowsLand(slot: Option<Row>, table: Table, batch: Batch, later: seq<RowOp>, key: Key)
    requires WellFormedSlot(slot, key) && AllOn(later, key)
    requires var own := OpsFor(batch.ops, key);
             && own != [] && (own[0].op == Update ==> slot.Some?)
             && (forall op <- own :: CarriesClock(op))
             && RevivalFree(Apply(slot, own[0]).row, own[1..] + later)
             && Get(table, key) == Replay(slot, own + later)
    ensures Landed(table, [], batch, key)
  {
    var own := OpsFor(batch.ops, key);
    OpsForOwn(batch.ops, key);
    DeliveredRunSettles(slot, own, later, key);
  }

  /** Recovery, for the queue of the whole replica: after a reply from a server that lost its rows, the
      queue holds the old ops and then one seed per known row. A wiped server that merges it ends up showing
      the row as the replica does exactly when the updates its own ops start with are not missed; and as the
      replica did before, exactly if also no queued delete left an old field for the seed to bring back. */
  lemma WipedServerCatchesUp(table: Table, ops: seq<RowOp>, seeded: seq<Key>, key: Key)
    requires WellFormedTable(table) && NoRepeats(seeded) && (forall k <- seeded :: k in table) && key in seeded
    requires Recovery.LocalWrites(Get(table, key), OpsFor(ops, key), key)
    ensures var queue, own := ops + Seeds(table, seeded), OpsFor(ops, key);
            && (ViewOf(Overlay(map[], queue, key)) == ViewOf(Overlay(table, queue, key)) <==>
                Recovery.UpdatesSurvive(table[key], own))
            && (ViewOf(Overlay(map[], queue, key)) == ViewOf(Overlay(table, ops, key)) <==>
                Recovery.UpdatesSurvive(table[key], own) &&
                Recovery.RewritesEveryField(table[key], own, Overlay(table, ops, key)))
  {
    var own := OpsFor(ops, key);
    SeedsFor(table, seeded, key);
    OpsForConcat(ops, Seeds(table, seeded), key);
    ReplaySnoc(None, own, SeedOp(table[key]));
    Recovery.WipedServerIsRebuilt(table[key], own, key);
  }

  /** The same for a queue that has been compacted, with local writes behind it: `older` are the ops the
      compaction found. */
  lemma CompactedServerCatchesUp(table: Table, older: seq<RowOp>, more: seq<RowOp>, seeded: seq<Key>, key: Key)
    requires WellFormedTable(table) && NoRepeats(seeded) && (forall k <- seeded :: k in table) && key in seeded
    requires Touches(older, key) && Queue(OpsFor(older, key), key)
    requires Overlay(table, older, key).Some? &&
             Reseed.CompactedQueue(table[key], Overlay(table, older, key).value, OpsFor(more, key), key)
    ensures var ops := Compacted(table, older) + more;
            var queue, own := ops + Seeds(table, seeded), OpsFor(ops, key);
            && (ViewOf(Overlay(map[], queue, key)) == ViewOf(Overlay(table, queue, key)) <==>
                Reseed.SeedSurvives(table[key], own))
            && (ViewOf(Overlay(map[], queue, key)) == ViewOf(Overlay(table, ops, key)) <==>
                Reseed.SeedSurvives(table[key], own) &&
                Recovery.RewritesEveryField(table[key], own, Overlay(table, ops, key)))
  {
    var ops := Compacted(table, older) + more;
    CompactedFor(table, older, key);
    OpsForConcat(Compacted(table, older), more, key);
    SeedsFor(table, seeded, key);
    OpsForConcat(ops, Seeds(table, seeded), key);
    ReplaySnoc(None, OpsFor(ops, key), SeedOp(table[key]));
    Reseed.CompactedIsRebuilt(table[key], Overlay(table, older, key).value, OpsFor(more, key), key);
  }

  /** Such a queue needs of the writes no more than that they are newer than the cached and the net row. */
  lemma CompactionDescends(table: Table, older: seq<RowOp>, more: seq<RowOp>, key: Key)
    requires WellFormedTable(table) && key in table && Queue(OpsFor(older, key), key)
    ensures var net, own := Overlay(table, older, key), OpsFor(more, key);
            && net.Some? && WellFormed(net.value)
            && (Reseed.CompactedQueue(table[key], net.value, own, key) <==>
                  && Recovery.LocalWrites(net, own, key) && Recovery.LocalWrites(Some(table[key]), own, key)
                  && (net.value.deleted ==> net.value.delHlc.value > SeedClock()))
  {
    RowsStay(Get(table, key), OpsFor(older, key));
    NetDescends(table, older, key);
  }

  // ── the replica ────────────────────────────────────────────────────────────

  class RegistryDoc {
    const deviceId: string
    const clock: HlcClock
    var authoritative: Table
    var serverSeq: nat
    var gcFloor: nat
    var pending: seq<Batch>
    var generation: nat
    /** The batch ids handed out on the current connection. */
    ghost var handed: set<Tick>

    constructor (deviceId: string)
      ensures Valid() && fresh(clock)
      ensures authoritative == map[] && pending == [] && serverSeq == 0 && handed == {}
    {
      this.deviceId := deviceId;
      clock := new HlcClock();
      authoritative, serverSeq, gcFloor, pending, generation := map[], 0, 0, [], 0;
      handed := {};
    }

    /** What holds between any two calls, whatever calls were made. */
    ghost predicate Valid()
      reads this, clock
    {
      && clock.counter < COUNTER_LIMIT
      && Keyed(authoritative)
      && QueueOk(pending, handed, clock.Last())
    }

    ghost function Shown(key: Key): Option<Row>
      reads this
    {
      Overlay(authoritative, AllOps(pending), key)
    }

    // ── local writes ─────────────────────────────────────────────────────────

    method NextHlc(now: int) returns (hlc: Clock)
      requires Valid()
      modifies clock
      ensures Valid() && clock.Last() == Advance(old(clock.Last()), now)
      ensures hlc == Rank(EncodeHlc(clock.Last().ms, clock.Last().counter, deviceId))
      ensures 0 < clock.Last().ms < MS_LIMIT ==> hlc > SeedClock()
    {
      TickKeepsQueue(pending, handed, clock.Last(), Advance(clock.Last(), now));
      var tick, text := clock.Next(now, deviceId);
      hlc := Rank(text);
      if 0 < tick.ms < MS_LIMIT {
        Recovery.LiveStampsBeatSeed(tick.ms, tick.counter, deviceId);
      }
    }

    /** `enqueue_ops`: cut the ops into batches of at most 400 and queue them. */
    method EnqueueOps(ops: seq<RowOp>, wall: nat -> int, from: nat)
      requires Valid()
      modifies this`pending, this`generation, clock
      ensures Valid()
      ensures pending == old(pending) + Batches(ops, old(clock.Last()), wall, from)
      ensures AllOps(pending) == AllOps(old(pending)) + ops
      ensures ops == [] ==> generation == old(generation) && clock.Last() == old(clock.Last())
      ensures ops != [] ==> generation == old(generation) + 1
    {
      EnqueueEffect(pending, handed, clock.Last(), ops, wall, from);
      if ops == [] {
        return;
      }
      generation := generation + 1;
      QueueChunks(ops, wall, from);
    }

    /** The loop of `enqueue_ops`: split off a chunk, stamp it, queue it, go on with the tail. */
    method QueueChunks(ops: seq<RowOp>, wall: nat -> int, from: nat)
      modifies this`pending, clock
      ensures pending == old(pending) + Batches(ops, old(clock.Last()), wall, from)
      ensures clock.Last() == LastTick(Batches(ops, old(clock.Last()), wall, from), old(clock.Last()))
      ensures old(clock.counter) < COUNTER_LIMIT ==> clock.counter < COUNTER_LIMIT
    {
      ghost var all, done, first := Batches(ops, clock.Last(), wall, from), [], clock.Last();
      var rest, i := ops, from;
      while rest != []
        invariant pending == old(pending) + done
        invariant all == done + Batches(rest, clock.Last(), wall, i)
        invariant clock.Last() == LastTick(done, first)
        invariant old(clock.counter) < COUNTER_LIMIT ==> clock.counter < COUNTER_LIMIT
        decreases |rest|
      {
        ghost var last := clock.Last();
        var n := FirstChunk(rest);
        var tick, _ := clock.Next(wall(i), deviceId);
        ghost var more := ChunkDone(all, done, rest, first, last, wall, i);
        pending := pending + [Batch(tick, rest[..n], false)];
        done, rest, i := more, rest[n..], i + 1;
      }
    }

    /** `write`: one op, stamped later than any seed as long as the clock is past zero. */
    method Write(key: Key, op: OpKind, fields: map<string, Value>, wall: nat -> int)
      requires Valid()
      modifies this`pending, this`generation, clock
      ensures Valid()
      ensures var stamp := Advance(old(clock.Last()), wall(0));
              AllOps(pending) == AllOps(old(pending)) +
                [RowOp(key, op, Some(fields), Rank(EncodeHlc(stamp.ms, stamp.counter, deviceId)), None)]
      ensures old(pending) <= pending && |pending| == |old(pending)| + 1
      ensures var stamp := Advance(old(clock.Last()), wall(0));
              0 < stamp.ms < MS_LIMIT ==> Rank(EncodeHlc(stamp.ms, stamp.counter, deviceId)) > SeedClock()
    {
      var hlc := NextHlc(wall(0));
      EnqueueOps([RowOp(key, op, Some(fields), hlc, None)], wall, 1);
    }

    /** `delete_row_ops`: one delete per row, all under one stamp. */
    method DeleteRowOps(keys: seq<Key>, wall: nat -> int)
      requires Valid()
      modifies this`pending, this`generation, clock
      ensures Valid() && old(pending) <= pending
      ensures var stamp := Advance(old(clock.Last()), wall(0));
              var hlc := Rank(EncodeHlc(stamp.ms, stamp.counter, deviceId));
              AllOps(pending) ==
              AllOps(old(pending)) + seq(|keys|, i requires 0 <= i < |keys| => RowOp(keys[i], Delete, None, hlc, None))
    {
      var hlc := NextHlc(wall(0));
      EnqueueOps(seq(|keys|, i requires 0 <= i < |keys| => RowOp(keys[i], Delete, None, hlc, None)), wall, 1);
    }

    // ── pushing and acking ───────────────────────────────────────────────────

    /** `take_pushable`: hand out every batch not yet handed out on this connection. */
    method TakePushable() returns (out: seq<Batch>)
      requires Valid()
      modifies this`pending, this`handed
      ensures Valid()
      ensures out == Pushable(old(pending)) && pending == WithFlight(old(pending), true)
      ensures forall b <- out :: b.id !in old(handed)
      ensures forall b <- old(pending) :: b.id !in old(handed) ==> b.(inFlight := true) in out
      ensures Increasing(out) && forall b <- out :: b.inFlight && b.(inFlight := false) in old(pending)
      ensures handed == old(handed) + Ids(out)
      ensures AllOps(pending) == AllOps(old(pending))
    {
      var after;
      out, after := HandOut(pending);
      TakeKeepsQueue(pending, handed, clock.Last());
      PushableCovers(pending);
      PushableInOrder(pending);
      SameOps(pending, after);
      pending := after;
      handed := handed + Ids(out);
    }

    /** `mark_disconnected`: everything unacked may be handed out again. */
    method MarkDisconnected()
      requires Valid()
      modifies this`pending, this`handed
      ensures Valid() && handed == {}
      ensures pending == WithFlight(old(pending), false) && AllOps(pending) == AllOps(old(pending))
    {
      var after := Recall(pending);
      DisconnectKeepsQueue(pending, handed, clock.Last());
      SameOps(pending, after);
      pending := after;
      handed := {};
    }

    /** `ack_batch`: retire the acked batch. When the server's rows already hold its ops, no reader sees
        the difference. */
    method AckBatch(id: Tick, ackSeq: nat) returns (existed: bool)
      requires Valid()
      modifies this`pending, this`serverSeq, this`generation
      ensures Valid()
      ensures pending == Without(old(pending), id)
      ensures existed <==> exists b <- old(pending) :: b.id == id
      ensures |pending| == |old(pending)| - if existed then 1 else 0
      ensures serverSeq == if ackSeq > old(serverSeq) then ackSeq else old(serverSeq)
      ensures generation == old(generation) + if existed then 1 else 0
      ensures WellFormedTable(authoritative) ==>
                forall key :: AckLanded(authoritative, old(pending), id, key) ==> Shown(key) == old(Shown(key))
    {
      var before := |pending|;
      var kept := Retain(pending, id);
      AckKeepsQueue(pending, handed, clock.Last(), id);
      pending := kept;
      if ackSeq > serverSeq {
        serverSeq := ackSeq;
      }
      existed := |pending| != before;
      if existed {
        generation := generation + 1;
      }
      forall key | WellFormedTable(authoritative) && AckLanded(authoritative, old(pending), id, key)
        ensures Shown(key) == old(Shown(key))
      {
        AckIsInvisible(authoritative, old(pending), id, key);
      }
    }

    // ── server frames ────────────────────────────────────────────────────────

    method PutRows(rows: seq<Row>)
      requires Valid()
      modifies this`authoritative
      ensures Valid() && authoritative == PutAll(old(authoritative), rows)
    {
      for i := 0 to |rows|
        invariant authoritative == PutAll(old(authoritative), rows[..i])
      {
        PutAllSnoc(old(authoritative), rows[..i], rows[i]);
        assert rows[..i + 1] == rows[..i] + [rows[i]];
        authoritative := authoritative[rows[i].key := rows[i]];
      }
      assert rows[..|rows|] == rows;
      PutAllKeeps(old(authoritative), rows);
    }

    /** `apply_rows`: merged truth for the touched rows. */
    method ApplyRows(frameSeq: nat, rows: seq<Row>)
      requires Valid()
      modifies this`authoritative, this`serverSeq, this`generation
      ensures Valid() && authoritative == PutAll(old(authoritative), rows)
      ensures serverSeq == if frameSeq > old(serverSeq) then frameSeq else old(serverSeq)
      ensures generation == old(generation) + 1
    {
      generation := generation + 1;
      PutRows(rows);
      if frameSeq > serverSeq {
        serverSeq := frameSeq;
      }
    }

    /** The seed ops of the rows in `keys`, in some order. */
    method SeedRows(keys: set<Key>) returns (ops: seq<RowOp>, ghost order: seq<Key>)
      requires keys <= authoritative.Keys
      ensures NoRepeats(order) && forall key :: key in order <==> key in keys
      ensures (forall key <- order :: key in authoritative) && ops == Seeds(authoritative, order)
    {
      ops, order := [], [];
      var rest := keys;
      while rest != {}
        invariant rest <= keys && NoRepeats(order)
        invariant forall key :: key in order <==> key in keys && key !in rest
        invariant ops == Seeds(authoritative, order)
      {
        var key :| key in rest;
        var op := RowToSeedOp(authoritative[key]);
        ops := ops + [op];
        ghost var longer := order + [key];
        assert longer[..|longer| - 1] == order;
        order := longer;
        rest := rest - {key};
      }
    }

    /** `apply_state`: a delta, a full replacement, or a server that lost rows this client still has. In
        every case each row the client had is authoritative afterwards or queued for re-seeding with its
        original clocks, behind the ops that were already queued. */
    method ApplyState(frameSeq: nat, full: bool, floor: nat, rows: seq<Row>, wall: nat -> int)
      returns (outcome: StateOutcome, ghost seeded: seq<Key>)
      requires Valid()
      modifies this`authoritative, this`serverSeq, this`gcFloor, this`pending, this`generation, clock
      ensures Valid() && serverSeq == frameSeq && gcFloor == floor && old(pending) <= pending
      ensures NoRepeats(seeded) && forall key <- seeded :: key in old(authoritative)
      ensures AllOps(pending) == AllOps(old(pending)) + Seeds(old(authoritative), seeded)
      ensures forall key <- old(authoritative) :: key in authoritative || key in seeded
      ensures !full ==> outcome == Delta && seeded == [] && authoritative == PutAll(old(authoritative), rows)
      ensures full && frameSeq < old(serverSeq) ==>
                outcome == Reseeded && (forall key :: key in seeded <==> key in old(authoritative)) &&
                authoritative == PutAll(old(authoritative), rows)
      ensures full && frameSeq >= old(serverSeq) ==>
                (outcome == if seeded == [] then Replaced else Reseeded) &&
                authoritative == PutAll(map[], rows) &&
                forall key :: key in seeded <==> key in old(authoritative) && key !in authoritative
      ensures generation >= old(generation) + 1
    {
      generation := generation + 1;
      seeded := [];
      PutAllKeeps(authoritative, rows);
      assert AllOps(pending) == AllOps(pending) + Seeds(authoritative, []);
      if !full {
        PutRows(rows);
        serverSeq, gcFloor := frameSeq, floor;
        return Delta, seeded;
      }
      if frameSeq < serverSeq {
        var seed;
        seed, seeded := SeedRows(authoritative.Keys);
        PutRows(rows);
        serverSeq, gcFloor := frameSeq, floor;
        if seed != [] {
          EnqueueOps(seed, wall, 0);
        }
        return Reseeded, seeded;
      }
      var incoming := Indexed(rows);
      PutAllKeeps(map[], rows);
      var seed;
      seed, seeded := SeedRows(authoritative.Keys - incoming.Keys);
      authoritative := incoming;
      serverSeq, gcFloor := frameSeq, floor;
      if seed == [] {
        return Replaced, seeded;
      }
      EnqueueOps(seed, wall, 0);
      return Reseeded, seeded;
    }

    // ── compaction ───────────────────────────────────────────────────────────

    /** `compact_pending`: collapse the queue to one op per touched row. */
    method CompactPending(wall: nat -> int) returns (len: nat)
      requires Valid()
      modifies this`pending, this`generation, clock
      ensures Valid() && len <= |AllOps(old(pending))|
      ensures (old(pending) == [] || exists b <- old(pending) :: b.inFlight) ==>
                len == 0 && pending == old(pending) && generation == old(generation) && clock.Last() == old(clock.Last())
      ensures !(old(pending) == [] || exists b <- old(pending) :: b.inFlight) ==>
                AllOps(pending) == Compacted(authoritative, AllOps(old(pending))) && len == |AllOps(pending)|
      ensures WellFormedTable(authoritative) && old(pending) != [] && !(exists b <- old(pending) :: b.inFlight) ==>
                CompactionFaithful(authoritative, AllOps(old(pending)), AllOps(pending)) &&
                ConvergesEverywhere(authoritative, AllOps(old(pending)), AllOps(pending))
    {
      if pending == [] || exists b <- pending :: b.inFlight {
        return 0;
      }
      ghost var queued := AllOps(pending);
      var ops := NetQueue(authoritative, pending);
      pending := [];
      len := |ops|;
      EnqueueOps(ops, wall, 0);
      if WellFormedTable(authoritative) {
        CompactionIsFaithful(authoritative, queued);
        CompactionConvergesEverywhere(authoritative, queued);
      }
    }

    // ── overlay reads ────────────────────────────────────────────────────────

    /** `overlay_row`: the row as this device should display it. */
    method OverlayRow(key: Key) returns (row: Option<Row>)
      ensures row == Live(Shown(key))
      ensures if Shown(key).Some? && !Shown(key).value.deleted then row == Shown(key) else row.None?
    {
      row := Get(authoritative, key);
      for i := 0 to |pending|
        invariant row == Overlay(authoritative, AllOps(pending[..i]), key)
      {
        AllOpsPrefix(pending, i);
        row := FoldBatch(authoritative, AllOps(pending[..i]), pending[i].ops, key, row);
      }
      assert pending[..|pending|] == pending;
      row := Live(row);
    }

    /** `overlay_rows`: all live rows of a kind in one pass over the queue. It agrees with reading the
        rows one by one: an id is listed exactly when its row is shown, with that row. */
    method OverlayRows(kind: string) returns (out: map<string, Row>)
      ensures forall id :: Get(out, id) == Live(Shown(Key(kind, id)))
    {
      var rows := map key | key in authoritative && key.kind == kind :: key.id := authoritative[key];
      assert forall id :: id in rows <==> Key(kind, id) in authoritative;
      for i := 0 to |pending|
        invariant RowsOf(authoritative, kind, AllOps(pending[..i]), rows)
      {
        var ops := pending[i].ops;
        AllOpsPrefix(pending, i);
        ghost var before := AllOps(pending[..i]);
        assert before == before + ops[..0];
        for j := 0 to |ops|
          invariant RowsOf(authoritative, kind, before + ops[..j], rows)
        {
          var op := ops[j];
          RowsOfStep(authoritative, kind, before + ops[..j], op, rows);
          assert before + ops[..j + 1] == (before + ops[..j]) + [op];
          if op.key.kind == kind {
            var next, _ := ApplyOp(Get(rows, op.key.id), op);
            if next.Some? {
              rows := rows[op.key.id := next.value];
            }
          }
        }
        assert ops[..|ops|] == ops;
      }
      assert pending[..|pending|] == pending;
      out := map id | id in rows && !rows[id].deleted :: rows[id];
      forall id ensures Get(out, id) == Live(Shown(Key(kind, id))) {
        assert Get(rows, id) == Shown(Key(kind, id));
      }
    }
  }

  // ── loops over the queue that touch no state ───────────────────────────────

  lemma {:induction false} PushableSnoc(batches: seq<Batch>, b: Batch)
    ensures Pushable(batches + [b]) == Pushable(batches) + ToPush(b)
  {
    if batches == [] {
      assert [] + [b] == [b] && [b][1..] == [];
      assert Pushable([b]) == ToPush(b) + [];
    } else {
      assert (batches + [b])[1..] == batches[1..] + [b];
      PushableSnoc(batches[1..], b);
    }
  }

  /** The loop of `take_pushable`: the batches to push, and the queue with all of them in flight. */
  method HandOut(batches: seq<Batch>) returns (out: seq<Batch>, after: seq<Batch>)
    ensures out == Pushable(batches) && after == WithFlight(batches, true)
  {
    out, after := [], [];
    for i := 0 to |batches|
      invariant out == Pushable(batches[..i])
      invariant |after| == i && forall j :: 0 <= j < i ==> after[j] == batches[j].(inFlight := true)
    {
      var batch := batches[i];
      PushableSnoc(batches[..i], batch);
      assert batches[..i + 1] == batches[..i] + [batch];
      if !batch.inFlight {
        batch := batch.(inFlight := true);
        out := out + [batch];
      }
      after := after + [batch];
    }
    assert batches[..|batches|] == batches;
  }

  method Recall(batches: seq<Batch>) returns (after: seq<Batch>)
    ensures after == WithFlight(batches, false)
  {
    after := [];
    for i := 0 to |batches|
      invariant |after| == i && forall j :: 0 <= j < i ==> after[j] == batches[j].(inFlight := false)
    {
      after := after + [batches[i].(inFlight := false)];
    }
  }

  /** `Vec::retain` on the batch id. */
  method Retain(batches: seq<Batch>, id: Tick) returns (kept: seq<Batch>)
    ensures kept == Without(batches, id)
  {
    kept := [];
    for i := 0 to |batches|
      invariant kept == Without(batches[..i], id)
    {
      WithoutConcat(batches[..i], [batches[i]], id);
      assert batches[..i + 1] == batches[..i] + [batches[i]];
      assert [batches[i]][1..] == [];
      if batches[i].id != id {
        kept := kept + [batches[i]];
      }
    }
    assert batches[..|batches|] == batches;
  }

  /** Rows indexed by key, the last one winning. */
  method Indexed(rows: seq<Row>) returns (table: Table)
    ensures table == PutAll(map[], rows)
  {
    table := map[];
    for i := 0 to |rows|
      invariant table == PutAll(map[], rows[..i])
    {
      PutAllSnoc(map[], rows[..i], rows[i]);
      assert rows[..i + 1] == rows[..i] + [rows[i]];
      table := table[rows[i].key := rows[i]];
    }
    assert rows[..|rows|] == rows;
  }

  /** The op kept for one row: the seed of its net state, or its own ops when they never found a row. */
  ghost function FromNetRow(queued: seq<RowOp>, net: Net, key: Key): seq<RowOp> {
    if key in net.rows && net.rows[key].Some? then [SeedOp(net.rows[key].value)] else OpsFor(queued, key)
  }

  ghost function FromNet(queued: seq<RowOp>, net: Net, keys: seq<Key>): seq<RowOp> {
    if keys == [] then [] else FromNet(queued, net, keys[..|keys| - 1]) + FromNetRow(queued, net, keys[|keys| - 1])
  }

  lemma FromNetSnoc(queued: seq<RowOp>, net: Net, keys: seq<Key>, key: Key)
    ensures FromNet(queued, net, keys + [key]) == FromNet(queued, net, keys) + FromNetRow(queued, net, key)
  {
    assert (keys + [key])[..|keys + [key]| - 1] == keys;
  }

  lemma {:induction false} FromNetIsCollapsed(table: Table, queued: seq<RowOp>, net: Net, keys: seq<Key>)
    requires forall key <- keys :: key in net.rows && net.rows[key] == Overlay(table, queued, key)
    ensures FromNet(queued, net, keys) == CollapsedAll(table, queued, keys)
  {
    if keys != [] {
      assert keys == keys[..|keys| - 1] + [keys[|keys| - 1]];
      FromNetIsCollapsed(table, queued, net, keys[..|keys| - 1]);
      assert keys[|keys| - 1] in keys;
    }
  }

  method OpsOfRow(queued: seq<RowOp>, net: Net, key: Key) returns (kept: seq<RowOp>)
    ensures kept == FromNetRow(queued, net, key)
  {
    if key in net.rows && net.rows[key].Some? {
      var op := RowToSeedOp(net.rows[key].value);
      kept := [op];
    } else {
      kept := OpsFor(queued, key);
    }
  }

  /** The loop of `compact_pending` over the touched rows. */
  method NetOps(queued: seq<RowOp>, net: Net) returns (ops: seq<RowOp>)
    ensures ops == FromNet(queued, net, net.order)
  {
    ops := [];
    for i := 0 to |net.order|
      invariant ops == FromNet(queued, net, net.order[..i])
    {
      FromNetSnoc(queued, net, net.order[..i], net.order[i]);
      assert net.order[..i + 1] == net.order[..i] + [net.order[i]];
      var kept := OpsOfRow(queued, net, net.order[i]);
      ops := ops + kept;
    }
    assert net.order[..|net.order|] == net.order;
  }

  /** The loops of `compact_pending`: net rows, then the ops that stand for them. */
  method NetQueue(table: Table, batches: seq<Batch>) returns (ops: seq<RowOp>)
    requires Keyed(table)
    ensures ops == Compacted(table, AllOps(batches)) && |ops| <= |AllOps(batches)|
  {
    ghost var queued := AllOps(batches);
    var net := NetRows(table, batches);
    NetIsOverlay(table, queued);
    ops := NetOps(AllOps(batches), net);
    FromNetIsCollapsed(table, queued, net, net.order);
    CompactionShrinks(table, queued);
  }

  /** The loops of `compact_pending` over the queue: net rows, and the rows in first-touch order. */
  method NetRows(table: Table, batches: seq<Batch>) returns (net: Net)
    ensures net == NetState(table, AllOps(batches))
  {
    net := Net(map[], []);
    for i := 0 to |batches|
      invariant net == NetState(table, AllOps(batches[..i]))
    {
      AllOpsPrefix(batches, i);
      net := NetOfBatch(table, AllOps(batches[..i]), batches[i].ops, net);
    }
    assert batches[..|batches|] == batches;
  }

  method NetOfOp(table: Table, net0: Net, op: RowOp) returns (net: Net)
    ensures net == NetStep(table, net0, op)
  {
    var slot := Get(table, op.key);
    var order := net0.order;
    if op.key in net0.rows {
      slot := net0.rows[op.key];
    } else {
      order := order + [op.key];
    }
    var next, _ := ApplyOp(slot, op);
    net := Net(net0.rows[op.key := next], order);
  }

  method NetOfBatch(table: Table, ghost before: seq<RowOp>, ops: seq<RowOp>, net0: Net) returns (net: Net)
    requires net0 == NetState(table, before)
    ensures net == NetState(table, before + ops)
  {
    net := net0;
    ghost var done := before;
    for j := 0 to |ops|
      invariant net == NetState(table, done)
      invariant done == before + ops[..j]
    {
      NetStateSnoc(table, done, ops[j]);
      net := NetOfOp(table, net, ops[j]);
      done := done + [ops[j]];
      assert ops[..j + 1] == ops[..j] + [ops[j]];
    }
    assert ops[..|ops|] == ops;
  }

  // ── folding ops into rows ──────────────────────────────────────────────────

  /** The ops a batch holds for one row, folded into it. */
  method FoldBatch(ghost table: Table, ghost before: seq<RowOp>, ops: seq<RowOp>, key: Key, row0: Option<Row>)
    returns (row: Option<Row>)
    requires row0 == Overlay(table, before, key)
    ensures row == Overlay(table, before + ops, key)
  {
    row := row0;
    ghost var done := before;
    for j := 0 to |ops|
      invariant row == Overlay(table, done, key)
      invariant done == before + ops[..j]
    {
      OverlaySnoc(table, done, ops[j], key);
      if ops[j].key == key {
        var next, _ := ApplyOp(row, ops[j]);
        if next.Some? {
          row := next;
        }
      }
      done := done + [ops[j]];
      assert ops[..j + 1] == ops[..j] + [ops[j]];
    }
    assert ops[..|ops|] == ops;
  }

  lemma OverlaySnoc(table: Table, done: seq<RowOp>, op: RowOp, key: Key)
    ensures Overlay(table, done + [op], key) ==
            if op.key == key then Apply(Overlay(table, done, key), op).row else Overlay(table, done, key)
    ensures Overlay(table, done, key).Some? ==> Apply(Overlay(table, done, key), op).row.Some?
  {
    OpsForSnoc(done, op, key);
    if op.key == key {
      ReplaySnoc(Get(table, key), OpsFor(done, key), op);
    } else {
      assert OpsFor(done, key) + [] == OpsFor(done, key);
    }
  }

  /** `rows` is the overlay of every row of the kind after the ops in `done`. */
  ghost predicate RowsOf(table: Table, kind: string, done: seq<RowOp>, rows: map<string, Row>) {
    forall id :: Get(rows, id) == Overlay(table, done, Key(kind, id))
  }

  lemma RowsOfStep(table: Table, kind: string, done: seq<RowOp>, op: RowOp, rows: map<string, Row>)
    requires RowsOf(table, kind, done, rows)
    ensures op.key.kind != kind ==> RowsOf(table, kind, done + [op], rows)
    ensures op.key.kind == kind ==>
              var next := Apply(Get(rows, op.key.id), op).row;
              RowsOf(table, kind, done + [op], if next.Some? then rows[op.key.id := next.value] else rows)
  {
    var next := Apply(Get(rows, op.key.id), op).row;
    var rows' := if op.key.kind == kind && next.Some? then rows[op.key.id := next.value] else rows;
    forall id ensures Get(rows', id) == Overlay(table, done + [op], Key(kind, id)) {
      OverlaySnoc(table, done, op, Key(kind, id));
      assert Get(rows, id) == Overlay(table, done, Key(kind, id));
      assert op.key == Key(kind, id) <==> op.key.kind == kind && op.key.id == id;
    }
  }

  /** The accumulators of `compact_pending`. */
  datatype Net = Net(rows: map<Key, Option<Row>>, order: seq<Key>)

  ghost function NetStep(table: Table, net: Net, op: RowOp): Net {
    var slot := if op.key in net.rows then net.rows[op.key] else Get(table, op.key);
    Net(net.rows[op.key := Apply(slot, op).row], if op.key in net.rows then net.order else net.order + [op.key])
  }

  ghost function NetState(table: Table, ops: seq<RowOp>): Net {
    if ops == [] then Net(map[], []) else NetStep(table, NetState(table, ops[..|ops| - 1]), ops[|ops| - 1])
  }

  lemma NetStateSnoc(table: Table, done: seq<RowOp>, op: RowOp)
    ensures NetState(table, done + [op]) == NetStep(table, NetState(table, done), op)
  {
    assert (done + [op])[..|done + [op]| - 1] == done;
  }

  /** The accumulators hold the overlay of every touched row. */
  lemma {:induction false} NetIsOverlay(table: Table, ops: seq<RowOp>)
    ensures var net := NetState(table, ops);
            && net.order == Touched(ops)
            && (forall key :: key in net.rows <==> key in net.order)
            && forall key <- net.rows :: net.rows[key] == Overlay(table, ops, key)
  {
    if ops != [] {
      var init, last := ops[..|ops| - 1], ops[|ops| - 1];
      assert ops == init + [last];
      NetIsOverlay(table, init);
      var net := NetState(table, init);
      if last.key !in net.rows {
        UntouchedOps(init, last.key);
      }
      forall key | key in NetState(table, ops).rows
        ensures NetState(table, ops).rows[key] == Overlay(table, ops, key) {
        OverlaySnoc(table, init, last, key);
      }
    }
  }

  lemma UntouchedOps(ops: seq<RowOp>, key: Key)
    requires key !in Touched(ops)
    ensures OpsFor(ops, key) == []
  {
    TouchedKeys(ops);
    OpsForAll(ops, key);
  }

  lemma {:induction false} PushableCovers(batches: seq<Batch>)
    ensures forall b <- batches :: !b.inFlight ==> b.(inFlight := true) in Pushable(batches)
    ensures forall b <- Pushable(batches) :: b.inFlight && b.(inFlight := false) in batches
  {
    if batches != [] {
      PushableCovers(batches[1..]);
    }
  }

  /** Batches are handed out in the order of the queue. */
  lemma {:induction false} PushableInOrder(batches: seq<Batch>)
    requires Increasing(batches)
    ensures Increasing(Pushable(batches))
  {
    if batches != [] {
      var rest := Pushable(batches[1..]);
      PushableInOrder(batches[1..]);
      PushableCovers(batches[1..]);
      forall b | b in rest ensures Before(batches[0].id, b.id) {
        var j :| 0 <= j < |batches[1..]| && batches[1..][j] == b.(inFlight := false);
        assert batches[j + 1] == batches[1..][j];
      }
    }
  }

  lemma {:induction false} SameOps(a: seq<Batch>, b: seq<Batch>)
    requires |a| == |b| && forall i :: 0 <= i < |a| ==> a[i].ops == b[i].ops
    ensures AllOps(a) == AllOps(b)
  {
    if a != [] {
      SameOps(a[1..], b[1..]);
    }
  }
}
