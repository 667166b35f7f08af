/** The queue of unacked op batches, as a value: which ops concern which row, how a long run of ops is
    cut into batches, and what compaction makes of the whole queue
    (crates/doc/src/registry.rs, lines 288-299, 384-425, 595-628). */
module Outbox {
  import opened Hlc
  import opened Merge
  import opened Options
  import opened Compaction
  import opened Arrival
  import Recovery

  /** A batch is named after the clock tick it was queued at (the source writes `b-` and the encoded tick). */
  datatype Batch = Batch(id: Tick, ops: seq<RowOp>, inFlight: bool)

  type Table = map<Key, Row>

  ghost predicate Keyed(table: Table) {
    forall key <- table :: table[key].key == key
  }

  ghost predicate WellFormedTable(table: Table) {
    forall key <- table :: WellFormed(table[key]) && table[key].key == key
  }

  function AllOps(batches: seq<Batch>): seq<RowOp> {
    if batches == [] then [] else batches[0].ops + AllOps(batches[1..])
  }

  lemma {:induction false} AllOpsConcat(a: seq<Batch>, b: seq<Batch>)
    ensures AllOps(a + b) == AllOps(a) + AllOps(b)
  {
    if a == [] {
      assert a + b == b;
    } else {
      assert (a + b)[1..] == a[1..] + b;
      AllOpsConcat(a[1..], b);
    }
  }

  lemma AllOpsPrefix(batches: seq<Batch>, i: nat)
    requires i < |batches|
    ensures AllOps(batches[..i + 1]) == AllOps(batches[..i]) + batches[i].ops
  {
    assert batches[..i + 1] == batches[..i] + [batches[i]];
    AllOpsConcat(batches[..i], [batches[i]]);
    assert AllOps([batches[i]]) == batches[i].ops + AllOps([batches[i]][1..]);
  }

  function OpsFor(ops: seq<RowOp>, key: Key): (r: seq<RowOp>)
    ensures |r| <= |ops|
  {
    if ops == [] then []
    else (if ops[0].key == key then [ops[0]] else []) + OpsFor(ops[1..], key)
  }

  lemma {:induction false} OpsForOwn(ops: seq<RowOp>, key: Key)
    ensures AllOn(OpsFor(ops, key), key)
    ensures forall op <- OpsFor(ops, key) :: op in ops
  {
    if ops != [] {
      OpsForOwn(ops[1..], key);
    }
  }

  lemma {:induction false} OpsForConcat(a: seq<RowOp>, b: seq<RowOp>, key: Key)
    ensures OpsFor(a + b, key) == OpsFor(a, key) + OpsFor(b, key)
  {
    if a == [] {
      assert a + b == b;
    } else {
      assert (a + b)[1..] == a[1..] + b;
      OpsForConcat(a[1..], b, key);
    }
  }

  lemma {:induction false} OpsForAll(ops: seq<RowOp>, key: Key)
    ensures AllOn(ops, key) ==> OpsFor(ops, key) == ops
    ensures (forall op <- ops :: op.key != key) ==> OpsFor(ops, key) == []
  {
    if ops != [] {
      OpsForAll(ops[1..], key);
    }
  }

  lemma OpsForSnoc(ops: seq<RowOp>, op: RowOp, key: Key)
    ensures OpsFor(ops + [op], key) == OpsFor(ops, key) + if op.key == key then [op] else []
  {
    OpsForConcat(ops, [op], key);
    OpsForAll([op], key);
  }

  // ── cutting a run of ops into batches ──────────────────────────────────────

  const MAX_OPS_PER_BATCH: nat := 400

  function FirstChunk(ops: seq<RowOp>): nat {
    if |ops| > MAX_OPS_PER_BATCH then MAX_OPS_PER_BATCH else |ops|
  }

  /** The batches `enqueue_ops` makes of `ops`: full chunks in order, each under a fresh tick. The wall
      clock reads `wall(i)`, `wall(i + 1)`, ... while they are made. */
  function Batches(ops: seq<RowOp>, last: Tick, wall: nat -> int, i: nat): seq<Batch>
    decreases |ops|
  {
    if ops == [] then []
    else
      var tick := Advance(last, wall(i));
      var n := FirstChunk(ops);
      [Batch(tick, ops[..n], false)] + Batches(ops[n..], tick, wall, i + 1)
  }

  function LastTick(batches: seq<Batch>, last: Tick): Tick {
    if batches == [] then last else batches[|batches| - 1].id
  }

  predicate AtMost(a: Tick, b: Tick) {
    a == b || Before(a, b)
  }

  ghost predicate Increasing(batches: seq<Batch>) {
    forall i, j :: 0 <= i < j < |batches| ==> Before(batches[i].id, batches[j].id)
  }

  ghost predicate Sized(batches: seq<Batch>) {
    forall b <- batches :: 1 <= |b.ops| <= 400
  }

  /** No more chunks than needed: all but the last are as large as the server takes them. */
  ghost predicate Filled(batches: seq<Batch>) {
    forall j :: 0 <= j < |batches| - 1 ==> |batches[j].ops| == 400
  }

  /** The chunks concatenate to the ops that were queued, none is empty or over the server's cap, and all but the last
      are full. */
  lemma {:induction false} BatchesAreChunks(ops: seq<RowOp>, last: Tick, wall: nat -> int, i: nat)
    ensures var batches := Batches(ops, last, wall, i);
            AllOps(batches) == ops && Sized(batches) && Filled(batches) && forall b <- batches :: !b.inFlight
    decreases |ops|
  {
    if ops != [] {
      var tick, n := Advance(last, wall(i)), FirstChunk(ops);
      BatchesAreChunks(ops[n..], tick, wall, i + 1);
      assert ops == ops[..n] + ops[n..];
      assert Batches(ops, last, wall, i)[1..] == Batches(ops[n..], tick, wall, i + 1);
    }
  }

  lemma BatchesUnfold(ops: seq<RowOp>, last: Tick, wall: nat -> int, i: nat)
    requires ops != []
    ensures var tick, n := Advance(last, wall(i)), FirstChunk(ops);
            0 < n <= |ops| &&
            Batches(ops, last, wall, i) == [Batch(tick, ops[..n], false)] + Batches(ops[n..], tick, wall, i + 1)
  {
  }

  ghost predicate BatchesAfter(batches: seq<Batch>, last: Tick) {
    && Increasing(batches)
    && (forall b <- batches :: Before(last, b.id) && AtMost(b.id, LastTick(batches, last)))
    && LastTick(batches, last).counter < COUNTER_LIMIT
    && AtMost(last, LastTick(batches, last))
  }

  lemma BatchesAfterCons(b: Batch, rest: seq<Batch>, last: Tick)
    requires Before(last, b.id) && b.id.counter < COUNTER_LIMIT && BatchesAfter(rest, b.id)
    ensures BatchesAfter([b] + rest, last) && LastTick([b] + rest, last) == LastTick(rest, b.id)
  {
    var batches := [b] + rest;
    assert LastTick(batches, last) == LastTick(rest, b.id);
    forall i, j | 0 <= i < j < |batches| ensures Before(batches[i].id, batches[j].id) {
      assert batches[j] == rest[j - 1];
      if i > 0 { assert batches[i] == rest[i - 1]; }
    }
  }

  /** Every chunk gets a tick of its own, later than every tick before it. */
  lemma {:induction false} BatchesAreFresh(ops: seq<RowOp>, last: Tick, wall: nat -> int, i: nat)
    requires last.counter < COUNTER_LIMIT
    ensures BatchesAfter(Batches(ops, last, wall, i), last)
    decreases |ops|
  {
    if ops != [] {
      var tick, n := Advance(last, wall(i)), FirstChunk(ops);
      BatchesAreFresh(ops[n..], tick, wall, i + 1);
      BatchesAfterCons(Batch(tick, ops[..n], false), Batches(ops[n..], tick, wall, i + 1), last);
    }
  }

  // ── compacting the whole queue ─────────────────────────────────────────────

  ghost predicate Touches(ops: seq<RowOp>, key: Key) {
    exists op <- ops :: op.key == key
  }

  /** The rows a run of ops touches, in the order they are first touched. */
  function Touched(ops: seq<RowOp>): seq<Key> {
    if ops == [] then []
    else
      var keys := Touched(ops[..|ops| - 1]);
      if ops[|ops| - 1].key in keys then keys else keys + [ops[|ops| - 1].key]
  }

  ghost predicate NoRepeats(keys: seq<Key>) {
    forall i, j :: 0 <= i < j < |keys| ==> keys[i] != keys[j]
  }

  lemma {:induction false} TouchedKeys(ops: seq<RowOp>)
    ensures NoRepeats(Touched(ops))
    ensures forall key :: key in Touched(ops) <==> Touches(ops, key)
  {
    if ops != [] {
      var init, last := ops[..|ops| - 1], ops[|ops| - 1];
      assert ops == init + [last];
      TouchedKeys(init);
      forall key ensures Touches(ops, key) <==> Touches(init, key) || key == last.key {
        assert last in ops;
      }
    }
  }

  /** The ops compaction keeps for one row: the seed of its net state, or the ops themselves when they
      never found a row. */
  ghost function Collapsed(table: Table, ops: seq<RowOp>, key: Key): seq<RowOp> {
    match Replay(Get(table, key), OpsFor(ops, key))
    case Some(row) => [SeedOp(row)]
    case None => OpsFor(ops, key)
  }

  ghost function CollapsedAll(table: Table, ops: seq<RowOp>, keys: seq<Key>): seq<RowOp> {
    if keys == [] then []
    else CollapsedAll(table, ops, keys[..|keys| - 1]) + Collapsed(table, ops, keys[|keys| - 1])
  }

  ghost function Compacted(table: Table, ops: seq<RowOp>): seq<RowOp> {
    CollapsedAll(table, ops, Touched(ops))
  }

  lemma {:induction false} ReplayKeepsKey(slot: Option<Row>, ops: seq<RowOp>, key: Key)
    requires AllOn(ops, key) && (slot.Some? ==> slot.value.key == key)
    ensures var now := Replay(slot, ops); now.Some? ==> now.value.key == key
    ensures slot.Some? ==> Replay(slot, ops).Some?
    decreases |ops|
  {
    if ops != [] {
      ReplayKeepsKey(Apply(slot, ops[0]).row, ops[1..], key);
    }
  }

  lemma CollapsedIsOwn(table: Table, ops: seq<RowOp>, key: Key)
    requires Keyed(table)
    ensures AllOn(Collapsed(table, ops, key), key)
    ensures (Touches(ops, key)) ==> 1 <= |Collapsed(table, ops, key)| <= |OpsFor(ops, key)|
  {
    OpsForOwn(ops, key);
    ReplayKeepsKey(Get(table, key), OpsFor(ops, key), key);
    if op :| op in ops && op.key == key {
      OwnOpsExist(ops, op);
    }
  }

  lemma {:induction false} OwnOpsExist(ops: seq<RowOp>, op: RowOp)
    requires op in ops
    ensures op in OpsFor(ops, op.key)
  {
    if ops[0] != op {
      OwnOpsExist(ops[1..], op);
    }
  }

  lemma {:induction false} CollapsedAllFor(table: Table, ops: seq<RowOp>, keys: seq<Key>, key: Key)
    requires Keyed(table)
    requires NoRepeats(keys)
    ensures OpsFor(CollapsedAll(table, ops, keys), key) == if key in keys then Collapsed(table, ops, key) else []
  {
    if keys != [] {
      var init, last := keys[..|keys| - 1], keys[|keys| - 1];
      assert keys == init + [last];
      CollapsedAllFor(table, ops, init, key);
      OpsForConcat(CollapsedAll(table, ops, init), Collapsed(table, ops, last), key);
      CollapsedIsOwn(table, ops, last);
      OpsForAll(Collapsed(table, ops, last), key);
    }
  }

  /** What compaction leaves for each row, nothing for the rows it did not touch. */
  lemma CompactedFor(table: Table, ops: seq<RowOp>, key: Key)
    requires Keyed(table)
    ensures OpsFor(Compacted(table, ops), key) ==
            if Touches(ops, key) then Collapsed(table, ops, key) else []
  {
    TouchedKeys(ops);
    CollapsedAllFor(table, ops, Touched(ops), key);
  }

  ghost function TotalOps(ops: seq<RowOp>, keys: seq<Key>): nat {
    if keys == [] then 0 else TotalOps(ops, keys[..|keys| - 1]) + |OpsFor(ops, keys[|keys| - 1])|
  }

  lemma {:induction false} TotalOpsSnoc(ops: seq<RowOp>, op: RowOp, keys: seq<Key>)
    requires NoRepeats(keys)
    ensures TotalOps(ops + [op], keys) == TotalOps(ops, keys) + if op.key in keys then 1 else 0
  {
    if keys != [] {
      assert keys == keys[..|keys| - 1] + [keys[|keys| - 1]];
      TotalOpsSnoc(ops, op, keys[..|keys| - 1]);
      OpsForSnoc(ops, op, keys[|keys| - 1]);
    }
  }

  lemma {:induction false} TotalOpsBound(ops: seq<RowOp>, keys: seq<Key>)
    requires NoRepeats(keys)
    ensures TotalOps(ops, keys) <= |ops|
  {
    if ops == [] {
      NoOps(keys);
    } else {
      assert ops == ops[..|ops| - 1] + [ops[|ops| - 1]];
      TotalOpsBound(ops[..|ops| - 1], keys);
      TotalOpsSnoc(ops[..|ops| - 1], ops[|ops| - 1], keys);
    }
  }

  lemma {:induction false} NoOps(keys: seq<Key>)
    ensures TotalOps([], keys) == 0
  {
    if keys != [] {
      NoOps(keys[..|keys| - 1]);
    }
  }

  lemma {:induction false} CollapsedAllSize(table: Table, ops: seq<RowOp>, keys: seq<Key>)
    requires Keyed(table) && forall key <- keys :: Touches(ops, key)
    ensures |keys| <= |CollapsedAll(table, ops, keys)| <= TotalOps(ops, keys)
  {
    if keys != [] {
      assert keys == keys[..|keys| - 1] + [keys[|keys| - 1]];
      CollapsedAllSize(table, ops, keys[..|keys| - 1]);
      CollapsedIsOwn(table, ops, keys[|keys| - 1]);
    }
  }

  /** Compaction never makes the queue longer, and never empties it. */
  lemma CompactionShrinks(table: Table, ops: seq<RowOp>)
    requires Keyed(table)
    ensures |Touched(ops)| <= |Compacted(table, ops)| <= |ops|
  {
    TouchedKeys(ops);
    CollapsedAllSize(table, ops, Touched(ops));
    TotalOpsBound(ops, Touched(ops));
  }

  // ── what a reader sees ─────────────────────────────────────────────────────

  /** The row slot after the queued ops: server truth plus every op queued for the row, in order. */
  ghost function Overlay(table: Table, ops: seq<RowOp>, key: Key): Option<Row> {
    Replay(Get(table, key), OpsFor(ops, key))
  }

  function Live(slot: Option<Row>): Option<Row> {
    if slot.Some? && !slot.value.deleted then slot else None
  }

  /** The net state of the row holds up against the server row, if the row exists at all. */
  ghost predicate NetHoldsUp(table: Table, ops: seq<RowOp>, key: Key) {
    var now := Overlay(table, ops, key);
    now.None? || (WellFormed(now.value) && HoldsUp(Get(table, key), now.value))
  }

  /** What the collapsed queue does on any table: one seed on the row, if the net row exists. */
  lemma CompactedOverlay(table: Table, server: Table, ops: seq<RowOp>, key: Key)
    requires Keyed(table)
    ensures Overlay(server, Compacted(table, ops), key) ==
            if Touches(ops, key) && Overlay(table, ops, key).Some?
            then Apply(Get(server, key), SeedOp(Overlay(table, ops, key).value)).row
            else Overlay(server, ops, key)
  {
    CompactedFor(table, ops, key);
    if Touches(ops, key) && Overlay(table, ops, key).Some? {
      var seed := SeedOp(Overlay(table, ops, key).value);
      ReplayThree(Get(server, key), seed, seed, seed);
    } else if !Touches(ops, key) {
      OpsForAll(ops, key);
    }
  }

  /** Compaction is invisible for a row exactly when its net state holds up against the server row, whatever
      is queued. */
  lemma CompactionIsInvisible(table: Table, ops: seq<RowOp>, key: Key)
    requires WellFormedTable(table)
    ensures ViewOf(Overlay(table, Compacted(table, ops), key)) == ViewOf(Overlay(table, ops, key)) <==>
            NetHoldsUp(table, ops, key)
  {
    CompactedOverlay(table, table, ops, key);
    OpsForOwn(ops, key);
    if Touches(ops, key) && Overlay(table, ops, key).Some? {
      CollapsedRow(Get(table, key), OpsFor(ops, key), key);
    } else if !Touches(ops, key) {
      OpsForAll(ops, key);
      UntouchedHoldsUp(table, ops, key);
    }
  }

  lemma UntouchedHoldsUp(table: Table, ops: seq<RowOp>, key: Key)
    requires WellFormedTable(table) && OpsFor(ops, key) == []
    ensures NetHoldsUp(table, ops, key)
  {
  }

  // ── what the server makes of it ────────────────────────────────────────────

  /** The collapsed queue does on the server's row what the queue would have done. */
  ghost predicate ConvergesOn(server: Table, table: Table, ops: seq<RowOp>, key: Key) {
    var net := Overlay(table, ops, key);
    !Touches(ops, key) || net.None? ||
    (WellFormed(net.value) && Converges(Get(server, key), OpsFor(ops, key), net.value))
  }

  /** Whatever rows the server holds when the queue reaches it: it ends up showing for a row what the queue
      would have made it show exactly if `ConvergesOn`. */
  lemma ServerConverges(table: Table, server: Table, ops: seq<RowOp>, key: Key)
    requires WellFormedTable(table) && WellFormedTable(server) && InTurn(OpsFor(ops, key))
    ensures ViewOf(Overlay(server, Compacted(table, ops), key)) == ViewOf(Overlay(server, ops, key)) <==>
            ConvergesOn(server, table, ops, key)
  {
    CompactedOverlay(table, server, ops, key);
    OpsForOwn(ops, key);
    if Touches(ops, key) && Overlay(table, ops, key).Some? {
      ReplayKeepsWellFormed(Get(table, key), OpsFor(ops, key), key);
      CompactionConverges(Get(server, key), OpsFor(ops, key), Overlay(table, ops, key).value, key);
    }
  }

  /** The same for every server and every row. */
  ghost predicate ConvergesEverywhere(table: Table, ops: seq<RowOp>, after: seq<RowOp>) {
    forall server: Table, key |
      WellFormedTable(server) && InTurn(OpsFor(ops, key)) ::
      ViewOf(Overlay(server, after, key)) == ViewOf(Overlay(server, ops, key)) <==> ConvergesOn(server, table, ops, key)
  }

  lemma CompactionConvergesEverywhere(table: Table, ops: seq<RowOp>)
    requires WellFormedTable(table)
    ensures ConvergesEverywhere(table, ops, Compacted(table, ops))
  {
    forall server: Table, key | WellFormedTable(server) && InTurn(OpsFor(ops, key))
      ensures ViewOf(Overlay(server, Compacted(table, ops), key)) == ViewOf(Overlay(server, ops, key)) <==>
              ConvergesOn(server, table, ops, key)
    {
      ServerConverges(table, server, ops, key);
    }
  }

  /** For a queue as the replica builds them, that is: exactly when the net state has every field of the live
      server row, or is newer than the server's tombstone. */
  lemma QueueIsInvisible(table: Table, ops: seq<RowOp>, key: Key)
    requires WellFormedTable(table) && Queue(OpsFor(ops, key), key)
    ensures NetHoldsUp(table, ops, key) <==> KeepsEveryField(Get(table, key), Overlay(table, ops, key))
  {
    var slot, own := Get(table, key), OpsFor(ops, key);
    if Replay(slot, own).Some? {
      QueueHoldsUp(slot, own, key);
    }
  }

  /** Row by row, what compaction shows afterwards. */
  ghost predicate CompactionFaithful(table: Table, ops: seq<RowOp>, after: seq<RowOp>) {
    forall key ::
      && (ViewOf(Overlay(table, after, key)) == ViewOf(Overlay(table, ops, key)) <==> NetHoldsUp(table, ops, key))
      && (Queue(OpsFor(ops, key), key) ==>
            (NetHoldsUp(table, ops, key) <==> KeepsEveryField(Get(table, key), Overlay(table, ops, key))))
  }

  lemma CompactionIsFaithful(table: Table, ops: seq<RowOp>)
    requires WellFormedTable(table)
    ensures CompactionFaithful(table, ops, Compacted(table, ops))
  {
    forall key
      ensures ViewOf(Overlay(table, Compacted(table, ops), key)) == ViewOf(Overlay(table, ops, key)) <==>
              NetHoldsUp(table, ops, key)
      ensures Queue(OpsFor(ops, key), key) ==>
                (NetHoldsUp(table, ops, key) <==> KeepsEveryField(Get(table, key), Overlay(table, ops, key)))
    {
      CompactionIsInvisible(table, ops, key);
      if Queue(OpsFor(ops, key), key) {
        QueueIsInvisible(table, ops, key);
      }
    }
  }

  // ── queues as the replica builds them ──────────────────────────────────────

  /** Local writes, row by row with rising stamps. */
  ghost predicate Rising(ops: seq<RowOp>) {
    && (forall op <- ops :: op.clocks.None?)
    && forall i, j :: 0 <= i < j < |ops| && ops[i].key == ops[j].key ==> ops[i].hlc < ops[j].hlc
  }

  /** The ops of one row keep the order they were queued in. */
  lemma {:induction false} RisingFor(ops: seq<RowOp>, key: Key)
    requires Rising(ops)
    ensures Rising(OpsFor(ops, key)) && AllOn(OpsFor(ops, key), key)
  {
    OpsForOwn(ops, key);
    if ops != [] {
      var n := |ops| - 1;
      RisingFor(ops[..n], key);
      assert ops[..n] + [ops[n]] == ops;
      OpsForSnoc(ops[..n], ops[n], key);
      OpsForOwn(ops[..n], key);
      forall q | q in OpsFor(ops[..n], key) ensures q.hlc < ops[n].hlc || ops[n].key != key {
        var i :| 0 <= i < n && ops[i] == q;
      }
    }
  }

  /** One op, or ops without a delete, in front of local writes make a queue in order. */
  lemma InFrontOfWrites(head: seq<RowOp>, more: seq<RowOp>, key: Key)
    requires AllOn(head, key) && AllOn(more, key) && Rising(more)
    requires |head| <= 1 || forall op <- head :: op.op != Delete
    ensures Queue(head + more, key)
  {
    var ops := head + more;
    forall i | 0 <= i < |ops| && ops[i].op == Delete ensures |head| <= i + 1 {
      if i < |head| {
        assert ops[i] in head;
      }
    }
  }

  lemma {:induction false} OnlyUpdatesFindNoRow(slot: Option<Row>, ops: seq<RowOp>)
    requires Replay(slot, ops).None?
    ensures forall op <- ops :: op.op != Delete
    decreases |ops|
  {
    if ops != [] {
      OnlyUpdatesFindNoRow(Apply(slot, ops[0]).row, ops[1..]);
      if ops[0].op == Delete {
        RowsStay(Apply(slot, ops[0]).row, ops[1..]);
      }
    }
  }

  lemma {:induction false} RowsStay(slot: Option<Row>, ops: seq<RowOp>)
    requires slot.Some?
    ensures Replay(slot, ops).Some?
    decreases |ops|
  {
    if ops != [] {
      RowsStay(Apply(slot, ops[0]).row, ops[1..]);
    }
  }

  /** Local writes alone, and local writes behind any queue that has been compacted, make such a queue; so
      compaction may be repeated at will, with writes in between. */
  lemma WritesAfterCompaction(table: Table, ops: seq<RowOp>, more: seq<RowOp>, key: Key)
    requires Keyed(table) && Rising(more)
    ensures Queue(OpsFor(more, key), key)
    ensures Queue(OpsFor(Compacted(table, ops) + more, key), key)
  {
    RisingFor(more, key);
    InFrontOfWrites([], OpsFor(more, key), key);
    assert [] + OpsFor(more, key) == OpsFor(more, key);
    OpsForConcat(Compacted(table, ops), more, key);
    CompactedFor(table, ops, key);
    CollapsedIsOwn(table, ops, key);
    OpsForOwn(ops, key);
    var head := OpsFor(Compacted(table, ops), key);
    if Touches(ops, key) && Replay(Get(table, key), OpsFor(ops, key)).None? {
      OnlyUpdatesFindNoRow(Get(table, key), OpsFor(ops, key));
    }
    InFrontOfWrites(head, OpsFor(more, key), key);
  }

  /** Local writes are such a queue. */
  lemma WritesAreInTurn(table: Table, more: seq<RowOp>, key: Key)
    requires Recovery.LocalWrites(Get(table, key), OpsFor(more, key), key)
    ensures InTurn(OpsFor(more, key))
  {
    LocalInTurn(Get(table, key), OpsFor(more, key), key);
  }

  /** And so are local writes behind a queue that has been compacted. */
  lemma CompactedIsInTurn(table: Table, ops: seq<RowOp>, more: seq<RowOp>, key: Key)
    requires WellFormedTable(table) && Touches(ops, key) && Queue(OpsFor(ops, key), key) && Overlay(table, ops, key).Some?
    requires Recovery.LocalWrites(Get(table, key), OpsFor(more, key), key)
    requires Recovery.LocalWrites(Overlay(table, ops, key), OpsFor(more, key), key)
    ensures InTurn(OpsFor(Compacted(table, ops) + more, key))
  {
    CompactedFor(table, ops, key);
    OpsForConcat(Compacted(table, ops), more, key);
    NetDescends(table, ops, key);
    SeedThenWrites(Get(table, key), Overlay(table, ops, key).value, OpsFor(more, key), key);
  }

  lemma NetDescends(table: Table, ops: seq<RowOp>, key: Key)
    requires WellFormedTable(table) && Queue(OpsFor(ops, key), key) && Overlay(table, ops, key).Some?
    ensures WellFormedSlot(Overlay(table, ops, key), key)
    ensures key in table ==> Descends(table[key], Overlay(table, ops, key).value)
  {
    ReplayKeepsWellFormed(Get(table, key), OpsFor(ops, key), key);
    if key in table {
      ReplayDescends(table[key], OpsFor(ops, key), key);
    }
  }
}
