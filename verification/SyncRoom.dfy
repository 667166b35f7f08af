/** The registry room a replica talks to, and the link between them: `hello`/`state`, `push`/`ack` and
    `rows` broadcasts (crates/sync-server/src/registry.rs, lines 86-156; crates/sync-server/src/lib.rs,
    lines 478-583; crates/doc/src/registry.rs, lines 472-559). */
module SyncRoom {
  import opened Merge
  import opened Options
  import opened Delivery
  import opened Outbox
  import opened Registry

  // ── merging a batch ────────────────────────────────────────────────────────

  /** One op against the row table; a changed row is stamped with the batch's sequence number. */
  ghost function PushOp(table: Table, op: RowOp, stamp: nat): Table {
    var next := Apply(Get(table, op.key), op);
    if next.changed && next.row.Some? then table[op.key := next.row.value.(version := stamp)] else table
  }

  ghost function PushAll(table: Table, ops: seq<RowOp>, stamp: nat): Table
    decreases |ops|
  {
    if ops == [] then table else PushAll(PushOp(table, ops[0], stamp), ops[1..], stamp)
  }

  lemma {:induction false} PushAllSnoc(table: Table, ops: seq<RowOp>, op: RowOp, stamp: nat)
    ensures PushAll(table, ops + [op], stamp) == PushOp(PushAll(table, ops, stamp), op, stamp)
    decreases |ops|
  {
    if ops == [] {
      assert [] + [op] == [op] && [op][1..] == [];
      assert PushAll(table, [op], stamp) == PushAll(PushOp(table, op, stamp), [], stamp);
    } else {
      assert (ops + [op])[1..] == ops[1..] + [op];
      PushAllSnoc(PushOp(table, ops[0], stamp), ops[1..], op, stamp);
    }
  }

  /** Row by row, the room is a fold of `apply_op`: pushing a batch replays each row's own ops on it. */
  lemma {:induction false} PushIsReplay(table: Table, ops: seq<RowOp>, stamp: nat, key: Key)
    ensures SameContent(Get(PushAll(table, ops, stamp), key), Replay(Get(table, key), OpsFor(ops, key)))
    decreases |ops|
  {
    if ops != [] {
      var next := PushOp(table, ops[0], stamp);
      PushIsReplay(next, ops[1..], stamp, key);
      if ops[0].key == key {
        var slot := Get(table, key);
        assert SameContent(Get(next, key), Apply(slot, ops[0]).row) by {
          UnchangedMeansSame(slot, ops[0]);
        }
        ReplayIgnoresVersion(Get(next, key), Apply(slot, ops[0]).row, OpsFor(ops[1..], key));
        assert OpsFor(ops, key)[1..] == OpsFor(ops[1..], key);
      } else {
        assert OpsFor(ops, key) == OpsFor(ops[1..], key);
      }
    }
  }

  lemma UnchangedMeansSame(slot: Option<Row>, op: RowOp)
    ensures !Apply(slot, op).changed ==> Apply(slot, op).row == slot
    ensures Apply(slot, op).changed ==> Apply(slot, op).row.Some?
  {
  }

  /** A pushed batch touches no row but with its stamp. */
  lemma {:induction false} PushStampsChanges(table: Table, ops: seq<RowOp>, stamp: nat)
    ensures table.Keys <= PushAll(table, ops, stamp).Keys
    ensures forall key <- PushAll(table, ops, stamp) ::
              PushAll(table, ops, stamp)[key].version == stamp || Get(table, key) == Some(PushAll(table, ops, stamp)[key])
    decreases |ops|
  {
    if ops != [] {
      PushStampsChanges(PushOp(table, ops[0], stamp), ops[1..], stamp);
    }
  }

  lemma {:induction false} PushKeepsTable(table: Table, ops: seq<RowOp>, stamp: nat)
    requires WellFormedTable(table)
    ensures WellFormedTable(PushAll(table, ops, stamp))
    decreases |ops|
  {
    if ops != [] {
      var op := ops[0];
      ApplyKeepsWellFormed(Get(table, op.key), op);
      PushKeepsTable(PushOp(table, op, stamp), ops[1..], stamp);
    }
  }

  // ── delivering a batch twice ───────────────────────────────────────────────

  /** After a first delivery of `ops` and any later ops, nothing in the room is older than the batch:
      per row, only the batch's first op may have revived a tombstone, and an update found its row. */
  ghost predicate CleanDelivery(table: Table, ops: seq<RowOp>, later: seq<RowOp>) {
    && (forall op <- ops :: CarriesClock(op))
    && forall key :: OpsFor(ops, key) != [] ==>
         var own, after, slot := OpsFor(ops, key), OpsFor(later, key), Get(table, key);
         (own[0].op == Update ==> slot.Some?) && RevivalFree(Apply(slot, own[0]).row, own[1..] + after)
  }

  /** Batches are re-pushed after a dropped connection; the second delivery leaves every row, and so the
      room's sequence number, as it was. */
  lemma RepushIsNoOp(table: Table, ops: seq<RowOp>, later: seq<RowOp>, s1: nat, s2: nat, s3: nat)
    requires WellFormedTable(table) && CleanDelivery(table, ops, later)
    ensures var now := PushAll(PushAll(table, ops, s1), later, s2); PushAll(now, ops, s3) == now
  {
    var mid := PushAll(table, ops, s1);
    var now := PushAll(mid, later, s2);
    forall op | op in ops ensures !Apply(Get(now, op.key), op).changed {
      var key := op.key;
      var slot, own, after := Get(table, key), OpsFor(ops, key), OpsFor(later, key);
      OwnOpsExist(ops, op);
      OpsForOwn(ops, key);
      OpsForOwn(later, key);
      DeliveredRunSettles(slot, own, after, key);
      var goal := Replay(slot, own + after);
      SettledMeansNoOp(goal, op);
      PushIsReplay(table, ops, s1, key);
      PushIsReplay(mid, later, s2, key);
      ReplayConcat(slot, own, after);
      ReplayIgnoresVersion(Get(mid, key), Replay(slot, own), after);
      SameTrans(Get(now, key), Replay(Get(mid, key), after), goal);
      ApplyIgnoresVersion(Get(now, key), goal, op);
    }
    QuietPush(now, ops, s3);
  }

  lemma SameTrans(a: Option<Row>, b: Option<Row>, c: Option<Row>)
    requires SameContent(a, b) && SameContent(b, c)
    ensures SameContent(a, c)
  {
  }

  lemma {:induction false} QuietPush(table: Table, ops: seq<RowOp>, stamp: nat)
    requires forall op <- ops :: !Apply(Get(table, op.key), op).changed
    ensures PushAll(table, ops, stamp) == table
    decreases |ops|
  {
    if ops != [] {
      QuietPush(table, ops[1..], stamp);
    }
  }

  // ── the room ───────────────────────────────────────────────────────────────

  /** A `rows` broadcast: the merged rows a batch touched. */
  datatype RowsFrame = RowsFrame(stamp: nat, rows: seq<Row>)

  ghost predicate DistinctRows(rows: seq<Row>) {
    forall i, j :: 0 <= i < j < |rows| ==> rows[i].key != rows[j].key
  }

  function FindRow(rows: seq<Row>, key: Key): Option<Row> {
    if rows == [] then None else if rows[0].key == key then Some(rows[0]) else FindRow(rows[1..], key)
  }

  function DropRow(rows: seq<Row>, key: Key): seq<Row> {
    if rows == [] then [] else (if rows[0].key == key then [] else [rows[0]]) + DropRow(rows[1..], key)
  }

  lemma {:induction false} FindRowNone(rows: seq<Row>, key: Key)
    ensures FindRow(rows, key).None? <==> forall row <- rows :: row.key != key
    ensures FindRow(rows, key).Some? ==> FindRow(rows, key).value in rows && FindRow(rows, key).value.key == key
  {
    if rows != [] {
      FindRowNone(rows[1..], key);
    }
  }

  /** What a run of distinct rows laid over a table shows at a key. */
  lemma {:induction false} PutAllAt(table: Table, rows: seq<Row>, key: Key)
    requires DistinctRows(rows)
    ensures Get(PutAll(table, rows), key) == if FindRow(rows, key).Some? then FindRow(rows, key) else Get(table, key)
    decreases |rows|
  {
    if rows != [] {
      PutAllAt(table[rows[0].key := rows[0]], rows[1..], key);
      FindRowNone(rows[1..], key);
    }
  }

  lemma {:induction false} DropRowFacts(rows: seq<Row>, key: Key)
    requires DistinctRows(rows)
    ensures DistinctRows(DropRow(rows, key))
    ensures forall row :: row in DropRow(rows, key) <==> row in rows && row.key != key
    ensures forall k :: FindRow(DropRow(rows, key), k) == if k == key then None else FindRow(rows, k)
  {
    if rows != [] {
      DropRowFacts(rows[1..], key);
      var rest := DropRow(rows[1..], key);
      if rows[0].key != key {
        forall i | 0 <= i < |rest| ensures rest[i].key != rows[0].key {
          assert rest[i] in rows[1..];
          var j :| 0 <= j < |rows[1..]| && rows[1..][j] == rest[i];
          assert rows[j + 1] == rest[i];
        }
        assert DropRow(rows, key) == [rows[0]] + rest && ([rows[0]] + rest)[1..] == rest;
      } else {
        assert DropRow(rows, key) == rest;
      }
    }
  }

  lemma {:induction false} FindRowSnoc(rows: seq<Row>, row: Row, key: Key)
    ensures FindRow(rows + [row], key) ==
            if FindRow(rows, key).Some? then FindRow(rows, key) else if row.key == key then Some(row) else None
  {
    if rows == [] {
      assert [] + [row] == [row] && [row][1..] == [];
    } else {
      assert (rows + [row])[1..] == rows[1..] + [row];
      FindRowSnoc(rows[1..], row, key);
    }
  }

  /** The touched rows stand for the pushed table. */
  ghost predicate Stands(table: Table, touched: seq<Row>, pushed: Table, stamp: nat) {
    && DistinctRows(touched)
    && (forall row <- touched :: row.version == stamp)
    && forall key :: Get(pushed, key) == if FindRow(touched, key).Some? then FindRow(touched, key) else Get(table, key)
  }

  lemma StandsStep(table: Table, touched: seq<Row>, pushed: Table, stamp: nat, next: Row)
    requires Stands(table, touched, pushed, stamp) && next.version == stamp
    ensures Stands(table, DropRow(touched, next.key) + [next], pushed[next.key := next], stamp)
  {
    DropRowFacts(touched, next.key);
    var rest := DropRow(touched, next.key);
    forall key ensures FindRow(rest + [next], key) == if key == next.key then Some(next) else FindRow(touched, key) {
      FindRowSnoc(rest, next, key);
    }
    forall i | 0 <= i < |rest| ensures rest[i].key != next.key {
      assert rest[i] in rest;
    }
  }

  lemma StandsMeansPut(table: Table, touched: seq<Row>, pushed: Table, stamp: nat)
    requires Stands(table, touched, pushed, stamp)
    ensures PutAll(table, touched) == pushed
  {
    forall key ensures key in PutAll(table, touched) <==> key in pushed
               ensures key in pushed ==> PutAll(table, touched)[key] == pushed[key] {
      PutAllAt(table, touched, key);
      assert Get(PutAll(table, touched), key) == Get(pushed, key);
    }
  }

  /** How many ops of a batch change a row when they are merged one after the other. */
  ghost function Changes(table: Table, ops: seq<RowOp>, stamp: nat): nat {
    if ops == [] then 0
    else
      var n := |ops| - 1;
      Changes(table, ops[..n], stamp) +
      if Apply(Get(PushAll(table, ops[..n], stamp), ops[n].key), ops[n]).changed then 1 else 0
  }

  /** The op at `j` leaves its row with another content than it found. */
  ghost predicate Moves(table: Table, ops: seq<RowOp>, j: nat, stamp: nat)
    requires j < |ops|
  {
    !SameContent(Get(PushAll(table, ops[..j], stamp), ops[j].key), Get(PushAll(table, ops[..j + 1], stamp), ops[j].key))
  }

  ghost function Movers(table: Table, ops: seq<RowOp>, stamp: nat): set<nat> {
    set j: nat | j < |ops| && Moves(table, ops, j, stamp)
  }

  lemma MovesIfChanged(table: Table, ops: seq<RowOp>, j: nat, stamp: nat)
    requires WellFormedTable(table) && j < |ops|
    ensures Moves(table, ops, j, stamp) <==> Apply(Get(PushAll(table, ops[..j], stamp), ops[j].key), ops[j]).changed
  {
    var before, op := PushAll(table, ops[..j], stamp), ops[j];
    PushKeepsTable(table, ops[..j], stamp);
    assert ops[..j + 1] == ops[..j] + [op];
    PushAllSnoc(table, ops[..j], op, stamp);
    ApplyKeepsWellFormed(Get(before, op.key), op);
    UnchangedMeansSame(Get(before, op.key), op);
  }

  lemma MovesEarlier(table: Table, ops: seq<RowOp>, n: nat, j: nat, stamp: nat)
    requires j < n <= |ops|
    ensures Moves(table, ops[..n], j, stamp) <==> Moves(table, ops, j, stamp)
  {
    assert ops[..n][..j] == ops[..j] && ops[..n][..j + 1] == ops[..j + 1];
  }

  lemma OneMore(init: set<nat>, all: set<nat>, n: nat)
    requires (forall j <- init :: j < n) && (forall j <- all :: j <= n) && forall j: nat | j < n :: j in all <==> j in init
    ensures |all| == |init| + if n in all then 1 else 0
  {
    if n in all {
      assert all == init + {n};
    } else {
      assert all == init;
    }
  }

  /** The count a push reports is the number of ops in it that changed anything at their turn. */
  lemma {:induction false} ChangesAreMoves(table: Table, ops: seq<RowOp>, stamp: nat)
    requires WellFormedTable(table)
    ensures Changes(table, ops, stamp) == |Movers(table, ops, stamp)|
  {
    if ops != [] {
      var n := |ops| - 1;
      ChangesAreMoves(table, ops[..n], stamp);
      MovesIfChanged(table, ops, n, stamp);
      forall j: nat | j < n ensures Moves(table, ops[..n], j, stamp) <==> Moves(table, ops, j, stamp) {
        MovesEarlier(table, ops, n, j, stamp);
      }
      OneMore(Movers(table, ops[..n], stamp), Movers(table, ops, stamp), n);
    }
  }

  /** The loop of `push`: rows are looked up among those already touched first. */
  method MergeOps(table: Table, ops: seq<RowOp>, stamp: nat) returns (touched: seq<Row>, applied: nat)
    requires Keyed(table)
    ensures Stands(table, touched, PushAll(table, ops, stamp), stamp) && Keyed(PushAll(table, ops, stamp))
    ensures applied == Changes(table, ops, stamp) && (applied > 0 <==> touched != [])
  {
    touched, applied := [], 0;
    for i := 0 to |ops|
      invariant Stands(table, touched, PushAll(table, ops[..i], stamp), stamp) && Keyed(PushAll(table, ops[..i], stamp))
      invariant applied == Changes(table, ops[..i], stamp) && (applied > 0 <==> touched != [])
    {
      PushAllSnoc(table, ops[..i], ops[i], stamp);
      assert ops[..i + 1][..i] == ops[..i];
      assert ops[..i + 1] == ops[..i] + [ops[i]];
      var changed;
      touched, changed := MergeOp(table, PushAll(table, ops[..i], stamp), touched, ops[i], stamp);
      if changed {
        applied := applied + 1;
      }
    }
    assert ops[..|ops|] == ops;
  }

  method MergeOp(table: Table, ghost pushed: Table, touched: seq<Row>, op: RowOp, stamp: nat)
    returns (merged: seq<Row>, changed: bool)
    requires Stands(table, touched, pushed, stamp) && Keyed(pushed)
    ensures Stands(table, merged, PushOp(pushed, op, stamp), stamp) && Keyed(PushOp(pushed, op, stamp))
    ensures changed == Apply(Get(pushed, op.key), op).changed && if changed then merged != [] else merged == touched
  {
    var before := FindRow(touched, op.key);
    if before.None? {
      before := Get(table, op.key);
    }
    assert before == Get(pushed, op.key);
    UnchangedMeansSame(before, op);
    var next, moved := ApplyOp(before, op);
    if next.None? || !moved {
      return touched, false;
    }
    var row := next.value.(version := stamp);
    StandsStep(table, touched, pushed, stamp, row);
    return DropRow(touched, row.key) + [row], true;
  }

  /** The broadcast carries the touched rows, each once and stamped, and nothing else changed. */
  ghost predicate Broadcasts(before: Table, f: RowsFrame, after: Table, stamp: nat) {
    && f.stamp == stamp
    && DistinctRows(f.rows)
    && PutAll(before, f.rows) == after
    && forall row <- f.rows :: row.version == stamp
  }

  class RegistryRoom {
    var last: nat
    var gcFloor: nat
    var rows: Table

    constructor ()
      ensures Valid() && rows == map[] && last == 0
    {
      last, gcFloor, rows := 0, 0, map[];
    }

    ghost predicate Valid()
      reads this
    {
      Keyed(rows) && forall key <- rows :: rows[key].version <= last
    }

    /** `push`: merge the batch op by op, looking rows up among those already touched first. The number
        moves, and a frame goes out, exactly when some row changed. */
    method Push(ops: seq<RowOp>) returns (ackSeq: nat, applied: nat, frame: Option<RowsFrame>)
      requires Valid()
      modifies this`last, this`rows
      ensures Valid() && rows == PushAll(old(rows), ops, old(last) + 1)
      ensures ackSeq == last == old(last) + if frame.Some? then 1 else 0
      ensures applied == Changes(old(rows), ops, old(last) + 1)
      ensures (frame.Some? <==> applied > 0) && (frame.Some? <==> rows != old(rows))
      ensures frame.Some? ==> Broadcasts(old(rows), frame.value, rows, last)
    {
      var stamp := last + 1;
      var touched;
      touched, applied := MergeOps(rows, ops, stamp);
      StandsMeansPut(rows, touched, PushAll(rows, ops, stamp), stamp);
      PushStampsChanges(rows, ops, stamp);
      frame := None;
      if applied > 0 {
        assert touched[0] in touched;
        PutAllAt(rows, touched, touched[0].key);
        assert Get(PutAll(rows, touched), touched[0].key) == Some(touched[0]);
        last := stamp;
        rows := PutAll(rows, touched);
        frame := Some(RowsFrame(stamp, touched));
      }
      ackSeq := last;
    }

    /** `state_frame`: everything to a client without a usable cursor, otherwise the rows past it; with the
        room's number and floor. */
    method StateFrame(cursor: Option<nat>) returns (stamp: nat, full: bool, floor: nat, out: set<Row>)
      ensures stamp == last && floor == gcFloor
      ensures full <==> cursor.None? || cursor.value < gcFloor || cursor.value > last
      ensures out == set key | key in rows && (full || rows[key].version > cursor.value) :: rows[key]
    {
      stamp, floor := last, gcFloor;
      full := cursor.None? || cursor.value < gcFloor || cursor.value > last;
      out := set key | key in rows && (full || rows[key].version > cursor.value) :: rows[key];
    }
  }

  // ── the link ───────────────────────────────────────────────────────────────

  /** What a cursor promises ("the last server seq this replica has fully applied"): the replica holds
      every row of the room up to that number, and no row the room does not have. */
  ghost predicate InSync(held: Table, cursor: nat, rows: Table) {
    held.Keys <= rows.Keys && forall key <- rows :: rows[key].version <= cursor ==> Get(held, key) == Some(rows[key])
  }

  /** The replica's table after a delta reply to `cursor`. */
  ghost function AfterDelta(held: Table, cursor: nat, rows: Table): Table {
    held + map key | key in rows && rows[key].version > cursor :: rows[key]
  }

  /** A delta reply makes the replica equal to the room exactly when its cursor kept the promise. */
  lemma DeltaCompletes(held: Table, cursor: nat, rows: Table)
    ensures AfterDelta(held, cursor, rows) == rows <==> InSync(held, cursor, rows)
  {
    var after := AfterDelta(held, cursor, rows);
    if InSync(held, cursor, rows) {
      forall key | key in rows ensures after[key] == rows[key] {
        assert rows[key].version > cursor || Get(held, key) == Some(rows[key]);
      }
      assert after.Keys == rows.Keys;
    }
    if after == rows {
      forall key | key in rows && rows[key].version <= cursor ensures Get(held, key) == Some(rows[key]) {
        assert after[key] == rows[key];
      }
      forall key | key in held ensures key in rows { assert key in after; }
    }
  }

  /** The room, one replica, and what is on the wire towards it. */
  datatype Link = Link(rows: Table, last: nat, held: Table, cursor: nat, frames: seq<RowsFrame>, acks: seq<nat>)

  datatype Step =
    | PeerPush(ops: seq<RowOp>)    // another device's batch is merged
    | OwnPush(ops: seq<RowOp>)     // this replica's batch is merged and answered
    | DeliverRows                  // the oldest rows broadcast arrives
    | DeliverAck                   // the oldest ack arrives
    | Reconnect                    // everything on the wire is lost; hello with the cursor, delta reply

  /** Merging a batch, with the broadcast it causes. */
  ghost predicate Merges(before: Link, ops: seq<RowOp>, after: Link) {
    && after.held == before.held && after.cursor == before.cursor
    && after.rows == PushAll(before.rows, ops, before.last + 1)
    && if after.rows == before.rows then after.last == before.last && after.frames == before.frames
       else && after.last == before.last + 1
            && |after.frames| == |before.frames| + 1
            && after.frames[..|before.frames|] == before.frames
            && Broadcasts(before.rows, after.frames[|before.frames|], after.rows, after.last)
  }

  ghost predicate StepTo(before: Link, step: Step, after: Link) {
    match step
    case PeerPush(ops) => Merges(before, ops, after) && after.acks == before.acks
    case OwnPush(ops) => Merges(before, ops, after) && after.acks == before.acks + [after.last]
    case DeliverRows =>
      && before.frames != []
      && var f := before.frames[0];
         after == before.(held := PutAll(before.held, f.rows), frames := before.frames[1..],
                          cursor := if f.stamp > before.cursor then f.stamp else before.cursor)
    case DeliverAck =>
      && before.acks != []
      && after == before.(acks := before.acks[1..],
                          cursor := if before.acks[0] > before.cursor then before.acks[0] else before.cursor)
    case Reconnect =>
      after == before.(held := AfterDelta(before.held, before.cursor, before.rows), cursor := before.last,
                       frames := [], acks := [])
  }

  ghost function PutFrames(held: Table, frames: seq<RowsFrame>): Table
    decreases |frames|
  {
    if frames == [] then held else PutFrames(PutAll(held, frames[0].rows), frames[1..])
  }

  lemma {:induction false} PutFramesSnoc(held: Table, frames: seq<RowsFrame>, f: RowsFrame)
    ensures PutFrames(held, frames + [f]) == PutAll(PutFrames(held, frames), f.rows)
    decreases |frames|
  {
    if frames == [] {
      assert [] + [f] == [f] && [f][1..] == [];
      assert PutFrames(held, [f]) == PutFrames(PutAll(held, f.rows), []);
    } else {
      assert (frames + [f])[1..] == frames[1..] + [f];
      PutFramesSnoc(PutAll(held, frames[0].rows), frames[1..], f);
    }
  }

  predicate Has(f: RowsFrame, key: Key) {
    FindRow(f.rows, key).Some?
  }

  /** A broadcast that has not arrived yet has the row. */
  ghost predicate Carried(frames: seq<RowsFrame>, key: Key) {
    exists f <- frames :: Has(f, key)
  }

  /** A broadcast holds each row once, stamped with its own number, which the room has reached. */
  ghost predicate OnWire(f: RowsFrame, last: nat) {
    f.stamp <= last && DistinctRows(f.rows) && forall row <- f.rows :: row.version == f.stamp
  }

  ghost predicate Stamped(frames: seq<RowsFrame>, last: nat) {
    && (forall f <- frames :: OnWire(f, last))
    && (forall i, j :: 0 <= i < j < |frames| ==> frames[i].stamp < frames[j].stamp)
  }

  /** What holds whatever arrives in whatever order: the broadcasts on the wire end in the room's rows, and
      the replica holds rows of the room, none as new as a broadcast still to come. */
  ghost predicate Wired(link: Link) {
    && Stamped(link.frames, link.last)
    && (forall key <- link.rows :: link.rows[key].version <= link.last)
    && (forall key <- link.held :: key in link.rows && link.held[key].version <= link.last)
    && (forall f <- link.frames :: forall key <- link.held :: link.held[key].version < f.stamp)
    && (forall key :: Carried(link.frames, key) ==> key in link.rows && EndsIn(link, key))
    && link.cursor <= link.last
    && (forall a <- link.acks :: a <= link.last)
  }

  ghost predicate EndsIn(link: Link, key: Key) {
    Get(PutFrames(link.held, link.frames), key) == Get(link.rows, key)
  }

  /** `lost` is what the replica is missing and no broadcast will bring. */
  ghost predicate Missing(link: Link, lost: set<Key>) {
    forall key :: key in lost <==> !Carried(link.frames, key) && Get(link.held, key) != Get(link.rows, key)
  }

  /** A replica that lacks nothing but what is on the wire. */
  ghost predicate Linked(link: Link) {
    Wired(link) && Missing(link, {})
  }

  // ── what a broadcast does to one row ───────────────────────────────────────

  lemma CarriedMore(frames: seq<RowsFrame>, f: RowsFrame, key: Key)
    ensures Carried(frames + [f], key) <==> Carried(frames, key) || Has(f, key)
  {
    assert f in frames + [f] && forall g <- frames :: g in frames + [f];
  }

  lemma CarriedFirst(frames: seq<RowsFrame>, key: Key)
    requires frames != []
    ensures Carried(frames, key) <==> Has(frames[0], key) || Carried(frames[1..], key)
  {
    assert frames == [frames[0]] + frames[1..];
  }

  /** A row no broadcast has stays; a row that one has ends with the number of a broadcast that has it. */
  lemma {:induction false} PutFramesAt(held: Table, frames: seq<RowsFrame>, last: nat, key: Key)
    requires Stamped(frames, last)
    ensures var after := Get(PutFrames(held, frames), key);
            if !Carried(frames, key) then after == Get(held, key)
            else after.Some? && exists f <- frames :: Has(f, key) && after.value.version == f.stamp
    decreases |frames|
  {
    if frames != [] {
      var next := PutAll(held, frames[0].rows);
      assert frames[0] in frames && OnWire(frames[0], last);
      assert forall i :: 0 <= i < |frames[1..]| ==> frames[1..][i] == frames[i + 1];
      PutAllAt(held, frames[0].rows, key);
      FindRowNone(frames[0].rows, key);
      CarriedFirst(frames, key);
      PutFramesAt(next, frames[1..], last, key);
    }
  }

  /** On the wire or not, the replica's own copy decides. */
  lemma HeldIsCurrent(link: Link, lost: set<Key>, key: Key)
    requires Wired(link) && Missing(link, lost) && key in link.rows
    ensures Get(link.held, key) == Some(link.rows[key]) <==> key !in lost && !Carried(link.frames, key)
  {
    PutFramesAt(link.held, link.frames, link.last, key);
    if Carried(link.frames, key) {
      assert EndsIn(link, key);
    }
  }

  // ── the cursor's promise ───────────────────────────────────────────────────

  /** Every row of a broadcast the cursor has passed while it was still on the wire has since been replaced by
      one past the cursor. */
  ghost predicate Superseded(link: Link) {
    forall f <- link.frames :: f.stamp <= link.cursor ==>
      forall row <- f.rows :: row.key in link.rows && link.rows[row.key].version > link.cursor
  }

  ghost predicate Replaced(link: Link, lost: set<Key>) {
    forall key <- lost :: key in link.rows && link.rows[key].version > link.cursor
  }

  lemma PassedRow(link: Link, f: RowsFrame, row: Row)
    requires Wired(link) && f in link.frames && row in f.rows
    ensures Carried(link.frames, row.key) && row.key in link.rows
  {
    FindRowNone(f.rows, row.key);
  }

  lemma LatestCarrier(link: Link, key: Key) returns (f: RowsFrame)
    requires Wired(link) && Carried(link.frames, key)
    ensures key in link.rows && f in link.frames && Has(f, key) && f.stamp == link.rows[key].version
  {
    PutFramesAt(link.held, link.frames, link.last, key);
    assert EndsIn(link, key);
    f :| f in link.frames && Has(f, key) && f.stamp == link.rows[key].version;
  }

  lemma CarriedIsPast(link: Link, key: Key)
    requires Wired(link) && Superseded(link) && Carried(link.frames, key)
    ensures key in link.rows && link.rows[key].version > link.cursor
  {
    var f := LatestCarrier(link, key);
    FindRowNone(f.rows, key);
    var row := FindRow(f.rows, key).value;
    assert row in f.rows && row.key == key;
  }

  /** The cursor keeps its promise exactly when every row it has passed, on the wire or lost before, has been
      replaced by one past it. */
  lemma PromiseIsKept(link: Link, lost: set<Key>)
    requires Wired(link) && Missing(link, lost)
    ensures InSync(link.held, link.cursor, link.rows) <==> Superseded(link) && Replaced(link, lost)
  {
    forall key | key in link.rows
      ensures Get(link.held, key) == Some(link.rows[key]) <==> key !in lost && !Carried(link.frames, key)
    {
      HeldIsCurrent(link, lost, key);
    }
    if InSync(link.held, link.cursor, link.rows) {
      forall f, row | f in link.frames && f.stamp <= link.cursor && row in f.rows
        ensures row.key in link.rows && link.rows[row.key].version > link.cursor
      {
        PassedRow(link, f, row);
      }
      forall key | key in lost ensures key in link.rows {
        assert key in link.held ==> key in link.rows;
      }
    }
    if Superseded(link) && Replaced(link, lost) {
      forall key | key in link.rows && link.rows[key].version <= link.cursor
        ensures Get(link.held, key) == Some(link.rows[key])
      {
        if Carried(link.frames, key) {
          CarriedIsPast(link, key);
        }
      }
    }
  }

  // ── every step ─────────────────────────────────────────────────────────────

  /** What is lost after a step: a push of the row brings it back, a reconnect adds what the cursor had passed
      while it was on the wire. */
  ghost function NextLost(before: Link, lost: set<Key>, step: Step, after: Link): set<Key> {
    match step
    case PeerPush(_) => set key | key in lost && Get(after.rows, key) == Get(before.rows, key)
    case OwnPush(_) => set key | key in lost && Get(after.rows, key) == Get(before.rows, key)
    case DeliverRows => lost
    case DeliverAck => lost
    case Reconnect =>
      set key | key in before.rows && before.rows[key].version <= before.cursor &&
                (key in lost || Carried(before.frames, key))
  }

  lemma MergeOnWire(before: Link, ops: seq<RowOp>, after: Link, key: Key)
    requires Wired(before) && Merges(before, ops, after) && after.rows != before.rows
    ensures var f := after.frames[|before.frames|];
            && after.frames == before.frames + [f] && OnWire(f, after.last)
            && (Carried(after.frames, key) <==> Carried(before.frames, key) || Has(f, key))
            && (if Has(f, key) then key in after.rows && EndsIn(after, key) && Get(after.rows, key) != Get(before.rows, key)
                else Get(after.rows, key) == Get(before.rows, key) && (EndsIn(before, key) ==> EndsIn(after, key)))
  {
    var f := after.frames[|before.frames|];
    assert after.frames == before.frames + [f];
    CarriedMore(before.frames, f, key);
    PutFramesSnoc(before.held, before.frames, f);
    PutAllAt(before.rows, f.rows, key);
    PutAllAt(PutFrames(before.held, before.frames), f.rows, key);
    FindRowNone(f.rows, key);
  }

  lemma MergeKeepsStamped(before: Link, ops: seq<RowOp>, after: Link)
    requires Wired(before) && Merges(before, ops, after) && after.rows != before.rows
    ensures Stamped(after.frames, after.last)
    ensures forall f <- after.frames :: forall key <- after.held :: after.held[key].version < f.stamp
  {
    var f := after.frames[|before.frames|];
    MergeOnWire(before, ops, after, Key("", ""));
    forall g | g in after.frames
      ensures OnWire(g, after.last) && forall key <- after.held :: after.held[key].version < g.stamp
    {
      if g != f {
        assert g in before.frames && OnWire(g, before.last);
      }
    }
    forall i, j | 0 <= i < j < |after.frames| ensures after.frames[i].stamp < after.frames[j].stamp {
      assert after.frames[i] in before.frames && OnWire(after.frames[i], before.last);
      assert after.frames[j] == if j < |before.frames| then before.frames[j] else f;
    }
  }

  lemma MergeStampsRows(before: Link, ops: seq<RowOp>, after: Link)
    requires Wired(before) && Merges(before, ops, after)
    ensures before.rows.Keys <= after.rows.Keys && forall key <- after.rows :: after.rows[key].version <= after.last
  {
    PushStampsChanges(before.rows, ops, before.last + 1);
  }

  lemma MergeKeepsWired(before: Link, ops: seq<RowOp>, after: Link)
    requires Wired(before) && Merges(before, ops, after) && forall a <- after.acks :: a <= after.last
    ensures Wired(after)
  {
    MergeStampsRows(before, ops, after);
    if after.rows != before.rows {
      MergeKeepsStamped(before, ops, after);
      forall key ensures Carried(after.frames, key) ==> key in after.rows && EndsIn(after, key) {
        MergeOnWire(before, ops, after, key);
      }
    } else {
      assert forall key :: EndsIn(before, key) ==> EndsIn(after, key);
    }
  }

  lemma MergeKeepsMissing(before: Link, lost: set<Key>, ops: seq<RowOp>, after: Link)
    requires Wired(before) && Missing(before, lost) && Merges(before, ops, after)
    ensures Missing(after, set key | key in lost && Get(after.rows, key) == Get(before.rows, key))
  {
    if after.rows != before.rows {
      forall key ensures !Carried(after.frames, key) && Get(after.held, key) != Get(after.rows, key) <==>
                         key in lost && Get(after.rows, key) == Get(before.rows, key) {
        MergeOnWire(before, ops, after, key);
      }
    }
  }

  lemma RowsOnWire(before: Link, after: Link, key: Key)
    requires Wired(before) && StepTo(before, DeliverRows, after)
    ensures Carried(before.frames, key) <==> Has(before.frames[0], key) || Carried(after.frames, key)
    ensures EndsIn(after, key) <==> EndsIn(before, key)
    ensures Has(before.frames[0], key) ==> key in after.held && after.held[key].version == before.frames[0].stamp
    ensures !Has(before.frames[0], key) ==> Get(after.held, key) == Get(before.held, key)
  {
    var f := before.frames[0];
    assert f in before.frames && OnWire(f, before.last);
    CarriedFirst(before.frames, key);
    PutAllAt(before.held, f.rows, key);
    FindRowNone(f.rows, key);
  }

  lemma RowsArriveAt(before: Link, lost: set<Key>, after: Link, key: Key)
    requires Wired(before) && Missing(before, lost) && StepTo(before, DeliverRows, after)
    ensures Carried(after.frames, key) ==> key in after.rows && EndsIn(after, key)
    ensures key in after.held ==> key in after.rows && after.held[key].version <= after.last
    ensures !Carried(after.frames, key) && Get(after.held, key) != Get(after.rows, key) <==> key in lost
  {
    assert before.frames[0] in before.frames && OnWire(before.frames[0], before.last);
    RowsOnWire(before, after, key);
    PutFramesAt(after.held, after.frames, after.last, key);
  }

  lemma RestIsStamped(before: Link, after: Link)
    requires Wired(before) && StepTo(before, DeliverRows, after)
    ensures Stamped(after.frames, after.last)
    ensures forall f, key | f in after.frames && key in after.held :: after.held[key].version < f.stamp
  {
    assert forall i :: 0 <= i < |after.frames| ==> after.frames[i] == before.frames[i + 1];
    forall f, key | f in after.frames && key in after.held ensures after.held[key].version < f.stamp {
      RowsOnWire(before, after, key);
      assert f in before.frames;
    }
  }

  lemma RowsKeepWired(before: Link, lost: set<Key>, after: Link)
    requires Wired(before) && Missing(before, lost) && StepTo(before, DeliverRows, after)
    ensures Wired(after) && Missing(after, lost)
  {
    RestIsStamped(before, after);
    assert OnWire(before.frames[0], before.last);
    forall key
      ensures Carried(after.frames, key) ==> key in after.rows && EndsIn(after, key)
      ensures key in after.held ==> key in after.rows && after.held[key].version <= after.last
      ensures !Carried(after.frames, key) && Get(after.held, key) != Get(after.rows, key) <==> key in lost
    {
      RowsArriveAt(before, lost, after, key);
    }
  }

  lemma AckKeepsWired(before: Link, lost: set<Key>, after: Link)
    requires Wired(before) && Missing(before, lost) && StepTo(before, DeliverAck, after)
    ensures Wired(after) && Missing(after, lost)
  {
    assert before.acks[0] in before.acks;
    assert forall a <- after.acks :: a in before.acks;
    assert forall key :: EndsIn(before, key) ==> EndsIn(after, key);
  }

  lemma ReconnectKeepsWired(before: Link, lost: set<Key>, after: Link)
    requires Wired(before) && Missing(before, lost) && StepTo(before, Reconnect, after)
    ensures Wired(after) && Missing(after, NextLost(before, lost, Reconnect, after))
  {
    forall key ensures Get(after.held, key) != Get(after.rows, key) <==> key in NextLost(before, lost, Reconnect, after) {
      if key in before.rows {
        HeldIsCurrent(before, lost, key);
      }
    }
  }

  /** Every step, acks and rows arriving in any order: the replica lacks exactly what is on the wire or lost. */
  lemma StepKeepsWired(before: Link, lost: set<Key>, step: Step, after: Link)
    requires Wired(before) && Missing(before, lost) && StepTo(before, step, after)
    ensures Wired(after) && Missing(after, NextLost(before, lost, step, after))
  {
    match step
    case PeerPush(ops) =>
      MergeKeepsWired(before, ops, after);
      MergeKeepsMissing(before, lost, ops, after);
    case OwnPush(ops) =>
      MergeKeepsWired(before, ops, after);
      MergeKeepsMissing(before, lost, ops, after);
    case DeliverRows => RowsKeepWired(before, lost, after);
    case DeliverAck => AckKeepsWired(before, lost, after);
    case Reconnect => ReconnectKeepsWired(before, lost, after);
  }

  // ── every run ──────────────────────────────────────────────────────────────

  ghost predicate Run(links: seq<Link>, steps: seq<Step>) {
    && |links| == |steps| + 1
    && forall i :: 0 <= i < |steps| ==> StepTo(links[i], steps[i], links[i + 1])
  }

  /** What the first `i` steps of a run have lost. */
  ghost function LostAt(links: seq<Link>, steps: seq<Step>, i: nat): set<Key>
    requires i <= |steps| < |links|
  {
    if i == 0 then {} else NextLost(links[i - 1], LostAt(links, steps, i - 1), steps[i - 1], links[i])
  }

  lemma {:induction false} RunStaysWired(links: seq<Link>, steps: seq<Step>, i: nat)
    requires Run(links, steps) && Linked(links[0]) && i <= |steps|
    ensures Wired(links[i]) && Missing(links[i], LostAt(links, steps, i))
  {
    if i == 0 {
      assert LostAt(links, steps, 0) == {};
    } else {
      RunStaysWired(links, steps, i - 1);
      var lost := LostMore(links, steps, i - 1);
      StepKeepsWired(links[i - 1], lost, steps[i - 1], links[i]);
    }
  }

  lemma LostMore(links: seq<Link>, steps: seq<Step>, i: nat) returns (lost: set<Key>)
    requires Run(links, steps) && i < |steps|
    ensures lost == LostAt(links, steps, i)
    ensures LostAt(links, steps, i + 1) == NextLost(links[i], lost, steps[i], links[i + 1])
    ensures StepTo(links[i], steps[i], links[i + 1])
  {
    lost := LostAt(links, steps, i);
  }

  /** Over every run, acks and rows arriving in any order, own pushes included: the cursor keeps its promise
      exactly when every row it has passed, on the wire or lost before, has been replaced by one past it; and
      a reconnect leaves the replica equal to the room exactly then. */
  lemma CursorKeepsItsPromise(links: seq<Link>, steps: seq<Step>, i: nat)
    requires Run(links, steps) && Linked(links[0]) && i <= |steps|
    ensures var link, lost := links[i], LostAt(links, steps, i);
            && (InSync(link.held, link.cursor, link.rows) <==> Superseded(link) && Replaced(link, lost))
            && (i < |steps| && steps[i].Reconnect? ==>
                  (links[i + 1].held == links[i + 1].rows <==> Superseded(link) && Replaced(link, lost)))
  {
    RunStaysWired(links, steps, i);
    PromiseIsKept(links[i], LostAt(links, steps, i));
    if i < |steps| && steps[i].Reconnect? {
      assert StepTo(links[i], steps[i], links[i + 1]);
      DeltaCompletes(links[i].held, links[i].cursor, links[i].rows);
    }
  }

  /** Once nothing is on the wire, the replica equals the room exactly when nothing was lost for good. */
  lemma QuietWireShowsTheRoom(links: seq<Link>, steps: seq<Step>, i: nat)
    requires Run(links, steps) && Linked(links[0]) && i <= |steps| && links[i].frames == []
    ensures links[i].held == links[i].rows <==> LostAt(links, steps, i) == {}
  {
    RunStaysWired(links, steps, i);
    var link, lost := links[i], LostAt(links, steps, i);
    if lost == {} {
      forall key ensures Get(link.held, key) == Get(link.rows, key) {
        assert key !in lost;
      }
      SameTable(link.held, link.rows);
    } else {
      var key :| key in lost;
      assert Get(link.held, key) != Get(link.rows, key);
    }
  }

  lemma SameTable(a: Table, b: Table)
    requires forall key :: Get(a, key) == Get(b, key)
    ensures a == b
  {
    forall key
      ensures key in a <==> key in b
      ensures key in a ==> a[key] == b[key]
    {
      assert Get(a, key) == Get(b, key);
    }
  }

  /** An ack arrives only after the broadcasts up to its number. */
  predicate AckInOrder(before: Link, step: Step) {
    step.DeliverAck? && before.acks != [] ==> forall f <- before.frames :: f.stamp > before.acks[0]
  }

  ghost predicate CursorBehind(link: Link) {
    forall f <- link.frames :: f.stamp > link.cursor
  }

  lemma InOrderStep(before: Link, step: Step, after: Link)
    requires Wired(before) && CursorBehind(before) && StepTo(before, step, after) && AckInOrder(before, step)
    ensures CursorBehind(after) && NextLost(before, {}, step, after) == {}
  {
    match step
    case PeerPush(ops) => MergedIsPast(before, ops, after);
    case OwnPush(ops) => MergedIsPast(before, ops, after);
    case DeliverRows =>
      assert before.frames[0] in before.frames;
      assert forall i :: 0 <= i < |after.frames| ==> after.frames[i] == before.frames[i + 1];
    case DeliverAck =>
    case Reconnect =>
      forall key | Carried(before.frames, key) ensures before.rows[key].version > before.cursor {
        var f := LatestCarrier(before, key);
      }
  }

  lemma MergedIsPast(before: Link, ops: seq<RowOp>, after: Link)
    requires Wired(before) && CursorBehind(before) && Merges(before, ops, after)
    ensures CursorBehind(after)
  {
    if after.rows != before.rows {
      MergeOnWire(before, ops, after, Key("", ""));
      forall f | f in after.frames ensures f.stamp > after.cursor {
        assert f in before.frames || f == after.frames[|before.frames|];
      }
    }
  }

  /** So if no ack ever overtakes the broadcasts up to its number, nothing is ever lost, and the promise is
      kept after every step. */
  lemma {:induction false} InOrderLosesNothing(links: seq<Link>, steps: seq<Step>, i: nat)
    requires Run(links, steps) && Linked(links[0]) && CursorBehind(links[0]) && i <= |steps|
    requires forall j :: 0 <= j < i ==> AckInOrder(links[j], steps[j])
    ensures LostAt(links, steps, i) == {} && CursorBehind(links[i])
    ensures InSync(links[i].held, links[i].cursor, links[i].rows)
  {
    if i > 0 {
      InOrderLosesNothing(links, steps, i - 1);
      RunStaysWired(links, steps, i - 1);
      assert AckInOrder(links[i - 1], steps[i - 1]);
      InOrderStep(links[i - 1], steps[i - 1], links[i]);
    }
    RunStaysWired(links, steps, i);
    PromiseIsKept(links[i], {});
  }

  function FirstWrite(key: Key): RowOp { RowOp(key, Upsert, Some(map["t" := Json("x")]), 1.0, None) }

  function FirstRow(key: Key): Row { Row(key, 1, false, None, map["t" := Json("x")], map["t" := 1.0]) }

  lemma FirstPush(key: Key)
    ensures PushAll(map[], [FirstWrite(key)], 1) == map[key := FirstRow(key)] == PutAll(map[], [FirstRow(key)])
  {
    var op, row := FirstWrite(key), FirstRow(key);
    assert Apply(None, op).row.value.(version := 1) == row;
    assert [op][1..] == [] && [row][1..] == [];
    assert PushAll(map[], [op], 1) == PushAll(PushOp(map[], op, 1), [], 1);
    assert PutAll(map[], [row]) == PutAll(map[key := row], []);
  }

  /** The order matters, and the server in this repository answers a push before it broadcasts the rows.
      An ack that overtakes them moves the cursor past rows the replica lacks; if the connection drops
      there, the delta reply no longer brings them. */
  lemma AckOvertakingRowsLosesThem(key: Key)
    ensures exists a: Link, b: Link, c: Link, d: Link ::
              Linked(a) && StepTo(a, OwnPush([FirstWrite(key)]), b) && StepTo(b, DeliverAck, c) &&
              StepTo(c, Reconnect, d) && key in d.rows && key !in d.held && d.cursor == d.last
  {
    var a, b := FirstPushed(key);
    var c := b.(acks := [], cursor := 1);
    var d := b.(held := AfterDelta(map[], 1, b.rows), cursor := 1, frames := [], acks := []);
    assert b.acks[1..] == [];
    assert StepTo(b, DeliverAck, c) && StepTo(c, Reconnect, d);
    assert d.held == map[];
  }

  lemma FirstPushed(key: Key) returns (a: Link, b: Link)
    ensures Linked(a) && StepTo(a, OwnPush([FirstWrite(key)]), b)
    ensures b == Link(map[key := FirstRow(key)], 1, map[], 0, [RowsFrame(1, [FirstRow(key)])], [1])
  {
    FirstPush(key);
    a := Link(map[], 0, map[], 0, [], []);
    b := Link(map[key := FirstRow(key)], 1, map[], 0, [RowsFrame(1, [FirstRow(key)])], [1]);
  }
}
