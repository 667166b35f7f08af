/** A replica with its outbox on the wire: batches are queued, compacted, merged, acked, and pushed again after
    a lost connection (crates/doc/src/registry.rs, lines 371-425 and 545-628; crates/sync/src/registry.rs, lines
    692-727). */
module Session {
  import opened Hlc
  import opened Merge
  import opened Options
  import opened Outbox
  import opened Registry
  import opened SyncRoom

  /** The link, the outbox, the ids of the acks on the wire; and, for the record, every batch ever queued,
      the ids the room has merged, the ids compaction has folded into others, and the rows lost for good. */
  datatype Session = Session(link: Link, pending: seq<Batch>, ackIds: seq<Tick>,
                             queued: seq<Batch>, merged: set<Tick>, folded: set<Tick>, lost: set<Key>)

  datatype Move =
    | Queue(batch: Batch)         // a local write
    | Compact(after: seq<Batch>)  // the queue is collapsed, with nothing in flight
    | MergeBatch(batch: Batch)    // a pushed batch reaches the room, which merges and answers it
    | PeerBatch(ops: seq<RowOp>)  // another device's batch
    | RowsArrive
    | AckArrives
    | Drop                        // the connection is lost and taken up again

  /** What a move does to the link. */
  function OnLink(m: Move): Option<Step> {
    match m
    case Queue(_) => None
    case Compact(_) => None
    case MergeBatch(b) => Some(OwnPush(b.ops))
    case PeerBatch(ops) => Some(PeerPush(ops))
    case RowsArrive => Some(DeliverRows)
    case AckArrives => Some(DeliverAck)
    case Drop => Some(Reconnect)
  }

  ghost predicate LinkMoves(before: Session, m: Move, after: Session) {
    var step := OnLink(m);
    if step.None? then after.link == before.link && after.lost == before.lost
    else
      StepTo(before.link, step.value, after.link) &&
      after.lost == NextLost(before.link, before.lost, step.value, after.link)
  }

  ghost predicate OutboxMoves(before: Session, m: Move, after: Session) {
    match m
    case Queue(b) =>
      && (forall q <- before.queued :: q.id != b.id)
      && after == before.(pending := before.pending + [b], queued := before.queued + [b],
                          link := after.link, lost := after.lost)
    case Compact(batches) =>
      && before.ackIds == [] && Keyed(before.link.held)
      && AllOps(batches) == Compacted(before.link.held, AllOps(before.pending))
      && (forall b <- batches, q <- before.queued :: q.id != b.id)
      && after == before.(pending := batches, queued := before.queued + batches,
                          folded := before.folded + Ids(before.pending), link := after.link, lost := after.lost)
    case MergeBatch(b) =>
      && b in before.pending
      && after == before.(ackIds := before.ackIds + [b.id], merged := before.merged + {b.id},
                          link := after.link, lost := after.lost)
    case AckArrives =>
      && before.ackIds != []
      && after == before.(ackIds := before.ackIds[1..], pending := Without(before.pending, before.ackIds[0]),
                          link := after.link, lost := after.lost)
    case Drop => after == before.(ackIds := [], link := after.link, lost := after.lost)
    case _ => after == before.(link := after.link, lost := after.lost)
  }

  /** A new replica on a room it is level with. */
  ghost predicate Start(s: Session) {
    Linked(s.link) && s.pending == [] && s.ackIds == [] && s.queued == [] && s.merged == {} && s.folded == {} &&
    s.lost == {}
  }

  ghost predicate SessionRun(states: seq<Session>, moves: seq<Move>) {
    && |states| == |moves| + 1 && Start(states[0])
    && forall i :: 0 <= i < |moves| ==>
         LinkMoves(states[i], moves[i], states[i + 1]) && OutboxMoves(states[i], moves[i], states[i + 1])
  }

  /** A batch on the row is still queued, or the room has merged one. */
  ghost predicate RowCarried(s: Session, key: Key) {
    exists b <- s.queued :: (b in s.pending || b.id in s.merged) && Touches(b.ops, key)
  }

  /** No batch is forgotten: it is still queued, or the room has merged it, or it has been folded into others; and
      for every row a batch was ever queued for, one is still queued or merged. */
  ghost predicate NothingForgotten(s: Session) {
    && (forall b <- s.queued :: b in s.pending || b.id in s.merged || b.id in s.folded)
    && (forall id <- s.ackIds :: id in s.merged)
    && (forall b <- s.pending :: b in s.queued)
    && (forall b, key | b in s.queued && Touches(b.ops, key) :: RowCarried(s, key))
  }

  lemma {:induction false} RetiresOnly(batches: seq<Batch>, id: Tick, b: Batch)
    requires b in batches && b.id != id
    ensures b in Without(batches, id)
  {
    if batches[0] != b {
      RetiresOnly(batches[1..], id, b);
    }
  }

  lemma {:induction false} SomeBatchTouches(batches: seq<Batch>, key: Key)
    ensures Touches(AllOps(batches), key) <==> exists b <- batches :: Touches(b.ops, key)
  {
    if batches != [] {
      SomeBatchTouches(batches[1..], key);
      assert batches == [batches[0]] + batches[1..];
      assert forall op <- batches[0].ops :: op in AllOps(batches);
      assert forall op <- AllOps(batches[1..]) :: op in AllOps(batches);
      assert forall op <- AllOps(batches) :: op in batches[0].ops || op in AllOps(batches[1..]);
    }
  }

  lemma CompactedTouches(held: Table, ops: seq<RowOp>, key: Key)
    requires Keyed(held) && Touches(ops, key)
    ensures Touches(Compacted(held, ops), key)
  {
    CompactedFor(held, ops, key);
    CollapsedIsOwn(held, ops, key);
    OpsForOwn(Compacted(held, ops), key);
    var op := OpsFor(Compacted(held, ops), key)[0];
    assert op in OpsFor(Compacted(held, ops), key);
  }

  lemma CompactionCarries(before: Session, batches: seq<Batch>, after: Session, key: Key)
    requires OutboxMoves(before, Compact(batches), after) && RowCarried(before, key)
    ensures RowCarried(after, key)
  {
    var b :| b in before.queued && (b in before.pending || b.id in before.merged) && Touches(b.ops, key);
    if b in before.pending && b.id !in before.merged {
      SomeBatchTouches(before.pending, key);
      CompactedTouches(before.link.held, AllOps(before.pending), key);
      SomeBatchTouches(batches, key);
      var c :| c in batches && Touches(c.ops, key);
      assert c in after.queued && c in after.pending;
    } else {
      assert b in after.queued;
    }
  }

  lemma MoveCarries(before: Session, m: Move, after: Session, key: Key)
    requires NothingForgotten(before) && OutboxMoves(before, m, after) && RowCarried(before, key)
    ensures RowCarried(after, key)
  {
    var b :| b in before.queued && (b in before.pending || b.id in before.merged) && Touches(b.ops, key);
    if m.Compact? {
      CompactionCarries(before, m.after, after, key);
    } else if m.AckArrives? && b in before.pending && b.id != before.ackIds[0] {
      RetiresOnly(before.pending, before.ackIds[0], b);
    } else if m.AckArrives? {
      assert before.ackIds[0] in before.ackIds;
    }
    assert b in after.queued;
  }

  lemma MoveForgetsNothing(before: Session, m: Move, after: Session)
    requires NothingForgotten(before) && OutboxMoves(before, m, after)
    ensures NothingForgotten(after)
  {
    forall b, key | b in after.queued && Touches(b.ops, key) ensures RowCarried(after, key) {
      if b in before.queued {
        MoveCarries(before, m, after, key);
      } else {
        assert b in after.pending;
      }
    }
    match m {
      case AckArrives =>
        assert before.ackIds[0] in before.ackIds;
        forall b | b in before.queued && b in before.pending && b.id != before.ackIds[0] ensures b in after.pending {
          RetiresOnly(before.pending, before.ackIds[0], b);
        }
        KeptOnly(before.pending, before.ackIds[0]);
      case Compact(batches) =>
        forall b | b in before.pending ensures b.id in after.folded {}
      case _ =>
    }
  }

  lemma {:induction false} KeptOnly(batches: seq<Batch>, id: Tick)
    ensures forall b <- Without(batches, id) :: b in batches
  {
    if batches != [] {
      KeptOnly(batches[1..], id);
    }
  }

  lemma {:induction false} RunForgetsNothing(states: seq<Session>, moves: seq<Move>, i: nat)
    requires SessionRun(states, moves) && i <= |moves|
    ensures NothingForgotten(states[i])
    ensures Wired(states[i].link) && Missing(states[i].link, states[i].lost)
  {
    if i > 0 {
      RunForgetsNothing(states, moves, i - 1);
      MoveForgetsNothing(states[i - 1], moves[i - 1], states[i]);
      assert LinkMoves(states[i - 1], moves[i - 1], states[i]);
      var step := OnLink(moves[i - 1]);
      if step.Some? {
        StepKeepsWired(states[i - 1].link, states[i - 1].lost, step.value, states[i].link);
      }
    }
  }

  /** Over every run of local writes, compactions, pushes, acks, broadcasts and lost connections: once the queue is
      drained the room has merged every batch that was not folded into others, and a batch for every row ever
      written to; and once the wire is quiet too, the replica shows the room's rows exactly if none was lost for
      good. */
  lemma DrainedShowsTheRoom(states: seq<Session>, moves: seq<Move>, i: nat)
    requires SessionRun(states, moves) && i <= |moves| && states[i].pending == []
    ensures forall b <- states[i].queued :: b.id in states[i].merged || b.id in states[i].folded
    ensures forall b, key | b in states[i].queued && Touches(b.ops, key) ::
              exists c <- states[i].queued :: c.id in states[i].merged && Touches(c.ops, key)
    ensures states[i].link.frames == [] ==>
              ((forall key :: Overlay(states[i].link.held, AllOps(states[i].pending), key) ==
                              Get(states[i].link.rows, key)) <==>
               states[i].lost == {})
  {
    var s := states[i];
    RunForgetsNothing(states, moves, i);
    assert forall key :: Overlay(s.link.held, AllOps(s.pending), key) == Get(s.link.held, key);
    forall b, key | b in s.queued && Touches(b.ops, key)
      ensures exists c <- s.queued :: c.id in s.merged && Touches(c.ops, key)
    {
      assert RowCarried(s, key);
    }
    if s.link.frames == [] {
      forall key ensures key in s.lost <==> Get(s.link.held, key) != Get(s.link.rows, key) {
      }
      if s.lost != {} {
        var key :| key in s.lost;
        assert Overlay(s.link.held, AllOps(s.pending), key) != Get(s.link.rows, key);
      }
    }
  }
}
