/** At-least-once delivery: pushing an op again after it landed changes nothing
    (crates/doc/src/registry.rs, lines 166-250; "re-applying any op is a no-op", docs/registry-sync.md). */
module Delivery {
  import opened Hlc
  import opened Merge
  import opened Options

  /** `op` brings the tombstone in `row` back to life. */
  ghost predicate Revives(row: Option<Row>, op: RowOp) {
    row.Some? && row.value.deleted && op.op == Upsert && Newer(op.hlc, row.value.delHlc)
  }

  ghost predicate RevivalFree(row: Option<Row>, run: seq<RowOp>)
    decreases |run|
  {
    run == [] || (!Revives(row, run[0]) && RevivalFree(Apply(row, run[0]).row, run[1..]))
  }

  /** The row has taken `op` in: nothing the op says is newer than what the row holds. */
  ghost predicate Settled(row: Option<Row>, op: RowOp) {
    && row.Some?
    && var r := row.value;
       if op.op == Delete then !NewerThanAll(op.hlc, r)
       else if r.deleted then op.op == Update || !Newer(op.hlc, r.delHlc)
       else !AnyWins(r, op)
  }

  /** On an existing row, "taken in" is exactly "applying it changes nothing". */
  lemma SettledMeansNoOp(row: Option<Row>, op: RowOp)
    requires WellFormedSlot(row, op.key) && row.Some?
    ensures Settled(row, op) <==> Apply(row, op) == Applied(row, false)
  {
    ApplyKeepsWellFormed(row, op);
    MaxClockMeaning(row.value, MaxClockOf(row.value), op.hlc);
  }

  lemma AppliedOpIsSettled(row: Option<Row>, op: RowOp)
    requires WellFormedSlot(row, op.key)
    requires op.op == Update ==> row.Some?
    ensures Settled(Apply(row, op).row, op)
  {
    if row.Some? {
      MaxClockMeaning(row.value, MaxClockOf(row.value), op.hlc);
    }
    var next := Apply(row, op).row.value;
    if op.op != Delete && !next.deleted {
      forall k | k in op.Set() ensures !Wins(next, op, k) {}
    }
  }

  /** A settled op stays settled while later ops revive nothing; a settled delete stays settled even
      across revivals, because a revived row keeps its delete clock. */
  lemma SettledIsStable(row: Option<Row>, op: RowOp, other: RowOp)
    requires WellFormedSlot(row, op.key) && other.key == op.key
    requires Settled(row, op) && CarriesClock(op)
    requires op.op == Delete || !Revives(row, other)
    ensures Settled(Apply(row, other).row, op)
  {
    var r := row.value;
    MaxClockMeaning(r, MaxClockOf(r), other.hlc);
    var next := Apply(row, other).row.value;
    if next == r {
    } else if op.op == Delete {
      DeleteStaysSettled(r, op, other);
    } else if other.op == Delete {
      if !r.deleted && op.op == Upsert {
        var k :| k in op.Set() && op.ClockFor(k) == op.hlc;
        assert !Wins(r, op, k);
        assert other.hlc > r.clocks[k] >= op.hlc;
      }
    } else {
      forall k | k in op.Set() ensures !Wins(next, op, k) {
        assert !Wins(r, op, k);
      }
    }
  }

  lemma DeleteStaysSettled(r: Row, op: RowOp, other: RowOp)
    requires WellFormed(r) && op.op == Delete && Settled(Some(r), op)
    ensures Settled(Apply(Some(r), other).row, op)
  {
    MaxClockMeaning(r, MaxClockOf(r), other.hlc);
    var next := Apply(Some(r), other).row.value;
    if Newer(op.hlc, r.delHlc) {
      var k :| k in r.clocks && r.clocks[k] >= op.hlc;
      if !next.deleted {
        assert next.clocks[k] >= r.clocks[k];
      } else if next != r {
        assert other.hlc > r.clocks[k];
      }
    }
  }

  lemma {:induction false} SettledThroughRun(row: Option<Row>, op: RowOp, run: seq<RowOp>)
    requires WellFormedSlot(row, op.key) && AllOn(run, op.key)
    requires Settled(row, op) && CarriesClock(op)
    requires op.op == Delete || RevivalFree(row, run)
    ensures Settled(Replay(row, run), op) && WellFormedSlot(Replay(row, run), op.key)
    decreases |run|
  {
    if run != [] {
      SettledIsStable(row, op, run[0]);
      ApplyKeepsWellFormed(row, run[0]);
      SettledThroughRun(Apply(row, run[0]).row, op, run[1..]);
    }
  }

  /** Exactly-once effect: after an op is applied and any run of other ops follows, the op again
      changes nothing. Upserts and updates need the run to revive no tombstone; deletes do not. */
  lemma RedeliveryIsNoOp(row: Option<Row>, op: RowOp, run: seq<RowOp>)
    requires WellFormedSlot(row, op.key) && AllOn(run, op.key)
    requires CarriesClock(op) && (op.op == Update ==> row.Some?)
    requires op.op == Delete || RevivalFree(Apply(row, op).row, run)
    ensures var now := Replay(Apply(row, op).row, run);
            Apply(now, op) == Applied(now, false)
  {
    ApplyKeepsWellFormed(row, op);
    AppliedOpIsSettled(row, op);
    var first := Apply(row, op).row;
    SettledThroughRun(first, op, run);
    SettledMeansNoOp(Replay(first, run), op);
  }

  /** The same for a whole run of ops delivered twice with other ops after the first delivery. */
  lemma {:induction false} SettledRunIsNoOp(row: Option<Row>, ops: seq<RowOp>, key: Key)
    requires WellFormedSlot(row, key) && AllOn(ops, key)
    requires forall op <- ops :: Settled(row, op)
    ensures Replay(row, ops) == row
    decreases |ops|
  {
    if ops != [] {
      SettledMeansNoOp(row, ops[0]);
      SettledRunIsNoOp(row, ops[1..], key);
    }
  }

  /** A whole run of ops is settled once it has been applied, and stays so while nothing is revived; only
      its first op may itself revive a tombstone. */
  lemma {:induction false} DeliveredRunSettles(row: Option<Row>, ops: seq<RowOp>, later: seq<RowOp>, key: Key)
    requires WellFormedSlot(row, key) && AllOn(ops, key) && AllOn(later, key)
    requires ops != [] && (ops[0].op == Update ==> row.Some?)
    requires forall op <- ops :: CarriesClock(op)
    requires RevivalFree(Apply(row, ops[0]).row, ops[1..] + later)
    ensures WellFormedSlot(Replay(row, ops + later), key)
    ensures forall op <- ops :: Settled(Replay(row, ops + later), op)
    decreases |ops|
  {
    var first := Apply(row, ops[0]).row;
    ApplyKeepsWellFormed(row, ops[0]);
    AppliedOpIsSettled(row, ops[0]);
    SettledThroughRun(first, ops[0], ops[1..] + later);
    assert (ops + later)[1..] == ops[1..] + later;
    if |ops| > 1 {
      assert (ops[1..] + later)[1..] == ops[1..][1..] + later;
      DeliveredRunSettles(first, ops[1..], later, key);
    }
  }

  // ── redelivery after revivals ──────────────────────────────────────────────

  /** The row holds nothing older than `op` where `op` writes; as a tombstone it is not older than an upsert. */
  ghost predicate NotOlder(row: Option<Row>, op: RowOp) {
    if row.None? then op.op == Update
    else if row.value.deleted then op.op == Upsert ==> !Newer(op.hlc, row.value.delHlc)
    else forall k <- op.Set() :: k in row.value.clocks ==> row.value.clocks[k] >= op.hlc
  }

  lemma NotOlderStep(row: Option<Row>, op: RowOp, other: RowOp)
    requires WellFormedSlot(row, op.key) && other.key == op.key && op.op != Delete && NotOlder(row, op)
    requires other.clocks.None? && other.hlc > op.hlc
    ensures NotOlder(Apply(row, other).row, op)
  {
  }

  lemma {:induction false} NotOlderRun(row: Option<Row>, op: RowOp, run: seq<RowOp>)
    requires WellFormedSlot(row, op.key) && AllOn(run, op.key) && op.op != Delete && NotOlder(row, op)
    requires forall other <- run :: other.clocks.None? && other.hlc > op.hlc
    ensures NotOlder(Replay(row, run), op) && WellFormedSlot(Replay(row, run), op.key)
    decreases |run|
  {
    if run != [] {
      NotOlderStep(row, op, run[0]);
      ApplyKeepsWellFormed(row, run[0]);
      NotOlderRun(Apply(row, run[0]).row, op, run[1..]);
    }
  }

  /** For local writes, whatever is deleted and revived in between: delivered again behind later writes, a write
      changes nothing exactly if the row is gone or still has a clock for every field it writes. */
  lemma RedeliveredWrite(row: Option<Row>, op: RowOp, run: seq<RowOp>)
    requires WellFormedSlot(row, op.key) && AllOn(run, op.key) && op.op != Delete && op.clocks.None?
    requires forall other <- run :: other.clocks.None? && other.hlc > op.hlc
    ensures var now := Replay(Apply(row, op).row, run);
            Apply(now, op) == Applied(now, false) <==>
            now.None? || now.value.deleted || op.Set().Keys <= now.value.clocks.Keys
  {
    var first := Apply(row, op).row;
    ApplyKeepsWellFormed(row, op);
    assert NotOlder(first, op);
    NotOlderRun(first, op, run);
    var now := Replay(first, run);
    if now.Some? && !now.value.deleted {
      SettledMeansNoOp(now, op);
      if k :| k in op.Set() && k !in now.value.clocks {
        assert Wins(now.value, op, k);
      }
    }
  }

  // ── runs never return ──────────────────────────────────────────────────────

  ghost predicate ClocksPast(a: Row, b: Row) {
    && (forall k <- a.clocks :: k in b.clocks && b.clocks[k] >= a.clocks[k])
    && exists k <- b.clocks :: Newer(b.clocks[k], Get(a.clocks, k))
  }

  /** `b` is a later state of the row than `a`: deleted later, or revived since, or with newer fields. */
  ghost predicate Past(a: Row, b: Row) {
    (b.delHlc.Some? && Newer(b.delHlc.value, a.delHlc)) ||
    (b.delHlc == a.delHlc && !b.deleted && (a.deleted || ClocksPast(a, b)))
  }

  lemma ChangesMoveOn(a: Row, op: RowOp)
    requires WellFormed(a) && a.key == op.key
    ensures var b := Apply(Some(a), op).row; b.Some? && (b.value == a || Past(a, b.value))
  {
    var b := Apply(Some(a), op).row.value;
    MaxClockMeaning(a, MaxClockOf(a), op.hlc);
    if b != a && op.op != Delete && !a.deleted {
      var k :| k in op.Set() && Wins(a, op, k);
      assert k in b.clocks && b.clocks[k] == op.ClockFor(k);
      forall j | j in a.clocks ensures j in b.clocks && b.clocks[j] >= a.clocks[j] {
        MergedAt(a, op, j);
      }
    }
  }

  lemma PastIsTransitive(a: Row, b: Row, c: Row)
    requires Past(a, b) && Past(b, c)
    ensures Past(a, c)
  {
    if ClocksPast(a, b) && ClocksPast(b, c) {
      var k :| k in b.clocks && Newer(b.clocks[k], Get(a.clocks, k));
      assert k in c.clocks && Newer(c.clocks[k], Get(a.clocks, k));
    }
  }

  lemma {:induction false} RunsMoveOn(a: Row, ops: seq<RowOp>)
    requires WellFormed(a) && AllOn(ops, a.key)
    ensures var b := Replay(Some(a), ops); b.Some? && (b.value == a || Past(a, b.value))
    ensures Replay(Some(a), ops) == Some(a) ==> forall op <- ops :: Apply(Some(a), op).row == Some(a)
    decreases |ops|
  {
    if ops != [] {
      ApplyKeepsWellFormed(Some(a), ops[0]);
      ChangesMoveOn(a, ops[0]);
      var b := Apply(Some(a), ops[0]).row.value;
      RunsMoveOn(b, ops[1..]);
      var c := Replay(Some(b), ops[1..]).value;
      if Past(a, b) && Past(b, c) {
        PastIsTransitive(a, b, c);
      }
      if c == a {
        NeverPastItself(a, b);
      }
    }
  }

  lemma NeverPastItself(a: Row, b: Row)
    ensures !Past(a, a)
    ensures Past(a, b) ==> !Past(b, a)
  {
    if Past(a, b) && Past(b, a) {
      PastIsTransitive(a, b, a);
    }
  }

  /** A run leaves a row as it was exactly if none of its ops would change it. */
  lemma RunsNeverReturn(a: Row, ops: seq<RowOp>)
    requires WellFormed(a) && AllOn(ops, a.key)
    ensures Replay(Some(a), ops) == Some(a) <==> forall op <- ops :: Settled(Some(a), op)
  {
    RunsMoveOn(a, ops);
    forall op | op in ops ensures Settled(Some(a), op) <==> Apply(Some(a), op).row == Some(a) {
      SettledMeansNoOp(Some(a), op);
      ApplyKeepsWellFormed(Some(a), op);
    }
    if forall op <- ops :: Settled(Some(a), op) {
      SettledRunIsNoOp(Some(a), ops, a.key);
    }
  }

  const K: Key := Key("chats", "c")

  function Write(op: OpKind, field: string, text: string, at: Clock): RowOp {
    RowOp(K, op, Some(map[field := Json(text)]), at, None)
  }

  function Removal(at: Clock): RowOp {
    RowOp(K, Delete, None, at, None)
  }

  /** Revival is a real exception: an old upsert, delivered again after a delete and a later revival,
      puts back a field the delete had removed. */
  lemma RedeliveryAfterRevival()
    ensures var old1, run := Write(Upsert, "a", "x", 1.0), [Removal(2.0), Write(Upsert, "b", "y", 3.0)];
            var now := Replay(Apply(None, old1).row, run);
            now.Some? && "a" !in now.value.fields &&
            Apply(now, old1).changed && "a" in Apply(now, old1).row.value.fields
  {
    var old1, gone, back := Write(Upsert, "a", "x", 1.0), Removal(2.0), Write(Upsert, "b", "y", 3.0);
    var r1 := Apply(None, old1).row;
    assert r1.value.clocks == map["a" := 1.0];
    MaxClockMeaning(r1.value, MaxClockOf(r1.value), 2.0);
    var r2 := Apply(r1, gone).row;
    assert r2 == Some(Buried(r1.value, 2.0));
    var r3 := Apply(r2, back).row;
    ReplayThree(r1, gone, back, back);
    assert Wins(r3.value, old1, "a");
  }

  /** So is an upsert stamped above every field it writes: deleted in between, it comes back. */
  lemma UncarriedUpsertReturns()
    ensures var op := RowOp(K, Upsert, Some(map["a" := Json("x")]), 9.0, Some(map["a" := 1.0]));
            !CarriesClock(op) &&
            var now := Replay(Apply(None, op).row, [Removal(5.0)]);
            now.Some? && now.value.deleted && Apply(now, op).changed && !Apply(now, op).row.value.deleted
  {
    var op := RowOp(K, Upsert, Some(map["a" := Json("x")]), 9.0, Some(map["a" := 1.0]));
    var r1 := Apply(None, op).row;
    assert r1.value.clocks == map["a" := 1.0];
    MaxClockMeaning(r1.value, MaxClockOf(r1.value), 5.0);
    var r2 := Apply(r1, Removal(5.0)).row;
    ReplayThree(r1, Removal(5.0), op, op);
  }
}
