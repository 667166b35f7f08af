/** Field-level last-writer-wins does not depend on delivery order
    (crates/doc/src/registry.rs, lines 228-249). */
module Convergence {
  import opened Merge
  import opened Options

  /** Two writes of one field under one clock are the same write; the base row counts as a writer. */
  ghost predicate Consistent(base: Row, ops: seq<RowOp>) {
    && (forall p <- ops, q <- ops, k |
          k in p.Set() && k in q.Set() && p.ClockFor(k) == q.ClockFor(k) :: p.Set()[k] == q.Set()[k])
    && (forall p <- ops, k |
          k in p.Set() && k in base.clocks && p.ClockFor(k) == base.clocks[k] ::
          Get(base.fields, k) == Stored(p.Set()[k]))
  }

  /** `op` wrote what `row` holds at `k`. */
  ghost predicate WrittenBy(row: Row, k: string, op: RowOp)
    requires k in row.clocks
  {
    k in op.Set() && op.ClockFor(k) == row.clocks[k] && Get(row.fields, k) == Stored(op.Set()[k])
  }

  ghost predicate InheritedFrom(row: Row, k: string, base: Row)
    requires k in row.clocks
  {
    k in base.clocks && base.clocks[k] == row.clocks[k] && Get(row.fields, k) == Get(base.fields, k)
  }

  /** A description of a merge result that never mentions order: every field holds the newest write
      made to it by the base row or by one of the ops. */
  ghost predicate HoldsNewestWrites(base: Row, ops: seq<RowOp>, row: Row) {
    && (forall op <- ops, k | k in op.Set() :: k in row.clocks && row.clocks[k] >= op.ClockFor(k))
    && (forall k | k in base.clocks :: k in row.clocks && row.clocks[k] >= base.clocks[k])
    && (forall k | k in row.clocks :: InheritedFrom(row, k, base) || exists op <- ops :: WrittenBy(row, k, op))
    && row == base.(fields := row.fields, clocks := row.clocks)
  }

  ghost predicate NoDeletes(ops: seq<RowOp>, key: Key) {
    forall op <- ops :: op.key == key && op.op != Delete
  }

  lemma {:induction false} ReplayHoldsNewestWrites(base: Row, ops: seq<RowOp>)
    requires WellFormed(base) && !base.deleted && NoDeletes(ops, base.key)
    ensures Replay(Some(base), ops).Some?
    ensures var row := Replay(Some(base), ops).value;
            WellFormed(row) && HoldsNewestWrites(base, ops, row)
    decreases |ops|
  {
    if ops != [] {
      var init, last := ops[..|ops| - 1], ops[|ops| - 1];
      assert ops == init + [last];
      ReplayHoldsNewestWrites(base, init);
      ReplaySnoc(Some(base), init, last);
      var mid := Replay(Some(base), init).value;
      ApplyKeepsWellFormed(Some(mid), last);
      OneMoreWrite(base, init, mid, last);
    }
  }

  lemma OneMoreWrite(base: Row, init: seq<RowOp>, mid: Row, last: RowOp)
    requires WellFormed(mid) && !mid.deleted && HoldsNewestWrites(base, init, mid)
    requires last.op != Delete
    ensures HoldsNewestWrites(base, init + [last], Apply(Some(mid), last).row.value)
  {
    var row := Apply(Some(mid), last).row.value;
    var ops := init + [last];
    assert last in ops && forall op <- init :: op in ops;
    assert forall k | k in mid.clocks :: k in row.clocks && row.clocks[k] >= mid.clocks[k];
    forall k | k in last.Set() ensures k in row.clocks && row.clocks[k] >= last.ClockFor(k) {
      assert Wins(mid, last, k) || !Wins(mid, last, k);
    }
    forall k | k in row.clocks ensures InheritedFrom(row, k, base) || exists op <- ops :: WrittenBy(row, k, op) {
      if row != mid && Wins(mid, last, k) {
        assert WrittenBy(row, k, last);
      } else {
        assert Get(row.fields, k) == Get(mid.fields, k) && row.clocks[k] == mid.clocks[k];
        if !InheritedFrom(mid, k, base) {
          var op :| op in init && WrittenBy(mid, k, op);
          assert WrittenBy(row, k, op);
        }
      }
    }
  }

  /** The description determines the row. */
  lemma NewestWritesAreUnique(base: Row, a: seq<RowOp>, b: seq<RowOp>, r: Row, s: Row)
    requires WellFormed(r) && WellFormed(s) && !base.deleted
    requires HoldsNewestWrites(base, a, r) && HoldsNewestWrites(base, b, s)
    requires Consistent(base, a) && forall op :: op in a <==> op in b
    ensures r == s
  {
    forall k ensures Get(r.clocks, k) == Get(s.clocks, k) && Get(r.fields, k) == Get(s.fields, k) {
      if k in r.clocks {
        assert InheritedFrom(r, k, base) || exists op <- a :: WrittenBy(r, k, op);
        assert k in s.clocks && s.clocks[k] >= r.clocks[k];
      }
      if k in s.clocks {
        assert InheritedFrom(s, k, base) || exists op <- b :: WrittenBy(s, k, op);
        assert k in r.clocks && r.clocks[k] >= s.clocks[k];
      }
    }
    SameMap(r.clocks, s.clocks);
    SameMap(r.fields, s.fields);
  }

  lemma {:induction false} MissingRowStartsFresh(ops: seq<RowOp>, key: Key)
    requires ops != [] && NoDeletes(ops, key) && ops[0].op == Upsert
    ensures Replay(None, ops) == Replay(Some(Fresh(key)), ops)
  {
    var op := ops[0];
    assert Apply(None, op).row == Some(Merged(Fresh(key), op));
    if !AnyWins(Fresh(key), op) {
      forall k | k in op.Set() ensures false {
        assert Wins(Fresh(key), op, k);
      }
      assert op.Set().Keys == {};
      SameMap(MergedFields(Fresh(key), op), map[]);
      SameMap(MergedClocks(Fresh(key), op), map[]);
    }
  }

  /** Last-writer-wins: two runs made of the same writes, in any order and with any repetitions, leave
      the same row. On a missing row the writes must be upserts. */
  lemma OrderDoesNotMatter(row: Option<Row>, a: seq<RowOp>, b: seq<RowOp>, key: Key)
    requires WellFormedSlot(row, key) && (row.Some? ==> !row.value.deleted)
    requires NoDeletes(a, key) && forall op :: op in a <==> op in b
    requires row.None? ==> forall op <- a :: op.op == Upsert
    requires Consistent(if row.Some? then row.value else Fresh(key), a)
    ensures Replay(row, a) == Replay(row, b)
  {
    assert b == [] || b[0] in a;
    if a != [] {
      assert a[0] in b && b[0] in a;
      var base := if row.Some? then row.value else Fresh(key);
      if row.None? {
        MissingRowStartsFresh(a, key);
        MissingRowStartsFresh(b, key);
      }
      ReplayHoldsNewestWrites(base, a);
      ReplayHoldsNewestWrites(base, b);
      NewestWritesAreUnique(base, a, b, Replay(Some(base), a).value, Replay(Some(base), b).value);
    }
  }

  /** Deletes are outside the law: whether an older field survives depends on whether the newer upsert
      reached the row before or after the delete, which is why one server orders all writes. */
  lemma DeletesDoNotCommute(key: Key)
    ensures var a := RowOp(key, Upsert, Some(map["x" := Json("1")]), 1.0, None);
            var d := RowOp(key, Delete, None, 2.0, None);
            var b := RowOp(key, Upsert, Some(map["y" := Json("2")]), 3.0, None);
            var early, late := Replay(None, [a, d, b]), Replay(None, [a, b, d]);
            early.Some? && late.Some? && "x" !in early.value.fields && "x" in late.value.fields
  {
    var a := RowOp(key, Upsert, Some(map["x" := Json("1")]), 1.0, None);
    var d := RowOp(key, Delete, None, 2.0, None);
    var b := RowOp(key, Upsert, Some(map["y" := Json("2")]), 3.0, None);
    var r := Apply(None, a).row;
    assert r.value.clocks == map["x" := 1.0];
    MaxClockMeaning(r.value, MaxClockOf(r.value), 2.0);
    var rb := Apply(r, b).row;
    assert Wins(r.value, b, "y");
    assert rb.value.clocks["y"] == 3.0;
    MaxClockMeaning(rb.value, MaxClockOf(rb.value), 2.0);
    ReplayThree(None, a, d, b);
    ReplayThree(None, a, b, d);
  }
}
