/** Rows, ops and the merge function of the workspace registry
    (crates/doc/src/registry.rs, lines 79-284). */
module Merge {
  import opened Hlc
  import opened Options

  /** A JSON value; only `null` is told apart, every other value is its text. */
  datatype Value = Null | Json(text: string)

  datatype Key = Key(kind: string, id: string)

  /** A row; `version` is the source's `seq`, the server sequence number that last touched it. */
  datatype Row = Row(
    key: Key,
    version: nat,
    deleted: bool,
    delHlc: Option<Clock>,
    fields: map<string, Value>,
    clocks: map<string, Clock>)

  datatype OpKind = Upsert | Update | Delete

  datatype RowOp = RowOp(
    key: Key,
    op: OpKind,
    writes: Option<map<string, Value>>,
    hlc: Clock,
    clocks: Option<map<string, Clock>>)
  {
    /** The field writes, none for a delete. */
    function Set(): map<string, Value> {
      if writes.Some? then writes.value else map[]
    }

    function ClockFor(field: string): Clock {
      if clocks.Some? && field in clocks.value then clocks.value[field] else hlc
    }
  }

  function Tombstone(key: Key, hlc: Clock): Row {
    Row(key, 0, true, Some(hlc), map[], map[])
  }

  function Fresh(key: Key): Row {
    Row(key, 0, false, None, map[], map[])
  }

  /** `a` strictly newer than `b`; anything is newer than never. */
  predicate Newer(a: Clock, b: Option<Clock>) {
    b.None? || a > b.value
  }

  // ── the newest clock of a row ──────────────────────────────────────────────

  predicate NewerThanAll(h: Clock, row: Row) {
    Newer(h, row.delHlc) && forall k <- row.clocks :: h > row.clocks[k]
  }

  /** Whether `m` is the newest of the delete clock and the clocks of `keys`. */
  ghost predicate IsMaxOver(row: Row, keys: set<string>, m: Option<Clock>)
    requires keys <= row.clocks.Keys
  {
    match m
    case None => row.delHlc.None? && keys == {}
    case Some(c) =>
      && (row.delHlc == m || exists k <- keys :: row.clocks[k] == c)
      && (row.delHlc.Some? ==> row.delHlc.value <= c)
      && (forall k <- keys :: row.clocks[k] <= c)
  }

  /** Whether `m` is the newest clock found anywhere on the row. */
  ghost predicate IsMaxClock(row: Row, m: Option<Clock>) {
    IsMaxOver(row, row.clocks.Keys, m)
  }

  /** One step of the scan over the clocks. */
  lemma MaxStep(row: Row, keys: set<string>, k: string, m: Option<Clock>)
    requires keys <= row.clocks.Keys && k in row.clocks && IsMaxOver(row, keys, m)
    ensures IsMaxOver(row, keys + {k}, if Newer(row.clocks[k], m) then Some(row.clocks[k]) else m)
  {
    assert k in keys + {k};
    if m.Some? && row.delHlc != m {
      var j :| j in keys && row.clocks[j] == m.value;
      assert j in keys + {k};
    }
  }

  /** `RegistryRow::max_clock`: scan the field clocks, starting from the delete clock. */
  method MaxClock(row: Row) returns (m: Option<Clock>)
    ensures IsMaxClock(row, m)
  {
    m := row.delHlc;
    var rest := row.clocks.Keys;
    while rest != {}
      invariant rest <= row.clocks.Keys
      invariant IsMaxOver(row, row.clocks.Keys - rest, m)
    {
      var k :| k in rest;
      MaxStep(row, row.clocks.Keys - rest, k, m);
      assert row.clocks.Keys - (rest - {k}) == (row.clocks.Keys - rest) + {k};
      if Newer(row.clocks[k], m) {
        m := Some(row.clocks[k]);
      }
      rest := rest - {k};
    }
    assert row.clocks.Keys - rest == row.clocks.Keys;
  }

  lemma {:induction false} MaxClockExists(row: Row, keys: set<string>) returns (m: Option<Clock>)
    requires keys <= row.clocks.Keys
    ensures IsMaxOver(row, keys, m)
    decreases keys
  {
    if keys == {} {
      m := row.delHlc;
    } else {
      var k :| k in keys;
      m := MaxClockExists(row, keys - {k});
      MaxStep(row, keys - {k}, k, m);
      assert keys - {k} + {k} == keys;
      if Newer(row.clocks[k], m) {
        m := Some(row.clocks[k]);
      }
    }
  }

  ghost function MaxClockOf(row: Row): (m: Option<Clock>)
    ensures IsMaxClock(row, m)
  {
    assert exists m :: IsMaxClock(row, m) by {
      var m := MaxClockExists(row, row.clocks.Keys);
      assert IsMaxClock(row, m);
    }
    var m :| IsMaxClock(row, m);
    m
  }

  /** The newest clock is unique, and being newer than it is being newer than every clock. */
  lemma MaxClockMeaning(row: Row, m: Option<Clock>, h: Clock)
    requires IsMaxClock(row, m)
    ensures m == MaxClockOf(row)
    ensures Newer(h, m) <==> NewerThanAll(h, row)
  {
  }

  // ── apply_op ───────────────────────────────────────────────────────────────

  datatype Applied = Applied(row: Option<Row>, changed: bool)

  /** Whether the write of `k` in `op` is newer than what `base` holds for that field. */
  predicate Wins(base: Row, op: RowOp, k: string) {
    k in op.Set() && Newer(op.ClockFor(k), Get(base.clocks, k))
  }

  function MergedFields(base: Row, op: RowOp): map<string, Value> {
    map k | k in base.fields.Keys + op.Set().Keys &&
            (if Wins(base, op, k) then op.Set()[k] != Null else k in base.fields)
      :: if Wins(base, op, k) then op.Set()[k] else base.fields[k]
  }

  function MergedClocks(base: Row, op: RowOp): map<string, Clock> {
    map k | k in base.clocks.Keys + op.Set().Keys && (k in base.clocks || Wins(base, op, k))
      :: if Wins(base, op, k) then op.ClockFor(k) else base.clocks[k]
  }

  function Merged(base: Row, op: RowOp): Row {
    base.(deleted := false, fields := MergedFields(base, op), clocks := MergedClocks(base, op))
  }

  predicate AnyWins(base: Row, op: RowOp) {
    exists k <- op.Set() :: Wins(base, op, k)
  }

  /** A tombstone that an upsert brings back: the old content is gone, the delete clock stays. */
  function Revived(row: Row): Row {
    row.(deleted := false, fields := map[], clocks := map[])
  }

  function Buried(row: Row, hlc: Clock): Row {
    row.(deleted := true, delHlc := Some(hlc), fields := map[], clocks := map[])
  }

  /** `apply_op`, field by field. */
  ghost function Apply(row: Option<Row>, op: RowOp): Applied {
    if op.op == Delete then
      match row
      case None => Applied(Some(Tombstone(op.key, op.hlc)), true)
      case Some(r) =>
        if (if r.deleted then Newer(op.hlc, r.delHlc) else Newer(op.hlc, MaxClockOf(r)))
        then Applied(Some(Buried(r, op.hlc)), true)
        else Applied(row, false)
    else
      match row
      case None =>
        if op.op == Update then Applied(None, false)
        else Applied(Some(Merged(Fresh(op.key), op)), true)
      case Some(r) =>
        if r.deleted then
          if op.op == Update || !Newer(op.hlc, r.delHlc) then Applied(row, false)
          else Applied(Some(Merged(Revived(r), op)), true)
        else if AnyWins(r, op) then Applied(Some(Merged(r, op)), true)
        else Applied(row, false)
  }

  /** `apply_op` as the source runs it: clone a base row, then take the winning writes one by one. */
  method ApplyOp(row: Option<Row>, op: RowOp) returns (next: Option<Row>, changed: bool)
    ensures Applied(next, changed) == Apply(row, op)
  {
    if op.op == Delete {
      match row {
        case None =>
          return Some(Tombstone(op.key, op.hlc)), true;
        case Some(r) =>
          var beats := Newer(op.hlc, r.delHlc);
          if !r.deleted {
            var m := MaxClock(r);
            MaxClockMeaning(r, m, op.hlc);
            beats := Newer(op.hlc, m);
          }
          if beats {
            return Some(Buried(r, op.hlc)), true;
          }
          return row, false;
      }
    }
    var base := Fresh(op.key);
    match row {
      case None =>
        if op.op == Update {
          return None, false;
        }
      case Some(r) =>
        if r.deleted {
          if op.op == Update || !Newer(op.hlc, r.delHlc) {
            return row, false;
          }
          base := Revived(r);
        } else {
          base := r;
        }
    }
    var wins;
    base, wins := MergeWrites(base, op);
    changed := wins || row.None? || row.value.deleted;
    next := Some(base);
  }

  /** The loop of `apply_op` over the writes. */
  method MergeWrites(start: Row, op: RowOp) returns (base: Row, wins: bool)
    requires !start.deleted
    ensures base == Merged(start, op) && wins == AnyWins(start, op)
    ensures !wins ==> base == start
  {
    base, wins := start, false;
    var rest := op.Set().Keys;
    while rest != {}
      invariant rest <= op.Set().Keys
      invariant base == start.(fields := base.fields, clocks := base.clocks)
      invariant forall k :: k in rest || !Wins(start, op, k) ==> Get(base.fields, k) == Get(start.fields, k)
      invariant forall k :: k in rest || !Wins(start, op, k) ==> Get(base.clocks, k) == Get(start.clocks, k)
      invariant forall k :: k !in rest && Wins(start, op, k) ==>
                  Get(base.clocks, k) == Some(op.ClockFor(k)) && Get(base.fields, k) == Stored(op.Set()[k])
      invariant wins == exists k <- op.Set() :: k !in rest && Wins(start, op, k)
    {
      var k :| k in rest;
      rest := rest - {k};
      var value, clock := op.Set()[k], op.ClockFor(k);
      if Newer(clock, Get(base.clocks, k)) {
        if value == Null {
          base := base.(fields := base.fields - {k});
        } else {
          base := base.(fields := base.fields[k := value]);
        }
        base := base.(clocks := base.clocks[k := clock]);
        wins := true;
      }
    }
    forall k ensures Get(base.fields, k) == Get(MergedFields(start, op), k)
             ensures Get(base.clocks, k) == Get(MergedClocks(start, op), k) {
      MergedAt(start, op, k);
    }
    SameMap(base.fields, MergedFields(start, op));
    SameMap(base.clocks, MergedClocks(start, op));
    if !wins {
      SameMap(base.fields, start.fields);
      SameMap(base.clocks, start.clocks);
    }
  }

  lemma SameMap<V>(a: map<string, V>, b: map<string, V>)
    requires forall k :: Get(a, k) == Get(b, k)
    ensures a == b
  {
    forall k
      ensures k in a <==> k in b
      ensures k in a ==> a[k] == b[k]
    {
      assert Get(a, k) == Get(b, k);
    }
  }

  /** What a stored write reads back as: a null write removes the field. */
  function Stored(v: Value): Option<Value> {
    if v == Null then None else Some(v)
  }

  /** The merge, seen through one field. */
  lemma MergedAt(base: Row, op: RowOp, k: string)
    ensures Get(MergedClocks(base, op), k) == if Wins(base, op, k) then Some(op.ClockFor(k)) else Get(base.clocks, k)
    ensures Get(MergedFields(base, op), k) == if Wins(base, op, k) then Stored(op.Set()[k]) else Get(base.fields, k)
  {
  }

  /** On a live row an upsert and an update both merge, even when nothing wins. */
  lemma LiveRowsMerge(row: Row, op: RowOp)
    requires !row.deleted && op.op != Delete
    ensures Apply(Some(row), op).row == Some(Merged(row, op))
  {
    if !AnyWins(row, op) {
      forall k ensures Get(MergedClocks(row, op), k) == Get(row.clocks, k)
               ensures Get(MergedFields(row, op), k) == Get(row.fields, k) {
        MergedAt(row, op, k);
      }
      SameMap(row.fields, MergedFields(row, op));
      SameMap(row.clocks, MergedClocks(row, op));
    }
  }

  // ── well-formed rows ───────────────────────────────────────────────────────

  /** What every row built by ops looks like. */
  ghost predicate WellFormed(row: Row) {
    if row.deleted then row.delHlc.Some? && row.fields == map[] && row.clocks == map[]
    else row.fields.Keys <= row.clocks.Keys && Null !in row.fields.Values
  }

  ghost predicate WellFormedSlot(slot: Option<Row>, key: Key) {
    slot.Some? ==> WellFormed(slot.value) && slot.value.key == key
  }

  lemma ApplyKeepsWellFormed(row: Option<Row>, op: RowOp)
    requires WellFormedSlot(row, op.key)
    ensures WellFormedSlot(Apply(row, op).row, op.key)
    ensures row.Some? ==> Apply(row, op).row.Some? && Apply(row, op).row.value.version == row.value.version
    ensures !Apply(row, op).changed <==> Apply(row, op).row == row
  {
    if row.Some? && !row.value.deleted && op.op != Delete && AnyWins(row.value, op) {
      var k :| k in op.Set() && Wins(row.value, op, k);
      assert Merged(row.value, op).clocks[k] == op.ClockFor(k);
    }
  }

  /** Fold a run of ops over one row slot. */
  ghost function Replay(row: Option<Row>, ops: seq<RowOp>): Option<Row>
    decreases |ops|
  {
    if ops == [] then row else Replay(Apply(row, ops[0]).row, ops[1..])
  }

  lemma {:induction false} ReplayConcat(row: Option<Row>, a: seq<RowOp>, b: seq<RowOp>)
    ensures Replay(row, a + b) == Replay(Replay(row, a), b)
    decreases |a|
  {
    if a == [] {
      assert a + b == b;
    } else {
      assert (a + b)[1..] == a[1..] + b;
      ReplayConcat(Apply(row, a[0]).row, a[1..], b);
    }
  }

  lemma ReplayThree(row: Option<Row>, a: RowOp, b: RowOp, c: RowOp)
    ensures Replay(row, [a]) == Apply(row, a).row
    ensures Replay(row, [a, b]) == Apply(Apply(row, a).row, b).row
    ensures Replay(row, [a, b, c]) == Apply(Apply(Apply(row, a).row, b).row, c).row
  {
    assert [a] == [] + [a] && [a, b] == [a] + [b] && [a, b, c] == [a, b] + [c];
    ReplaySnoc(row, [], a);
    ReplaySnoc(row, [a], b);
    ReplaySnoc(row, [a, b], c);
  }

  lemma ReplaySnoc(row: Option<Row>, ops: seq<RowOp>, op: RowOp)
    ensures Replay(row, ops + [op]) == Apply(Replay(row, ops), op).row
  {
    ReplayConcat(row, ops, [op]);
    assert Replay(Replay(row, ops), [op]) == Replay(Apply(Replay(row, ops), op).row, [op][1..]);
  }

  ghost predicate AllOn(ops: seq<RowOp>, key: Key) {
    forall op <- ops :: op.key == key
  }

  lemma {:induction false} ReplayKeepsWellFormed(row: Option<Row>, ops: seq<RowOp>, key: Key)
    requires WellFormedSlot(row, key) && AllOn(ops, key)
    ensures WellFormedSlot(Replay(row, ops), key)
    ensures row.Some? ==> Replay(row, ops).Some?
    decreases |ops|
  {
    if ops != [] {
      ApplyKeepsWellFormed(row, ops[0]);
      ReplayKeepsWellFormed(Apply(row, ops[0]).row, ops[1..], key);
    }
  }

  /** An upsert that carries its own clock on one of the fields it writes, as every local write with a
      non-empty set does. */
  predicate CarriesClock(op: RowOp) {
    op.op == Upsert ==> exists k <- op.Set() :: op.ClockFor(k) == op.hlc
  }

  /** A live row that was once deleted shows a field newer than the delete. */
  ghost predicate OutlivesDelete(row: Row) {
    !row.deleted && row.delHlc.Some? ==> exists k <- row.clocks :: row.clocks[k] > row.delHlc.value
  }

  lemma ApplyKeepsOutliving(row: Option<Row>, op: RowOp)
    requires row.Some? ==> WellFormed(row.value) && OutlivesDelete(row.value)
    requires CarriesClock(op)
    ensures Apply(row, op).row.Some? ==> OutlivesDelete(Apply(row, op).row.value)
  {
    var next := Apply(row, op).row;
    if row.Some? && op.op != Delete && Apply(row, op).changed && next.value.delHlc.Some? {
      if row.value.deleted {
        var k :| k in op.Set() && op.ClockFor(k) == op.hlc;
        assert Wins(Revived(row.value), op, k);
        assert next.value.clocks[k] == op.hlc;
      } else {
        var k :| k in row.value.clocks && row.value.clocks[k] > row.value.delHlc.value;
        assert next.value.clocks[k] >= row.value.clocks[k];
      }
    }
  }

  /** Clocks never run backwards: no op lowers the newest clock of a row. */
  lemma MaxClockRises(row: Row, op: RowOp)
    requires WellFormed(row)
    ensures Apply(Some(row), op).row.Some?
    ensures var before, after := MaxClockOf(row), MaxClockOf(Apply(Some(row), op).row.value);
            before.Some? ==> after.Some? && before.value <= after.value
  {
    var next := Apply(Some(row), op).row.value;
    var before, after := MaxClockOf(row), MaxClockOf(next);
    if before.Some? && op.op == Delete && next != row {
      MaxClockMeaning(row, before, op.hlc);
    } else if before.Some? && row.delHlc != before && !row.deleted && op.op != Delete {
      var k :| k in row.clocks && row.clocks[k] == before.value;
      assert k in next.clocks && next.clocks[k] >= row.clocks[k];
    }
  }

  // ── sequence numbers do not matter to the merge ────────────────────────────

  /** Two slots that differ in their sequence number at most. */
  ghost predicate SameContent(a: Option<Row>, b: Option<Row>) {
    a.Some? == b.Some? && (a.Some? ==> a.value == b.value.(version := a.value.version))
  }

  lemma MergeIgnoresVersion(x: Row, y: Row, op: RowOp)
    requires x == y.(version := x.version)
    ensures AnyWins(x, op) == AnyWins(y, op) && Merged(x, op) == Merged(y, op).(version := x.version)
  {
    forall k ensures Wins(x, op, k) == Wins(y, op, k) {}
  }

  lemma ApplyIgnoresVersion(a: Option<Row>, b: Option<Row>, op: RowOp)
    requires SameContent(a, b)
    ensures SameContent(Apply(a, op).row, Apply(b, op).row) && Apply(a, op).changed == Apply(b, op).changed
  {
    if a.Some? {
      if op.op == Delete {
        MaxClockMeaning(a.value, MaxClockOf(a.value), op.hlc);
        MaxClockMeaning(b.value, MaxClockOf(b.value), op.hlc);
      } else if a.value.deleted {
        MergeIgnoresVersion(Revived(a.value), Revived(b.value), op);
      } else {
        MergeIgnoresVersion(a.value, b.value, op);
      }
    }
  }

  lemma {:induction false} ReplayIgnoresVersion(a: Option<Row>, b: Option<Row>, ops: seq<RowOp>)
    requires SameContent(a, b)
    ensures SameContent(Replay(a, ops), Replay(b, ops))
    decreases |ops|
  {
    if ops != [] {
      ApplyIgnoresVersion(a, b, ops[0]);
      ReplayIgnoresVersion(Apply(a, ops[0]).row, Apply(b, ops[0]).row, ops[1..]);
    }
  }

  // ── re-seed ops ────────────────────────────────────────────────────────────

  /** `c` is `encode_hlc(0, 0, "seed")`, the stamp of a row that carries no clock. (The device is a bound
      variable only to keep the solver from computing the digits wherever the stamp is mentioned.) */
  ghost predicate IsSeedClock(c: Clock) {
    forall device :: device == "seed" ==> c == Rank(EncodeHlc(0, 0, device))
  }

  ghost function SeedClock(): (c: Clock)
    ensures IsSeedClock(c)
  {
    assert IsSeedClock(Rank(EncodeHlc(0, 0, "seed")));
    var c :| IsSeedClock(c);
    c
  }

  ghost function OrSeed(c: Option<Clock>): Clock {
    if c.Some? then c.value else SeedClock()
  }

  method StampOr(c: Option<Clock>) returns (stamp: Clock)
    ensures stamp == OrSeed(c)
  {
    if c.Some? {
      return c.value;
    }
    var device := "seed";
    stamp := Rank(EncodeHlc(0, 0, device));
    assert IsSeedClock(SeedClock());
  }

  /** `row_to_seed_op`: one op that carries a row with its original clocks. */
  ghost function SeedOp(row: Row): RowOp {
    if row.deleted then RowOp(row.key, Delete, None, OrSeed(row.delHlc), None)
    else RowOp(row.key, Upsert, Some(row.fields), OrSeed(MaxClockOf(row)), Some(row.clocks))
  }

  method RowToSeedOp(row: Row) returns (op: RowOp)
    ensures op == SeedOp(row)
  {
    if row.deleted {
      var stamp := StampOr(row.delHlc);
      return RowOp(row.key, Delete, None, stamp, None);
    }
    var m := MaxClock(row);
    MaxClockMeaning(row, m, 0.0);
    var stamp := StampOr(m);
    op := RowOp(row.key, Upsert, Some(row.fields), stamp, Some(row.clocks));
  }

  /** What a reader sees of a slot: the fields and their clocks, or nothing for a missing or deleted row. */
  datatype View = Absent | Shown(key: Key, fields: map<string, Value>, clocks: map<string, Clock>)

  function ViewOf(slot: Option<Row>): View {
    if slot.None? || slot.value.deleted then Absent
    else Shown(slot.value.key, slot.value.fields,
               map k | k in slot.value.fields && k in slot.value.clocks :: slot.value.clocks[k])
  }

  /** A row's own seed op changes nothing on it, and recreates what it shows from nothing; only the
      clocks of cleared fields are lost. */
  lemma SeedRoundTrip(row: Row)
    requires WellFormed(row)
    ensures Apply(Some(row), SeedOp(row)) == Applied(Some(row), false)
    ensures ViewOf(Apply(None, SeedOp(row)).row) == ViewOf(Some(row))
    ensures var born := Apply(None, SeedOp(row)).row.value;
            && WellFormed(born) && born.deleted == row.deleted && born.fields == row.fields
            && born.clocks == (map k | k in row.fields :: row.clocks[k])
            && (row.deleted ==> born.delHlc == row.delHlc)
  {
    var born := Apply(None, SeedOp(row)).row.value;
    if !row.deleted {
      forall k ensures Get(born.fields, k) == Get(row.fields, k) {}
      SameMap(born.fields, row.fields);
      assert forall k <- row.fields :: row.fields[k] in row.fields.Values;
      assert born.clocks == map k | k in row.fields :: row.clocks[k];
    }
  }
}
