/** What a queue does to the row it meets on the server, which other devices may have changed since this one
    last saw it, and what its collapsed form does there instead
    (crates/doc/src/registry.rs, lines 166-284 and 371-425). */
module Arrival {
  import opened Hlc
  import opened Merge
  import opened Options
  import opened Compaction
  import opened Recovery

  // ── queues of one row ──────────────────────────────────────────────────────

  /** Ops in the order of their stamps. Only the first may have field clocks of its own, none above its stamp:
      local writes, or the seed a compaction left and local writes behind it. */
  ghost predicate InTurn(ops: seq<RowOp>) {
    && (forall i, j :: 0 <= i < j < |ops| ==> ops[i].hlc < ops[j].hlc)
    && (forall i :: 0 < i < |ops| ==> ops[i].clocks.None?)
    && (ops != [] ==> forall k <- ops[0].Set() :: ops[0].ClockFor(k) <= ops[0].hlc)
  }

  lemma InTurnSlice(ops: seq<RowOp>, i: nat, j: nat)
    requires InTurn(ops) && i <= j <= |ops|
    ensures InTurn(ops[i..j])
  {
    var slice := ops[i..j];
    assert forall n :: 0 <= n < |slice| ==> slice[n] == ops[i + n];
  }

  lemma ClocksBelow(ops: seq<RowOp>, i: nat, k: string)
    requires InTurn(ops) && i < |ops| && k in ops[i].Set()
    ensures ops[i].ClockFor(k) <= ops[i].hlc
  {
  }

  datatype Write = Write(value: Value, at: Clock)

  /** The last write a run makes to a field. */
  function LastWrite(ops: seq<RowOp>, k: string): Option<Write> {
    if ops == [] then None
    else
      var n := |ops| - 1;
      if ops[n].op != Delete && k in ops[n].Set() then Some(Write(ops[n].Set()[k], ops[n].ClockFor(k)))
      else LastWrite(ops[..n], k)
  }

  lemma LastWriteSnoc(ops: seq<RowOp>, op: RowOp, k: string)
    ensures LastWrite(ops + [op], k) ==
            if op.op != Delete && k in op.Set() then Some(Write(op.Set()[k], op.ClockFor(k))) else LastWrite(ops, k)
  {
    assert (ops + [op])[..|ops|] == ops;
  }

  lemma {:induction false} LastWriteBelow(ops: seq<RowOp>, k: string)
    requires InTurn(ops) && LastWrite(ops, k).Some?
    ensures ops != [] && LastWrite(ops, k).value.at <= ops[|ops| - 1].hlc
  {
    var n := |ops| - 1;
    if ops[n].op != Delete && k in ops[n].Set() {
      ClocksBelow(ops, n, k);
    } else {
      InTurnSlice(ops, 0, n);
      assert ops[0..n] == ops[..n];
      LastWriteBelow(ops[..n], k);
    }
  }

  lemma {:induction false} LastWriteConcat(a: seq<RowOp>, b: seq<RowOp>, k: string)
    ensures LastWrite(a + b, k) == if LastWrite(b, k).Some? then LastWrite(b, k) else LastWrite(a, k)
  {
    if b == [] {
      assert a + b == a;
    } else {
      var init, last := b[..|b| - 1], b[|b| - 1];
      assert a + b == (a + init) + [last] && b == init + [last];
      LastWriteSnoc(a + init, last, k);
      LastWriteSnoc(init, last, k);
      LastWriteConcat(a, init, k);
    }
  }

  // ── over a live row that no queued delete removes ──────────────────────────

  predicate WinsOver(base: Row, ops: seq<RowOp>, k: string) {
    LastWrite(ops, k).Some? && Newer(LastWrite(ops, k).value.at, Get(base.clocks, k))
  }

  /** Every field of `row` holds the last write of the run if that is newer than what `base` has there, and
      otherwise what `base` has. */
  ghost predicate LaidAt(base: Row, ops: seq<RowOp>, row: Row, k: string) {
    if WinsOver(base, ops, k) then
      && Get(row.clocks, k) == Some(LastWrite(ops, k).value.at)
      && Get(row.fields, k) == Stored(LastWrite(ops, k).value.value)
    else Get(row.clocks, k) == Get(base.clocks, k) && Get(row.fields, k) == Get(base.fields, k)
  }

  ghost predicate Laid(base: Row, ops: seq<RowOp>, row: Row) {
    && !row.deleted && row.delHlc == base.delHlc && row.key == base.key && row.version == base.version
    && forall k :: LaidAt(base, ops, row, k)
  }

  ghost predicate Beaten(ops: seq<RowOp>, base: Row) {
    forall op <- ops :: op.op == Delete ==> !NewerThanAll(op.hlc, base)
  }

  lemma {:induction false} AllLaid(base: Row, ops: seq<RowOp>)
    requires WellFormed(base) && !base.deleted && AllOn(ops, base.key) && InTurn(ops) && Beaten(ops, base)
    ensures Replay(Some(base), ops).Some? && WellFormed(Replay(Some(base), ops).value)
    ensures Laid(base, ops, Replay(Some(base), ops).value)
    decreases |ops|
  {
    if ops != [] {
      var init, last := ops[..|ops| - 1], ops[|ops| - 1];
      assert ops == init + [last] && last in ops && ops[0..|init|] == init;
      assert forall op <- init :: op in ops;
      InTurnSlice(ops, 0, |init|);
      AllLaid(base, init);
      ReplaySnoc(Some(base), init, last);
      var mid := Replay(Some(base), init).value;
      ApplyKeepsWellFormed(Some(mid), last);
      if last.op == Delete {
        BeatenStep(base, init, mid, last);
      } else {
        LiveRowsMerge(mid, last);
        forall k ensures LaidAt(base, ops, Merged(mid, last), k) {
          LaidStep(base, init, mid, last, k);
        }
      }
    }
  }

  lemma BeatenStep(base: Row, init: seq<RowOp>, mid: Row, last: RowOp)
    requires Laid(base, init, mid) && last.op == Delete && !NewerThanAll(last.hlc, base)
    ensures Apply(Some(mid), last).row == Some(mid) && Laid(base, init + [last], mid)
  {
    MaxClockMeaning(mid, MaxClockOf(mid), last.hlc);
    if Newer(last.hlc, base.delHlc) {
      var k :| k in base.clocks && base.clocks[k] >= last.hlc;
      assert LaidAt(base, init, mid, k);
      assert Get(mid.clocks, k).Some? && mid.clocks[k] >= last.hlc;
    }
    forall k ensures LaidAt(base, init + [last], mid, k) {
      LastWriteSnoc(init, last, k);
      assert LaidAt(base, init, mid, k);
    }
  }

  lemma LaidStep(base: Row, init: seq<RowOp>, mid: Row, last: RowOp, k: string)
    requires InTurn(init + [last]) && last.op != Delete && LaidAt(base, init, mid, k)
    ensures LaidAt(base, init + [last], Merged(mid, last), k)
  {
    var ops := init + [last];
    assert ops[|init|] == last;
    LastWriteSnoc(init, last, k);
    MergedAt(mid, last, k);
    if k in last.Set() {
      ClocksBelow(ops, |init|, k);
      if LastWrite(init, k).Some? {
        InTurnSlice(ops, 0, |init|);
        assert ops[0..|init|] == init;
        LastWriteBelow(init, k);
        assert ops[|init| - 1] == init[|init| - 1];
      }
    }
  }

  // ── over no row, or a tombstone ────────────────────────────────────────────

  predicate RevivesOver(op: RowOp, floor: Option<Clock>) {
    op.op == Upsert && Newer(op.hlc, floor)
  }

  /** Where the first upsert newer than the tombstone is. */
  function RevivesAt(ops: seq<RowOp>, floor: Option<Clock>): (n: nat)
    ensures n <= |ops| && (n < |ops| ==> RevivesOver(ops[n], floor))
  {
    if ops == [] || RevivesOver(ops[0], floor) then 0 else 1 + RevivesAt(ops[1..], floor)
  }

  /** The run from there on, which is what counts of it. */
  function Reviving(ops: seq<RowOp>, floor: Option<Clock>): (tail: seq<RowOp>) {
    ops[RevivesAt(ops, floor)..]
  }

  ghost predicate Empty(slot: Option<Row>) {
    slot.None? || slot.value.deleted
  }

  function Floor(slot: Option<Row>): Option<Clock> {
    if slot.None? then None else slot.value.delHlc
  }

  /** No queued delete changes the empty slot: a missing row has no tombstone yet, so there it would. */
  ghost predicate Untouching(ops: seq<RowOp>, slot: Option<Row>) {
    forall op <- ops :: op.op == Delete ==> slot.Some? && !Newer(op.hlc, slot.value.delHlc)
  }

  lemma {:induction false} FrontIsIdle(slot: Option<Row>, ops: seq<RowOp>)
    requires Empty(slot) && Untouching(ops, slot)
    ensures Replay(slot, ops) == Replay(slot, Reviving(ops, Floor(slot)))
    decreases |ops|
  {
    if ops != [] && !RevivesOver(ops[0], Floor(slot)) {
      assert Apply(slot, ops[0]).row == slot;
      FrontIsIdle(slot, ops[1..]);
      assert Reviving(ops[1..], Floor(slot)) == Reviving(ops, Floor(slot));
    }
  }

  function Blank(slot: Option<Row>, key: Key): Row {
    if slot.None? then Fresh(key) else Revived(slot.value)
  }

  /** From there on the run lays its writes over nothing. */
  lemma RevivedIsLaid(slot: Option<Row>, ops: seq<RowOp>, key: Key)
    requires WellFormedSlot(slot, key) && Empty(slot) && Untouching(ops, slot) && AllOn(ops, key) && InTurn(ops)
    ensures var tail := Reviving(ops, Floor(slot));
            if tail == [] then Replay(slot, ops) == slot
            else Replay(slot, ops).Some? && WellFormed(Replay(slot, ops).value) &&
                 Laid(Blank(slot, key), tail, Replay(slot, ops).value)
  {
    var tail := Reviving(ops, Floor(slot));
    FrontIsIdle(slot, ops);
    if tail != [] {
      TailIsQueue(slot, ops, key);
      FirstRevives(slot, tail[0], key);
      assert Replay(slot, tail) == Replay(Some(Blank(slot, key)), tail);
      AllLaid(Blank(slot, key), tail);
    }
  }

  lemma TailIsQueue(slot: Option<Row>, ops: seq<RowOp>, key: Key)
    requires WellFormedSlot(slot, key) && Empty(slot) && Untouching(ops, slot) && AllOn(ops, key) && InTurn(ops)
    ensures var tail := Reviving(ops, Floor(slot));
            InTurn(tail) && AllOn(tail, key) && Beaten(tail, Blank(slot, key)) && Untouching(tail, slot)
  {
    var n := RevivesAt(ops, Floor(slot));
    InTurnSlice(ops, n, |ops|);
    assert ops[n..|ops|] == ops[n..] && forall op <- ops[n..] :: op in ops;
  }

  lemma FirstRevives(slot: Option<Row>, op: RowOp, key: Key)
    requires WellFormedSlot(slot, key) && Empty(slot) && op.key == key && op.op == Upsert && Newer(op.hlc, Floor(slot))
    ensures WellFormed(Blank(slot, key)) && Blank(slot, key).key == key
    ensures Apply(slot, op).row == Some(Merged(Blank(slot, key), op)) == Apply(Some(Blank(slot, key)), op).row
  {
    LiveRowsMerge(Blank(slot, key), op);
  }

  // ── behind a delete that removes the row ───────────────────────────────────

  /** The run up to its last delete. */
  function UpToDelete(ops: seq<RowOp>): (n: nat)
    ensures n <= |ops| && (n > 0 ==> ops[n - 1].op == Delete)
    ensures forall i :: n <= i < |ops| ==> ops[i].op != Delete
  {
    if ops == [] then 0
    else if ops[|ops| - 1].op == Delete then |ops| else UpToDelete(ops[..|ops| - 1])
  }

  /** A delete stamped `h` leaves a tombstone of that time, whatever older ops come before it. */
  ghost predicate Buries(h: Clock, slot: Option<Row>) {
    slot.None? || NewerThanAll(h, slot.value) || (slot.value.deleted && slot.value.delHlc == Some(h))
  }

  ghost predicate DeleteLands(slot: Option<Row>, ops: seq<RowOp>) {
    UpToDelete(ops) > 0 && Buries(ops[UpToDelete(ops) - 1].hlc, slot)
  }

  lemma {:induction false} StaysBelow(slot: Option<Row>, ops: seq<RowOp>, h: Clock)
    requires InTurn(ops) && (forall op <- ops :: op.hlc < h) && (slot.Some? ==> NewerThanAll(h, slot.value))
    ensures Replay(slot, ops).Some? ==> NewerThanAll(h, Replay(slot, ops).value)
    decreases |ops|
  {
    if ops != [] {
      var init, last := ops[..|ops| - 1], ops[|ops| - 1];
      assert ops == init + [last] && last in ops && ops[0..|init|] == init;
      assert forall op <- init :: op in ops;
      InTurnSlice(ops, 0, |init|);
      StaysBelow(slot, init, h);
      ReplaySnoc(slot, init, last);
      forall k | k in last.Set() ensures last.ClockFor(k) < h {
        ClocksBelow(ops, |init|, k);
      }
      BelowStep(Replay(slot, init), last, h);
    }
  }

  lemma BelowStep(slot: Option<Row>, op: RowOp, h: Clock)
    requires op.hlc < h && (forall k <- op.Set() :: op.ClockFor(k) < h) && (slot.Some? ==> NewerThanAll(h, slot.value))
    ensures Apply(slot, op).row.Some? ==> NewerThanAll(h, Apply(slot, op).row.value)
  {
  }

  lemma NothingRevives(ops: seq<RowOp>, floor: Option<Clock>)
    requires forall op <- ops :: !Newer(op.hlc, floor)
    ensures Reviving(ops, floor) == []
  {
    assert forall i :: 0 <= i < |ops| ==> !RevivesOver(ops[i], floor);
  }

  lemma Lands(slot: Option<Row>, ops: seq<RowOp>, key: Key)
    requires WellFormedSlot(slot, key) && AllOn(ops, key) && InTurn(ops) && DeleteLands(slot, ops)
    ensures var n := UpToDelete(ops);
            SameContent(Replay(slot, ops[..n]), Some(Tombstone(key, ops[n - 1].hlc)))
  {
    var init, last := TopDelete(ops, UpToDelete(ops), key);
    LandsOnTop(slot, init, last, key);
  }

  lemma TopDelete(ops: seq<RowOp>, n: nat, key: Key) returns (init: seq<RowOp>, last: RowOp)
    requires AllOn(ops, key) && InTurn(ops) && 0 < n <= |ops|
    ensures last == ops[n - 1] && ops[..n] == init + [last] && last.key == key
    ensures AllOn(init, key) && InTurn(init) && forall op <- init :: op.hlc < last.hlc
  {
    init, last := ops[..n - 1], ops[n - 1];
    assert last in ops && ops[0..n - 1] == init;
    InTurnSlice(ops, 0, n - 1);
  }

  lemma LandsOnTop(slot: Option<Row>, init: seq<RowOp>, last: RowOp, key: Key)
    requires WellFormedSlot(slot, key) && AllOn(init, key) && InTurn(init) && last.op == Delete && last.key == key
    requires (forall op <- init :: op.hlc < last.hlc) && Buries(last.hlc, slot)
    ensures SameContent(Replay(slot, init + [last]), Some(Tombstone(key, last.hlc)))
  {
    ReplaySnoc(slot, init, last);
    ReplayKeepsWellFormed(slot, init, key);
    StaysBuriable(slot, init, last.hlc);
    BuriesIt(Replay(slot, init), last, key);
  }

  lemma StaysBuriable(slot: Option<Row>, init: seq<RowOp>, h: Clock)
    requires InTurn(init) && (forall op <- init :: op.hlc < h) && Buries(h, slot)
    ensures Buries(h, Replay(slot, init))
  {
    if slot.None? || NewerThanAll(h, slot.value) {
      StaysBelow(slot, init, h);
    } else {
      FrontIsIdle(slot, init);
      NothingRevives(init, Floor(slot));
    }
  }

  lemma BuriesIt(slot: Option<Row>, op: RowOp, key: Key)
    requires WellFormedSlot(slot, key) && op.op == Delete && op.key == key && Buries(op.hlc, slot)
    ensures SameContent(Apply(slot, op).row, Some(Tombstone(key, op.hlc)))
  {
    if slot.Some? {
      MaxClockMeaning(slot.value, MaxClockOf(slot.value), op.hlc);
    }
  }

  /** Two slots on which the last delete lands end up alike. */
  lemma LandedAlike(a: Option<Row>, b: Option<Row>, ops: seq<RowOp>, key: Key)
    requires WellFormedSlot(a, key) && WellFormedSlot(b, key) && AllOn(ops, key) && InTurn(ops)
    requires DeleteLands(a, ops) && DeleteLands(b, ops)
    ensures SameContent(Replay(a, ops), Replay(b, ops)) && Replay(a, ops).Some?
  {
    var n := UpToDelete(ops);
    assert ops == ops[..n] + ops[n..];
    Lands(a, ops, key);
    Lands(b, ops, key);
    ReplayConcat(a, ops[..n], ops[n..]);
    ReplayConcat(b, ops[..n], ops[n..]);
    ReplayIgnoresVersion(Replay(a, ops[..n]), Replay(b, ops[..n]), ops[n..]);
    RowStays(Replay(a, ops[..n]), ops[n..]);
  }

  lemma {:induction false} RowStays(slot: Option<Row>, ops: seq<RowOp>)
    requires slot.Some?
    ensures Replay(slot, ops).Some?
    decreases |ops|
  {
    if ops != [] {
      RowStays(Apply(slot, ops[0]).row, ops[1..]);
    }
  }

  // ── the collapsed queue on any server row ──────────────────────────────────

  predicate SeedWins(b: Row, net: Row, k: string)
    requires k in net.fields ==> k in net.clocks
  {
    k in net.fields && Newer(net.clocks[k], Get(b.clocks, k))
  }

  /** On a live server row: where the queue's last write of the field is news, it is a clear of nothing or the
      value the net row shows; where it is not, neither is the net row's. */
  ghost predicate SameAt(b: Row, ops: seq<RowOp>, net: Row, k: string)
    requires k in net.fields ==> k in net.clocks
  {
    if !WinsOver(b, ops, k) then !SeedWins(b, net, k)
    else if LastWrite(ops, k).value.value == Null then k !in b.fields && !SeedWins(b, net, k)
    else Get(net.fields, k) == Some(LastWrite(ops, k).value.value) && Get(net.clocks, k) == Some(LastWrite(ops, k).value.at)
  }

  ghost predicate SameOverLive(b: Row, ops: seq<RowOp>, net: Row)
    requires WellFormed(net)
  {
    if net.deleted then
      !NewerThanAll(net.delHlc.value, b) &&
      forall k :: WinsOver(b, ops, k) ==> LastWrite(ops, k).value.value == Null && k !in b.fields
    else forall k :: SameAt(b, ops, net, k)
  }

  /** The net row shows exactly what the run wrote last. */
  ghost predicate ShowsLast(net: Row, tail: seq<RowOp>, k: string) {
    var w := LastWrite(tail, k);
    if w.Some? && w.value.value != Null then
      Get(net.fields, k) == Some(w.value.value) && Get(net.clocks, k) == Some(w.value.at)
    else k !in net.fields
  }

  /** On a tombstone or a missing row, where `tail` is what counts of the queue: the queue revives it if and only
      if the seed does, and then the net row shows exactly what the tail wrote. */
  ghost predicate SameOverEmpty(b: Option<Row>, tail: seq<RowOp>, net: Row) {
    if tail == [] then net.deleted || !Newer(SeedOp(net).hlc, Floor(b))
    else !net.deleted && Newer(SeedOp(net).hlc, Floor(b)) && forall k :: ShowsLast(net, tail, k)
  }

  /** On a live row that the queue deletes and, with `tail`, may revive: so does the seed, or it writes what the
      tail wrote, and leaves nothing of the row on show that the delete removes. */
  ghost predicate SameOverBuried(b: Row, tail: seq<RowOp>, net: Row)
    requires WellFormed(net)
  {
    if tail == [] then net.deleted && NewerThanAll(net.delHlc.value, b)
    else (net.deleted ==> !NewerThanAll(net.delHlc.value, b)) && forall k :: SameBuriedAt(b, tail, net, k)
  }

  ghost predicate SameBuriedAt(b: Row, tail: seq<RowOp>, net: Row, k: string)
    requires k in net.fields ==> k in net.clocks
  {
    var w := LastWrite(tail, k);
    if w.Some? && w.value.value != Null then
      Get(net.fields, k) == Some(w.value.value) && Get(net.clocks, k) == Some(w.value.at)
    else k !in b.fields && !SeedWins(b, net, k)
  }

  /** What counts of a queue behind its last delete. */
  function BehindDelete(ops: seq<RowOp>): seq<RowOp>
    requires UpToDelete(ops) > 0
  {
    Reviving(ops[UpToDelete(ops)..], Some(ops[UpToDelete(ops) - 1].hlc))
  }

  /** Whether the server row `b` ends up showing the same from the net row's seed as from the queue. */
  ghost predicate Converges(b: Option<Row>, ops: seq<RowOp>, net: Row)
    requires WellFormed(net)
  {
    if Empty(b) then SameOverEmpty(b, if DeleteLands(b, ops) then BehindDelete(ops) else Reviving(ops, Floor(b)), net)
    else if DeleteLands(b, ops) then SameOverBuried(b.value, BehindDelete(ops), net)
    else SameOverLive(b.value, ops, net)
  }

  lemma SeedLaidAt(b: Row, net: Row, k: string)
    requires WellFormed(net) && !net.deleted
    ensures var next := Merged(b, SeedOp(net));
            if SeedWins(b, net, k) then
              Get(next.fields, k) == Some(net.fields[k]) && Get(next.clocks, k) == Some(net.clocks[k])
            else Get(next.fields, k) == Get(b.fields, k) && Get(next.clocks, k) == Get(b.clocks, k)
  {
    MergedAt(b, SeedOp(net), k);
    if k in net.fields {
      assert net.fields[k] in net.fields.Values;
    }
  }

  lemma SeedOverLiveRow(b: Row, ops: seq<RowOp>, net: Row, raw: Row)
    requires WellFormed(b) && !b.deleted && WellFormed(net) && !net.deleted && b.key == net.key
    requires WellFormed(raw) && Laid(b, ops, raw)
    ensures ViewOf(Apply(Some(b), SeedOp(net)).row) == ViewOf(Some(raw)) <==> SameOverLive(b, ops, net)
  {
    var seed := SeedOp(net);
    LiveRowsMerge(b, seed);
    ApplyKeepsWellFormed(Some(b), seed);
    var next := Merged(b, seed);
    ViewsAgree(next, raw);
    forall k
      ensures AgreeAt(next, raw, k) <==> SameAt(b, ops, net, k)
    {
      SeedLaidAt(b, net, k);
      assert LaidAt(b, ops, raw, k);
    }
  }

  lemma DeleteOverLiveRow(b: Row, ops: seq<RowOp>, net: Row, raw: Row)
    requires WellFormed(b) && !b.deleted && WellFormed(net) && net.deleted && b.key == net.key
    requires WellFormed(raw) && Laid(b, ops, raw)
    ensures ViewOf(Apply(Some(b), SeedOp(net)).row) == ViewOf(Some(raw)) <==> SameOverLive(b, ops, net)
  {
    MaxClockMeaning(b, MaxClockOf(b), net.delHlc.value);
    if !NewerThanAll(net.delHlc.value, b) {
      ViewsAgree(b, raw);
      forall k
        ensures AgreeAt(b, raw, k) <==>
                (WinsOver(b, ops, k) ==> LastWrite(ops, k).value.value == Null && k !in b.fields)
      {
        assert LaidAt(b, ops, raw, k);
      }
    }
  }

  /** `raw` is what the queue makes of an empty slot: nothing, or the tail laid over nothing. */
  ghost predicate RevivedBy(tail: seq<RowOp>, raw: Option<Row>, key: Key) {
    if tail == [] then ViewOf(raw) == Absent
    else exists base: Row :: raw.Some? && WellFormed(raw.value) && BlankRow(base, key) && Laid(base, tail, raw.value)
  }

  ghost predicate BlankRow(base: Row, key: Key) {
    !base.deleted && base.fields == map[] && base.clocks == map[] && base.key == key
  }

  lemma SeedOverEmptySlot(b: Option<Row>, tail: seq<RowOp>, net: Row, raw: Option<Row>, key: Key)
    requires WellFormedSlot(b, key) && Empty(b) && WellFormedSlot(Some(net), key) && RevivedBy(tail, raw, key)
    ensures ViewOf(Apply(b, SeedOp(net)).row) == ViewOf(raw) <==> SameOverEmpty(b, tail, net)
  {
    SeedOnEmpty(b, net, key);
    if tail != [] && !net.deleted && Newer(SeedOp(net).hlc, Floor(b)) {
      var base: Row :| WellFormed(raw.value) && BlankRow(base, key) && Laid(base, tail, raw.value);
      SeedOverBlank(Blank(b, key), base, tail, net, raw.value);
    }
  }

  lemma SeedOnEmpty(b: Option<Row>, net: Row, key: Key)
    requires WellFormedSlot(b, key) && Empty(b) && WellFormedSlot(Some(net), key)
    ensures var next := Apply(b, SeedOp(net)).row;
            if !net.deleted && Newer(SeedOp(net).hlc, Floor(b)) then next == Some(Merged(Blank(b, key), SeedOp(net)))
            else ViewOf(next) == Absent
  {
    if !net.deleted && Newer(SeedOp(net).hlc, Floor(b)) {
      FirstRevives(b, SeedOp(net), key);
    }
  }

  lemma SeedOverBlank(blank: Row, base: Row, tail: seq<RowOp>, net: Row, raw: Row)
    requires BlankRow(blank, net.key) && BlankRow(base, net.key)
    requires WellFormed(net) && !net.deleted && WellFormed(raw) && Laid(base, tail, raw)
    ensures ViewOf(Some(Merged(blank, SeedOp(net)))) == ViewOf(Some(raw)) <==> forall k :: ShowsLast(net, tail, k)
  {
    var next := Merged(blank, SeedOp(net));
    LiveRowsMerge(blank, SeedOp(net));
    ApplyKeepsWellFormed(Some(blank), SeedOp(net));
    ViewsAgree(next, raw);
    forall k
      ensures AgreeAt(next, raw, k) <==> ShowsLast(net, tail, k)
    {
      SeedLaidAt(blank, net, k);
      assert LaidAt(base, tail, raw, k);
    }
  }

  // ── behind a delete that lands on the server row ───────────────────────────

  lemma RunBehindDelete(ops: seq<RowOp>, key: Key)
    requires InTurn(ops) && AllOn(ops, key) && UpToDelete(ops) > 0
    ensures var n := UpToDelete(ops);
            && InTurn(ops[n..]) && AllOn(ops[n..], key)
            && forall op <- ops[n..] :: op.op != Delete && op.clocks.None? && op.hlc > ops[n - 1].hlc
  {
    var n := UpToDelete(ops);
    InTurnSlice(ops, n, |ops|);
    assert ops[n..|ops|] == ops[n..];
    forall op | op in ops[n..] ensures op.key == key && op.op != Delete && op.clocks.None? && op.hlc > ops[n - 1].hlc {
      var i :| n <= i < |ops| && ops[i] == op;
      assert op in ops;
    }
  }

  /** The two parts of a run with a delete: up to the last, and what is behind it. */
  lemma CutAtDelete(ops: seq<RowOp>, key: Key) returns (init: seq<RowOp>, h: Clock, rest: seq<RowOp>)
    requires AllOn(ops, key) && InTurn(ops) && UpToDelete(ops) > 0
    ensures init == ops[..UpToDelete(ops)] && h == ops[UpToDelete(ops) - 1].hlc && rest == ops[UpToDelete(ops)..]
    ensures ops == init + rest
    ensures InTurn(rest) && AllOn(rest, key) && (forall op <- rest :: op.op != Delete)
    ensures BehindDelete(ops) == Reviving(rest, Some(h))
  {
    var n := UpToDelete(ops);
    init, h, rest := ops[..n], ops[n - 1].hlc, ops[n..];
    RunBehindDelete(ops, key);
  }

  /** Where the last delete lands, nothing but what is behind it counts. */
  lemma LandedRaw(b: Option<Row>, ops: seq<RowOp>, key: Key) returns (raw: Option<Row>)
    requires WellFormedSlot(b, key) && AllOn(ops, key) && InTurn(ops) && DeleteLands(b, ops)
    ensures ViewOf(Replay(b, ops)) == ViewOf(raw) && RevivedBy(BehindDelete(ops), raw, key)
  {
    var init, h, rest := CutAtDelete(ops, key);
    Lands(b, ops, key);
    SameRest(b, init, Some(Tombstone(key, h)), rest);
    raw := BuiltOnGrave(h, rest, key);
  }

  lemma BuiltOnGrave(h: Clock, rest: seq<RowOp>, key: Key) returns (raw: Option<Row>)
    requires InTurn(rest) && AllOn(rest, key) && forall op <- rest :: op.op != Delete
    ensures raw == Replay(Some(Tombstone(key, h)), rest) && RevivedBy(Reviving(rest, Some(h)), raw, key)
  {
    var grave := Some(Tombstone(key, h));
    RevivedIsLaid(grave, rest, key);
    raw := Replay(grave, rest);
    assert BlankRow(Blank(grave, key), key);
  }

  lemma SameRest(b: Option<Row>, init: seq<RowOp>, mid: Option<Row>, rest: seq<RowOp>)
    requires SameContent(Replay(b, init), mid)
    ensures ViewOf(Replay(b, init + rest)) == ViewOf(Replay(mid, rest))
  {
    ReplayConcat(b, init, rest);
    ReplayIgnoresVersion(Replay(b, init), mid, rest);
  }

  lemma {:induction false} LastWriteAfter(ops: seq<RowOp>, h: Clock, k: string)
    requires (forall op <- ops :: op.clocks.None? && op.hlc > h) && LastWrite(ops, k).Some?
    ensures LastWrite(ops, k).value.at > h
  {
    var n := |ops| - 1;
    assert ops[n] in ops;
    if ops[n].op == Delete || k !in ops[n].Set() {
      assert forall op <- ops[..n] :: op in ops;
      LastWriteAfter(ops[..n], h, k);
    }
  }

  lemma TailIsNewer(ops: seq<RowOp>, key: Key, k: string)
    requires InTurn(ops) && AllOn(ops, key) && UpToDelete(ops) > 0 && LastWrite(BehindDelete(ops), k).Some?
    ensures LastWrite(BehindDelete(ops), k).value.at > ops[UpToDelete(ops) - 1].hlc
  {
    RunBehindDelete(ops, key);
    assert forall op <- BehindDelete(ops) :: op in ops[UpToDelete(ops)..];
    LastWriteAfter(BehindDelete(ops), ops[UpToDelete(ops) - 1].hlc, k);
  }

  lemma SeedOverBuriedRow(b: Row, tail: seq<RowOp>, net: Row, raw: Option<Row>, key: Key)
    requires WellFormedSlot(Some(b), key) && !b.deleted && WellFormedSlot(Some(net), key) && RevivedBy(tail, raw, key)
    requires forall k | LastWrite(tail, k).Some? :: Newer(LastWrite(tail, k).value.at, Get(b.clocks, k))
    ensures ViewOf(Apply(Some(b), SeedOp(net)).row) == ViewOf(raw) <==> SameOverBuried(b, tail, net)
  {
    if net.deleted {
      MaxClockMeaning(b, MaxClockOf(b), net.delHlc.value);
      if tail != [] && !NewerThanAll(net.delHlc.value, b) {
        BuriedAtEveryField(b, tail, net, b, raw.value);
      }
    } else {
      LiveRowsMerge(b, SeedOp(net));
      ApplyKeepsWellFormed(Some(b), SeedOp(net));
      if tail != [] {
        BuriedAtEveryField(b, tail, net, Merged(b, SeedOp(net)), raw.value);
      }
    }
  }

  /** `next` is what the seed leaves of `b`, `raw` what the tail has built. */
  lemma BuriedAtEveryField(b: Row, tail: seq<RowOp>, net: Row, next: Row, raw: Row)
    requires WellFormed(b) && !b.deleted && WellFormed(net) && b.key == net.key
    requires if net.deleted then next == b else next == Merged(b, SeedOp(net))
    requires WellFormed(next) && !next.deleted && WellFormed(raw)
    requires exists base: Row :: BlankRow(base, b.key) && Laid(base, tail, raw)
    requires forall k | LastWrite(tail, k).Some? :: Newer(LastWrite(tail, k).value.at, Get(b.clocks, k))
    ensures ViewOf(Some(next)) == ViewOf(Some(raw)) <==> forall k :: SameBuriedAt(b, tail, net, k)
  {
    var base: Row :| BlankRow(base, b.key) && Laid(base, tail, raw);
    ViewsAgree(next, raw);
    forall k
      ensures AgreeAt(next, raw, k) <==> SameBuriedAt(b, tail, net, k)
    {
      if !net.deleted {
        SeedLaidAt(b, net, k);
      }
      assert LaidAt(base, tail, raw, k);
    }
  }

  lemma UnlandedDeletes(b: Option<Row>, ops: seq<RowOp>, key: Key)
    requires WellFormedSlot(b, key) && InTurn(ops) && !DeleteLands(b, ops)
    ensures if Empty(b) then Untouching(ops, b) else Beaten(ops, b.value)
  {
    var n := UpToDelete(ops);
    forall op | op in ops && op.op == Delete
      ensures b.Some? && !NewerThanAll(op.hlc, b.value)
    {
      var i :| 0 <= i < |ops| && ops[i] == op;
      assert i < n && op.hlc <= ops[n - 1].hlc && !Buries(ops[n - 1].hlc, b);
      if Newer(ops[n - 1].hlc, b.value.delHlc) {
        var k :| k in b.value.clocks && b.value.clocks[k] >= ops[n - 1].hlc;
      }
    }
  }

  /** The promise of compaction, on whatever row the server holds by the time the queue gets there: the seed of
      the net row leaves the server showing what the queue would have made it show, exactly if `Converges`. The
      queue may itself start with the seed of an earlier compaction. */
  lemma CompactionConverges(b: Option<Row>, ops: seq<RowOp>, net: Row, key: Key)
    requires WellFormedSlot(b, key) && AllOn(ops, key) && InTurn(ops) && WellFormedSlot(Some(net), key)
    ensures ViewOf(Apply(b, SeedOp(net)).row) == ViewOf(Replay(b, ops)) <==> Converges(b, ops, net)
  {
    if DeleteLands(b, ops) {
      ConvergesLanded(b, ops, net, key);
    } else if Empty(b) {
      ConvergesOnEmpty(b, ops, net, key);
    } else {
      ConvergesOnLive(b.value, ops, net, key);
    }
  }

  lemma ConvergesLanded(b: Option<Row>, ops: seq<RowOp>, net: Row, key: Key)
    requires WellFormedSlot(b, key) && AllOn(ops, key) && InTurn(ops) && WellFormedSlot(Some(net), key)
    requires DeleteLands(b, ops)
    ensures ViewOf(Apply(b, SeedOp(net)).row) == ViewOf(Replay(b, ops)) <==>
            if Empty(b) then SameOverEmpty(b, BehindDelete(ops), net) else SameOverBuried(b.value, BehindDelete(ops), net)
  {
    var raw := LandedRaw(b, ops, key);
    if Empty(b) {
      SeedOverEmptySlot(b, BehindDelete(ops), net, raw, key);
    } else {
      forall k | LastWrite(BehindDelete(ops), k).Some?
        ensures Newer(LastWrite(BehindDelete(ops), k).value.at, Get(b.value.clocks, k))
      {
        TailIsNewer(ops, key, k);
      }
      SeedOverBuriedRow(b.value, BehindDelete(ops), net, raw, key);
    }
  }

  lemma ConvergesOnEmpty(b: Option<Row>, ops: seq<RowOp>, net: Row, key: Key)
    requires WellFormedSlot(b, key) && AllOn(ops, key) && InTurn(ops) && WellFormedSlot(Some(net), key)
    requires Empty(b) && !DeleteLands(b, ops)
    ensures ViewOf(Apply(b, SeedOp(net)).row) == ViewOf(Replay(b, ops)) <==>
            SameOverEmpty(b, Reviving(ops, Floor(b)), net)
  {
    UnlandedDeletes(b, ops, key);
    RevivedIsLaid(b, ops, key);
    assert BlankRow(Blank(b, key), key);
    SeedOverEmptySlot(b, Reviving(ops, Floor(b)), net, Replay(b, ops), key);
  }

  lemma ConvergesOnLive(b: Row, ops: seq<RowOp>, net: Row, key: Key)
    requires WellFormedSlot(Some(b), key) && AllOn(ops, key) && InTurn(ops) && WellFormedSlot(Some(net), key)
    requires !b.deleted && !DeleteLands(Some(b), ops)
    ensures ViewOf(Apply(Some(b), SeedOp(net)).row) == ViewOf(Replay(Some(b), ops)) <==> SameOverLive(b, ops, net)
  {
    UnlandedDeletes(Some(b), ops, key);
    AllLaid(b, ops);
    if net.deleted {
      DeleteOverLiveRow(b, ops, net, Replay(Some(b), ops).value);
    } else {
      SeedOverLiveRow(b, ops, net, Replay(Some(b), ops).value);
    }
  }

  /** When the last delete lands on the cached row and on the server's, it all comes down to the seed holding up
      against the server's row. */
  lemma LandedOnBoth(a: Option<Row>, b: Option<Row>, ops: seq<RowOp>, key: Key)
    requires WellFormedSlot(a, key) && WellFormedSlot(b, key) && AllOn(ops, key) && InTurn(ops)
    requires DeleteLands(a, ops) && DeleteLands(b, ops)
    ensures Replay(a, ops).Some? && WellFormedSlot(Replay(a, ops), key)
    ensures Converges(b, ops, Replay(a, ops).value) <==> HoldsUp(b, Replay(a, ops).value)
  {
    ReplayKeepsWellFormed(a, ops, key);
    LandedAlike(a, b, ops, key);
    CompactionConverges(b, ops, Replay(a, ops).value, key);
    SeedShows(b, Replay(a, ops).value, key);
  }

  // ── local writes that have not been compacted yet ──────────────────────────

  lemma {:induction false} LocalInTurn(slot: Option<Row>, ops: seq<RowOp>, key: Key)
    requires LocalWrites(slot, ops, key)
    ensures InTurn(ops) && (UpToDelete(ops) > 0 ==> DeleteLands(slot, ops))
  {
    assert forall i :: 0 <= i < |ops| ==> ops[i] in ops;
  }

  lemma {:induction false} WrittenHasLast(ops: seq<RowOp>, i: nat, k: string)
    requires i < |ops| && ops[i].op != Delete && k in ops[i].Set()
    ensures LastWrite(ops, k).Some?
  {
    var n := |ops| - 1;
    if i < n {
      WrittenHasLast(ops[..n], i, k);
    }
  }

  lemma {:induction false} LastWriteAbove(ops: seq<RowOp>, k: string)
    requires InTurn(ops) && LastWrite(ops, k).Some? && forall op <- ops :: op.clocks.None?
    ensures ops != [] && LastWrite(ops, k).value.at >= ops[0].hlc
  {
    var n := |ops| - 1;
    assert ops[n] in ops;
    if ops[n].op == Delete || k !in ops[n].Set() {
      InTurnSlice(ops, 0, n);
      assert ops[0..n] == ops[..n] && forall op <- ops[..n] :: op in ops;
      LastWriteAbove(ops[..n], k);
    }
  }

  /** Everything the tail writes last is on the net row. */
  ghost predicate TailShown(tail: seq<RowOp>, net: Row) {
    forall k :: LastWrite(tail, k).Some? ==>
      Get(net.clocks, k) == Some(LastWrite(tail, k).value.at) &&
      Get(net.fields, k) == Stored(LastWrite(tail, k).value.value)
  }

  lemma TailOverBase(base: Row, tail: seq<RowOp>, net: Row)
    requires InTurn(tail) && tail != [] && (forall op <- tail :: op.clocks.None?)
    requires NewerThanAll(tail[0].hlc, base) && Laid(base, tail, net)
    ensures TailShown(tail, net)
  {
    forall k | LastWrite(tail, k).Some?
      ensures Get(net.clocks, k) == Some(LastWrite(tail, k).value.at) &&
              Get(net.fields, k) == Stored(LastWrite(tail, k).value.value)
    {
      LastWriteAbove(tail, k);
      assert LaidAt(base, tail, net, k);
    }
  }

  /** A run without deletes that starts with an upsert newer than the slot leaves a live row with all it wrote. */
  lemma UpsertedTail(slot: Option<Row>, tail: seq<RowOp>, key: Key)
    requires WellFormedSlot(slot, key) && AllOn(tail, key) && InTurn(tail) && !HasDelete(tail) && tail != []
    requires tail[0].op == Upsert && CarriesClock(tail[0]) && (forall op <- tail :: op.clocks.None?)
    requires slot.Some? ==> NewerThanAll(tail[0].hlc, slot.value)
    ensures Replay(slot, tail).Some? && WellFormed(Replay(slot, tail).value) && !Replay(slot, tail).value.deleted
    ensures TailShown(tail, Replay(slot, tail).value)
    ensures SeedOp(Replay(slot, tail).value).hlc >= tail[0].hlc
  {
    if Empty(slot) {
      assert RevivesAt(tail, Floor(slot)) == 0 && tail[0..] == tail;
      RevivedIsLaid(slot, tail, key);
      TailOverBase(Blank(slot, key), tail, Replay(slot, tail).value);
    } else {
      AllLaid(slot.value, tail);
      TailOverBase(slot.value, tail, Replay(slot, tail).value);
    }
    var net := Replay(slot, tail).value;
    var k :| k in tail[0].Set();
    WrittenHasLast(tail, 0, k);
    LastWriteAbove(tail, k);
    assert Get(net.clocks, k).Some? && net.clocks[k] >= tail[0].hlc;
  }

  lemma NoDeleteInTail(b: Option<Row>, ops: seq<RowOp>)
    requires Empty(b) && Untouching(ops, b) && InTurn(ops)
    ensures !HasDelete(Reviving(ops, Floor(b)))
  {
    var m := RevivesAt(ops, Floor(b));
    forall op | op in ops[m..] ensures op.op != Delete {
      var i :| m <= i < |ops| && ops[i] == op;
      assert op in ops && op.hlc >= ops[m].hlc;
    }
  }

  lemma WritesSplit(slot: Option<Row>, ops: seq<RowOp>, m: nat, key: Key) returns (pre: seq<RowOp>, tail: seq<RowOp>)
    requires LocalWrites(slot, ops, key) && m <= |ops|
    ensures pre == ops[..m] && tail == ops[m..] && ops == pre + tail
    ensures LocalWrites(slot, pre, key) && LocalWrites(slot, tail, key)
    ensures forall x, y :: x in pre && y in tail ==> x.hlc < y.hlc
  {
    pre, tail := ops[..m], ops[m..];
    SliceWrites(slot, ops, 0, m, key);
    SliceWrites(slot, ops, m, |ops|, key);
    InOrderAcross(ops, m);
  }

  /** The net row of local writes that revive the server's row `b`. */
  lemma NetOfTail(a: Option<Row>, b: Option<Row>, ops: seq<RowOp>, key: Key) returns (net: Row)
    requires WellFormedSlot(a, key) && LocalWrites(a, ops, key) && InTurn(ops)
    requires Empty(b) && Untouching(ops, b) && Reviving(ops, Floor(b)) != []
    ensures Replay(a, ops) == Some(net) && WellFormedSlot(Some(net), key) && !net.deleted
    ensures TailShown(Reviving(ops, Floor(b)), net) && Newer(SeedOp(net).hlc, Floor(b))
  {
    NoDeleteInTail(b, ops);
    var pre, tail := WritesSplit(a, ops, RevivesAt(ops, Floor(b)), key);
    net := NetOfSplit(a, pre, tail, key);
  }

  lemma NetOfSplit(a: Option<Row>, pre: seq<RowOp>, tail: seq<RowOp>, key: Key) returns (net: Row)
    requires WellFormedSlot(a, key) && LocalWrites(a, pre, key) && LocalWrites(a, tail, key)
    requires tail != [] && tail[0].op == Upsert && !HasDelete(tail)
    requires forall x, y :: x in pre && y in tail ==> x.hlc < y.hlc
    ensures Replay(a, pre + tail) == Some(net) && WellFormedSlot(Some(net), key) && !net.deleted
    ensures TailShown(tail, net) && SeedOp(net).hlc >= tail[0].hlc
  {
    assert tail[0] in tail;
    LocalInTurn(a, pre, key);
    LocalInTurn(a, tail, key);
    StaysBelow(a, pre, tail[0].hlc);
    ReplayKeepsWellFormed(a, pre, key);
    ReplayConcat(a, pre, tail);
    UpsertedTail(Replay(a, pre), tail, key);
    ReplayKeepsWellFormed(Replay(a, pre), tail, key);
    net := Replay(a, pre + tail).value;
  }

  /** Where the server row is gone and the writes revive it, the two queues agree exactly if the net row shows
      nothing but what was written from the reviving upsert on. */
  lemma LocalTail(a: Option<Row>, b: Option<Row>, ops: seq<RowOp>, key: Key)
    requires WellFormedSlot(a, key) && WellFormedSlot(b, key) && LocalWrites(a, ops, key)
    requires Empty(b) && !DeleteLands(b, ops) && Reviving(ops, Floor(b)) != []
    ensures WellFormedSlot(Replay(a, ops), key) && Replay(a, ops).Some?
    ensures var net := Replay(a, ops).value;
            Converges(b, ops, net) <==> forall k <- net.fields :: LastWrite(Reviving(ops, Floor(b)), k).Some?
  {
    LocalInTurn(a, ops, key);
    UnlandedDeletes(b, ops, key);
    var net := NetOfTail(a, b, ops, key);
    ShownByTail(net, Reviving(ops, Floor(b)));
  }

  lemma ShownByTail(net: Row, tail: seq<RowOp>)
    requires TailShown(tail, net)
    ensures (forall k :: ShowsLast(net, tail, k)) <==> forall k <- net.fields :: LastWrite(tail, k).Some?
  {
    forall k ensures ShowsLast(net, tail, k) <==> (k in net.fields ==> LastWrite(tail, k).Some?) {
      assert LastWrite(tail, k).Some? ==> Get(net.fields, k) == Stored(LastWrite(tail, k).value.value);
    }
  }

  /** Updates never bring a row back. If a peer has deleted the row, the collapsed queue does so exactly if the
      net row is newer than that delete. */
  lemma UpdatesMeetTombstone(a: Row, b: Row, ups: seq<RowOp>, key: Key)
    requires WellFormedSlot(Some(a), key) && !a.deleted && WellFormedSlot(Some(b), key) && b.deleted
    requires LocalWrites(Some(a), ups, key) && forall op <- ups :: op.op == Update
    ensures var net := Replay(Some(a), ups);
            && WellFormedSlot(net, key) && net.Some? && !net.value.deleted
            && ViewOf(Replay(Some(b), ups)) == Absent
            && (ViewOf(Apply(Some(b), SeedOp(net.value)).row) == Absent <==> !Newer(SeedOp(net.value).hlc, b.delHlc))
  {
    UpdatesOverLive(a, ups, key);
    UpdatesOverTombstone(b, ups);
    SeedOnEmpty(Some(b), Replay(Some(a), ups).value, key);
  }

  /** The row is still there and so are the writes: the two queues agree exactly if no cached field has gone or
      grown older on the server, and no field the queue cleared is still shown there under an older clock. */
  lemma OverChangedRow(a: Row, b: Row, ops: seq<RowOp>, key: Key)
    requires WellFormedSlot(Some(a), key) && !a.deleted && WellFormedSlot(Some(b), key) && !b.deleted
    requires LocalWrites(Some(a), ops, key) && !HasDelete(ops)
    ensures var net := Replay(Some(a), ops);
            && WellFormedSlot(net, key) && net.Some? && !net.value.deleted
            && (Converges(Some(b), ops, net.value) <==>
                  CachedIsStillThere(b, ops, net.value) && ClearsHaveLanded(b, ops, net.value))
  {
    LocalInTurn(Some(a), ops, key);
    AllLaid(a, ops);
    var net := Replay(Some(a), ops).value;
    assert UpToDelete(ops) == 0;
    forall k
      ensures SameAt(b, ops, net, k) <==>
                (k in net.fields && LastWrite(ops, k).None? ==> !Newer(net.clocks[k], Get(b.clocks, k))) &&
                (k in b.fields && LastWrite(ops, k).Some? && k !in net.fields ==> !WinsOver(b, ops, k))
    {
      assert LaidAt(a, ops, net, k);
      WinsOverCached(a, ops, key, k);
    }
  }

  lemma WinsOverCached(a: Row, ops: seq<RowOp>, key: Key, k: string)
    requires LocalWrites(Some(a), ops, key) && InTurn(ops)
    ensures LastWrite(ops, k).Some? ==> WinsOver(a, ops, k)
  {
    if LastWrite(ops, k).Some? {
      LastWriteAbove(ops, k);
      assert ops[0] in ops;
    }
  }

  ghost predicate CachedIsStillThere(b: Row, ops: seq<RowOp>, net: Row)
    requires WellFormed(net) && !net.deleted
  {
    forall k <- net.fields :: LastWrite(ops, k).None? ==> !Newer(net.clocks[k], Get(b.clocks, k))
  }

  ghost predicate ClearsHaveLanded(b: Row, ops: seq<RowOp>, net: Row) {
    forall k <- b.fields :: LastWrite(ops, k).Some? && k !in net.fields ==> !WinsOver(b, ops, k)
  }

  /** Peers that only wrote to the row never take a cached field away, so then it is the clears alone. */
  lemma OverRefinedRow(a: Row, b: Row, ops: seq<RowOp>, key: Key)
    requires WellFormedSlot(Some(a), key) && !a.deleted && WellFormedSlot(Some(b), key) && !b.deleted && Refined(a, b)
    requires LocalWrites(Some(a), ops, key) && !HasDelete(ops)
    ensures var net := Replay(Some(a), ops);
            && WellFormedSlot(net, key) && net.Some? && !net.value.deleted
            && (Converges(Some(b), ops, net.value) <==> ClearsHaveLanded(b, ops, net.value))
  {
    LocalInTurn(Some(a), ops, key);
    AllLaid(a, ops);
    OverChangedRow(a, b, ops, key);
    var net := Replay(Some(a), ops).value;
    forall k | k in net.fields && LastWrite(ops, k).None? ensures !Newer(net.clocks[k], Get(b.clocks, k)) {
      assert LaidAt(a, ops, net, k);
      assert Get(net.clocks, k) == Get(a.clocks, k);
    }
  }

  // ── queues that have been compacted before ─────────────────────────────────

  lemma SeedStamp(net: Row, k: string)
    requires WellFormed(net)
    ensures net.deleted ==> SeedOp(net).hlc == net.delHlc.value
    ensures k in net.clocks ==> net.clocks[k] <= SeedOp(net).hlc
    ensures forall h :: NewerThanAll(h, net) && h > SeedClock() ==> h > SeedOp(net).hlc
  {
  }

  lemma DeletesBehindSeed(seed: RowOp, more: seq<RowOp>)
    ensures var n := UpToDelete([seed] + more);
            if n > 1 then more[n - 2].op == Delete && more[n - 2] in more else n > 0 ==> seed.op == Delete
  {
    var ops := [seed] + more;
    assert forall i :: 0 < i < |ops| ==> ops[i] == more[i - 1];
  }

  /** The seed of a row, and local writes behind it, are such a queue too. */
  lemma SeedInTurn(net: Row, more: seq<RowOp>, key: Key)
    requires WellFormedSlot(Some(net), key) && LocalWrites(Some(net), more, key)
    ensures InTurn([SeedOp(net)] + more) && AllOn([SeedOp(net)] + more, key)
  {
    var seed := SeedOp(net);
    var ops := [seed] + more;
    assert forall i :: 0 < i < |ops| ==> ops[i] == more[i - 1] && ops[i] in more;
    SeedStamp(net, "");
    forall k | k in seed.Set() ensures seed.ClockFor(k) <= seed.hlc {
      SeedStamp(net, k);
    }
  }

  /** If the row descends from `a`, the last delete of that queue lands on `a`. */
  lemma SeedThenWrites(a: Option<Row>, net: Row, more: seq<RowOp>, key: Key)
    requires WellFormedSlot(a, key) && WellFormedSlot(Some(net), key) && (a.Some? ==> Descends(a.value, net))
    requires LocalWrites(Some(net), more, key) && LocalWrites(a, more, key)
    ensures var ops := [SeedOp(net)] + more;
            InTurn(ops) && AllOn(ops, key) && (UpToDelete(ops) > 0 ==> DeleteLands(a, ops))
  {
    SeedInTurn(net, more, key);
    DeletesBehindSeed(SeedOp(net), more);
    SeedStamp(net, "");
  }

  // ── the failing family is real ─────────────────────────────────────────────

  function CachedAt1(key: Key): Row { Row(key, 7, false, None, map["t" := Json("old")], map["t" := 1.0]) }

  function RenamedAt5(key: Key): RowOp { RowOp(key, Update, Some(map["t" := Json("new")]), 5.0, None) }

  function DeletedAt3(key: Key): Row { Row(key, 9, true, Some(3.0), map[], map[]) }

  /** A queued rename, and a peer deletes the row meanwhile. Compaction is invisible on the client; on the server
      the queue leaves the row deleted, and the collapsed queue brings it back. */
  lemma PeersDeleteIsUndone(key: Key)
    ensures var a, b, queue := CachedAt1(key), DeletedAt3(key), [RenamedAt5(key)];
            var net := Replay(Some(a), queue);
            && net.Some? && Queue(queue, key) && KeepsEveryField(Some(a), net)
            && ViewOf(Apply(Some(a), SeedOp(net.value)).row) == ViewOf(net)
            && ViewOf(Replay(Some(b), queue)) == Absent
            && ViewOf(Apply(Some(b), SeedOp(net.value)).row) == ViewOf(net) != Absent
  {
    var rename := RenamedAt5(key);
    RenameAlone(key);
    ReplayThree(Some(DeletedAt3(key)), rename, rename, rename);
    SeedShows(Some(CachedAt1(key)), RenamedRow(key), key);
    SeedOverTombstone(DeletedAt3(key), RenamedRow(key));
  }

  function RenamedRow(key: Key): Row { Row(key, 7, false, None, map["t" := Json("new")], map["t" := 5.0]) }

  lemma RenameAlone(key: Key)
    ensures Replay(Some(CachedAt1(key)), [RenamedAt5(key)]) == Some(RenamedRow(key))
    ensures SeedOp(RenamedRow(key)).hlc >= 5.0
  {
    var a, rename, net := CachedAt1(key), RenamedAt5(key), RenamedRow(key);
    ReplayThree(Some(a), rename, rename, rename);
    assert Wins(a, rename, "t");
    assert Merged(a, rename).fields == net.fields && Merged(a, rename).clocks == net.clocks;
    assert "t" in net.clocks;
  }
}
