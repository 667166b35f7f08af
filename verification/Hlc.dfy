/** Hybrid logical clocks (crates/doc/src/registry.rs, lines 40-75).

    A clock travels as a string and is compared bytewise. `Rank` embeds strings into the reals so
    that string order and numeric order coincide; the rest of the project compares ranks. */
module Hlc {
  import opened Text

  // ── bytewise string order ──────────────────────────────────────────────────

  /** `a < b` on strings: the order of their code points, which for UTF-8 is the order of bytes. */
  predicate Less(a: string, b: string) {
    b != [] && (a == [] || a[0] < b[0] || (a[0] == b[0] && Less(a[1..], b[1..])))
  }

  lemma {:induction false} LessConcat(p: string, s: string, q: string, t: string)
    requires |p| == |q|
    ensures Less(p + s, q + t) <==> Less(p, q) || (p == q && Less(s, t))
  {
    if p == [] {
      assert p + s == s && q + t == t;
    } else {
      assert (p + s)[0] == p[0] && (p + s)[1..] == p[1..] + s;
      assert (q + t)[0] == q[0] && (q + t)[1..] == q[1..] + t;
      LessConcat(p[1..], s, q[1..], t);
      assert p == q <==> p[0] == q[0] && p[1..] == q[1..] by {
        assert p == [p[0]] + p[1..] && q == [q[0]] + q[1..];
      }
    }
  }

  // ── clocks as points of a total order ──────────────────────────────────────

  /** A clock, placed by `Rank` at its position in the string order. */
  type Clock = real

  const BASE: real := 1114113.0

  function Rank(s: string): (r: Clock)
    ensures 0.0 <= r < 1.0
    ensures s != [] ==> r > 0.0
  {
    if s == [] then 0.0 else (s[0] as int as real + 1.0 + Rank(s[1..])) / BASE
  }

  /** The embedding is exact: comparing ranks is comparing strings, and no two strings share one. */
  lemma {:induction false} RankOrder(a: string, b: string)
    ensures Less(a, b) <==> Rank(a) < Rank(b)
    ensures a == b <==> Rank(a) == Rank(b)
  {
    if a == [] || b == [] {
    } else {
      RankOrder(a[1..], b[1..]);
      assert a == [a[0]] + a[1..] && b == [b[0]] + b[1..];
      var x, y := a[0] as int as real, b[0] as int as real;
      assert Rank(a) * BASE == x + 1.0 + Rank(a[1..]);
      assert Rank(b) * BASE == y + 1.0 + Rank(b[1..]);
    }
  }

  // ── encoding ───────────────────────────────────────────────────────────────

  const MS_LIMIT: nat := 10_000_000_000_000
  const COUNTER_LIMIT: nat := 1_000_000

  function Zeros(n: nat): (s: string)
    ensures |s| == n
  {
    seq(n, i => '0')
  }

  /** `{n:0w}` for a non-negative number: at least `w` digits, more when the number needs them. */
  function Padded(n: nat, w: nat): string {
    var digits := Decimal(n);
    if |digits| >= w then digits else Zeros(w - |digits|) + digits
  }

  /** `{n:0w}` for any integer; the sign counts towards the width. */
  function PaddedInt(n: int, w: nat): string
    requires w > 0
  {
    if n >= 0 then Padded(n, w) else "-" + Padded(-n, w - 1)
  }

  function EncodeHlc(ms: int, counter: nat, device: string): string {
    PaddedInt(ms, 13) + "-" + Padded(counter, 6) + "-" + device
  }

  function Pow10(w: nat): (p: nat)
    ensures p > 0
  {
    if w == 0 then 1 else 10 * Pow10(w - 1)
  }

  /** Exactly `w` digits: the low ones of `n`. */
  function Fixed(n: nat, w: nat): (s: string)
    ensures |s| == w
  {
    if w == 0 then [] else Fixed(n / 10, w - 1) + [Digit(n % 10)]
  }

  lemma {:induction false} FixedZero(w: nat)
    ensures Fixed(0, w) == Zeros(w)
  {
    if w > 0 {
      FixedZero(w - 1);
      assert Zeros(w) == Zeros(w - 1) + ['0'];
    }
  }

  lemma {:induction false} PaddedIsFixed(n: nat, w: nat)
    requires w > 0 && n < Pow10(w)
    ensures Padded(n, w) == Fixed(n, w)
  {
    if n < 10 {
      FixedZero(w - 1);
    } else {
      assert Pow10(w) == 10 * Pow10(w - 1);
      PaddedIsFixed(n / 10, w - 1);
      var d := Decimal(n / 10);
      assert Decimal(n) == d + [Digit(n % 10)];
      if |d| < w - 1 {
        assert Zeros(w - 1 - |d|) + d + [Digit(n % 10)] == Zeros(w - |Decimal(n)|) + Decimal(n);
      }
    }
  }

  lemma {:induction false} FixedOrder(m: nat, n: nat, w: nat)
    requires m < Pow10(w) && n < Pow10(w)
    ensures Less(Fixed(m, w), Fixed(n, w)) <==> m < n
    ensures Fixed(m, w) == Fixed(n, w) <==> m == n
  {
    if w > 0 {
      FixedOrder(m / 10, n / 10, w - 1);
      var p, q := Fixed(m / 10, w - 1), Fixed(n / 10, w - 1);
      var x, y := [Digit(m % 10)], [Digit(n % 10)];
      LessConcat(p, x, q, y);
      assert x[1..] == [] && y[1..] == [];
      assert p + x == q + y <==> p == q && x == y by {
        if p + x == q + y {
          assert p == (p + x)[..w - 1] && q == (q + y)[..w - 1];
          assert x[0] == (p + x)[w - 1] && y[0] == (q + y)[w - 1];
        }
      }
    }
  }

  /** When the (ms, counter, device) triple `a` comes before `b`. */
  predicate TripleLess(ms1: int, c1: nat, d1: string, ms2: int, c2: nat, d2: string) {
    ms1 < ms2 || (ms1 == ms2 && (c1 < c2 || (c1 == c2 && Less(d1, d2))))
  }

  lemma PowerTable()
    ensures Pow10(13) == MS_LIMIT && Pow10(6) == COUNTER_LIMIT
  {
    assert Pow10(3) == 1000;
    assert Pow10(6) == 1_000_000;
    assert Pow10(9) == 1_000_000_000;
    assert Pow10(12) == 1_000_000_000_000;
  }

  /** Within the bounds every encoded clock has the same layout. */
  lemma EncodeLayout(ms: nat, counter: nat, device: string)
    requires ms < MS_LIMIT && counter < COUNTER_LIMIT
    ensures EncodeHlc(ms, counter, device) == (Fixed(ms, 13) + "-" + Fixed(counter, 6) + "-") + device
  {
    PowerTable();
    PaddedIsFixed(ms, 13);
    PaddedIsFixed(counter, 6);
  }

  /** The order of two blocks of the form `digits-digits-`. */
  lemma StampOrder(ms1: nat, c1: nat, ms2: nat, c2: nat)
    requires ms1 < MS_LIMIT && ms2 < MS_LIMIT && c1 < COUNTER_LIMIT && c2 < COUNTER_LIMIT
    ensures var a, b := Fixed(ms1, 13) + "-" + Fixed(c1, 6) + "-", Fixed(ms2, 13) + "-" + Fixed(c2, 6) + "-";
            && |a| == |b|
            && (Less(a, b) <==> ms1 < ms2 || (ms1 == ms2 && c1 < c2))
            && (a == b <==> ms1 == ms2 && c1 == c2)
  {
    PowerTable();
    FixedOrder(ms1, ms2, 13);
    FixedOrder(c1, c2, 6);
    var m1, m2, n1, n2 := Fixed(ms1, 13), Fixed(ms2, 13), Fixed(c1, 6), Fixed(c2, 6);
    var a, b := m1 + "-" + n1 + "-", m2 + "-" + n2 + "-";
    assert a == (m1 + "-" + n1) + "-" && b == (m2 + "-" + n2) + "-";
    LessConcat(m1 + "-" + n1, "-", m2 + "-" + n2, "-");
    LessConcat(m1 + "-", n1, m2 + "-", n2);
    LessConcat(m1, "-", m2, "-");
    assert !Less("-", "-") by { assert "-"[1..] == []; }
    assert a[..13] == m1 && b[..13] == m2 && a[14..20] == n1 && b[14..20] == n2;
  }

  /** Zero padding does its job: for times below 10^13 ms and counters below 10^6 the string order of
      encoded clocks is the order of the triples, so no two triples share an encoding. */
  lemma EncodeOrder(ms1: nat, c1: nat, d1: string, ms2: nat, c2: nat, d2: string)
    requires ms1 < MS_LIMIT && ms2 < MS_LIMIT && c1 < COUNTER_LIMIT && c2 < COUNTER_LIMIT
    ensures Less(EncodeHlc(ms1, c1, d1), EncodeHlc(ms2, c2, d2)) <==> TripleLess(ms1, c1, d1, ms2, c2, d2)
    ensures Rank(EncodeHlc(ms1, c1, d1)) < Rank(EncodeHlc(ms2, c2, d2)) <==> TripleLess(ms1, c1, d1, ms2, c2, d2)
    ensures EncodeHlc(ms1, c1, d1) == EncodeHlc(ms2, c2, d2) ==> ms1 == ms2 && c1 == c2 && d1 == d2
  {
    EncodeLayout(ms1, c1, d1);
    EncodeLayout(ms2, c2, d2);
    StampOrder(ms1, c1, ms2, c2);
    var a, b := Fixed(ms1, 13) + "-" + Fixed(c1, 6) + "-", Fixed(ms2, 13) + "-" + Fixed(c2, 6) + "-";
    LessConcat(a, d1, b, d2);
    RankOrder(a + d1, b + d2);
    if a + d1 == b + d2 {
      assert a == (a + d1)[..|a|] && b == (b + d2)[..|a|];
      assert d1 == (a + d1)[|a|..] && d2 == (b + d2)[|a|..];
    }
  }

  /** The bound is needed: one millisecond later the padding is too short and the order flips. */
  lemma PaddingRunsOut()
    ensures Less(EncodeHlc(MS_LIMIT, 0, "d"), EncodeHlc(MS_LIMIT - 1, 0, "d"))
  {
    PowerTable();
    PowerDigits(13);
    assert EncodeHlc(MS_LIMIT, 0, "d")[0] == '1';
    assert EncodeHlc(MS_LIMIT - 1, 0, "d")[0] == '9';
  }

  lemma {:induction false} PowerDigits(w: nat)
    ensures |Decimal(Pow10(w))| == w + 1 && Decimal(Pow10(w))[0] == '1'
    ensures w > 0 ==> |Decimal(Pow10(w) - 1)| == w && Decimal(Pow10(w) - 1)[0] == '9'
  {
    if w > 0 {
      PowerDigits(w - 1);
      assert Pow10(w) / 10 == Pow10(w - 1) && (Pow10(w) - 1) / 10 == Pow10(w - 1) - 1;
    }
  }

  // ── the clock source ───────────────────────────────────────────────────────

  /** One reading of a clock source, as the pair the encoding is made from. */
  datatype Tick = Tick(ms: int, counter: nat)

  /** `a` was read before `b`. */
  predicate Before(a: Tick, b: Tick) {
    a.ms < b.ms || (a.ms == b.ms && a.counter < b.counter)
  }

  /** The reading that follows `last` when the wall clock says `now`. */
  function Advance(last: Tick, now: int): Tick {
    if now > last.ms then Tick(now, 0)
    else if last.counter + 1 > 999_999 then Tick(last.ms + 1, 0)
    else Tick(last.ms, last.counter + 1)
  }

  /** The readings produced from `last` by a run of wall-clock values. */
  function Readings(last: Tick, walls: seq<int>): (r: seq<Tick>)
    ensures |r| == |walls|
    decreases |walls|
  {
    if walls == [] then [] else [Advance(last, walls[0])] + Readings(Advance(last, walls[0]), walls[1..])
  }

  /** Whatever the wall clock does (stalls and regressions included), readings strictly increase and
      their counter stays within six digits. */
  lemma {:induction false} ReadingsIncrease(last: Tick, walls: seq<int>)
    requires last.counter < COUNTER_LIMIT
    ensures forall i :: 0 <= i < |walls| ==> Before(last, Readings(last, walls)[i])
    ensures forall i :: 0 <= i < |walls| ==> Readings(last, walls)[i].counter < COUNTER_LIMIT
    ensures forall i, j :: 0 <= i < j < |walls| ==> Before(Readings(last, walls)[i], Readings(last, walls)[j])
    decreases |walls|
  {
    if walls != [] {
      var first := Advance(last, walls[0]);
      ReadingsIncrease(first, walls[1..]);
    }
  }

  // ── how readings follow the wall clock ─────────────────────────────────────

  /** Time and counter as one number, a millisecond being a million counts. */
  function Count(t: Tick): int {
    t.ms * COUNTER_LIMIT + t.counter
  }

  lemma ReadingsMore(last: Tick, walls: seq<int>, now: int)
    ensures Readings(last, walls + [now]) ==
            Readings(last, walls) + [Advance(LastReading(last, walls), now)]
    decreases |walls|
  {
    if walls == [] {
      assert [] + [now] == [now] && [now][1..] == [];
      assert Readings(last, [now]) == [Advance(last, now)] + Readings(Advance(last, now), []);
    } else {
      assert (walls + [now])[1..] == walls[1..] + [now];
      ReadingsMore(Advance(last, walls[0]), walls[1..], now);
    }
  }

  /** The latest of the readings, or the one before them all. */
  function LastReading(last: Tick, walls: seq<int>): Tick {
    var r := Readings(last, walls);
    if r == [] then last else r[|r| - 1]
  }

  /** `now` has the largest of the counts the readings can have come from, and one of them. */
  ghost predicate Reached(last: Tick, walls: seq<int>, now: Tick) {
    && Count(now) >= Count(last) + |walls|
    && (forall j :: 0 <= j < |walls| ==> Count(now) >= walls[j] * COUNTER_LIMIT + (|walls| - 1 - j))
    && (Count(now) == Count(last) + |walls| ||
        exists j :: 0 <= j < |walls| && Count(now) == walls[j] * COUNTER_LIMIT + (|walls| - 1 - j))
  }

  /** Over every run of wall clock values the latest reading is the largest of these counts: of the clock it
      started from and of each wall value, one more for every reading since. */
  lemma {:induction false} ReadingIsLatest(last: Tick, walls: seq<int>)
    requires last.counter < COUNTER_LIMIT
    ensures Reached(last, walls, LastReading(last, walls)) && LastReading(last, walls).counter < COUNTER_LIMIT
    decreases |walls|
  {
    if walls != [] {
      var n := |walls| - 1;
      assert walls == walls[..n] + [walls[n]];
      ReadingIsLatest(last, walls[..n]);
      ReadingsMore(last, walls[..n], walls[n]);
      LatestStep(last, walls[..n], walls[n], LastReading(last, walls[..n]));
    }
  }

  lemma LatestStep(last: Tick, walls: seq<int>, now: int, before: Tick)
    requires Reached(last, walls, before) && before.counter < COUNTER_LIMIT
    ensures Reached(last, walls + [now], Advance(before, now)) && Advance(before, now).counter < COUNTER_LIMIT
  {
    var all, after := walls + [now], Advance(before, now);
    assert Count(after) >= Count(before) + 1 && Count(after) >= now * COUNTER_LIMIT;
    assert Count(after) == Count(before) + 1 || Count(after) == now * COUNTER_LIMIT;
    assert all[|walls|] == now;
    forall j | 0 <= j < |all| ensures Count(after) >= all[j] * COUNTER_LIMIT + (|all| - 1 - j) {
      if j < |walls| {
        assert Count(before) >= walls[j] * COUNTER_LIMIT + (|walls| - 1 - j);
      }
    }
    if Count(after) == Count(before) + 1 && Count(before) != Count(last) + |walls| {
      var j :| 0 <= j < |walls| && Count(before) == walls[j] * COUNTER_LIMIT + (|walls| - 1 - j);
      assert Count(after) == all[j] * COUNTER_LIMIT + (|all| - 1 - j);
    }
  }

  /** So no reading is behind the wall value it was read at, nor behind any other it has seen. */
  lemma NeverBehindTheWall(last: Tick, walls: seq<int>, j: nat)
    requires last.counter < COUNTER_LIMIT && j < |walls|
    ensures LastReading(last, walls).ms >= walls[j] && LastReading(last, walls).ms >= last.ms
  {
    ReadingIsLatest(last, walls);
  }

  /** The newest of the starting time and the wall values. */
  function Newest(ms: int, walls: seq<int>): int {
    if walls == [] then ms
    else
      var n := |walls| - 1;
      var before := Newest(ms, walls[..n]);
      if walls[n] > before then walls[n] else before
  }

  /** How many readings found the wall no later than something they had seen. */
  function Stalls(ms: int, walls: seq<int>): nat {
    if walls == [] then 0
    else
      var n := |walls| - 1;
      Stalls(ms, walls[..n]) + if walls[n] > Newest(ms, walls[..n]) then 0 else 1
  }

  /** And it is the newest of them all as long as the counter has not run over for readings that stalled. */
  lemma {:induction false} ReadingIsNewest(last: Tick, walls: seq<int>)
    requires last.counter + Stalls(last.ms, walls) < COUNTER_LIMIT
    ensures LastReading(last, walls).ms == Newest(last.ms, walls)
    ensures LastReading(last, walls).counter <= last.counter + Stalls(last.ms, walls)
    decreases |walls|
  {
    if walls != [] {
      var n := |walls| - 1;
      assert walls == walls[..n] + [walls[n]];
      ReadingIsNewest(last, walls[..n]);
      ReadingsMore(last, walls[..n], walls[n]);
    }
  }

  /** Two devices whose clocks have not run ahead stamp in the order of their wall clocks. */
  lemma WallsOrderDevices(a: Tick, b: Tick, nowA: int, nowB: int, deviceA: string, deviceB: string)
    requires a.ms < nowA < nowB < MS_LIMIT && b.ms < nowB && 0 <= nowA
    requires a.counter < COUNTER_LIMIT && b.counter < COUNTER_LIMIT
    ensures var s, t := LastReading(a, [nowA]), LastReading(b, [nowB]);
            Less(EncodeHlc(s.ms, s.counter, deviceA), EncodeHlc(t.ms, t.counter, deviceB))
  {
    FirstOfMillisecond(a, nowA);
    FirstOfMillisecond(b, nowB);
    EncodeOrder(nowA, 0, deviceA, nowB, 0, deviceB);
  }

  lemma FirstOfMillisecond(last: Tick, now: int)
    requires last.ms < now && last.counter < COUNTER_LIMIT
    ensures LastReading(last, [now]) == Tick(now, 0)
  {
    ReadingIsLatest(last, [now]);
    var t := LastReading(last, [now]);
    assert Count(last) + 1 <= now * COUNTER_LIMIT;
    assert Count(t) == now * COUNTER_LIMIT;
  }

  /** So the emitted strings strictly increase, as long as the times fit in thirteen digits. */
  lemma EmittedClocksIncrease(last: Tick, walls: seq<int>, device: string, i: nat, j: nat)
    requires 0 <= last.ms && last.counter < COUNTER_LIMIT && i < j < |walls|
    requires Readings(last, walls)[i].ms < MS_LIMIT && Readings(last, walls)[j].ms < MS_LIMIT
    ensures var r := Readings(last, walls);
            Less(EncodeHlc(r[i].ms, r[i].counter, device), EncodeHlc(r[j].ms, r[j].counter, device))
  {
    ReadingsIncrease(last, walls);
    var r := Readings(last, walls);
    assert Before(last, r[i]) && Before(last, r[j]);
    EncodeOrder(r[i].ms, r[i].counter, device, r[j].ms, r[j].counter, device);
  }

  class HlcClock {
    var lastMs: int
    var counter: nat

    constructor ()
      ensures Last() == Tick(0, 0)
    {
      lastMs, counter := 0, 0;
    }

    function Last(): Tick
      reads this
    {
      Tick(lastMs, counter)
    }

    /** `HlcClock::next`: never emits the same or an earlier clock twice. */
    method Next(now: int, device: string) returns (tick: Tick, hlc: string)
      modifies this
      ensures tick == Last() == Advance(old(Last()), now)
      ensures old(counter) < COUNTER_LIMIT ==> Before(old(Last()), tick) && counter < COUNTER_LIMIT
      ensures tick.ms >= now && (now > old(lastMs) ==> tick == Tick(now, 0))
      ensures hlc == EncodeHlc(tick.ms, tick.counter, device)
    {
      if now > lastMs {
        lastMs := now;
        counter := 0;
      } else {
        counter := counter + 1;
        if counter > 999_999 {
          lastMs := lastMs + 1;
          counter := 0;
        }
      }
      tick := Tick(lastMs, counter);
      hlc := EncodeHlc(lastMs, counter, device);
    }
  }
}
