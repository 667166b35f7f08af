/** Lists of distinct ids: what moving ids one by one behind their new neighbours does to the order. */
module IdLists {
  import opened Options

  ghost predicate Unique<T>(ids: seq<T>) {
    ids == [] || (ids[0] !in ids[1..] && Unique(ids[1..]))
  }

  lemma UniqueCons<T>(x: T, rest: seq<T>)
    ensures Unique([x] + rest) <==> x !in rest && Unique(rest)
  {
    assert ([x] + rest)[1..] == rest;
  }

  lemma {:induction false} UniqueAt<T>(ids: seq<T>, i: nat, j: nat)
    requires Unique(ids) && i < j < |ids|
    ensures ids[i] != ids[j]
  {
    if i == 0 {
      assert ids[j] == ids[1..][j - 1] && ids[j] in ids[1..];
    } else {
      UniqueAt(ids[1..], i - 1, j - 1);
    }
  }

  lemma {:induction false} UniquePrefix<T>(ids: seq<T>, n: nat)
    requires Unique(ids) && n <= |ids|
    ensures Unique(ids[..n])
    ensures n < |ids| ==> ids[n] !in ids[..n]
  {
    if n > 0 {
      UniquePrefix(ids[1..], n - 1);
      assert ids[..n] == [ids[0]] + ids[1..][..n - 1];
      UniqueCons(ids[0], ids[1..][..n - 1]);
    }
  }

  function Filter<T(==)>(ids: seq<T>, keep: set<T>): seq<T> {
    if ids == [] then [] else (if ids[0] in keep then [ids[0]] else []) + Filter(ids[1..], keep)
  }

  lemma FilterCons<T>(x: T, rest: seq<T>, keep: set<T>)
    ensures Filter([x] + rest, keep) == if x in keep then [x] + Filter(rest, keep) else Filter(rest, keep)
  {
    assert ([x] + rest)[1..] == rest;
  }

  /** Filters that agree on the ids of a list agree on the list. */
  lemma {:induction false} FilterSame<T>(ids: seq<T>, a: set<T>, b: set<T>)
    requires forall id <- ids :: id in a <==> id in b
    ensures Filter(ids, a) == Filter(ids, b)
    ensures (forall id <- ids :: id in a) ==> Filter(ids, a) == ids
  {
    if ids != [] {
      FilterSame(ids[1..], a, b);
      assert ids == [ids[0]] + ids[1..];
    }
  }

  /** The id list without the first `x`. */
  function DropId<T(==)>(ids: seq<T>, x: T): seq<T> {
    if ids == [] then [] else if ids[0] == x then ids[1..] else [ids[0]] + DropId(ids[1..], x)
  }

  /** The id list with `x` right behind the first `anchor`. */
  function BehindId<T(==)>(ids: seq<T>, anchor: T, x: T): seq<T> {
    if ids == [] then [] else if ids[0] == anchor then [ids[0], x] + ids[1..] else [ids[0]] + BehindId(ids[1..], anchor, x)
  }

  lemma {:induction false} DropIdFacts<T>(ids: seq<T>, x: T)
    requires Unique(ids)
    ensures Unique(DropId(ids, x))
    ensures forall y :: y in DropId(ids, x) <==> y in ids && y != x
  {
    if ids != [] {
      assert ids == [ids[0]] + ids[1..];
      DropIdFacts(ids[1..], x);
      UniqueCons(ids[0], DropId(ids[1..], x));
    }
  }

  lemma {:induction false} DropIdFilter<T>(ids: seq<T>, x: T, keep: set<T>)
    requires x !in keep
    ensures Filter(DropId(ids, x), keep) == Filter(ids, keep)
  {
    if ids != [] && ids[0] != x {
      DropIdFilter(ids[1..], x, keep);
      FilterCons(ids[0], DropId(ids[1..], x), keep);
    }
  }

  lemma {:induction false} BehindIdFacts<T>(ids: seq<T>, anchor: T, x: T)
    requires Unique(ids) && x !in ids && anchor in ids
    ensures Unique(BehindId(ids, anchor, x))
    ensures forall y :: y in BehindId(ids, anchor, x) <==> y in ids || y == x
  {
    var head, tail := ids[0], ids[1..];
    assert ids == [head] + tail;
    if head == anchor {
      assert BehindId(ids, anchor, x) == [head] + ([x] + tail);
      UniqueCons(x, tail);
      UniqueCons(head, [x] + tail);
    } else {
      BehindIdFacts(tail, anchor, x);
      UniqueCons(head, BehindId(tail, anchor, x));
    }
  }

  lemma {:induction false} BehindIdFilter<T>(ids: seq<T>, anchor: T, x: T, keep: set<T>)
    requires x !in keep
    ensures Filter(BehindId(ids, anchor, x), keep) == Filter(ids, keep)
  {
    if ids != [] {
      if ids[0] == anchor {
        assert BehindId(ids, anchor, x) == [ids[0]] + ([x] + ids[1..]);
        FilterCons(ids[0], [x] + ids[1..], keep);
        FilterCons(x, ids[1..], keep);
      } else {
        BehindIdFilter(ids[1..], anchor, x, keep);
        FilterCons(ids[0], BehindId(ids[1..], anchor, x), keep);
      }
    }
  }

  lemma {:induction false} BehindIdWidens<T>(ids: seq<T>, anchor: T, x: T, keep: set<T>)
    requires x !in ids && anchor in keep
    ensures Filter(BehindId(ids, anchor, x), keep + {x}) == BehindId(Filter(ids, keep), anchor, x)
  {
    if ids != [] {
      var head, tail, wide := ids[0], ids[1..], keep + {x};
      if head == anchor {
        assert BehindId(ids, anchor, x) == [head] + ([x] + tail);
        FilterCons(head, [x] + tail, wide);
        FilterCons(x, tail, wide);
        FilterSame(tail, keep, wide);
        BehindIdCons(head, Filter(tail, keep), anchor, x);
      } else {
        BehindIdWidens(tail, anchor, x, keep);
        assert head in ids && head != x;
        assert ids == [head] + tail;
        FilterCons(head, tail, keep);
        FilterCons(head, BehindId(tail, anchor, x), wide);
        BehindIdCons(head, Filter(tail, keep), anchor, x);
        assert BehindId(ids, anchor, x) == [head] + BehindId(tail, anchor, x);
      }
    }
  }

  lemma BehindIdCons<T>(head: T, tail: seq<T>, anchor: T, x: T)
    ensures BehindId([head] + tail, anchor, x) ==
            if head == anchor then [head] + ([x] + tail) else [head] + BehindId(tail, anchor, x)
  {
    assert ([head] + tail)[1..] == tail;
  }

  lemma Unshift<T>(head: T, tail: seq<T>, x: T, later: seq<T>)
    ensures [head] + (tail + later) == ([head] + tail) + later
    ensures [head] + (tail + [x] + later) == ([head] + tail) + [x] + later
  {
  }

  /** Behind the last of `done`, when that id occurs there only once. */
  lemma {:induction false} BehindLast<T>(done: seq<T>, later: seq<T>, x: T)
    requires done != [] && Unique(done)
    ensures BehindId(done + later, done[|done| - 1], x) == done + [x] + later
  {
    var head, tail, anchor := done[0], done[1..], done[|done| - 1];
    assert done == [head] + tail;
    Unshift(head, tail, x, later);
    BehindIdCons(head, tail + later, anchor, x);
    if tail == [] {
      assert tail + [x] + later == [x] + later && tail + later == later;
    } else {
      assert tail[|tail| - 1] == anchor && anchor in tail;
      BehindLast(tail, later, x);
    }
  }

  function PlaceId<T(==)>(ids: seq<T>, after: Option<T>, x: T): seq<T> {
    var rest := DropId(ids, x);
    if after.None? then [x] + rest else BehindId(rest, after.value, x)
  }

  ghost predicate Placeable<T>(ids: seq<T>, after: Option<T>, x: T) {
    Unique(ids) && (after.Some? ==> after.value in ids && after.value != x)
  }

  /** Placing an id: it is the only newcomer, and the ids of any set without it keep their order. */
  lemma PlaceIdFacts<T>(ids: seq<T>, after: Option<T>, x: T)
    requires Placeable(ids, after, x)
    ensures Unique(PlaceId(ids, after, x))
    ensures forall y :: y in PlaceId(ids, after, x) <==> y in ids || y == x
  {
    DropIdFacts(ids, x);
    if after.None? {
      UniqueCons(x, DropId(ids, x));
    } else {
      BehindIdFacts(DropId(ids, x), after.value, x);
    }
  }

  lemma PlaceIdFilter<T>(ids: seq<T>, after: Option<T>, x: T, keep: set<T>)
    requires x !in keep
    ensures Filter(PlaceId(ids, after, x), keep) == Filter(ids, keep)
  {
    DropIdFilter(ids, x, keep);
    if after.None? {
      FilterCons(x, DropId(ids, x), keep);
    } else {
      BehindIdFilter(DropId(ids, x), after.value, x, keep);
    }
  }

  /** Placing behind the last of `done` extends `done`, as seen through the ids that matter. */
  lemma PlaceIdExtends<T>(ids: seq<T>, after: Option<T>, x: T, keep: set<T>, done: seq<T>, later: seq<T>)
    requires Placeable(ids, after, x) && x !in keep && Unique(done)
    requires Filter(ids, keep) == done + later
    requires if done == [] then after.None? else after == Some(done[|done| - 1]) && after.value in keep
    ensures Filter(PlaceId(ids, after, x), keep + {x}) == done + [x] + later
  {
    var rest := DropId(ids, x);
    DropIdFacts(ids, x);
    DropIdFilter(ids, x, keep);
    if after.None? {
      FilterCons(x, rest, keep + {x});
      FilterSame(rest, keep, keep + {x});
      assert [x] + (done + later) == done + [x] + later;
    } else {
      BehindIdWidens(rest, after.value, x, keep);
      BehindLast(done, later, x);
    }
  }

  // ── rearranging a whole list ───────────────────────────────────────────────

  function Neighbour<T(==)>(n: seq<T>, i: nat): Option<T>
    requires i < |n|
  {
    if i == 0 then None else Some(n[i - 1])
  }

  /** The list `start` after the ids of `n[..i]` that are not kept have been placed, in turn, behind their
      neighbour in `n`. */
  function Shuffle<T(==)>(start: seq<T>, n: seq<T>, kept: set<T>, i: nat): seq<T>
    requires i <= |n|
  {
    if i == 0 then start
    else
      var before := Shuffle(start, n, kept, i - 1);
      if n[i - 1] in kept then before else PlaceId(before, Neighbour(n, i - 1), n[i - 1])
  }

  function Elems<T(==)>(ids: seq<T>): set<T> {
    set x | x in ids
  }

  lemma ElemsSnoc<T>(ids: seq<T>, x: T)
    ensures Elems(ids + [x]) == Elems(ids) + {x}
  {
  }

  ghost predicate Shufflable<T>(start: seq<T>, n: seq<T>, kept: set<T>) {
    Unique(start) && Unique(n) && Elems(start) <= Elems(n) && kept <= Elems(start)
  }

  lemma NeighbourPlaceable<T>(ids: seq<T>, start: seq<T>, n: seq<T>, i: nat)
    requires Unique(ids) && Unique(n) && i < |n| && Elems(ids) == Elems(start) + Elems(n[..i])
    ensures Placeable(ids, Neighbour(n, i), n[i])
  {
    if i > 0 {
      UniqueAt(n, i - 1, i);
      assert n[..i][i - 1] in n[..i];
      assert n[i - 1] in Elems(ids);
    }
  }

  lemma {:induction false} ShuffleMembers<T>(start: seq<T>, n: seq<T>, kept: set<T>, i: nat)
    requires Shufflable(start, n, kept) && i <= |n|
    ensures Unique(Shuffle(start, n, kept, i))
    ensures Elems(Shuffle(start, n, kept, i)) == Elems(start) + Elems(n[..i])
  {
    if i == 0 {
      assert n[..0] == [];
    } else {
      ShuffleMembers(start, n, kept, i - 1);
      var before, x := Shuffle(start, n, kept, i - 1), n[i - 1];
      assert n[..i] == n[..i - 1] + [x];
      ElemsSnoc(n[..i - 1], x);
      if x in kept {
        assert x in Elems(start);
      } else {
        NeighbourPlaceable(before, start, n, i - 1);
        PlaceIdFacts(before, Neighbour(n, i - 1), x);
        assert Elems(PlaceId(before, Neighbour(n, i - 1), x)) == Elems(before) + {x};
      }
    }
  }

  lemma {:induction false} ShuffleKeepsKept<T>(start: seq<T>, n: seq<T>, kept: set<T>, i: nat)
    requires i <= |n|
    ensures Filter(Shuffle(start, n, kept, i), kept) == Filter(start, kept)
  {
    if i > 0 {
      ShuffleKeepsKept(start, n, kept, i - 1);
      if n[i - 1] !in kept {
        PlaceIdFilter(Shuffle(start, n, kept, i - 1), Neighbour(n, i - 1), n[i - 1], kept);
      }
    }
  }

  /** After `i` steps the ids that matter stand in the order of `n`. */
  ghost predicate InOrderUpTo<T>(ids: seq<T>, n: seq<T>, kept: set<T>, i: nat)
    requires i <= |n|
  {
    Filter(ids, kept + Elems(n[..i])) == n[..i] + Filter(n[i..], kept)
  }

  lemma OneMoreElem<T>(n: seq<T>, kept: set<T>, i: nat)
    requires i < |n|
    ensures n[..i + 1] == n[..i] + [n[i]] && n[i..] == [n[i]] + n[i + 1..]
    ensures kept + Elems(n[..i + 1]) == if n[i] in kept then kept + Elems(n[..i]) else kept + Elems(n[..i]) + {n[i]}
  {
    assert n[..i + 1] == n[..i] + [n[i]];
    ElemsSnoc(n[..i], n[i]);
  }

  lemma OrderStep<T>(before: seq<T>, n: seq<T>, kept: set<T>, i: nat)
    requires Unique(n) && i < |n| && n[i] !in kept && Placeable(before, Neighbour(n, i), n[i])
    requires InOrderUpTo(before, n, kept, i)
    ensures InOrderUpTo(PlaceId(before, Neighbour(n, i), n[i]), n, kept, i + 1)
  {
    var x, done, later := n[i], n[..i], n[i + 1..];
    OneMoreElem(n, kept, i);
    UniquePrefix(n, i);
    FilterCons(x, later, kept);
    if i > 0 {
      assert done[i - 1] in done;
    }
    PlaceIdExtends(before, Neighbour(n, i), x, kept + Elems(done), done, Filter(later, kept));
  }

  lemma KeptStep<T>(before: seq<T>, n: seq<T>, kept: set<T>, i: nat)
    requires i < |n| && n[i] in kept && InOrderUpTo(before, n, kept, i)
    ensures InOrderUpTo(before, n, kept, i + 1)
  {
    var rest := Filter(n[i + 1..], kept);
    OneMoreElem(n, kept, i);
    FilterCons(n[i], n[i + 1..], kept);
    assert n[..i] + ([n[i]] + rest) == (n[..i] + [n[i]]) + rest;
  }

  /** When the kept ids already stand in the order of `n`, the ids that matter stand in the order of `n`
      after every step. */
  lemma {:induction false} ShuffleOrders<T>(start: seq<T>, n: seq<T>, kept: set<T>, i: nat)
    requires Shufflable(start, n, kept) && i <= |n| && Filter(start, kept) == Filter(n, kept)
    ensures InOrderUpTo(Shuffle(start, n, kept, i), n, kept, i)
  {
    if i == 0 {
      assert n[..0] == [] && n[0..] == n && kept + Elems(n[..0]) == kept;
    } else {
      var before := Shuffle(start, n, kept, i - 1);
      ShuffleOrders(start, n, kept, i - 1);
      if n[i - 1] in kept {
        KeptStep(before, n, kept, i - 1);
      } else {
        ShuffleMembers(start, n, kept, i - 1);
        NeighbourPlaceable(before, start, n, i - 1);
        OrderStep(before, n, kept, i - 1);
      }
    }
  }

  /** The rearranged list is `n` exactly when the kept ids stood in the order of `n` to begin with. */
  lemma ShuffleReaches<T>(start: seq<T>, n: seq<T>, kept: set<T>)
    requires Shufflable(start, n, kept)
    ensures |Shuffle(start, n, kept, |n|)| == |n|
    ensures Shuffle(start, n, kept, |n|) == n <==> Filter(start, kept) == Filter(n, kept)
  {
    var r := Shuffle(start, n, kept, |n|);
    ShuffleMembers(start, n, kept, |n|);
    ShuffleKeepsKept(start, n, kept, |n|);
    assert n[..|n|] == n && n[|n|..] == [];
    assert Elems(r) == Elems(n);
    SetSize(r);
    SetSize(n);
    if Filter(start, kept) == Filter(n, kept) {
      ShuffleOrders(start, n, kept, |n|);
      forall x | x in r ensures x in kept + Elems(n) {
        assert x in Elems(r);
      }
      FilterSame(r, kept + Elems(n), kept + Elems(n));
      assert n + [] == n;
    }
  }

  lemma {:induction false} SetSize<T>(a: seq<T>)
    requires Unique(a)
    ensures |Elems(a)| == |a|
  {
    if a != [] {
      assert a == [a[0]] + a[1..];
      SetSize(a[1..]);
      assert Elems(a) == Elems(a[1..]) + {a[0]};
    }
  }

  lemma {:induction false} FilterTwice<T>(ids: seq<T>, wide: set<T>, narrow: set<T>)
    requires narrow <= wide
    ensures Filter(Filter(ids, wide), narrow) == Filter(ids, narrow)
  {
    if ids != [] {
      FilterTwice(ids[1..], wide, narrow);
      if ids[0] in wide {
        FilterCons(ids[0], Filter(ids[1..], wide), narrow);
      } else {
        assert Filter(ids, wide) == Filter(ids[1..], wide);
      }
    }
  }
}
