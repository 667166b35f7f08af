/** What splitting keeps and how tight it is (crates/doc/src/parts.rs, lines 967-1029). */
module SplitLaws {
  import opened Options
  import opened Text
  import opened Parts
  import opened Fold
  import opened FoldLaws
  import opened Split

  /** `join_continuations`. */
  function Flatten<T>(chunks: seq<seq<T>>): seq<T> {
    if chunks == [] then [] else Flatten(chunks[..|chunks| - 1]) + chunks[|chunks| - 1]
  }

  lemma {:induction false} FlattenConcat<T>(a: seq<seq<T>>, b: seq<seq<T>>)
    ensures Flatten(a + b) == Flatten(a) + Flatten(b)
  {
    if b == [] {
      assert a + b == a;
    } else {
      var n := |b| - 1;
      assert (a + b)[..|a + b| - 1] == a + b[..n];
      FlattenConcat(a, b[..n]);
      Regroup(Flatten(a), Flatten(b[..n]), b[n]);
    }
  }

  function Total(parts: seq<MessagePart>, z: Sizes): nat {
    if parts == [] then 0 else Total(parts[..|parts| - 1], z) + Size(parts[|parts| - 1], z)
  }

  lemma {:induction false} TotalConcat(a: seq<MessagePart>, b: seq<MessagePart>, z: Sizes)
    ensures Total(a + b, z) == Total(a, z) + Total(b, z)
  {
    if b == [] {
      assert a + b == a;
    } else {
      assert (a + b)[..|a + b| - 1] == a + b[..|b| - 1];
      TotalConcat(a, b[..|b| - 1], z);
    }
  }

  lemma {:induction false} TotalCovers(parts: seq<MessagePart>, i: nat, z: Sizes)
    requires i < |parts|
    ensures Size(parts[i], z) <= Total(parts, z)
  {
    if i < |parts| - 1 {
      TotalCovers(parts[..|parts| - 1], i, z);
    }
  }

  // ── sizes ──────────────────────────────────────────────────────────────────

  /** All text a part shows, one after the other. */
  function Payload(p: MessagePart): string {
    match p
    case TextPart(_, text) => text
    case ToolPart(_, _, _, _, output, _, _, _, _, _, _, _, _, _, _) => GetOr(output, "")
    case InputPart(_, _, _, _, _, _) => ""
    case SwitchPart(_, from, to, fromHarness, toHarness) => (from + to) + (GetOr(fromHarness, "") + GetOr(toHarness, ""))
    case ErrorPart(_, message, _, _, _) => message
    case PermissionPart(_, _, _, line, _, _, _, _, _, _, _, _) => line
    case CompactionPart(_, _, _, trigger, _, _, _, summary, _, _) => GetOr(summary, "") + GetOr(trigger, "")
  }

  /** What a part holds besides, as long as it is when encoded. */
  function EncodedSize(p: MessagePart, z: Sizes): nat {
    if p.InputPart? then z.questions(p.questions)
    else if p.ToolPart? then
      z.call(p.call) + (if p.diff.Some? then z.diff(p.diff.value) else 0)
      + if p.diffStats.Some? then z.stats(p.diffStats.value) else 0
    else 0
  }

  function GetOr(text: Option<string>, otherwise: string): string {
    if text.Some? then text.value else otherwise
  }

  /** Every byte of the texts a part shows counts, and of the values it carries; ids, references and states do not. */
  lemma SizeIsPayload(p: MessagePart, z: Sizes)
    ensures Size(p, z) == ByteLen(Payload(p)) + EncodedSize(p, z)
  {
    if p.SwitchPart? {
      ByteLenConcat(p.from, p.to);
      ByteLenConcat(GetOr(p.fromHarness, ""), GetOr(p.toHarness, ""));
      ByteLenConcat(p.from + p.to, GetOr(p.fromHarness, "") + GetOr(p.toHarness, ""));
    } else if p.CompactionPart? {
      ByteLenConcat(GetOr(p.summary, ""), GetOr(p.trigger, ""));
    }
  }

  // ── packing ────────────────────────────────────────────────────────────────

  predicate Fits(p: MessagePart, cap: nat, z: Sizes) {
    Size(p, z) <= cap
  }

  ghost predicate AllFit(parts: seq<MessagePart>, cap: nat, z: Sizes) {
    forall p <- parts :: Fits(p, cap, z)
  }

  ghost predicate Within(chunks: seq<seq<MessagePart>>, cap: nat, z: Sizes) {
    forall c <- chunks :: Total(c, z) <= cap
  }

  /** What the loop keeps: nothing is lost or reordered, the byte count is that of the last chunk, every
      later chunk starts with a part that did not fit the one before, and a chunk exceeds the cap only
      if it holds a part that does. */
  ghost predicate Packed(acc: Packing, parts: seq<MessagePart>, cap: nat, z: Sizes) {
    && acc.chunks != []
    && Flatten(acc.chunks) == parts
    && acc.bytes == Total(acc.chunks[|acc.chunks| - 1], z)
    && Tight(acc.chunks, cap, z)
    && (AllFit(parts, cap, z) ==> Within(acc.chunks, cap, z))
  }

  predicate DidNotFit(a: seq<MessagePart>, b: seq<MessagePart>, cap: nat, z: Sizes) {
    b != [] && Total(a, z) > 0 && Total(a, z) + Size(b[0], z) > cap
  }

  ghost predicate Tight(chunks: seq<seq<MessagePart>>, cap: nat, z: Sizes) {
    forall i, j :: 0 <= i && j == i + 1 && j < |chunks| ==> DidNotFit(chunks[i], chunks[j], cap, z)
  }

  lemma PackKeeps(acc: Packing, parts: seq<MessagePart>, part: MessagePart, cap: nat, z: Sizes)
    requires acc.chunks != [] && Flatten(acc.chunks) == parts && acc.bytes == Total(acc.chunks[|acc.chunks| - 1], z)
    ensures var r := Pack(acc, part, cap, z);
            Flatten(r.chunks) == parts + [part] && r.bytes == Total(r.chunks[|r.chunks| - 1], z)
  {
    var r := Pack(acc, part, cap, z);
    var n := |acc.chunks| - 1;
    if acc.bytes > 0 && acc.bytes + Size(part, z) > cap {
      assert r.chunks[..n + 1] == acc.chunks;
      assert [part][..0] == [] && Total([part], z) == Size(part, z);
    } else {
      assert r.chunks[..n] == acc.chunks[..n];
      assert (acc.chunks[n] + [part])[..|acc.chunks[n]|] == acc.chunks[n];
      assert Flatten(r.chunks) == Flatten(acc.chunks[..n]) + (acc.chunks[n] + [part]);
    }
  }

  lemma PackTightens(acc: Packing, part: MessagePart, cap: nat, z: Sizes)
    requires acc.chunks != [] && acc.bytes == Total(acc.chunks[|acc.chunks| - 1], z) && Tight(acc.chunks, cap, z)
    ensures Tight(Pack(acc, part, cap, z).chunks, cap, z)
  {
    var r := Pack(acc, part, cap, z);
    var n := |acc.chunks| - 1;
    forall i, j | 0 <= i && j == i + 1 && j < |r.chunks| ensures DidNotFit(r.chunks[i], r.chunks[j], cap, z) {
      assert r.chunks[i] == acc.chunks[i];
      if j <= n {
        assert DidNotFit(acc.chunks[i], acc.chunks[j], cap, z);
      }
    }
  }

  lemma PackBounds(acc: Packing, part: MessagePart, cap: nat, z: Sizes)
    requires acc.chunks != [] && acc.bytes == Total(acc.chunks[|acc.chunks| - 1], z)
    requires Within(acc.chunks, cap, z) && Fits(part, cap, z)
    ensures Within(Pack(acc, part, cap, z).chunks, cap, z)
  {
    var r := Pack(acc, part, cap, z);
    var n := |acc.chunks| - 1;
    assert (acc.chunks[n] + [part])[..|acc.chunks[n]|] == acc.chunks[n];
    assert [part][..0] == [] && Total([part], z) == Size(part, z);
    forall i | 0 <= i < |r.chunks| ensures Total(r.chunks[i], z) <= cap {
      if i < n {
        assert acc.chunks[i] in acc.chunks;
      }
    }
  }

  lemma PackStep(acc: Packing, parts: seq<MessagePart>, part: MessagePart, more: seq<MessagePart>, cap: nat, z: Sizes)
    returns (r: Packing)
    requires Packed(acc, parts, cap, z) && more == parts + [part]
    ensures r == Pack(acc, part, cap, z)
    ensures Packed(r, more, cap, z)
  {
    r := Pack(acc, part, cap, z);
    PackKeeps(acc, parts, part, cap, z);
    PackTightens(acc, part, cap, z);
    if AllFit(more, cap, z) {
      assert forall p <- parts :: p in more;
      assert part in more;
      PackBounds(acc, part, cap, z);
    }
  }

  lemma NothingPacked(cap: nat, z: Sizes)
    ensures Packed(Packing([[]], 0), [], cap, z)
  {
    assert Flatten<MessagePart>([[]]) == Flatten<MessagePart>([[]][..0]) + [] == [];
  }

  lemma {:induction false} PackAllPacks(parts: seq<MessagePart>, cap: nat, z: Sizes) returns (acc: Packing)
    ensures acc == PackAll(Packing([[]], 0), parts, cap, z)
    ensures Packed(acc, parts, cap, z)
  {
    if parts == [] {
      acc := Packing([[]], 0);
      NothingPacked(cap, z);
    } else {
      var n := |parts| - 1;
      var before := PackAllPacks(parts[..n], cap, z);
      acc := PackStep(before, parts[..n], parts[n], parts, cap, z);
    }
  }

  // ── pieces ─────────────────────────────────────────────────────────────────

  /** With four bytes to spare a character always fits, so the loop never needs its guard. */
  lemma GuardIsDead(rest: string, cap: nat)
    requires rest != "" && cap >= 4
    ensures Fitting(rest, cap) > 0 && CutLength(rest, cap) == Fitting(rest, cap)
  {
  }

  /** The cut takes at least one whole character, fits, and could not take the next. */
  lemma CutIsTight(rest: string, cap: nat)
    requires rest != "" && cap >= 4
    ensures var k := CutLength(rest, cap);
            ByteLen(rest[..k]) <= cap && (k < |rest| ==> ByteLen(rest[..k]) + Width(rest[k]) > cap)
  {
    var k := CutLength(rest, cap);
    GuardIsDead(rest, cap);
    FittingIsLongest(rest, cap);
    if k < |rest| {
      assert rest[..k + 1] == rest[..k] + [rest[k]];
      ByteLenConcat(rest[..k], [rest[k]]);
      assert [rest[k]][1..] == "" && ByteLen([rest[k]]) == Width(rest[k]);
    }
  }

  predicate IsPiece(p: MessagePart, id: string, piece: nat, cap: nat) {
    p.TextPart? && p.id == (if piece == 0 then id else id + "~" + Decimal(piece)) && p.text != "" && ByteLen(p.text) <= cap
  }

  lemma PiecesNext(id: string, rest: string, piece: nat, cap: nat) returns (first: MessagePart, later: seq<MessagePart>)
    requires rest != ""
    ensures var k := CutLength(rest, cap);
            first == TextPart(PieceId(id, piece), rest[..k]) && later == Pieces(id, rest[k..], piece + 1, cap)
    ensures Pieces(id, rest, piece, cap) == [first] + later
  {
    var k := CutLength(rest, cap);
    first, later := TextPart(PieceId(id, piece), rest[..k]), Pieces(id, rest[k..], piece + 1, cap);
  }

  /** Pieces are numbered, none is empty, and each fits. */
  lemma {:induction false} PieceFits(id: string, rest: string, piece: nat, cap: nat, i: nat, at: nat)
    requires cap >= 4 && i < |Pieces(id, rest, piece, cap)| && at == piece + i
    ensures IsPiece(Pieces(id, rest, piece, cap)[i], id, at, cap)
    decreases |rest|
  {
    var first, later := PiecesNext(id, rest, piece, cap);
    CutIsTight(rest, cap);
    if i > 0 {
      assert ([first] + later)[i] == later[i - 1];
      PieceFits(id, rest[CutLength(rest, cap)..], piece + 1, cap, i - 1, at);
    }
  }

  predicate NoRoom(p: MessagePart, q: MessagePart, cap: nat) {
    p.TextPart? && q.TextPart? && q.text != "" && ByteLen(p.text) + Width(q.text[0]) > cap
  }

  ghost predicate NoRoomAnywhere(ps: seq<MessagePart>, cap: nat) {
    forall i, j :: 0 <= i && j == i + 1 && j < |ps| ==> NoRoom(ps[i], ps[j], cap)
  }

  lemma NoRoomCons(first: MessagePart, later: seq<MessagePart>, cap: nat)
    requires NoRoomAnywhere(later, cap) && (later != [] ==> NoRoom(first, later[0], cap))
    ensures NoRoomAnywhere([first] + later, cap)
  {
    var ps := [first] + later;
    forall i, j | 0 <= i && j == i + 1 && j < |ps| ensures NoRoom(ps[i], ps[j], cap) {
      if i > 0 {
        assert NoRoom(later[i - 1], later[j - 1], cap);
      }
    }
  }

  /** No piece could have taken the first character of the next. */
  lemma {:induction false} PiecesAreTight(id: string, rest: string, piece: nat, cap: nat)
    requires cap >= 4
    ensures NoRoomAnywhere(Pieces(id, rest, piece, cap), cap)
    decreases |rest|
  {
    if rest != "" {
      var k := CutLength(rest, cap);
      var first, later := PiecesNext(id, rest, piece, cap);
      PiecesAreTight(id, rest[k..], piece + 1, cap);
      FirstIsTight(id, rest, piece, cap, first, later);
      NoRoomCons(first, later, cap);
    }
  }

  lemma FirstIsTight(id: string, rest: string, piece: nat, cap: nat, first: MessagePart, later: seq<MessagePart>)
    requires cap >= 4 && rest != ""
    requires var k := CutLength(rest, cap);
             first == TextPart(PieceId(id, piece), rest[..k]) && later == Pieces(id, rest[k..], piece + 1, cap)
    ensures later != [] ==> NoRoom(first, later[0], cap)
  {
    var k := CutLength(rest, cap);
    CutIsTight(rest, cap);
    if later != [] {
      var second, _ := PiecesNext(id, rest[k..], piece + 1, cap);
      assert later[0] == second && second.text[0] == rest[k];
    }
  }

  lemma {:induction false} CutFits(parts: seq<MessagePart>, cap: nat, z: Sizes)
    requires cap >= 4 && forall p <- parts :: !p.TextPart? ==> Fits(p, cap, z)
    ensures AllFit(Cut(parts, cap), cap, z)
  {
    if parts != [] {
      var n := |parts| - 1;
      CutFits(parts[..n], cap, z);
      if Oversized(parts[n], cap) {
        var ps := Pieces(parts[n].id, parts[n].text, 0, cap);
        forall i | 0 <= i < |ps| ensures Fits(ps[i], cap, z) {
          PieceFits(parts[n].id, parts[n].text, 0, cap, i, i);
        }
      }
    }
  }

  lemma {:induction false} OthersAreCutWhole(parts: seq<MessagePart>, p: MessagePart, cap: nat)
    requires p in parts && !p.TextPart?
    ensures p in Cut(parts, cap)
  {
    var n := |parts| - 1;
    assert parts == parts[..n] + [parts[n]];
    if p != parts[n] {
      OthersAreCutWhole(parts[..n], p, cap);
    }
  }

  lemma {:induction false} InSomeChunk(chunks: seq<seq<MessagePart>>, p: MessagePart, z: Sizes)
    requires p in Flatten(chunks)
    ensures exists c <- chunks :: p in c && Size(p, z) <= Total(c, z)
  {
    var n := |chunks| - 1;
    if p in chunks[n] {
      var i :| 0 <= i < |chunks[n]| && chunks[n][i] == p;
      TotalCovers(chunks[n], i, z);
    } else {
      InSomeChunk(chunks[..n], p, z);
    }
  }

  /** Splitting loses and reorders nothing, no chunk could have taken the first part of the next, and
      every chunk is within the cap exactly when every part that is not text is. */
  lemma SplitIsExact(parts: seq<MessagePart>, cap: nat, z: Sizes)
    requires cap >= 4
    ensures var chunks := Chunks(parts, cap, z);
            && Flatten(chunks) == Cut(parts, cap)
            && Tight(chunks, cap, z)
            && (Within(chunks, cap, z) <==> forall p <- parts :: !p.TextPart? ==> Fits(p, cap, z))
  {
    var acc := PackAllPacks(Cut(parts, cap), cap, z);
    var chunks := acc.chunks;
    if forall p <- parts :: !p.TextPart? ==> Fits(p, cap, z) {
      CutFits(parts, cap, z);
    }
    if Within(chunks, cap, z) {
      forall p | p in parts && !p.TextPart? ensures Fits(p, cap, z) {
        OthersAreCutWhole(parts, p, cap);
        InSomeChunk(chunks, p, z);
      }
    }
  }

  // ── gluing the pieces back ─────────────────────────────────────────────────

  /** Undo the cuts: a text takes back the texts behind it that carry its next piece ids. */
  function GlueFrom(current: MessagePart, pieces: nat, rest: seq<MessagePart>): seq<MessagePart>
    decreases |rest|
  {
    if rest == [] then [current]
    else if current.TextPart? && rest[0].TextPart? && rest[0].id == PieceId(current.id, pieces) then
      GlueFrom(TextPart(current.id, current.text + rest[0].text), pieces + 1, rest[1..])
    else [current] + GlueFrom(rest[0], 1, rest[1..])
  }

  function Glue(parts: seq<MessagePart>): seq<MessagePart> {
    if parts == [] then [] else GlueFrom(parts[0], 1, parts[1..])
  }

  function PieceCount(p: MessagePart, cap: nat): nat {
    |PiecesOf(p, cap)|
  }

  /** `q` directly behind `p` would be taken for a piece of `p`. */
  predicate LooksLikePiece(p: MessagePart, q: MessagePart, cap: nat) {
    p.TextPart? && q.TextPart? && q.id == PieceId(p.id, PieceCount(p, cap))
  }

  ghost predicate Unmistakable(parts: seq<MessagePart>, cap: nat) {
    forall i, j :: 0 <= i && j == i + 1 && j < |parts| ==> !LooksLikePiece(parts[i], parts[j], cap)
  }

  lemma CutMore(parts: seq<MessagePart>, p: MessagePart, cap: nat) returns (pieces: seq<MessagePart>)
    ensures pieces == PiecesOf(p, cap)
    ensures Cut(parts + [p], cap) == Cut(parts, cap) + pieces
  {
    assert (parts + [p])[..|parts|] == parts;
    pieces := PiecesOf(p, cap);
  }

  lemma {:induction false} CutConcat(a: seq<MessagePart>, b: seq<MessagePart>, cap: nat)
    ensures Cut(a + b, cap) == Cut(a, cap) + Cut(b, cap)
    decreases |b|
  {
    if b == [] {
      assert a + b == a && Cut(a, cap) + [] == Cut(a, cap);
    } else {
      var n := |b| - 1;
      var init, last := b[..n], b[n];
      assert a + b == (a + init) + [last] && init + [last] == b;
      CutConcat(a, init, cap);
      var pieces := CutMore(a + init, last, cap);
      var same := CutMore(init, last, cap);
      Regroup(Cut(a, cap), Cut(init, cap), pieces);
    }
  }

  lemma CutFront(parts: seq<MessagePart>, cap: nat)
    requires parts != []
    ensures Cut(parts, cap) == PiecesOf(parts[0], cap) + Cut(parts[1..], cap)
  {
    var pieces := CutMore([], parts[0], cap);
    assert [] + [parts[0]] == [parts[0]] && [] + pieces == pieces;
    CutConcat([parts[0]], parts[1..], cap);
    assert [parts[0]] + parts[1..] == parts;
  }

  lemma PiecesStart(p: MessagePart, cap: nat)
    ensures var ps := PiecesOf(p, cap);
            ps != [] && ps[0].id == p.id && (ps[0].TextPart? <==> p.TextPart?)
  {
  }

  lemma GlueOne(current: MessagePart, pieces: nat, first: MessagePart, rest: seq<MessagePart>)
    requires current.TextPart? && first.TextPart? && first.id == PieceId(current.id, pieces)
    ensures GlueFrom(current, pieces, [first] + rest)
         == GlueFrom(TextPart(current.id, current.text + first.text), pieces + 1, rest)
  {
    assert ([first] + rest)[1..] == rest;
  }

  lemma GlueNext(id: string, done: string, rest: string, piece: nat, cap: nat, tail: seq<MessagePart>)
    requires piece > 0 && rest != ""
    ensures var k := CutLength(rest, cap);
            var here := GlueFrom(TextPart(id, done), piece, Pieces(id, rest, piece, cap) + tail);
            here == GlueFrom(TextPart(id, done + rest[..k]), piece + 1, Pieces(id, rest[k..], piece + 1, cap) + tail)
  {
    var first, later := PiecesNext(id, rest, piece, cap);
    assert ([first] + later) + tail == [first] + (later + tail);
    GlueOne(TextPart(id, done), piece, first, later + tail);
  }

  lemma {:induction false} GluePieces(id: string, done: string, rest: string, piece: nat, cap: nat, tail: seq<MessagePart>)
    requires piece > 0
    ensures GlueFrom(TextPart(id, done), piece, Pieces(id, rest, piece, cap) + tail)
         == GlueFrom(TextPart(id, done + rest), piece + |Pieces(id, rest, piece, cap)|, tail)
    decreases |rest|
  {
    if rest == "" {
      assert [] + tail == tail && done + rest == done;
    } else {
      var k := CutLength(rest, cap);
      var n := |Pieces(id, rest[k..], piece + 1, cap)|;
      GlueNext(id, done, rest, piece, cap, tail);
      GluePieces(id, done + rest[..k], rest[k..], piece + 1, cap, tail);
      assert (done + rest[..k]) + rest[k..] == done + rest;
      assert |Pieces(id, rest, piece, cap)| == n + 1;
    }
  }

  lemma GluePart(p: MessagePart, cap: nat, tail: seq<MessagePart>)
    ensures Glue(PiecesOf(p, cap) + tail) == GlueFrom(p, PieceCount(p, cap), tail)
  {
    if Oversized(p, cap) {
      GlueText(p.id, p.text, cap, tail);
    } else {
      assert ([p] + tail)[1..] == tail;
    }
  }

  lemma GlueStarts(first: MessagePart, rest: seq<MessagePart>)
    ensures Glue([first] + rest) == GlueFrom(first, 1, rest)
  {
    assert ([first] + rest)[1..] == rest;
  }

  lemma GlueText(id: string, text: string, cap: nat, tail: seq<MessagePart>)
    requires text != ""
    ensures Glue(Pieces(id, text, 0, cap) + tail) == GlueFrom(TextPart(id, text), |Pieces(id, text, 0, cap)|, tail)
  {
    var k := CutLength(text, cap);
    var first, later := PiecesNext(id, text, 0, cap);
    GlueFirst(first, later, tail);
    GlueRest(id, text, k, cap, tail, later);
  }

  lemma GlueFirst(first: MessagePart, later: seq<MessagePart>, tail: seq<MessagePart>)
    ensures Glue(([first] + later) + tail) == GlueFrom(first, 1, later + tail)
  {
    assert ([first] + later) + tail == [first] + (later + tail);
    GlueStarts(first, later + tail);
  }

  lemma GlueRest(id: string, text: string, k: nat, cap: nat, tail: seq<MessagePart>, later: seq<MessagePart>)
    requires k <= |text| && later == Pieces(id, text[k..], 1, cap)
    ensures GlueFrom(TextPart(id, text[..k]), 1, later + tail) == GlueFrom(TextPart(id, text), 1 + |later|, tail)
  {
    assert text[..k] + text[k..] == text;
    GluePieces(id, text[..k], text[k..], 1, cap, tail);
  }

  /** Gluing gives the parts back if no text stands directly behind one whose next piece it looks like. */
  lemma {:induction false} GlueUndoesCut(parts: seq<MessagePart>, cap: nat)
    requires Unmistakable(parts, cap)
    ensures Glue(Cut(parts, cap)) == parts
  {
    if parts != [] {
      var tail := Cut(parts[1..], cap);
      CutFront(parts, cap);
      GluePart(parts[0], cap, tail);
      forall i, j | 0 <= i && j == i + 1 && j < |parts[1..]| ensures !LooksLikePiece(parts[1..][i], parts[1..][j], cap) {
        assert !LooksLikePiece(parts[i + 1], parts[j + 1], cap);
      }
      GlueUndoesCut(parts[1..], cap);
      if |parts| == 1 {
        assert tail == [];
      } else {
        CutFront(parts[1..], cap);
        PiecesStart(parts[1], cap);
        assert tail[0] == PiecesOf(parts[1], cap)[0];
        assert !LooksLikePiece(parts[0], parts[1], cap);
      }
    }
  }

  // ── when gluing fails ──────────────────────────────────────────────────────

  function Empties(parts: seq<MessagePart>): nat {
    if parts == [] then 0 else Empties(parts[1..]) + if IsEmpty(parts[0]) then 1 else 0
  }

  predicate IsEmpty(p: MessagePart) {
    p.TextPart? && p.text == ""
  }

  lemma {:induction false} EmptiesConcat(a: seq<MessagePart>, b: seq<MessagePart>)
    ensures Empties(a + b) == Empties(a) + Empties(b)
  {
    if a == [] {
      assert a + b == b;
    } else {
      assert (a + b)[1..] == a[1..] + b;
      EmptiesConcat(a[1..], b);
    }
  }

  lemma {:induction false} PiecesAreNotEmpty(id: string, rest: string, piece: nat, cap: nat)
    ensures Empties(Pieces(id, rest, piece, cap)) == 0
    decreases |rest|
  {
    if rest != "" {
      var first, later := PiecesNext(id, rest, piece, cap);
      assert ([first] + later)[1..] == later;
      PiecesAreNotEmpty(id, rest[CutLength(rest, cap)..], piece + 1, cap);
    }
  }

  /** Cutting makes no empty texts and removes none. */
  lemma {:induction false} CutKeepsEmpties(parts: seq<MessagePart>, cap: nat)
    ensures Empties(Cut(parts, cap)) == Empties(parts)
  {
    if parts != [] {
      CutFront(parts, cap);
      CutKeepsEmpties(parts[1..], cap);
      EmptiesConcat(PiecesOf(parts[0], cap), Cut(parts[1..], cap));
      if Oversized(parts[0], cap) {
        PiecesAreNotEmpty(parts[0].id, parts[0].text, 0, cap);
      } else {
        assert [parts[0]][1..] == [];
      }
    }
  }

  /** Gluing makes no empty texts, and keeps the first part up to what it takes on. */
  lemma {:induction false} GlueKeeps(current: MessagePart, pieces: nat, rest: seq<MessagePart>)
    ensures var r := GlueFrom(current, pieces, rest);
            && r != [] && Empties(r) <= Empties(rest) + (if IsEmpty(current) then 1 else 0)
            && (current.TextPart? ==> r[0].TextPart? && current.text <= r[0].text)
    decreases |rest|
  {
    if rest == [] {
      assert [current][1..] == [];
    } else if current.TextPart? && rest[0].TextPart? && rest[0].id == PieceId(current.id, pieces) {
      GlueKeeps(TextPart(current.id, current.text + rest[0].text), pieces + 1, rest[1..]);
    } else {
      GlueKeeps(rest[0], 1, rest[1..]);
      assert ([current] + GlueFrom(rest[0], 1, rest[1..]))[1..] == GlueFrom(rest[0], 1, rest[1..]);
    }
  }

  /** A text that takes on the one behind it, which it should not, is not given back: either it has grown, or
      an empty text is gone. */
  lemma TakenOnIsLost(p: MessagePart, first: MessagePart, tail: seq<MessagePart>, parts: seq<MessagePart>, pieces: nat)
    requires p.TextPart? && first.TextPart? && first.id == PieceId(p.id, pieces)
    requires parts != [] && parts[0] == p
    requires Empties(parts) == Empties([first] + tail) + if IsEmpty(p) then 1 else 0
    ensures GlueFrom(p, pieces, [first] + tail) != parts
  {
    var grown := TextPart(p.id, p.text + first.text);
    GlueOne(p, pieces, first, tail);
    GlueKeeps(grown, pieces + 1, tail);
    assert ([first] + tail)[1..] == tail;
    if first.text != "" {
      assert |grown.text| > |p.text|;
    }
  }

  /** Gluing gives the parts back only if nothing looks like a piece of the text before it. */
  lemma {:induction false} GlueTells(parts: seq<MessagePart>, cap: nat)
    requires Glue(Cut(parts, cap)) == parts
    ensures Unmistakable(parts, cap)
  {
    if |parts| > 1 {
      var p, behind := parts[0], parts[1..];
      var flat := Cut(behind, cap);
      CutFront(parts, cap);
      GluePart(p, cap, flat);
      CutFront(behind, cap);
      PiecesStart(behind[0], cap);
      assert flat[0] == PiecesOf(behind[0], cap)[0];
      assert flat == [flat[0]] + flat[1..];
      if LooksLikePiece(p, behind[0], cap) {
        CutKeepsEmpties(behind, cap);
        TakenOnIsLost(p, flat[0], flat[1..], parts, PieceCount(p, cap));
      } else {
        assert GlueFrom(p, PieceCount(p, cap), flat) == [p] + Glue(flat);
        assert Glue(flat) == ([p] + Glue(flat))[1..] == behind;
        GlueTells(behind, cap);
        forall i, j | 0 <= i && j == i + 1 && j < |parts| ensures !LooksLikePiece(parts[i], parts[j], cap) {
          if i > 0 {
            assert parts[i] == behind[i - 1] && parts[j] == behind[j - 1];
          }
        }
      }
    }
  }

  /** So joining the chunks of a split and gluing the pieces gives back the original parts exactly when no
      text stands directly behind one whose next piece it looks like. */
  lemma SplitThenGlue(parts: seq<MessagePart>, cap: nat, z: Sizes)
    ensures Glue(Flatten(Chunks(parts, cap, z))) == parts <==> Unmistakable(parts, cap)
  {
    var acc := PackAllPacks(Cut(parts, cap), cap, z);
    if Unmistakable(parts, cap) {
      GlueUndoesCut(parts, cap);
    }
    if Glue(Cut(parts, cap)) == parts {
      GlueTells(parts, cap);
    }
  }

  /** Folded lists qualify: two texts never stand next to each other. */
  lemma FoldedListsComeBack(events: seq<AgentEvent>, policy: SummaryPolicy, rules: Rules, cap: nat, z: Sizes)
    ensures var parts := FoldRun([], events, policy, rules);
            Glue(Flatten(Chunks(parts, cap, z))) == parts
  {
    var parts := FoldRun([], events, policy, rules);
    RunKeepsShape(events, policy, rules);
    SplitThenGlue(parts, cap, z);
  }

  // ── no split is shorter ────────────────────────────────────────────────────

  /** How many parts the first `i` chunks take. */
  function Taken(chunks: seq<seq<MessagePart>>, i: nat): nat
    requires i <= |chunks|
  {
    |Flatten(chunks[..i])|
  }

  lemma TakenMore(chunks: seq<seq<MessagePart>>, i: nat) returns (before: seq<MessagePart>)
    requires i < |chunks|
    ensures before == Flatten(chunks[..i]) && Flatten(chunks[..i + 1]) == before + chunks[i]
  {
    before := Flatten(chunks[..i]);
    assert chunks[..i + 1][..i] == chunks[..i];
  }

  lemma TakenNext(chunks: seq<seq<MessagePart>>, i: nat)
    requires i < |chunks|
    ensures Taken(chunks, i + 1) == Taken(chunks, i) + |chunks[i]| <= |Flatten(chunks)|
    ensures chunks[i] == Flatten(chunks)[Taken(chunks, i)..Taken(chunks, i + 1)]
  {
    var before, after := AroundChunk(chunks, i);
    MiddleSlice(before, chunks[i], after);
  }

  lemma AroundChunk(chunks: seq<seq<MessagePart>>, i: nat) returns (before: seq<MessagePart>, after: seq<MessagePart>)
    requires i < |chunks|
    ensures Flatten(chunks) == (before + chunks[i]) + after
    ensures Taken(chunks, i) == |before| && Taken(chunks, i + 1) == |before + chunks[i]|
  {
    before := TakenMore(chunks, i);
    after := Flatten(chunks[i + 1..]);
    FlattenConcat(chunks[..i + 1], chunks[i + 1..]);
    assert chunks[..i + 1] + chunks[i + 1..] == chunks;
  }

  lemma MiddleSlice<T>(a: seq<T>, b: seq<T>, c: seq<T>)
    ensures ((a + b) + c)[|a|..|a + b|] == b
  {
  }

  lemma TotalWithin(parts: seq<MessagePart>, a: nat, b: nat, c: nat, d: nat, z: Sizes)
    requires a <= b <= c <= d <= |parts|
    ensures Total(parts[b..c], z) <= Total(parts[a..d], z)
  {
    assert parts[a..d] == parts[a..b] + (parts[b..c] + parts[c..d]);
    TotalConcat(parts[a..b], parts[b..c] + parts[c..d], z);
    TotalConcat(parts[b..c], parts[c..d], z);
  }

  /** Chunk by chunk, the split has taken at least as much as any other that keeps within the cap. */
  lemma {:induction false} SplitIsAhead(chunks: seq<seq<MessagePart>>, other: seq<seq<MessagePart>>, i: nat,
                                        cap: nat, z: Sizes)
    requires Tight(chunks, cap, z) && Flatten(other) == Flatten(chunks) && Within(other, cap, z)
    requires i <= |chunks| && i <= |other|
    ensures Taken(chunks, i) >= Taken(other, i)
  {
    if i > 0 {
      SplitIsAhead(chunks, other, i - 1, cap, z);
      TakenNext(chunks, i - 1);
      TakenNext(other, i - 1);
      if Taken(chunks, i) < Taken(other, i) {
        NextWouldOverflow(chunks, other, i - 1, cap, z);
      }
    } else {
      assert chunks[..0] == [] && other[..0] == [];
    }
  }

  lemma Overflows(flat: seq<MessagePart>, a: nat, b: nat, c: nat, d: nat, cap: nat, z: Sizes)
    requires a <= b <= c < d <= |flat| && Total(flat[b..c], z) + Size(flat[c], z) > cap
    ensures Total(flat[a..d], z) > cap
  {
    var longer := flat[b..c + 1];
    assert longer[..|longer| - 1] == flat[b..c] && longer[|longer| - 1] == flat[c];
    TotalWithin(flat, a, b, c + 1, d, z);
  }

  lemma TightNext(chunks: seq<seq<MessagePart>>, i: nat, cap: nat, z: Sizes)
    requires Tight(chunks, cap, z) && i + 1 < |chunks|
    ensures chunks[i + 1] != [] && Total(chunks[i], z) + Size(chunks[i + 1][0], z) > cap
    ensures Taken(chunks, i + 1) < |Flatten(chunks)| && Flatten(chunks)[Taken(chunks, i + 1)] == chunks[i + 1][0]
  {
    assert DidNotFit(chunks[i], chunks[i + 1], cap, z);
    TakenNext(chunks, i + 1);
  }

  lemma NextWouldOverflow(chunks: seq<seq<MessagePart>>, other: seq<seq<MessagePart>>, i: nat, cap: nat, z: Sizes)
    requires Tight(chunks, cap, z) && Flatten(other) == Flatten(chunks) && Within(other, cap, z)
    requires i < |chunks| && i < |other| && Taken(chunks, i) >= Taken(other, i)
    ensures Taken(chunks, i + 1) >= Taken(other, i + 1)
  {
    TakenNext(chunks, i);
    TakenNext(other, i);
    assert other[i] in other;
    if i + 1 == |chunks| {
      assert chunks[..i + 1] == chunks;
    } else if Taken(chunks, i + 1) < Taken(other, i + 1) {
      TightNext(chunks, i, cap, z);
      Overflows(Flatten(chunks), Taken(other, i), Taken(chunks, i), Taken(chunks, i + 1), Taken(other, i + 1), cap, z);
    }
  }

  /** No way of cutting the same list into consecutive chunks within the cap needs fewer of them. */
  lemma SplitIsShortest(parts: seq<MessagePart>, other: seq<seq<MessagePart>>, cap: nat, z: Sizes)
    requires parts != [] && Flatten(other) == Cut(parts, cap) && Within(other, cap, z)
    ensures |Chunks(parts, cap, z)| <= |other|
  {
    var acc := PackAllPacks(Cut(parts, cap), cap, z);
    var chunks, n := acc.chunks, |other|;
    CutFront(parts, cap);
    PiecesStart(parts[0], cap);
    assert other != [] && other[..n] == other;
    if n < |chunks| {
      SplitIsAhead(chunks, other, n, cap, z);
      TightNext(chunks, n - 1, cap, z);
    }
  }
}
