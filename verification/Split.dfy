/** Splitting an oversized list of parts (crates/doc/src/parts.rs, lines 355-394 and 967-1029). */
module Split {
  import opened Options
  import opened Text
  import opened Parts
  import opened Fold

  /** The lengths of encoded values. */
  datatype Sizes = Sizes(call: ToolCall -> nat, diff: ToolDiff -> nat, stats: seq<ToolDiffStat> -> nat,
                         questions: Json -> nat)

  function Len(s: Option<string>): nat {
    if s.Some? then ByteLen(s.value) else 0
  }

  /** `byte_len`. */
  function Size(p: MessagePart, z: Sizes): nat {
    match p
    case TextPart(_, text) => ByteLen(text)
    case ToolPart(_, call, _, _, output, diff, _, _, _, stats, _, _, _, _, _) =>
      z.call(call) + Len(output) + (if diff.Some? then z.diff(diff.value) else 0)
      + (if stats.Some? then z.stats(stats.value) else 0)
    case InputPart(_, _, questions, _, _, _) => z.questions(questions)
    case SwitchPart(_, from, to, fromHarness, toHarness) => ByteLen(from) + ByteLen(to) + Len(fromHarness) + Len(toHarness)
    case ErrorPart(_, message, _, _, _) => ByteLen(message)
    case PermissionPart(_, _, _, line, _, _, _, _, _, _, _, _) => ByteLen(line)
    case CompactionPart(_, _, _, trigger, _, _, _, summary, _, _) => Len(summary) + Len(trigger)
  }

  const MSG_INLINE_MAX: nat := 256 * 1024

  // ── cutting a text ─────────────────────────────────────────────────────────

  function PieceId(id: string, piece: nat): string {
    if piece == 0 then id else id + "~" + Decimal(piece)
  }

  /** How many characters the next piece of `rest` takes; all of them, should not even one fit. */
  function CutLength(rest: string, cap: nat): (k: nat)
    requires rest != ""
    ensures 0 < k <= |rest|
  {
    if Fitting(rest, cap) == 0 then |rest| else Fitting(rest, cap)
  }

  function Pieces(id: string, rest: string, piece: nat, cap: nat): seq<MessagePart>
    decreases |rest|
  {
    if rest == "" then []
    else
      var k := CutLength(rest, cap);
      [TextPart(PieceId(id, piece), rest[..k])] + Pieces(id, rest[k..], piece + 1, cap)
  }

  predicate Oversized(p: MessagePart, cap: nat) {
    p.TextPart? && ByteLen(p.text) > cap
  }

  function PiecesOf(p: MessagePart, cap: nat): seq<MessagePart> {
    if Oversized(p, cap) then Pieces(p.id, p.text, 0, cap) else [p]
  }

  /** The parts with every oversized text cut, before they are packed. */
  function Cut(parts: seq<MessagePart>, cap: nat): seq<MessagePart> {
    if parts == [] then [] else Cut(parts[..|parts| - 1], cap) + PiecesOf(parts[|parts| - 1], cap)
  }

  // ── packing ────────────────────────────────────────────────────────────────

  /** The chunks so far and the bytes of the last one. */
  datatype Packing = Packing(chunks: seq<seq<MessagePart>>, bytes: nat)

  function Pack(acc: Packing, part: MessagePart, cap: nat, z: Sizes): (r: Packing)
    requires acc.chunks != []
    ensures r.chunks != []
  {
    var last := |acc.chunks| - 1;
    var len := Size(part, z);
    if acc.bytes > 0 && acc.bytes + len > cap then Packing(acc.chunks + [[part]], len)
    else Packing(acc.chunks[last := acc.chunks[last] + [part]], acc.bytes + len)
  }

  function PackAll(acc: Packing, parts: seq<MessagePart>, cap: nat, z: Sizes): (r: Packing)
    requires acc.chunks != []
    ensures r.chunks != []
  {
    if parts == [] then acc
    else Pack(PackAll(acc, parts[..|parts| - 1], cap, z), parts[|parts| - 1], cap, z)
  }

  /** The chunks of a list, for any cap. */
  function Chunks(parts: seq<MessagePart>, cap: nat, z: Sizes): seq<seq<MessagePart>> {
    PackAll(Packing([[]], 0), Cut(parts, cap), cap, z).chunks
  }

  lemma {:induction false} PackConcat(acc: Packing, a: seq<MessagePart>, b: seq<MessagePart>, cap: nat, z: Sizes)
    requires acc.chunks != []
    ensures PackAll(acc, a + b, cap, z) == PackAll(PackAll(acc, a, cap, z), b, cap, z)
  {
    if b == [] {
      assert a + b == a;
    } else {
      var n := |b| - 1;
      assert (a + b)[..|a + b| - 1] == a + b[..n];
      PackConcat(acc, a, b[..n], cap, z);
    }
  }

  lemma PackMore(acc: Packing, parts: seq<MessagePart>, part: MessagePart, cap: nat, z: Sizes)
    requires acc.chunks != []
    ensures PackAll(acc, parts + [part], cap, z) == Pack(PackAll(acc, parts, cap, z), part, cap, z)
  {
    assert (parts + [part])[..|parts|] == parts;
  }

  // ── the loops ──────────────────────────────────────────────────────────────

  /** The closure `push_part`: open a new chunk when the part does not fit the last. */
  method PushPart(acc: Packing, part: MessagePart, cap: nat, z: Sizes) returns (r: Packing)
    requires acc.chunks != []
    ensures r == Pack(acc, part, cap, z)
  {
    var chunks, current := acc.chunks, acc.bytes;
    var len := Size(part, z);
    if current > 0 && current + len > cap {
      chunks := chunks + [[]];
      current := 0;
    }
    var last := |chunks| - 1;
    chunks := chunks[last := chunks[last] + [part]];
    assert [] + [part] == [part];
    r := Packing(chunks, current + len);
  }

  /** One cut: step back from the byte budget to a character boundary. */
  method CutAt(rest: string, cap: nat) returns (k: nat)
    requires rest != ""
    ensures k == CutLength(rest, cap)
  {
    FittingIsLongest(rest, cap);
    CharsAtPrefix(rest, |rest|);
    assert rest[..|rest|] == rest;
    var end := if cap < ByteLen(rest) then cap else ByteLen(rest);
    while end < ByteLen(rest) && CharsAt(rest, end).None?
      invariant ByteLen(rest[..Fitting(rest, cap)]) <= end <= cap && end <= ByteLen(rest)
      decreases end
    {
      CharsAtPrefix(rest, Fitting(rest, cap));
      end := end - 1;
    }
    LongestIsUnique(rest, CharsAt(rest, end).value, Fitting(rest, cap), end, cap);
    CharsAtMeans(rest, end);
    assert rest[..0] == "";
    if end == 0 {
      end := ByteLen(rest);
    } else {
      assert CharsAt(rest, end).value > 0;
    }
    k := CharsAt(rest, end).value;
  }

  /** The inner loop: an oversized text, piece by piece. */
  method PushPieces(acc: Packing, id: string, text: string, cap: nat, z: Sizes) returns (r: Packing)
    requires acc.chunks != []
    ensures r == PackAll(acc, Pieces(id, text, 0, cap), cap, z)
  {
    r := acc;
    var rest, piece := text, 0;
    ghost var done: seq<MessagePart> := [];
    while rest != ""
      invariant r.chunks != [] && r == PackAll(acc, done, cap, z)
      invariant Pieces(id, text, 0, cap) == done + Pieces(id, rest, piece, cap)
      decreases |rest|
    {
      var k := CutAt(rest, cap);
      var part := TextPart(PieceId(id, piece), rest[..k]);
      r := PushPart(r, part, cap, z);
      PackMore(acc, done, part, cap, z);
      Regroup(done, [part], Pieces(id, rest[k..], piece + 1, cap));
      done := done + [part];
      rest := rest[k..];
      piece := piece + 1;
    }
    assert done + [] == done;
  }

  /** One part of the list, cut if need be and packed. */
  lemma PackNext(parts: seq<MessagePart>, i: nat, cap: nat, z: Sizes) returns (before: Packing)
    requires i < |parts|
    ensures before == PackAll(Packing([[]], 0), Cut(parts[..i], cap), cap, z)
    ensures PackAll(Packing([[]], 0), Cut(parts[..i + 1], cap), cap, z) == PackAll(before, PiecesOf(parts[i], cap), cap, z)
  {
    before := PackAll(Packing([[]], 0), Cut(parts[..i], cap), cap, z);
    CutNext(parts, i, cap);
    PackConcat(Packing([[]], 0), Cut(parts[..i], cap), PiecesOf(parts[i], cap), cap, z);
  }

  lemma CutNext(parts: seq<MessagePart>, i: nat, cap: nat)
    requires i < |parts|
    ensures Cut(parts[..i + 1], cap) == Cut(parts[..i], cap) + PiecesOf(parts[i], cap)
  {
    assert parts[..i + 1][..i] == parts[..i];
  }

  /** The body of the outer loop. */
  method PushCut(acc: Packing, part: MessagePart, cap: nat, z: Sizes) returns (r: Packing)
    requires acc.chunks != []
    ensures r == PackAll(acc, PiecesOf(part, cap), cap, z)
  {
    if part.TextPart? && ByteLen(part.text) > cap {
      r := PushPieces(acc, part.id, part.text, cap, z);
    } else {
      PackOne(acc, part, cap, z);
      r := PushPart(acc, part, cap, z);
    }
  }

  /** `split_parts`, for any cap. */
  method SplitParts(parts: seq<MessagePart>, cap: nat, z: Sizes) returns (chunks: seq<seq<MessagePart>>)
    ensures chunks == Chunks(parts, cap, z)
  {
    var acc := Packing([[]], 0);
    for i := 0 to |parts|
      invariant acc.chunks != [] && acc == PackAll(Packing([[]], 0), Cut(parts[..i], cap), cap, z)
    {
      ghost var before := PackNext(parts, i, cap, z);
      acc := PushCut(acc, parts[i], cap, z);
    }
    assert parts[..|parts|] == parts;
    chunks := acc.chunks;
  }

  lemma PackOne(acc: Packing, part: MessagePart, cap: nat, z: Sizes)
    requires acc.chunks != []
    ensures PackAll(acc, [part], cap, z) == Pack(acc, part, cap, z)
  {
    assert [part][..0] == [];
  }

  /** `split_parts` with the cap the messages of a session have. */
  method SplitMessage(parts: seq<MessagePart>, z: Sizes) returns (chunks: seq<seq<MessagePart>>)
    ensures chunks == Chunks(parts, 262_144, z)
  {
    chunks := SplitParts(parts, MSG_INLINE_MAX, z);
  }
}
