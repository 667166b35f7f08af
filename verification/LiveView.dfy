/** A viewer of a streaming entry: the frames of its ticks (crates/doc/src/transcript_delta.rs) over the
    lists the fold produces (crates/doc/src/parts.rs). */
module LiveView {
  import opened Parts
  import Fold
  import FoldLaws
  import opened IdLists
  import opened Transcript
  import opened TranscriptLaws

  /** A transcript whose last entry is being streamed. */
  function With(history: seq<Entry>, e: Entry, parts: seq<MessagePart>): seq<Entry> {
    history + [e.(parts := parts)]
  }

  lemma {:induction false} SameIds(a: seq<Entry>, b: seq<Entry>)
    requires |a| == |b| && forall i :: 0 <= i < |a| ==> a[i].id == b[i].id
    ensures Ids(a) == Ids(b)
  {
    if a != [] {
      SameIds(a[1..], b[1..]);
    }
  }

  /** Text ids in a folded list are those of positions, so they are distinct. */
  lemma FoldedTextsAreUnique(e: Entry)
    requires FoldLaws.Shaped(e.parts)
    ensures UniqueTexts(e)
  {
    forall i, j | 0 <= i < j < |e.parts| && e.parts[i].TextPart? && e.parts[j].TextPart?
      ensures e.parts[i].id != e.parts[j].id
    {
      assert !FoldLaws.SameThing(e.parts[i], e.parts[j]);
    }
  }

  /** A viewer that is given the frame of every tick shows what the host shows, whatever the run folded
      between two ticks, resets included. */
  lemma TicksAreFollowed(history: seq<Entry>, e: Entry, before: seq<Fold.AgentEvent>, after: seq<Fold.AgentEvent>,
                         policy: Fold.SummaryPolicy, rules: Fold.Rules)
    requires Unique(Ids(history + [e])) && forall h <- history :: UniqueTexts(h)
    ensures var prev := With(history, e, FoldLaws.FoldRun([], before, policy, rules));
            var next := With(history, e, FoldLaws.FoldRun([], before + after, policy, rules));
            Patch(prev, Diff(prev, next)) == Transcript.Applied(next)
  {
    var prev := With(history, e, FoldLaws.FoldRun([], before, policy, rules));
    var next := With(history, e, FoldLaws.FoldRun([], before + after, policy, rules));
    SameIds(history + [e], prev);
    SameIds(history + [e], next);
    FoldLaws.RunKeepsShape(before, policy, rules);
    FoldedTextsAreUnique(prev[|history|]);
    forall x | x in prev ensures UniqueTexts(x) {
    }
    assert KeptInOrder(prev, next);
    DiffThenPatch(prev, next);
  }
}
