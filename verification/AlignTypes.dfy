/** Data shared by the alignment modules: words, speaker turns, segments and thresholds
    of `src/utteran/types.py`. Every float is a `real`. */
module AlignTypes {
  import opened Basics

  type Label = string

  const UNKNOWN: Label := "UNKNOWN"

  /** Seconds by which one speaker's support must exceed another's to be clear. */
  const CLEAR_OVERLAP_MARGIN := 0.15

  datatype Word = Word(start: real, end: real, text: string, probability: Option<real>)

  datatype Turn = Turn(start: real, end: real, speaker: Label)

  datatype Confidence = High | Low

  datatype Segment = Segment(
    start: real,
    end: real,
    text: string,
    words: seq<Word>,
    speaker: Option<Label>,
    confidence: Confidence)

  datatype Unit = UnitA | UnitB

  datatype AlignmentOptions = AlignmentOptions(
    speakerSwitchPenalty: real,
    silenceSwitchThreshold: real,
    minClearTurnDuration: real,
    maxSameSpeakerBridgeGap: real,
    unknownEmissionScore: real,
    minUnknownDuration: real,
    minUnknownCharacters: int,
    maxUnsupportedFragmentDuration: real,
    maxUnsupportedFragmentCharacters: int,
    minFragmentSpeakerOverlap: real,
    mergeGap: real,
    renumberSpeakers: bool,
    boundarySnapEnabled: bool,
    boundarySnapUnit: Unit,
    boundarySnapMaxCharacters: int,
    boundarySnapMaxGap: real,
    fallbackCharactersPerSecond: real,
    fallbackDurationPadding: real,
    fallbackMinDuration: real)

  /** Length of the intersection of two intervals. */
  function Overlap(startA: real, endA: real, startB: real, endB: real): (r: real)
    ensures 0.0 <= r
  {
    Max(0.0, Min(endA, endB) - Max(startA, startB))
  }

  predicate Within(x: real, start: real, end: real) {
    start <= x <= end
  }

  /** Two intervals meet exactly in a stretch as long as their overlap, or in a point at most. */
  lemma OverlapIsIntersection(startA: real, endA: real, startB: real, endB: real)
    ensures var r, first := Overlap(startA, endA, startB, endB), Max(startA, startB);
            if r > 0.0
            then forall x :: Within(x, startA, endA) && Within(x, startB, endB) <==> Within(x, first, first + r)
            else forall x, y | Within(x, startA, endA) && Within(x, startB, endB)
                             && Within(y, startA, endA) && Within(y, startB, endB) :: x == y
  {
  }

  /** Time during which the turns of one speaker overlap an interval, turn by turn. */
  function SpeakerSupport(start: real, end: real, turns: seq<Turn>, speaker: Label): (r: real)
    ensures r >= 0.0
  {
    if turns == [] then 0.0
    else
      SpeakerSupport(start, end, turns[..|turns| - 1], speaker) +
      var turn := turns[|turns| - 1];
      if turn.speaker == speaker then Overlap(start, end, turn.start, turn.end) else 0.0
  }

  /** The time is summed turn by turn, overlapping turns counted each. */
  lemma {:induction false} SupportAdds(start: real, end: real, a: seq<Turn>, b: seq<Turn>, speaker: Label)
    ensures SpeakerSupport(start, end, a + b, speaker)
         == SpeakerSupport(start, end, a, speaker) + SpeakerSupport(start, end, b, speaker)
  {
    if b == [] {
      assert a + b == a;
    } else {
      var last := |b| - 1;
      SupportAdds(start, end, a, b[..last], speaker);
      assert (a + b)[..|a + b| - 1] == a + b[..last];
    }
  }

  lemma SupportOfOne(start: real, end: real, t: Turn, speaker: Label)
    ensures SpeakerSupport(start, end, [t], speaker)
         == if t.speaker == speaker then Max(0.0, Min(end, t.end) - Max(start, t.start)) else 0.0
  {
    assert [t][..0] == [];
  }

  /** Code-point order on labels, the order of Python's string comparison. */
  predicate LabelLeq(a: Label, b: Label) {
    if a == "" then true
    else if b == "" then false
    else if a[0] != b[0] then a[0] < b[0]
    else LabelLeq(a[1..], b[1..])
  }

  /** One label precedes another when it is a prefix of it, or has the smaller character at the
      first position where they differ. */
  lemma {:induction false} LabelOrderIff(a: Label, b: Label)
    ensures LabelLeq(a, b) <==> a <= b || SmallerAtFirst(a, b)
  {
    if a != "" && b != "" {
      if a[0] == b[0] {
        LabelOrderIff(a[1..], b[1..]);
        assert a == [a[0]] + a[1..] && b == [b[0]] + b[1..];
        assert a <= b <==> a[1..] <= b[1..];
        AfterSameFirst(a, b);
      } else {
        assert a[0] < b[0] ==> Differ(a, b, 0);
      }
    }
  }

  ghost predicate SmallerAtFirst(a: Label, b: Label) {
    exists k: nat :: Differ(a, b, k) && a[k] < b[k]
  }

  lemma AfterSameFirst(a: Label, b: Label)
    requires a != "" && b != "" && a[0] == b[0]
    ensures SmallerAtFirst(a, b) <==> SmallerAtFirst(a[1..], b[1..])
  {
    var x, y := a[1..], b[1..];
    if j: nat :| Differ(x, y, j) && x[j] < y[j] {
      assert a[..j + 1] == [a[0]] + x[..j] && b[..j + 1] == [b[0]] + y[..j];
      assert Differ(a, b, j + 1);
    }
    if k: nat :| Differ(a, b, k) && a[k] < b[k] {
      assert k > 0 && x[..k - 1] == a[..k][1..] && y[..k - 1] == b[..k][1..];
      assert Differ(x, y, k - 1);
    }
  }

  ghost predicate Differ(a: Label, b: Label, k: nat) {
    k < |a| && k < |b| && a[..k] == b[..k] && a[k] != b[k]
  }

  lemma LabelLeqTotal(a: Label, b: Label)
    ensures LabelLeq(a, b) || LabelLeq(b, a)
    ensures LabelLeq(a, b) && LabelLeq(b, a) ==> a == b
  {
    if a != "" && b != "" && a[0] == b[0] {
      LabelLeqTotal(a[1..], b[1..]);
      assert a == [a[0]] + a[1..] && b == [b[0]] + b[1..];
    }
  }

  lemma LabelLeqTransitive(a: Label, b: Label, c: Label)
    requires LabelLeq(a, b) && LabelLeq(b, c)
    ensures LabelLeq(a, c)
  {
    if a != "" && b != "" && c != "" && a[0] == b[0] == c[0] {
      LabelLeqTransitive(a[1..], b[1..], c[1..]);
    }
  }
}
