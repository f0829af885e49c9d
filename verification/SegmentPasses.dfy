/** The passes over the list of split segments: absorbing short UNKNOWN islands and unsupported
    fragments, reassessing sandwiched fragments, merging and renumbering (`src/utteran/align.py`). */
module SegmentPasses {
  import opened Basics
  import opened AlignTypes

  // ---------------------------------------------------------------- what every pass conserves

  ghost function AllWords(items: seq<Segment>): seq<Word> {
    if items == [] then [] else AllWords(items[..|items| - 1]) + items[|items| - 1].words
  }

  ghost function AllText(items: seq<Segment>): string {
    if items == [] then "" else AllText(items[..|items| - 1]) + items[|items| - 1].text
  }

  ghost predicate ContainsWords(s: Segment) {
    forall w | w in s.words :: s.start <= w.start && w.end <= s.end
  }

  /** Words and text in order are those of before, and no segment loses a word from its bounds. */
  ghost predicate Conserves(before: seq<Segment>, after: seq<Segment>) {
    && AllWords(after) == AllWords(before)
    && AllText(after) == AllText(before)
    && ((forall s | s in before :: ContainsWords(s)) ==> forall s | s in after :: ContainsWords(s))
  }

  /** Only speakers differ. */
  ghost predicate Relabels(before: seq<Segment>, after: seq<Segment>) {
    && |after| == |before|
    && forall i | 0 <= i < |before| :: after[i] == before[i].(speaker := after[i].speaker)
  }

  lemma {:induction false} AllWordsConcat(a: seq<Segment>, b: seq<Segment>)
    ensures AllWords(a + b) == AllWords(a) + AllWords(b)
  {
    if b == [] {
      assert a + b == a;
    } else {
      var last := |b| - 1;
      AllWordsConcat(a, b[..last]);
      assert (a + b)[..|a + b| - 1] == a + b[..last] && (a + b)[|a + b| - 1] == b[last];
      Assoc(AllWords(a), AllWords(b[..last]), b[last].words);
    }
  }

  lemma {:induction false} AllTextConcat(a: seq<Segment>, b: seq<Segment>)
    ensures AllText(a + b) == AllText(a) + AllText(b)
  {
    if b == [] {
      assert a + b == a;
    } else {
      var last := |b| - 1;
      AllTextConcat(a, b[..last]);
      assert (a + b)[..|a + b| - 1] == a + b[..last] && (a + b)[|a + b| - 1] == b[last];
      Assoc(AllText(a), AllText(b[..last]), b[last].text);
    }
  }

  lemma AllConcat(a: seq<Segment>, b: seq<Segment>)
    ensures AllWords(a + b) == AllWords(a) + AllWords(b)
    ensures AllText(a + b) == AllText(a) + AllText(b)
  {
    AllWordsConcat(a, b);
    AllTextConcat(a, b);
  }

  lemma {:induction false} RelabelsConserves(before: seq<Segment>, after: seq<Segment>)
    requires Relabels(before, after)
    ensures Conserves(before, after)
  {
    if before != [] {
      var n := |before| - 1;
      RelabelsConserves(before[..n], after[..n]);
      assert AllWords(after) == AllWords(before) && AllText(after) == AllText(before);
      forall s | s in after && forall t | t in before :: ContainsWords(t)
        ensures ContainsWords(s)
      {
        var i :| 0 <= i < |after| && after[i] == s;
        assert ContainsWords(before[i]);
      }
    }
  }

  predicate Known(speaker: Option<Label>) {
    speaker.Some? && speaker.value != UNKNOWN
  }

  // ---------------------------------------------------------------- text and duration

  predicate IsSpace(c: char) {
    var u := c as int;
    9 <= u <= 13 || 28 <= u <= 32 || u == 0x85 || u == 0xA0 || u == 0x1680 || 0x2000 <= u <= 0x200A
    || u == 0x2028 || u == 0x2029 || u == 0x202F || u == 0x205F || u == 0x3000
  }

  /** The text without leading and trailing white space. */
  function Strip(text: string): (r: string)
    ensures r == "" || (!IsSpace(r[0]) && !IsSpace(r[|r| - 1]))
    decreases |text|
  {
    if text == "" then ""
    else if IsSpace(text[0]) then Strip(text[1..])
    else if IsSpace(text[|text| - 1]) then Strip(text[..|text| - 1])
    else text
  }

  function Duration(s: Segment): real {
    Max(0.0, s.end - s.start)
  }

  /** Support of an optional speaker; nobody supports a missing one. */
  function Support(s: Segment, turns: seq<Turn>, speaker: Option<Label>): real {
    if speaker.None? then 0.0 else SpeakerSupport(s.start, s.end, turns, speaker.value)
  }

  // ---------------------------------------------------------------- neighbours

  predicate IsNeighbour(items: seq<Segment>, index: nat, j: nat) {
    index < |items| && j < |items| && (j + 1 == index || j == index + 1) && Known(items[j].speaker)
  }

  /** The longer known neighbour, the left one on a tie. */
  function ChooseNeighbour(items: seq<Segment>, index: nat): (r: Option<nat>)
    requires index < |items|
    ensures r.None? <==> forall j: nat :: !IsNeighbour(items, index, j)
    ensures r.Some? ==> IsNeighbour(items, index, r.value)
    ensures r.Some? ==> forall j: nat | IsNeighbour(items, index, j) && j != r.value ::
              var mine, other := items[r.value].end - items[r.value].start, items[j].end - items[j].start;
              mine > other || (mine == other && r.value < j)
  {
    var left := index > 0 && Known(items[index - 1].speaker);
    var right := index + 1 < |items| && Known(items[index + 1].speaker);
    assert left ==> IsNeighbour(items, index, index - 1);
    assert right ==> IsNeighbour(items, index, index + 1);
    if left && right then
      if items[index - 1].end - items[index - 1].start >= items[index + 1].end - items[index + 1].start
      then Some(index - 1) else Some(index + 1)
    else if left then Some(index - 1)
    else if right then Some(index + 1)
    else None
  }

  // ---------------------------------------------------------------- short UNKNOWN islands

  predicate IsShortUnknown(s: Segment, options: AlignmentOptions) {
    && s.speaker == Some(UNKNOWN)
    && (Duration(s) < options.minUnknownDuration || |Strip(s.text)| < options.minUnknownCharacters)
  }

  /** One step of the relabelling of short UNKNOWN segments. */
  function RelabelUnknownAt(items: seq<Segment>, index: nat, options: AlignmentOptions): (r: seq<Segment>)
    requires index < |items|
    ensures Relabels(items, r)
  {
    if !IsShortUnknown(items[index], options) || ChooseNeighbour(items, index).None? then items
    else items[index := items[index].(speaker := items[ChooseNeighbour(items, index).value].speaker)]
  }

  function RelabelUnknownFrom(items: seq<Segment>, index: nat, options: AlignmentOptions): (r: seq<Segment>)
    ensures Relabels(items, r)
    decreases |items| - index
  {
    if index >= |items| then items
    else RelabelUnknownFrom(RelabelUnknownAt(items, index, options), index + 1, options)
  }

  ghost predicate OnlyIslandsChange(before: seq<Segment>, after: seq<Segment>, index: nat, options: AlignmentOptions)
    requires |before| == |after|
  {
    forall i | 0 <= i < |before| && after[i] != before[i] :: index <= i && IslandJoins(before, after, i, options)
  }

  /** The short UNKNOWN segment `i` takes the known speaker before or after it. */
  ghost predicate IslandJoins(before: seq<Segment>, after: seq<Segment>, i: nat, options: AlignmentOptions)
    requires |before| == |after| && i < |before|
  {
    && IsShortUnknown(before[i], options) && Known(after[i].speaker)
    && ((i > 0 && after[i].speaker == after[i - 1].speaker)
        || (i + 1 < |before| && after[i].speaker == before[i + 1].speaker))
  }

  /** Only short UNKNOWN segments are relabelled, to the known speaker of a neighbour. */
  lemma {:induction false} UnknownIslands(items: seq<Segment>, index: nat, options: AlignmentOptions)
    ensures OnlyIslandsChange(items, RelabelUnknownFrom(items, index, options), index, options)
    decreases |items| - index
  {
    if index < |items| {
      var next := RelabelUnknownAt(items, index, options);
      var after := RelabelUnknownFrom(next, index + 1, options);
      UnknownIslands(next, index + 1, options);
      IslandStep(items, next, after, index, options);
    }
  }

  lemma IslandStep(items: seq<Segment>, next: seq<Segment>, after: seq<Segment>, index: nat, options: AlignmentOptions)
    requires |items| == |next| == |after| && index < |items| && next == RelabelUnknownAt(items, index, options)
    requires OnlyIslandsChange(next, after, index + 1, options)
    ensures OnlyIslandsChange(items, after, index, options)
  {
    forall i | 0 <= i < |items| && after[i] != items[i] ensures IslandJoins(items, after, i, options) {
      if i != index { assert IslandJoins(next, after, i, options); }
    }
  }

  /** A short UNKNOWN segment that stays had no known speaker on either side when it was looked
      at: none before it in the result, none after it in the original. */
  lemma {:induction false} RemainingIslands(items: seq<Segment>, index: nat, options: AlignmentOptions, i: nat)
    requires index <= i < |items|
    ensures var after := RelabelUnknownFrom(items, index, options);
            IsShortUnknown(after[i], options) ==>
              (i > 0 ==> !Known(after[i - 1].speaker)) && (i + 1 < |items| ==> !Known(items[i + 1].speaker))
    decreases |items| - index
  {
    var next := RelabelUnknownAt(items, index, options);
    UnknownIslands(next, index + 1, options);
    if i == index {
      assert i > 0 && Known(items[i - 1].speaker) ==> IsNeighbour(items, i, i - 1);
      assert i + 1 < |items| && Known(items[i + 1].speaker) ==> IsNeighbour(items, i, i + 1);
    } else {
      RemainingIslands(next, index + 1, options, i);
    }
  }

  // ---------------------------------------------------------------- unsupported fragments

  /** Combine two adjacent segments without discarding text or words. */
  function CombineSegments(a: Segment, b: Segment, speaker: Option<Label>): (r: Segment)
    ensures ContainsWords(a) && ContainsWords(b) ==> ContainsWords(r)
  {
    Segment(Min(a.start, b.start), Max(a.end, b.end), a.text + b.text, a.words + b.words, speaker,
            if a.confidence.Low? || b.confidence.Low? then Low else High)
  }

  predicate IsFragment(s: Segment, turns: seq<Turn>, options: AlignmentOptions) {
    && Known(s.speaker)
    && Duration(s) < options.maxUnsupportedFragmentDuration
    && |Strip(s.text)| <= options.maxUnsupportedFragmentCharacters
    && Support(s, turns, s.speaker) < options.minFragmentSpeakerOverlap
  }

  /** Nothing to absorb at `i`: supported, or without a known neighbour. */
  ghost predicate Stable(items: seq<Segment>, i: nat, turns: seq<Turn>, options: AlignmentOptions)
    requires i < |items|
  {
    IsFragment(items[i], turns, options) ==> forall j: nat :: !IsNeighbour(items, i, j)
  }

  ghost predicate StableUpTo(items: seq<Segment>, n: nat, turns: seq<Turn>, options: AlignmentOptions)
    requires n <= |items|
  {
    forall i: nat {:trigger Stable(items, i, turns, options)} | i < n :: Stable(items, i, turns, options)
  }

  /** The list with the adjacent segments `i` and `i + 1` combined. */
  function Join(items: seq<Segment>, i: nat, speaker: Option<Label>): (r: seq<Segment>)
    requires i + 1 < |items|
    ensures |r| == |items| - 1
    ensures forall k | 0 <= k < i :: r[k] == items[k]
    ensures forall k | i < k < |r| :: r[k] == items[k + 1]
    ensures r[i] == CombineSegments(items[i], items[i + 1], speaker)
  {
    items[..i] + [CombineSegments(items[i], items[i + 1], speaker)] + items[i + 2..]
  }

  lemma JoinConserves(items: seq<Segment>, i: nat, speaker: Option<Label>)
    requires i + 1 < |items|
    ensures Conserves(items, Join(items, i, speaker))
  {
    var c := CombineSegments(items[i], items[i + 1], speaker);
    var head, tail := items[..i], items[i + 2..];
    assert items == head + [items[i], items[i + 1]] + tail;
    assert Join(items, i, speaker) == head + [c] + tail;
    AllConcat(head, [items[i], items[i + 1]]);
    AllConcat(head + [items[i], items[i + 1]], tail);
    AllConcat(head, [c]);
    AllConcat(head + [c], tail);
    AllConcat([items[i]], [items[i + 1]]);
    Single(items[i]);
    Single(items[i + 1]);
    Single(c);
    assert [items[i], items[i + 1]] == [items[i]] + [items[i + 1]];
    JoinContains(items, i, speaker);
  }

  lemma Single(s: Segment)
    ensures AllWords([s]) == s.words && AllText([s]) == s.text
  {
    assert [s][..0] == [];
  }

  lemma JoinContains(items: seq<Segment>, i: nat, speaker: Option<Label>)
    requires i + 1 < |items|
    ensures (forall s | s in items :: ContainsWords(s)) ==> forall s | s in Join(items, i, speaker) :: ContainsWords(s)
  {
    var joined := Join(items, i, speaker);
    if forall s | s in items :: ContainsWords(s) {
      forall s | s in joined ensures ContainsWords(s) {
        var k :| 0 <= k < |joined| && joined[k] == s;
        assert ContainsWords(items[i]) && ContainsWords(items[i + 1]);
        if k < i { assert items[k] == s; } else if k > i { assert items[k + 1] == s; }
      }
    }
  }

  /** The loop from position `index`: absorbing shortens the list and may step back. */
  function AbsorbFrom(items: seq<Segment>, index: nat, turns: seq<Turn>, options: AlignmentOptions): seq<Segment>
    decreases |items|, |items| - index
  {
    if index >= |items| then items
    else if !IsFragment(items[index], turns, options) then AbsorbFrom(items, index + 1, turns, options)
    else match ChooseNeighbour(items, index)
      case None => AbsorbFrom(items, index + 1, turns, options)
      case Some(j) =>
        if j < index then AbsorbFrom(Join(items, j, items[j].speaker), j, turns, options)
        else AbsorbFrom(Join(items, index, items[j].speaker), index, turns, options)
  }

  lemma ConservesTransitive(a: seq<Segment>, b: seq<Segment>, c: seq<Segment>)
    requires Conserves(a, b) && Conserves(b, c)
    ensures Conserves(a, c)
  {
  }

  lemma {:induction false} AbsorbConserves(items: seq<Segment>, index: nat, turns: seq<Turn>, options: AlignmentOptions)
    ensures Conserves(items, AbsorbFrom(items, index, turns, options))
    ensures |AbsorbFrom(items, index, turns, options)| <= |items|
    decreases |items|, |items| - index
  {
    if index < |items| {
      var chosen := ChooseNeighbour(items, index);
      if chosen.None? || !IsFragment(items[index], turns, options) {
        AbsorbConserves(items, index + 1, turns, options);
      } else {
        var j := chosen.value;
        var at := if j < index then j else index;
        var joined := Join(items, at, items[j].speaker);
        JoinConserves(items, at, items[j].speaker);
        AbsorbConserves(joined, at, turns, options);
        ConservesTransitive(items, joined, AbsorbFrom(joined, at, turns, options));
      }
    }
  }

  /** Joining at `at` under the known speaker of one of the two keeps what lies before stable. */
  lemma JoinKeepsStable(items: seq<Segment>, at: nat, speaker: Option<Label>, turns: seq<Turn>, options: AlignmentOptions, i: nat)
    requires at + 1 < |items| && i < at && Known(speaker) && Known(items[at].speaker)
    requires Stable(items, i, turns, options)
    ensures Stable(Join(items, at, speaker), i, turns, options)
  {
    var joined := Join(items, at, speaker);
    forall j: nat | IsNeighbour(joined, i, j) ensures IsNeighbour(items, i, j) {}
  }

  /** When the loop ends, no unsupported fragment has a known-speaker neighbour. */
  lemma {:induction false} AbsorbReachesFixpoint(items: seq<Segment>, index: nat, turns: seq<Turn>, options: AlignmentOptions)
    requires index <= |items|
    requires StableUpTo(items, index, turns, options)
    ensures var after := AbsorbFrom(items, index, turns, options);
            StableUpTo(after, |after|, turns, options)
    decreases |items|, |items| - index
  {
    if index < |items| {
      match ChooseNeighbour(items, index)
      case None =>
        assert Stable(items, index, turns, options);
        AbsorbReachesFixpoint(items, index + 1, turns, options);
      case Some(j) =>
        if !IsFragment(items[index], turns, options) {
          AbsorbReachesFixpoint(items, index + 1, turns, options);
        } else {
          var at := if j < index then j else index;
          forall i: nat | i < at ensures Stable(Join(items, at, items[j].speaker), i, turns, options) {
            JoinKeepsStable(items, at, items[j].speaker, turns, options, i);
          }
          AbsorbReachesFixpoint(Join(items, at, items[j].speaker), at, turns, options);
        }
    }
  }

  lemma {:induction false} StableIsUnchanged(items: seq<Segment>, index: nat, turns: seq<Turn>, options: AlignmentOptions)
    requires StableUpTo(items, |items|, turns, options)
    ensures AbsorbFrom(items, index, turns, options) == items
    decreases |items| - index
  {
    if index < |items| {
      assert Stable(items, index, turns, options);
      StableIsUnchanged(items, index + 1, turns, options);
    }
  }

  /** A second pass changes nothing. */
  lemma AbsorbIsIdempotent(items: seq<Segment>, turns: seq<Turn>, options: AlignmentOptions)
    ensures var once := AbsorbFrom(items, 0, turns, options);
            AbsorbFrom(once, 0, turns, options) == once
  {
    AbsorbReachesFixpoint(items, 0, turns, options);
    StableIsUnchanged(AbsorbFrom(items, 0, turns, options), 0, turns, options);
  }

  /** Segments without a known speaker. */
  ghost function Unattributed(items: seq<Segment>): seq<Segment> {
    if items == [] then []
    else Unattributed(items[..|items| - 1])
         + if Known(items[|items| - 1].speaker) then [] else [items[|items| - 1]]
  }

  lemma {:induction false} UnattributedConcat(a: seq<Segment>, b: seq<Segment>)
    ensures Unattributed(a + b) == Unattributed(a) + Unattributed(b)
  {
    if b == [] {
      assert a + b == a;
    } else {
      var last := |b| - 1;
      UnattributedConcat(a, b[..last]);
      assert (a + b)[..|a + b| - 1] == a + b[..last] && (a + b)[|a + b| - 1] == b[last];
      Assoc(Unattributed(a), Unattributed(b[..last]), if Known(b[last].speaker) then [] else [b[last]]);
    }
  }

  lemma KnownAddsNothing(items: seq<Segment>, s: Segment)
    requires Known(s.speaker)
    ensures Unattributed(items + [s]) == Unattributed(items)
  {
    assert (items + [s])[..|items|] == items;
  }

  lemma OneForTwo(head: seq<Segment>, x: Segment, y: Segment, c: Segment, tail: seq<Segment>)
    requires Known(x.speaker) && Known(y.speaker) && Known(c.speaker)
    ensures Unattributed(head + [c] + tail) == Unattributed(head + [x] + [y] + tail)
  {
    KnownAddsNothing(head, x);
    KnownAddsNothing(head + [x], y);
    KnownAddsNothing(head, c);
    UnattributedConcat(head + [x] + [y], tail);
    UnattributedConcat(head + [c], tail);
  }

  lemma JoinParts(items: seq<Segment>, i: nat, speaker: Option<Label>) returns (head: seq<Segment>, c: Segment, tail: seq<Segment>)
    requires i + 1 < |items|
    ensures Join(items, i, speaker) == head + [c] + tail && c.speaker == speaker
    ensures items == head + [items[i]] + [items[i + 1]] + tail
  {
    head, tail, c := items[..i], items[i + 2..], CombineSegments(items[i], items[i + 1], speaker);
  }

  lemma JoinKeepsUnattributed(items: seq<Segment>, i: nat, speaker: Option<Label>)
    requires i + 1 < |items| && Known(items[i].speaker) && Known(items[i + 1].speaker) && Known(speaker)
    ensures Unattributed(Join(items, i, speaker)) == Unattributed(items)
  {
    var head, c, tail := JoinParts(items, i, speaker);
    OneForTwo(head, items[i], items[i + 1], c, tail);
  }

  /** Absorption neither touches nor creates a segment without a known speaker. */
  lemma {:induction false} AbsorbKeepsUnattributed(items: seq<Segment>, index: nat, turns: seq<Turn>, options: AlignmentOptions)
    ensures Unattributed(AbsorbFrom(items, index, turns, options)) == Unattributed(items)
    decreases |items|, |items| - index
  {
    if index < |items| {
      match ChooseNeighbour(items, index)
      case None => AbsorbKeepsUnattributed(items, index + 1, turns, options);
      case Some(j) =>
        if !IsFragment(items[index], turns, options) {
          AbsorbKeepsUnattributed(items, index + 1, turns, options);
        } else {
          var at := if j < index then j else index;
          JoinKeepsUnattributed(items, at, items[j].speaker);
          AbsorbKeepsUnattributed(Join(items, at, items[j].speaker), at, turns, options);
        }
    }
  }

  // ---------------------------------------------------------------- sandwiched fragments

  /** A/B/A whose middle is short, adjacent to both, and acoustically A. */
  predicate Sandwiched(left: Segment, fragment: Segment, right: Segment, turns: seq<Turn>) {
    var outer, inner := Support(fragment, turns, left.speaker), Support(fragment, turns, fragment.speaker);
    && left.speaker == right.speaker
    && Known(fragment.speaker) && fragment.speaker != left.speaker
    && fragment.end - fragment.start <= 2.0
    && fragment.start - left.end < 0.01
    && right.start - fragment.end < 0.01
    && outer >= inner + 0.15 && inner < Duration(fragment) * 0.25
  }

  predicate IsSandwiched(items: seq<Segment>, index: nat, turns: seq<Turn>)
    requires 0 < index && index + 1 < |items|
  {
    Sandwiched(items[index - 1], items[index], items[index + 1], turns)
  }

  function ReassessFrom(items: seq<Segment>, index: nat, turns: seq<Turn>): (r: seq<Segment>)
    requires 0 < index
    ensures Relabels(items, r)
    decreases |items| - index
  {
    if index + 1 >= |items| then items
    else
      var next := if IsSandwiched(items, index, turns)
                  then items[index := items[index].(speaker := items[index - 1].speaker)] else items;
      ReassessFrom(next, index + 1, turns)
  }

  /** A segment changes exactly when it is at most two seconds long and touches its neighbours,
      who share a speaker, its left one possibly just relabelled; when their speaker's turns
      cover it at least 0.15 seconds more than its own, and its own less than a quarter of it. */
  lemma {:induction false} ReassessFavoursTurns(items: seq<Segment>, index: nat, turns: seq<Turn>, i: nat)
    requires 0 < index && i < |items|
    ensures var after := ReassessFrom(items, index, turns);
            && (after[i] != items[i] <==> index <= i && i + 1 < |items| && Sandwiched(after[i - 1], items[i], items[i + 1], turns))
            && (after[i] != items[i] ==> after[i] == items[i].(speaker := items[i + 1].speaker))
    decreases |items| - index
  {
    if index + 1 < |items| {
      var next := if IsSandwiched(items, index, turns)
                  then items[index := items[index].(speaker := items[index - 1].speaker)] else items;
      ReassessFavoursTurns(next, index + 1, turns, i);
      ReassessFavoursTurns(next, index + 1, turns, index - 1);
      ReassessFavoursTurns(next, index + 1, turns, index);
    }
  }

  // ---------------------------------------------------------------- merging

  predicate Mergeable(a: Segment, b: Segment, maxGap: real) {
    && a.speaker == b.speaker
    && a.words != [] && b.words != []
    && a.confidence.High? && b.confidence.High?
    && b.start - a.end <= maxGap
  }

  /** The merged list after one more segment. */
  function MergeOne(merged: seq<Segment>, s: Segment, maxGap: real): seq<Segment> {
    var last := |merged| - 1;
    if merged != [] && Mergeable(merged[last], s, maxGap)
    then merged[..last] + [CombineSegments(merged[last], s, s.speaker)]
    else merged + [s]
  }

  function Merge(segments: seq<Segment>, maxGap: real): seq<Segment> {
    if segments == [] then []
    else MergeOne(Merge(segments[..|segments| - 1], maxGap), segments[|segments| - 1], maxGap)
  }

  lemma MergeOneConserves(merged: seq<Segment>, s: Segment, maxGap: real)
    ensures Conserves(merged + [s], MergeOne(merged, s, maxGap))
  {
    var n := |merged|;
    if n > 0 && Mergeable(merged[n - 1], s, maxGap) {
      JoinConserves(merged + [s], n - 1, s.speaker);
      assert Join(merged + [s], n - 1, s.speaker) == MergeOne(merged, s, maxGap);
    }
  }

  lemma {:induction false} MergeConserves(segments: seq<Segment>, maxGap: real)
    ensures Conserves(segments, Merge(segments, maxGap))
  {
    if segments != [] {
      var n := |segments| - 1;
      var merged := Merge(segments[..n], maxGap);
      MergeConserves(segments[..n], maxGap);
      MergeOneConserves(merged, segments[n], maxGap);
      AllConcat(merged, [segments[n]]);
      Single(segments[n]);
      assert AllWords(Merge(segments, maxGap)) == AllWords(merged) + segments[n].words;
      assert AllText(Merge(segments, maxGap)) == AllText(merged) + segments[n].text;
    }
  }

  /** Consecutive segments combined from left to right. */
  function CombineAll(s: seq<Segment>): Segment
    requires s != []
  {
    if |s| == 1 then s[0] else CombineSegments(CombineAll(s[..|s| - 1]), s[|s| - 1], s[|s| - 1].speaker)
  }

  /** Segment `j` could be merged with all of those from `first` on. */
  ghost predicate Continues(segments: seq<Segment>, first: nat, j: nat, maxGap: real)
    requires first < j < |segments|
  {
    Mergeable(CombineAll(segments[first..j]), segments[j], maxGap)
  }

  /** Result `i` combines the segments between its cuts: each of them could be merged when it was
      reached, and the first one could not. */
  ghost predicate GroupAt(segments: seq<Segment>, merged: seq<Segment>, cuts: seq<nat>, i: nat, maxGap: real)
    requires i < |merged| && |cuts| == |merged| + 1
  {
    && cuts[i] < cuts[i + 1] <= |segments|
    && merged[i] == CombineAll(segments[cuts[i]..cuts[i + 1]])
    && (i > 0 ==> !Mergeable(merged[i - 1], segments[cuts[i]], maxGap))
    && forall j: nat {:trigger Continues(segments, cuts[i], j, maxGap)} | cuts[i] < j < cuts[i + 1] ::
         Continues(segments, cuts[i], j, maxGap)
  }

  ghost predicate Grouped(segments: seq<Segment>, n: nat, merged: seq<Segment>, cuts: seq<nat>, maxGap: real) {
    && |cuts| == |merged| + 1 && cuts[0] == 0 && cuts[|merged|] == n
    && forall i {:trigger GroupAt(segments, merged, cuts, i, maxGap)} | 0 <= i < |merged| :: GroupAt(segments, merged, cuts, i, maxGap)
  }

  /** Whatever the order of the starts, merging cuts the list exactly where a segment cannot be
      merged with all before it since the last cut. */
  lemma {:induction false} MergeGroups(segments: seq<Segment>, n: nat, maxGap: real) returns (cuts: seq<nat>)
    requires n <= |segments|
    ensures Grouped(segments, n, Merge(segments[..n], maxGap), cuts, maxGap)
  {
    if n == 0 {
      cuts := [0];
    } else {
      assert segments[..n][..n - 1] == segments[..n - 1];
      var before := MergeGroups(segments, n - 1, maxGap);
      cuts := GroupOneMore(segments, n - 1, Merge(segments[..n - 1], maxGap), before, maxGap);
    }
  }

  lemma GroupOneMore(segments: seq<Segment>, n: nat, merged: seq<Segment>, before: seq<nat>, maxGap: real) returns (cuts: seq<nat>)
    requires n < |segments| && Grouped(segments, n, merged, before, maxGap)
    ensures Grouped(segments, n + 1, MergeOne(merged, segments[n], maxGap), cuts, maxGap)
  {
    if merged != [] && Mergeable(merged[|merged| - 1], segments[n], maxGap) {
      cuts := before[..|merged|] + [n + 1];
      LongerGroup(segments, n, merged, before, cuts, maxGap);
    } else {
      cuts := before + [n + 1];
      NewGroup(segments, n, merged, before, cuts, maxGap);
    }
  }

  lemma LongerGroup(segments: seq<Segment>, n: nat, merged: seq<Segment>, before: seq<nat>, cuts: seq<nat>, maxGap: real)
    requires n < |segments| && merged != [] && Grouped(segments, n, merged, before, maxGap)
    requires Mergeable(merged[|merged| - 1], segments[n], maxGap) && cuts == before[..|merged|] + [n + 1]
    ensures Grouped(segments, n + 1, MergeOne(merged, segments[n], maxGap), cuts, maxGap)
  {
    var last := |merged| - 1;
    var after := merged[..last] + [CombineSegments(merged[last], segments[n], segments[n].speaker)];
    forall i: nat | i < |after| ensures GroupAt(segments, after, cuts, i, maxGap) {
      assert GroupAt(segments, merged, before, i, maxGap);
      if i == last { LastGroup(segments, n, merged, before, after, cuts, maxGap); }
    }
  }

  lemma {:induction false} LastGroup(segments: seq<Segment>, n: nat, merged: seq<Segment>, before: seq<nat>,
                                     after: seq<Segment>, cuts: seq<nat>, maxGap: real)
    requires n < |segments| && merged != [] && |before| == |merged| + 1 && before[|merged|] == n
    requires GroupAt(segments, merged, before, |merged| - 1, maxGap) && Mergeable(merged[|merged| - 1], segments[n], maxGap)
    requires cuts == before[..|merged|] + [n + 1]
    requires after == merged[..|merged| - 1] + [CombineSegments(merged[|merged| - 1], segments[n], segments[n].speaker)]
    ensures GroupAt(segments, after, cuts, |merged| - 1, maxGap)
  {
    var last := |merged| - 1;
    OneMoreCombined(segments, before[last], n);
    forall j: nat | cuts[last] < j < cuts[last + 1] ensures Continues(segments, cuts[last], j, maxGap) {
      if j < n { assert Continues(segments, before[last], j, maxGap); }
    }
  }

  lemma {:induction false} OneMoreCombined(segments: seq<Segment>, first: nat, n: nat)
    requires first < n < |segments|
    ensures CombineAll(segments[first..n + 1]) == CombineSegments(CombineAll(segments[first..n]), segments[n], segments[n].speaker)
  {
    var group := segments[first..n + 1];
    assert group[..|group| - 1] == segments[first..n] && group[|group| - 1] == segments[n];
  }

  lemma NewGroup(segments: seq<Segment>, n: nat, merged: seq<Segment>, before: seq<nat>, cuts: seq<nat>, maxGap: real)
    requires n < |segments| && Grouped(segments, n, merged, before, maxGap) && cuts == before + [n + 1]
    requires merged != [] ==> !Mergeable(merged[|merged| - 1], segments[n], maxGap)
    ensures Grouped(segments, n + 1, MergeOne(merged, segments[n], maxGap), cuts, maxGap)
  {
    var after := merged + [segments[n]];
    forall i: nat | i < |after| ensures GroupAt(segments, after, cuts, i, maxGap) {
      if i < |merged| {
        assert GroupAt(segments, merged, before, i, maxGap);
      } else {
        assert segments[n..n + 1] == [segments[n]];
      }
    }
  }

  ghost predicate Unmergeable(merged: seq<Segment>, maxGap: real) {
    forall i | 0 < i < |merged| :: !Mergeable(merged[i - 1], merged[i], maxGap)
  }

  /** With starts in order, no two adjacent results could still be merged. */
  lemma {:induction false} MergeIsComplete(segments: seq<Segment>, maxGap: real)
    requires forall i, j | 0 <= i < j < |segments| :: segments[i].start <= segments[j].start
    ensures Unmergeable(Merge(segments, maxGap), maxGap)
    ensures forall m | m in Merge(segments, maxGap) :: segments != [] && m.start <= segments[|segments| - 1].start
  {
    if segments != [] {
      var n := |segments| - 1;
      var merged := Merge(segments[..n], maxGap);
      MergeIsComplete(segments[..n], maxGap);
      assert n > 0 ==> segments[n - 1].start <= segments[n].start;
      MergeOneStays(merged, segments[n], maxGap);
    }
  }

  lemma MergeSnoc(segments: seq<Segment>, s: Segment, maxGap: real)
    ensures Merge(segments + [s], maxGap) == MergeOne(Merge(segments, maxGap), s, maxGap)
  {
    assert (segments + [s])[..|segments|] == segments;
  }

  /** Out of order a later segment can reach back over a gap: two results could still be merged. */
  lemma UnorderedStaysMergeable(word: Word) returns (segments: seq<Segment>)
    ensures |Merge(segments, 1.0)| == 2 && !Unmergeable(Merge(segments, 1.0), 1.0)
  {
    var a := Segment(0.0, 1.0, "", [word], None, High);
    var b, c := Segment(5.0, 6.0, "", [word], None, High), Segment(1.5, 6.0, "", [word], None, High);
    segments := [] + [a] + [b] + [c];
    MergeSnoc([], a, 1.0);
    MergeSnoc([] + [a], b, 1.0);
    MergeSnoc([] + [a] + [b], c, 1.0);
    assert Merge([] + [a] + [b], 1.0) == [a, b];
    MergesBack(a, b, c);
  }

  lemma MergesBack(a: Segment, b: Segment, c: Segment)
    requires Mergeable(b, c, 1.0) && a.words != [] && a.confidence.High? && a.speaker == c.speaker && c.start - a.end <= 1.0
    ensures |MergeOne([a, b], c, 1.0)| == 2 && !Unmergeable(MergeOne([a, b], c, 1.0), 1.0)
  {
    var m := MergeOne([a, b], c, 1.0);
    assert m == [a, CombineSegments(b, c, c.speaker)];
    assert Mergeable(m[0], m[1], 1.0);
  }

  lemma MergeOneStays(merged: seq<Segment>, s: Segment, maxGap: real)
    requires Unmergeable(merged, maxGap) && forall m | m in merged :: m.start <= s.start
    ensures Unmergeable(MergeOne(merged, s, maxGap), maxGap)
    ensures forall m | m in MergeOne(merged, s, maxGap) :: m.start <= s.start
  {
    var last := |merged| - 1;
    var after := MergeOne(merged, s, maxGap);
    if merged != [] {
      assert merged[last] in merged;
      assert forall i | 0 <= i < last :: after[i] == merged[i];
      if Mergeable(merged[last], s, maxGap) {
        assert after[last] == CombineSegments(merged[last], s, s.speaker);
        assert last > 0 ==> after[last - 1] == merged[last - 1] && !Mergeable(merged[last - 1], merged[last], maxGap);
      }
    }
  }

  // ---------------------------------------------------------------- renumbering

  function Digit(n: nat): char
    requires n < 10
  {
    "0123456789"[n]
  }

  function Decimal(n: nat): (r: string)
    ensures r != ""
  {
    if n < 10 then [Digit(n)] else Decimal(n / 10) + [Digit(n % 10)]
  }

  /** f"SPEAKER_{n:02d}". */
  function SpeakerName(n: nat): Label {
    "SPEAKER_" + if n < 10 then "0" + Decimal(n) else Decimal(n)
  }

  function Number(digits: string): nat {
    if digits == "" then 0
    else 10 * Number(digits[..|digits| - 1])
         + if '0' <= digits[|digits| - 1] <= '9' then digits[|digits| - 1] as int - '0' as int else 0
  }

  lemma NumberOfDecimal(n: nat)
    ensures Number(Decimal(n)) == n
  {
    if n >= 10 {
      NumberOfDecimal(n / 10);
      assert Decimal(n)[..|Decimal(n)| - 1] == Decimal(n / 10);
    } else {
      assert [Digit(n)][..0] == "";
    }
  }

  /** Different numbers have different names, and none is UNKNOWN. */
  lemma SpeakerNamesDiffer(m: nat, n: nat)
    ensures SpeakerName(m) == SpeakerName(n) ==> m == n
    ensures SpeakerName(n) != UNKNOWN
  {
    NumberOfName(m);
    NumberOfName(n);
    assert SpeakerName(n)[0] == 'S' && UNKNOWN[0] == 'U';
  }

  lemma NumberOfName(n: nat)
    ensures Number(SpeakerName(n)[8..]) == n
  {
    NumberOfDecimal(n);
    if n < 10 {
      assert SpeakerName(n)[8..] == "0" + Decimal(n);
      assert ("0" + Decimal(n))[..1] == "0" && "0"[..0] == "";
      assert Number("0") == 0;
    } else {
      assert SpeakerName(n)[8..] == Decimal(n);
    }
  }

  /** Known labels in order of first appearance. */
  function Appearance(items: seq<Segment>): (r: seq<Label>)
    ensures forall l :: l in r <==> l != UNKNOWN && exists s :: s in items && s.speaker == Some(l)
    ensures forall i, j | 0 <= i < j < |r| :: r[i] != r[j]
  {
    if items == [] then []
    else
      var n := |items| - 1;
      var rest := Appearance(items[..n]);
      assert items == items[..n] + [items[n]];
      if Known(items[n].speaker) && items[n].speaker.value !in rest then rest + [items[n].speaker.value] else rest
  }

  function IndexIn(l: Label, labels: seq<Label>): (r: nat)
    requires l in labels
    ensures r < |labels| && labels[r] == l
  {
    if labels[0] == l then 0 else 1 + IndexIn(l, labels[1..])
  }

  /** Known speakers take the name of their rank of first appearance, others stay. */
  ghost predicate Renumbered(before: seq<Segment>, after: seq<Segment>) {
    && |after| == |before|
    && forall i | 0 <= i < |before| ::
         after[i] == if Known(before[i].speaker)
                     then before[i].(speaker := Some(SpeakerName(Rank(before, before[i].speaker.value))))
                     else before[i]
  }

  ghost function Rank(items: seq<Segment>, l: Label): nat {
    var labels := Appearance(items);
    if l in labels then IndexIn(l, labels) else 0
  }

  /** Renumbering renames speakers one to one: who speaks with whom is unchanged. */
  lemma RenumberingIsInjective(before: seq<Segment>, after: seq<Segment>, i: nat, j: nat)
    requires Renumbered(before, after) && i < |before| && j < |before|
    ensures Relabels(before, after)
    ensures after[i].speaker == after[j].speaker
       <==> before[i].speaker == before[j].speaker
    ensures Known(after[i].speaker) <==> Known(before[i].speaker)
  {
    var labels := Appearance(before);
    var si, sj := before[i].speaker, before[j].speaker;
    if Known(si) {
      assert si.value in labels;
      SpeakerNamesDiffer(Rank(before, si.value), Rank(before, si.value));
    }
    if Known(sj) {
      assert sj.value in labels;
      SpeakerNamesDiffer(Rank(before, sj.value), Rank(before, sj.value));
    }
    if Known(si) && Known(sj) {
      SpeakerNamesDiffer(Rank(before, si.value), Rank(before, sj.value));
    }
  }
}
