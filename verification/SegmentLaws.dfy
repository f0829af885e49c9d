/** What the passes over the segments promise, in terms of the speakers, bounds, words and texts
    of the segments alone (`src/utteran/align.py`). */
module SegmentLaws {
  import opened Basics
  import opened AlignTypes
  import opened SegmentPasses
  import Alignment

  // ---------------------------------------------------------------- speakers word by word

  ghost function Copies<T>(n: nat, x: T): seq<T> {
    if n == 0 then [] else Copies(n - 1, x) + [x]
  }

  lemma {:induction false} CopiesAre<T>(n: nat, x: T)
    ensures |Copies(n, x)| == n && forall k | 0 <= k < n :: Copies(n, x)[k] == x
  {
    if n > 0 { CopiesAre(n - 1, x); }
  }

  lemma {:induction false} CopiesAdd<T>(m: nat, n: nat, x: T)
    ensures Copies(m, x) + Copies(n, x) == Copies(m + n, x)
  {
    CopiesAre(m, x);
    CopiesAre(n, x);
    CopiesAre(m + n, x);
  }

  /** The speaker of every word, segment by segment. */
  ghost function WordSpeakers(items: seq<Segment>): seq<Option<Label>> {
    if items == [] then []
    else
      var s := items[|items| - 1];
      WordSpeakers(items[..|items| - 1]) + Copies(|s.words|, s.speaker)
  }

  /** Merging leaves every word with its speaker. */
  lemma {:induction false} MergeKeepsSpeakers(segments: seq<Segment>, maxGap: real)
    ensures WordSpeakers(Merge(segments, maxGap)) == WordSpeakers(segments)
  {
    if segments != [] {
      var n := |segments| - 1;
      MergeKeepsSpeakers(segments[..n], maxGap);
      OneMoreKeepsSpeakers(Merge(segments[..n], maxGap), segments[n], maxGap);
    }
  }

  lemma OneMoreKeepsSpeakers(merged: seq<Segment>, s: Segment, maxGap: real)
    ensures WordSpeakers(MergeOne(merged, s, maxGap)) == WordSpeakers(merged) + Copies(|s.words|, s.speaker)
  {
    var last := |merged| - 1;
    var after := MergeOne(merged, s, maxGap);
    if merged != [] && Mergeable(merged[last], s, maxGap) {
      CopiesAdd(|merged[last].words|, |s.words|, s.speaker);
      assert after[..last] == merged[..last];
      assert after[last].words == merged[last].words + s.words;
    } else {
      assert after[..|merged|] == merged;
    }
  }

  // ---------------------------------------------------------------- combined segments

  /** The segment has all words and all text of the group in order, the least bounds around it,
      and is doubtful exactly when one of the group is. */
  ghost predicate Combines(m: Segment, group: seq<Segment>) {
    && group != []
    && m.words == AllWords(group) && m.text == AllText(group)
    && (forall g | g in group :: m.start <= g.start && g.end <= m.end)
    && (exists g :: g in group && g.start == m.start)
    && (exists g :: g in group && g.end == m.end)
    && (m.confidence.Low? <==> exists g :: g in group && g.confidence.Low?)
  }

  lemma {:induction false} CombinesOne(s: Segment)
    ensures Combines(s, [s])
  {
    Single(s);
    assert s in [s];
  }

  lemma {:induction false} CombinesBoth(a: Segment, b: Segment, speaker: Option<Label>, g: seq<Segment>, h: seq<Segment>)
    requires Combines(a, g) && Combines(b, h)
    ensures Combines(CombineSegments(a, b, speaker), g + h)
  {
    AllConcat(g, h);
    var c, both := CombineSegments(a, b, speaker), g + h;
    assert exists s :: s in both && s.start == c.start by {
      var s :| s in g && s.start == a.start;
      var t :| t in h && t.start == b.start;
      assert s in both && t in both;
    }
    assert exists s :: s in both && s.end == c.end by {
      var s :| s in g && s.end == a.end;
      var t :| t in h && t.end == b.end;
      assert s in both && t in both;
    }
    assert c.confidence.Low? <==> exists s :: s in both && s.confidence.Low? by {
      if s :| s in g && s.confidence.Low? { assert s in both; }
      if t :| t in h && t.confidence.Low? { assert t in both; }
    }
  }

  // ---------------------------------------------------------------- merged groups

  /** Within a group of more than one, all share the result's speaker, have words and are
      certain, and each starts at most `maxGap` after the end of one before it. */
  ghost predicate MergedFrom(m: Segment, group: seq<Segment>, maxGap: real) {
    && Combines(m, group)
    && (forall g | g in group :: g.speaker == m.speaker)
    && (|group| > 1 ==> forall g | g in group :: g.words != [] && g.confidence.High?)
    && forall j {:trigger Reaches(group, j, maxGap)} | 0 < j < |group| :: Reaches(group, j, maxGap)
  }

  ghost predicate Reaches(group: seq<Segment>, j: nat, maxGap: real)
    requires j < |group|
  {
    exists i :: 0 <= i < j && group[j].start - group[i].end <= maxGap
  }

  /** A segment that does not continue the group: another speaker, no words or doubt on either
      side, or a start later than `maxGap` after every end of the group. */
  ghost predicate Apart(group: seq<Segment>, s: Segment, maxGap: real)
    requires group != []
  {
    || group[0].speaker != s.speaker
    || group[0].words == [] || s.words == []
    || group[0].confidence.Low? || s.confidence.Low?
    || forall g | g in group :: s.start - g.end > maxGap
  }

  /** Merging cuts the list into groups of one speaker, exactly where a segment stands apart from
      the group before it. */
  lemma {:induction false} MergeCutsWhereApart(segments: seq<Segment>, maxGap: real) returns (cuts: seq<nat>)
    ensures CutApart(segments, Merge(segments, maxGap), cuts, maxGap)
  {
    cuts := MergeGroups(segments, |segments|, maxGap);
    assert segments[..|segments|] == segments;
    var merged := Merge(segments, maxGap);
    forall i: nat | i < |merged| ensures CutAt(segments, merged, cuts, i, maxGap) {
      GroupByFields(segments, merged, cuts, i, maxGap);
    }
  }

  ghost predicate CutApart(segments: seq<Segment>, merged: seq<Segment>, cuts: seq<nat>, maxGap: real) {
    && |cuts| == |merged| + 1 && cuts[0] == 0 && cuts[|merged|] == |segments|
    && forall i: nat {:trigger CutAt(segments, merged, cuts, i, maxGap)} | i < |merged| ::
         CutAt(segments, merged, cuts, i, maxGap)
  }

  ghost predicate CutAt(segments: seq<Segment>, merged: seq<Segment>, cuts: seq<nat>, i: nat, maxGap: real)
    requires i < |merged| && |cuts| == |merged| + 1
  {
    && cuts[i] < cuts[i + 1] <= |segments|
    && MergedFrom(merged[i], segments[cuts[i]..cuts[i + 1]], maxGap)
    && (i > 0 ==> cuts[i - 1] < cuts[i] && Apart(segments[cuts[i - 1]..cuts[i]], segments[cuts[i]], maxGap))
  }

  lemma GroupByFields(segments: seq<Segment>, merged: seq<Segment>, cuts: seq<nat>, i: nat, maxGap: real)
    requires Grouped(segments, |segments|, merged, cuts, maxGap) && i < |merged|
    ensures CutAt(segments, merged, cuts, i, maxGap)
  {
    assert GroupAt(segments, merged, cuts, i, maxGap);
    CutGroup(segments, cuts[i], cuts[i + 1], maxGap);
    if i > 0 {
      assert GroupAt(segments, merged, cuts, i - 1, maxGap);
      CutGroup(segments, cuts[i - 1], cuts[i], maxGap);
      StandsApart(merged[i - 1], segments[cuts[i - 1]..cuts[i]], segments[cuts[i]], maxGap);
    }
  }

  ghost predicate IsGroup(group: seq<Segment>, maxGap: real) {
    group != [] && forall j: nat {:trigger Continues(group, 0, j, maxGap)} | 0 < j < |group| :: Continues(group, 0, j, maxGap)
  }

  lemma CutGroup(segments: seq<Segment>, a: nat, b: nat, maxGap: real)
    requires a < b <= |segments|
    requires forall j: nat {:trigger Continues(segments, a, j, maxGap)} | a < j < b :: Continues(segments, a, j, maxGap)
    ensures MergedFrom(CombineAll(segments[a..b]), segments[a..b], maxGap)
  {
    var group := segments[a..b];
    forall j: nat | 0 < j < |group| ensures Continues(group, 0, j, maxGap) {
      assert group[0..j] == segments[a..a + j];
      assert Continues(segments, a, a + j, maxGap);
    }
    CombinedGroup(group, maxGap);
  }

  lemma HeadIsGroup(group: seq<Segment>, maxGap: real)
    requires IsGroup(group, maxGap) && |group| > 1
    ensures IsGroup(group[..|group| - 1], maxGap)
  {
    var head := group[..|group| - 1];
    forall j: nat | 0 < j < |head| ensures Continues(head, 0, j, maxGap) {
      assert Continues(group, 0, j, maxGap) && head[0..j] == group[0..j];
    }
  }

  lemma LastContinues(group: seq<Segment>, maxGap: real) returns (m: Segment, head: seq<Segment>, s: Segment)
    requires IsGroup(group, maxGap) && |group| > 1
    ensures head == group[..|group| - 1] && IsGroup(head, maxGap) && m == CombineAll(head) && Mergeable(m, s, maxGap)
    ensures group == head + [s] && CombineAll(group) == CombineSegments(m, s, s.speaker)
  {
    var n := |group| - 1;
    HeadIsGroup(group, maxGap);
    head, s := group[..n], group[n];
    m := CombineAll(head);
    assert Continues(group, 0, n, maxGap) && group[0..n] == head;
  }

  lemma GroupOfOne(s: Segment, maxGap: real)
    ensures MergedFrom(CombineAll([s]), [s], maxGap)
  {
    CombinesOne(s);
  }

  lemma {:induction false} CombinedGroup(group: seq<Segment>, maxGap: real)
    requires IsGroup(group, maxGap)
    ensures MergedFrom(CombineAll(group), group, maxGap)
  {
    if |group| == 1 {
      assert group == [group[0]];
      GroupOfOne(group[0], maxGap);
    } else {
      var m, head, s := LastContinues(group, maxGap);
      CombinedGroup(head, maxGap);
      GroupGrows(m, head, s, maxGap);
    }
  }

  lemma {:induction false} GroupGrows(m: Segment, group: seq<Segment>, s: Segment, maxGap: real)
    requires MergedFrom(m, group, maxGap) && Mergeable(m, s, maxGap)
    ensures MergedFrom(CombineSegments(m, s, s.speaker), group + [s], maxGap)
  {
    CombinesOne(s);
    CombinesBoth(m, s, s.speaker, group, [s]);
    GroupMembers(m, group, s, maxGap);
    forall j: nat | 0 < j < |group + [s]| ensures Reaches(group + [s], j, maxGap) {
      GroupReaches(m, group, s, maxGap, j);
    }
  }

  lemma {:induction false} GroupMembers(m: Segment, group: seq<Segment>, s: Segment, maxGap: real)
    requires MergedFrom(m, group, maxGap) && Mergeable(m, s, maxGap)
    ensures forall g | g in group + [s] :: g.speaker == s.speaker && g.words != [] && g.confidence.High?
  {
    if |group| == 1 {
      assert group == [group[0]];
      Single(group[0]);
      assert group[0] in group;
    }
  }

  lemma {:induction false} GroupReaches(m: Segment, group: seq<Segment>, s: Segment, maxGap: real, j: nat)
    requires MergedFrom(m, group, maxGap) && Mergeable(m, s, maxGap) && 0 < j <= |group|
    ensures Reaches(group + [s], j, maxGap)
  {
    var more := group + [s];
    if j < |group| {
      assert Reaches(group, j, maxGap);
      var k :| 0 <= k < j && group[j].start - group[k].end <= maxGap;
      assert more[j].start - more[k].end <= maxGap;
    } else {
      var last :| last in group && last.end == m.end;
      var i :| 0 <= i < |group| && group[i] == last;
      assert more[j].start - more[i].end <= maxGap;
    }
  }

  lemma StandsApart(m: Segment, group: seq<Segment>, s: Segment, maxGap: real)
    requires MergedFrom(m, group, maxGap) && !Mergeable(m, s, maxGap)
    ensures Apart(group, s, maxGap)
  {
    assert group[0] in group;
    if |group| == 1 { Single(group[0]); assert group == [group[0]]; }
    if m.words == [] && |group| > 1 {
      WordsOfFirst(group);
    }
  }

  lemma {:induction false} WordsOfFirst(group: seq<Segment>)
    requires group != [] && AllWords(group) == []
    ensures group[0].words == []
  {
    if |group| > 1 { WordsOfFirst(group[..|group| - 1]); } else { Single(group[0]); assert group == [group[0]]; }
  }

  // ---------------------------------------------------------------- trimmed text

  /** All outside `i..j` is white space, and what is inside neither starts nor ends with it. */
  ghost predicate Trims(text: string, i: nat, j: nat) {
    && i <= j <= |text|
    && (forall k | 0 <= k < |text| && !(i <= k < j) :: IsSpace(text[k]))
    && (i < j ==> !IsSpace(text[i]) && !IsSpace(text[j - 1]))
  }

  lemma {:induction false} StripTrims(text: string) returns (i: nat, j: nat)
    ensures Trims(text, i, j) && Strip(text) == text[i..j]
    decreases |text|
  {
    i, j := 0, |text|;
    if text != "" && IsSpace(text[0]) {
      var m, n := StripTrims(text[1..]);
      i, j := m + 1, n + 1;
      TrimsAfterSpace(text, m, n);
    } else if text != "" && IsSpace(text[|text| - 1]) {
      i, j := StripTrims(text[..|text| - 1]);
      TrimsBeforeSpace(text, i, j);
    }
  }

  lemma TrimsAfterSpace(text: string, m: nat, n: nat)
    requires text != "" && IsSpace(text[0]) && Trims(text[1..], m, n)
    ensures Trims(text, m + 1, n + 1) && text[1..][m..n] == text[m + 1..n + 1]
  {
    forall k | 0 <= k < |text| && !(m + 1 <= k < n + 1) ensures IsSpace(text[k]) {
      if k > 0 { assert text[1..][k - 1] == text[k]; }
    }
  }

  lemma TrimsBeforeSpace(text: string, i: nat, j: nat)
    requires text != "" && IsSpace(text[|text| - 1]) && Trims(text[..|text| - 1], i, j)
    ensures Trims(text, i, j) && text[..|text| - 1][i..j] == text[i..j]
  {
    forall k | 0 <= k < |text| && !(i <= k < j) ensures IsSpace(text[k]) {
      if k < |text| - 1 { assert text[..|text| - 1][k] == text[k]; }
    }
  }

  /** Text that is put before or after a text never shortens what trimming leaves. */
  lemma StripGrows(a: string, b: string)
    ensures |Strip(a)| <= |Strip(a + b)| && |Strip(b)| <= |Strip(a + b)|
  {
    var i, j := StripTrims(a);
    var k, l := StripTrims(b);
    var m, n := StripTrims(a + b);
    if i < j { assert (a + b)[i] == a[i] && (a + b)[j - 1] == a[j - 1]; }
    if k < l { assert (a + b)[|a| + k] == b[k] && (a + b)[|a| + l - 1] == b[l - 1]; }
  }

  // ---------------------------------------------------------------- short UNKNOWN islands

  ghost predicate Attributed(s: Segment) {
    s.speaker.Some? && s.speaker.value != "UNKNOWN"
  }

  /** Nothing but the speaker changes, and only of an UNKNOWN segment that is shorter than the
      least duration or has fewer characters than the least number, and that has an attributed
      segment on one side: it takes the speaker of the longer one, of the left one on a tie. */
  ghost predicate IslandJoined(items: seq<Segment>, after: seq<Segment>, options: AlignmentOptions, i: nat)
    requires i < |items| == |after|
  {
    var s := items[i];
    var short := || (0.0 < options.minUnknownDuration && s.end - s.start < options.minUnknownDuration)
                 || |Strip(s.text)| < options.minUnknownCharacters;
    var left, right := i > 0 && Attributed(after[i - 1]), i + 1 < |items| && Attributed(items[i + 1]);
    after[i] ==
      if s.speaker != Some("UNKNOWN") || !short || (!left && !right) then s
      else if left && (!right || after[i - 1].end - after[i - 1].start >= items[i + 1].end - items[i + 1].start)
      then s.(speaker := after[i - 1].speaker)
      else s.(speaker := items[i + 1].speaker)
  }

  lemma {:induction false} IslandsJoinTheLongerSide(items: seq<Segment>, index: nat, options: AlignmentOptions, i: nat)
    requires index <= i < |items|
    ensures IslandJoined(items, RelabelUnknownFrom(items, index, options), options, i)
    decreases |items| - index
  {
    var next := RelabelUnknownAt(items, index, options);
    UnknownIslands(next, index + 1, options);
    if i > index {
      IslandsJoinTheLongerSide(next, index + 1, options, i);
    } else {
      IslandNeighbours(items, index, options);
    }
  }

  lemma IslandNeighbours(items: seq<Segment>, i: nat, options: AlignmentOptions)
    requires i < |items|
    ensures var left, right := i > 0 && Attributed(items[i - 1]), i + 1 < |items| && Attributed(items[i + 1]);
            ChooseNeighbour(items, i)
            == if !left && !right then None
               else if left && (!right || items[i - 1].end - items[i - 1].start >= items[i + 1].end - items[i + 1].start)
               then Some(i - 1) else Some(i + 1)
  {
    assert i > 0 ==> (IsNeighbour(items, i, i - 1) <==> Attributed(items[i - 1]));
    assert i + 1 < |items| ==> (IsNeighbour(items, i, i + 1) <==> Attributed(items[i + 1]));
  }

  // ---------------------------------------------------------------- absorbed fragments

  /** Attributed, but short in time and in characters and hardly supported by its speaker's turns. */
  ghost predicate Expendable(s: Segment, turns: seq<Turn>, options: AlignmentOptions) {
    && Attributed(s)
    && 0.0 < options.maxUnsupportedFragmentDuration && s.end - s.start < options.maxUnsupportedFragmentDuration
    && |Strip(s.text)| <= options.maxUnsupportedFragmentCharacters
    && SpeakerSupport(s.start, s.end, turns, s.speaker.value) < options.minFragmentSpeakerOverlap
  }

  /** After absorption an expendable segment has no attributed segment beside it. */
  lemma NothingLeftToAbsorb(items: seq<Segment>, turns: seq<Turn>, options: AlignmentOptions, i: nat)
    requires i < |AbsorbFrom(items, 0, turns, options)|
    ensures var after := AbsorbFrom(items, 0, turns, options);
            Expendable(after[i], turns, options) ==>
              (i > 0 ==> !Attributed(after[i - 1])) && (i + 1 < |after| ==> !Attributed(after[i + 1]))
  {
    AbsorbReachesFixpoint(items, 0, turns, options);
    var after := AbsorbFrom(items, 0, turns, options);
    assert Stable(after, i, turns, options);
    if i > 0 { assert Attributed(after[i - 1]) ==> IsNeighbour(after, i, i - 1); }
    if i + 1 < |after| { assert Attributed(after[i + 1]) ==> IsNeighbour(after, i, i + 1); }
  }

  lemma {:induction false} SupportGrows(start: real, end: real, wideStart: real, wideEnd: real, turns: seq<Turn>, speaker: Label)
    requires wideStart <= start && end <= wideEnd
    ensures SpeakerSupport(start, end, turns, speaker) <= SpeakerSupport(wideStart, wideEnd, turns, speaker)
  {
    if turns != [] {
      SupportGrows(start, end, wideStart, wideEnd, turns[..|turns| - 1], speaker);
    }
  }

  /** A segment that is not expendable stays so under its speaker when another one joins it. */
  lemma JoinedStaysSupported(a: Segment, b: Segment, speaker: Option<Label>, turns: seq<Turn>, options: AlignmentOptions)
    requires || (speaker == a.speaker && !Expendable(a, turns, options))
             || (speaker == b.speaker && !Expendable(b, turns, options))
    ensures !Expendable(CombineSegments(a, b, speaker), turns, options)
  {
    var c := CombineSegments(a, b, speaker);
    StripGrows(a.text, b.text);
    if speaker.Some? {
      SupportGrows(a.start, a.end, c.start, c.end, turns, speaker.value);
      SupportGrows(b.start, b.end, c.start, c.end, turns, speaker.value);
    }
  }

  /** For every word the speaker of its segment, unless that is expendable. */
  ghost function Marks(items: seq<Segment>, turns: seq<Turn>, options: AlignmentOptions): seq<Option<Option<Label>>> {
    if items == [] then []
    else Marks(items[..|items| - 1], turns, options) + MarksOf(items[|items| - 1], turns, options)
  }

  ghost function MarksOf(s: Segment, turns: seq<Turn>, options: AlignmentOptions): seq<Option<Option<Label>>> {
    Copies(|s.words|, if Expendable(s, turns, options) then None else Some(s.speaker))
  }

  lemma {:induction false} MarksConcat(a: seq<Segment>, b: seq<Segment>, turns: seq<Turn>, options: AlignmentOptions)
    ensures Marks(a + b, turns, options) == Marks(a, turns, options) + Marks(b, turns, options)
  {
    if b == [] {
      assert a + b == a;
    } else {
      var last := |b| - 1;
      MarksConcat(a, b[..last], turns, options);
      assert (a + b)[..|a + b| - 1] == a + b[..last] && (a + b)[|a + b| - 1] == b[last];
      Assoc(Marks(a, turns, options), Marks(b[..last], turns, options), MarksOf(b[last], turns, options));
    }
  }

  lemma MarksOne(s: Segment, turns: seq<Turn>, options: AlignmentOptions)
    ensures Marks([s], turns, options) == MarksOf(s, turns, options)
  {
    assert [s][..0] == [];
    assert Marks([], turns, options) == [];
  }

  /** No mark is lost or changed. */
  ghost predicate KeepsMarks<T(!new)>(before: seq<Option<T>>, after: seq<Option<T>>) {
    |before| == |after| && forall p | 0 <= p < |before| && before[p].Some? :: after[p] == before[p]
  }

  lemma KeepsMarksWithin<T(!new)>(head: seq<Option<T>>, before: seq<Option<T>>, after: seq<Option<T>>, tail: seq<Option<T>>)
    requires KeepsMarks(before, after)
    ensures KeepsMarks(head + before + tail, head + after + tail)
  {}

  lemma CombineKeepsMarks(a: Segment, b: Segment, speaker: Option<Label>, turns: seq<Turn>, options: AlignmentOptions)
    requires || (Expendable(a, turns, options) && speaker == b.speaker)
             || (Expendable(b, turns, options) && speaker == a.speaker)
    ensures KeepsMarks(MarksOf(a, turns, options) + MarksOf(b, turns, options),
                       MarksOf(CombineSegments(a, b, speaker), turns, options))
  {
    var c := CombineSegments(a, b, speaker);
    if !Expendable(a, turns, options) || !Expendable(b, turns, options) {
      JoinedStaysSupported(a, b, speaker, turns, options);
    }
    CopiesAre(|a.words|, if Expendable(a, turns, options) then None else Some(a.speaker));
    CopiesAre(|b.words|, if Expendable(b, turns, options) then None else Some(b.speaker));
    CopiesAre(|c.words|, if Expendable(c, turns, options) then None else Some(c.speaker));
  }

  lemma JoinKeepsMarks(items: seq<Segment>, at: nat, speaker: Option<Label>, turns: seq<Turn>, options: AlignmentOptions)
    requires at + 1 < |items|
    requires || (Expendable(items[at], turns, options) && speaker == items[at + 1].speaker)
             || (Expendable(items[at + 1], turns, options) && speaker == items[at].speaker)
    ensures KeepsMarks(Marks(items, turns, options), Marks(Join(items, at, speaker), turns, options))
  {
    var a, b := items[at], items[at + 1];
    var c := CombineSegments(a, b, speaker);
    var head, tail := items[..at], items[at + 2..];
    assert items == head + ([a] + [b]) + tail && Join(items, at, speaker) == head + [c] + tail;
    MarksConcat(head + ([a] + [b]), tail, turns, options);
    MarksConcat(head, [a] + [b], turns, options);
    MarksConcat([a], [b], turns, options);
    MarksConcat(head + [c], tail, turns, options);
    MarksConcat(head, [c], turns, options);
    MarksOne(a, turns, options);
    MarksOne(b, turns, options);
    MarksOne(c, turns, options);
    CombineKeepsMarks(a, b, speaker, turns, options);
    KeepsMarksWithin(Marks(head, turns, options), Marks([a] + [b], turns, options), Marks([c], turns, options),
                     Marks(tail, turns, options));
  }

  lemma {:induction false} AbsorbKeepsMarks(items: seq<Segment>, index: nat, turns: seq<Turn>, options: AlignmentOptions)
    ensures KeepsMarks(Marks(items, turns, options), Marks(AbsorbFrom(items, index, turns, options), turns, options))
    decreases |items|, |items| - index
  {
    if index < |items| {
      var chosen := ChooseNeighbour(items, index);
      if chosen.None? || !IsFragment(items[index], turns, options) {
        AbsorbKeepsMarks(items, index + 1, turns, options);
      } else {
        var j := chosen.value;
        var at := if j < index then j else index;
        var joined := Join(items, at, items[j].speaker);
        JoinKeepsMarks(items, at, items[j].speaker, turns, options);
        AbsorbKeepsMarks(joined, at, turns, options);
      }
    }
  }

  /** Absorption only ever takes words from expendable segments: every word of another segment
      keeps its speaker. */
  lemma SupportedWordsKeepTheirSpeaker(items: seq<Segment>, turns: seq<Turn>, options: AlignmentOptions)
    ensures var marks, speakers := Marks(items, turns, options), WordSpeakers(AbsorbFrom(items, 0, turns, options));
            && |marks| == |speakers|
            && forall p | 0 <= p < |marks| && marks[p].Some? :: speakers[p] == marks[p].value
  {
    AbsorbKeepsMarks(items, 0, turns, options);
    MarksAreSpeakers(AbsorbFrom(items, 0, turns, options), turns, options);
  }

  lemma {:induction false} MarksAreSpeakers(items: seq<Segment>, turns: seq<Turn>, options: AlignmentOptions)
    ensures var marks, speakers := Marks(items, turns, options), WordSpeakers(items);
            && |marks| == |speakers|
            && forall p | 0 <= p < |marks| && marks[p].Some? :: speakers[p] == marks[p].value
  {
    if items != [] {
      var s := items[|items| - 1];
      MarksAreSpeakers(items[..|items| - 1], turns, options);
      CopiesAre(|s.words|, s.speaker);
      CopiesAre(|s.words|, if Expendable(s, turns, options) then None else Some(s.speaker));
    }
  }

  // ---------------------------------------------------------------- absorbed groups

  ghost function Flat(groups: seq<seq<Segment>>): seq<Segment> {
    if groups == [] then [] else Flat(groups[..|groups| - 1]) + groups[|groups| - 1]
  }

  lemma {:induction false} FlatConcat(a: seq<seq<Segment>>, b: seq<seq<Segment>>)
    ensures Flat(a + b) == Flat(a) + Flat(b)
  {
    if b == [] {
      assert a + b == a;
    } else {
      var last := |b| - 1;
      FlatConcat(a, b[..last]);
      assert (a + b)[..|a + b| - 1] == a + b[..last] && (a + b)[|a + b| - 1] == b[last];
      Assoc(Flat(a), Flat(b[..last]), b[last]);
    }
  }

  ghost predicate CombinedAt(items: seq<Segment>, groups: seq<seq<Segment>>, i: nat)
    requires i < |items| == |groups|
  {
    Combines(items[i], groups[i])
  }

  ghost predicate CombinedFrom(items: seq<Segment>, groups: seq<seq<Segment>>) {
    |items| == |groups| && forall i: nat {:trigger CombinedAt(items, groups, i)} | i < |items| :: CombinedAt(items, groups, i)
  }

  lemma JoinGroups(items: seq<Segment>, groups: seq<seq<Segment>>, at: nat, speaker: Option<Label>)
    returns (joined: seq<seq<Segment>>)
    requires CombinedFrom(items, groups) && at + 1 < |items|
    ensures CombinedFrom(Join(items, at, speaker), joined) && Flat(joined) == Flat(groups)
  {
    var head, g, h, tail := groups[..at], groups[at], groups[at + 1], groups[at + 2..];
    joined := head + [g + h] + tail;
    assert groups == head + [g] + [h] + tail;
    FlatJoined(head, g, h, tail);
    forall i: nat | i < |joined| ensures CombinedAt(Join(items, at, speaker), joined, i) {
      JoinedAt(items, groups, joined, at, speaker, i);
    }
  }

  lemma JoinedAt(items: seq<Segment>, groups: seq<seq<Segment>>, joined: seq<seq<Segment>>, at: nat,
                 speaker: Option<Label>, i: nat)
    requires CombinedFrom(items, groups) && at + 1 < |items| && i + 1 < |items|
    requires joined == groups[..at] + [groups[at] + groups[at + 1]] + groups[at + 2..]
    ensures CombinedAt(Join(items, at, speaker), joined, i)
  {
    if i == at {
      assert CombinedAt(items, groups, at) && CombinedAt(items, groups, at + 1);
      CombinesBoth(items[at], items[at + 1], speaker, groups[at], groups[at + 1]);
    } else {
      assert CombinedAt(items, groups, if i < at then i else i + 1);
    }
  }

  lemma FlatSnoc(groups: seq<seq<Segment>>, g: seq<Segment>)
    ensures Flat(groups + [g]) == Flat(groups) + g
  {
    assert (groups + [g])[..|groups|] == groups;
  }

  lemma {:induction false} FlatJoined(head: seq<seq<Segment>>, g: seq<Segment>, h: seq<Segment>, tail: seq<seq<Segment>>)
    ensures Flat(head + [g] + [h] + tail) == Flat(head + [g + h] + tail)
  {
    FlatSnoc(head, g);
    FlatSnoc(head + [g], h);
    FlatSnoc(head, g + h);
    assert Flat(head) + g + h == Flat(head) + (g + h);
    FlatConcat(head + [g] + [h], tail);
    FlatConcat(head + [g + h], tail);
  }

  lemma {:induction false} AbsorbGroups(items: seq<Segment>, groups: seq<seq<Segment>>, index: nat, turns: seq<Turn>, options: AlignmentOptions)
    returns (after: seq<seq<Segment>>)
    requires CombinedFrom(items, groups)
    ensures CombinedFrom(AbsorbFrom(items, index, turns, options), after) && Flat(after) == Flat(groups)
    decreases |items|, |items| - index
  {
    after := groups;
    if index < |items| {
      var chosen := ChooseNeighbour(items, index);
      if chosen.None? || !IsFragment(items[index], turns, options) {
        after := AbsorbGroups(items, groups, index + 1, turns, options);
      } else {
        var j := chosen.value;
        var at := if j < index then j else index;
        var joined := JoinGroups(items, groups, at, items[j].speaker);
        after := AbsorbGroups(Join(items, at, items[j].speaker), joined, at, turns, options);
      }
    }
  }

  /** Absorption combines consecutive segments: the groups put together are the list. */
  lemma AbsorbCombines(items: seq<Segment>, turns: seq<Turn>, options: AlignmentOptions) returns (groups: seq<seq<Segment>>)
    ensures CombinedFrom(AbsorbFrom(items, 0, turns, options), groups) && Flat(groups) == items
  {
    var single := Singles(items);
    groups := AbsorbGroups(items, single, 0, turns, options);
  }

  lemma {:induction false} Singles(items: seq<Segment>) returns (groups: seq<seq<Segment>>)
    ensures CombinedFrom(items, groups) && Flat(groups) == items
  {
    groups := [];
    if items != [] {
      var last := |items| - 1;
      var before := Singles(items[..last]);
      groups := before + [[items[last]]];
      FlatSnoc(before, [items[last]]);
      assert items == items[..last] + [items[last]];
      forall i: nat | i < |items| ensures CombinedAt(items, groups, i) {
        if i < last { assert CombinedAt(items[..last], before, i); } else { CombinesOne(items[last]); }
      }
    }
  }

  // ---------------------------------------------------------------- sandwiched fragments

  /** What the turns of an optional speaker share with an interval. */
  ghost function SharedWith(start: real, end: real, turns: seq<Turn>, speaker: Option<Label>): real {
    if speaker.None? then 0.0 else SpeakerSupport(start, end, turns, speaker.value)
  }

  /** The segment changes exactly when it is attributed, lasts at most two seconds, lies less than
      0.01 seconds from neighbours who share another speaker, and that speaker's turns cover it at
      least 0.15 seconds more than its own, which cover less than a quarter of it; it takes that
      speaker. */
  ghost predicate Reassessed(items: seq<Segment>, after: seq<Segment>, turns: seq<Turn>, i: nat)
    requires i < |items| == |after|
  {
    var s := items[i];
    && (after[i] != s <==>
          && 0 < i && i + 1 < |items|
          && after[i - 1].speaker == items[i + 1].speaker != s.speaker
          && Attributed(s) && s.end - s.start <= 2.0
          && s.start - items[i - 1].end < 0.01 && items[i + 1].start - s.end < 0.01
          && var own := SharedWith(s.start, s.end, turns, s.speaker);
             && SharedWith(s.start, s.end, turns, items[i + 1].speaker) >= own + 0.15
             && s.start <= s.end && own < (s.end - s.start) / 4.0)
    && (after[i] != s ==> after[i] == s.(speaker := items[i + 1].speaker))
  }

  lemma ReassessedIff(items: seq<Segment>, turns: seq<Turn>, i: nat)
    requires i < |items|
    ensures Reassessed(items, ReassessFrom(items, 1, turns), turns, i)
  {
    ReassessFavoursTurns(items, 1, turns, i);
  }

  // ---------------------------------------------------------------- the passes one after the other

  ghost predicate IslandsJoined(items: seq<Segment>, after: seq<Segment>, options: AlignmentOptions) {
    |after| == |items| && forall i: nat {:trigger IslandJoined(items, after, options, i)} | i < |items| :: IslandJoined(items, after, options, i)
  }

  /** Consecutive segments are combined, every word outside an expendable segment keeps its
      speaker, and no expendable segment is left beside an attributed one. */
  ghost predicate Absorbed(items: seq<Segment>, after: seq<Segment>, turns: seq<Turn>, options: AlignmentOptions) {
    && (exists groups :: CombinedFrom(after, groups) && Flat(groups) == items)
    && KeepsMarks(Marks(items, turns, options), Marks(after, turns, options))
    && (forall i: nat | i + 1 < |after| ::
          !(Expendable(after[i], turns, options) && Attributed(after[i + 1]))
          && !(Attributed(after[i]) && Expendable(after[i + 1], turns, options)))
  }

  ghost predicate AllReassessed(items: seq<Segment>, after: seq<Segment>, turns: seq<Turn>) {
    |after| == |items| && forall i: nat {:trigger Reassessed(items, after, turns, i)} | i < |items| :: Reassessed(items, after, turns, i)
  }

  /** Groups of one speaker are combined, cut where a segment stands apart, and every word keeps
      its speaker. */
  ghost predicate Merged(items: seq<Segment>, after: seq<Segment>, maxGap: real) {
    && (exists cuts :: CutApart(items, after, cuts, maxGap))
    && WordSpeakers(after) == WordSpeakers(items)
  }

  /** The segments that were split are edited in this order: UNKNOWN islands join, fragments are
      absorbed, sandwiched segments are reassessed, and neighbours of one speaker are merged. */
  lemma EditedInStages(split: seq<Segment>, turns: seq<Turn>, options: AlignmentOptions)
    returns (relabelled: seq<Segment>, absorbed: seq<Segment>, reassessed: seq<Segment>)
    ensures IslandsJoined(split, relabelled, options)
    ensures Absorbed(relabelled, absorbed, turns, options)
    ensures AllReassessed(absorbed, reassessed, turns)
    ensures Merged(reassessed, Alignment.Edited(split, turns, options), options.mergeGap)
  {
    relabelled := RelabelUnknownFrom(split, 0, options);
    absorbed := AbsorbFrom(relabelled, 0, turns, options);
    reassessed := ReassessFrom(absorbed, 1, turns);
    forall i: nat | i < |split| ensures IslandJoined(split, relabelled, options, i) {
      IslandsJoinTheLongerSide(split, 0, options, i);
    }
    AbsorptionEnds(relabelled, turns, options);
    forall i: nat | i < |absorbed| ensures Reassessed(absorbed, reassessed, turns, i) {
      ReassessedIff(absorbed, turns, i);
    }
    var cuts := MergeCutsWhereApart(reassessed, options.mergeGap);
    MergeKeepsSpeakers(reassessed, options.mergeGap);
  }

  lemma AbsorptionEnds(items: seq<Segment>, turns: seq<Turn>, options: AlignmentOptions)
    ensures Absorbed(items, AbsorbFrom(items, 0, turns, options), turns, options)
  {
    var after := AbsorbFrom(items, 0, turns, options);
    var groups := AbsorbCombines(items, turns, options);
    AbsorbKeepsMarks(items, 0, turns, options);
    forall i: nat | i + 1 < |after|
      ensures !(Expendable(after[i], turns, options) && Attributed(after[i + 1]))
      ensures !(Attributed(after[i]) && Expendable(after[i + 1], turns, options))
    {
      NothingLeftToAbsorb(items, turns, options, i);
      NothingLeftToAbsorb(items, turns, options, i + 1);
    }
  }
}
