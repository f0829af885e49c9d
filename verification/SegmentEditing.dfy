/** The mutable list of segments with its in-place passes, and the split of one segment into runs
    of one speaker (`src/utteran/align.py`). */
module SegmentEditing {
  import opened Basics
  import opened AlignTypes
  import opened SpeakerPasses
  import opened SegmentPasses

  datatype Result<+T> = Ok(value: T) | LengthMismatch

  // ---------------------------------------------------------------- the mutable segment list

  /** The list the passes edit in place. */
  class SegmentList {
    var items: seq<Segment>

    constructor ()
      ensures items == []
    {
      items := [];
    }

    constructor Of(segments: seq<Segment>)
      ensures items == segments
    {
      items := segments;
    }

    method Extend(more: seq<Segment>)
      modifies this
      ensures items == old(items) + more
    {
      items := items + more;
    }

    method AbsorbShortUnknownSegments(options: AlignmentOptions)
      modifies this
      ensures items == RelabelUnknownFrom(old(items), 0, options)
    {
      for index := 0 to |items|
        invariant |items| == |old(items)|
        invariant RelabelUnknownFrom(items, index, options) == RelabelUnknownFrom(old(items), 0, options)
      {
        if !IsShortUnknown(items[index], options) { continue; }
        var selected := ChooseNeighbour(items, index);
        if selected.None? { continue; }
        items := items[index := items[index].(speaker := items[selected.value].speaker)];
      }
    }

    /** Combine two adjacent segments at position `j` under its speaker and drop position `index`. */
    method CombineWithNeighbour(index: nat, j: nat)
      requires IsNeighbour(items, index, j)
      modifies this
      ensures items == Join(old(items), if j < index then j else index, old(items)[j].speaker)
    {
      ghost var was := items;
      var neighbour, segment := items[j], items[index];
      var combined :=
        if j < index then CombineSegments(neighbour, segment, neighbour.speaker)
        else CombineSegments(segment, neighbour, neighbour.speaker);
      items := items[j := combined];
      items := items[..index] + items[index + 1..];
      ghost var at := if j < index then j else index;
      assert |items| == |Join(was, at, neighbour.speaker)|;
      assert forall k | 0 <= k < |items| :: items[k] == Join(was, at, neighbour.speaker)[k];
    }

    /** Absorb fragments until none is left; the index steps back after a join to the left. */
    method AbsorbUnsupportedFragments(turns: seq<Turn>, options: AlignmentOptions) returns (absorbed: nat)
      modifies this
      ensures items == AbsorbFrom(old(items), 0, turns, options)
      ensures absorbed == |old(items)| - |items|
    {
      absorbed := 0;
      var index := 0;
      while index < |items|
        invariant 0 <= index <= |items| && absorbed + |items| == |old(items)|
        invariant AbsorbFrom(items, index, turns, options) == AbsorbFrom(old(items), 0, turns, options)
        decreases |items|, |items| - index
      {
        var selected := ChooseNeighbour(items, index);
        if !IsFragment(items[index], turns, options) || selected.None? {
          index := index + 1;
          continue;
        }
        var j := selected.value;
        CombineWithNeighbour(index, j);
        absorbed := absorbed + 1;
        if j < index {
          index := j;
        }
      }
    }

    method ReassessSandwichedFragments(turns: seq<Turn>)
      modifies this
      ensures items == ReassessFrom(old(items), 1, turns)
    {
      var index := 1;
      while index + 1 < |items|
        invariant 1 <= index && |items| == |old(items)|
        invariant ReassessFrom(items, index, turns) == ReassessFrom(old(items), 1, turns)
      {
        if IsSandwiched(items, index, turns) {
          items := items[index := items[index].(speaker := items[index - 1].speaker)];
        }
        index := index + 1;
      }
    }

    method RenumberInAppearanceOrder()
      modifies this
      ensures Renumbered(old(items), items)
    {
      ghost var before := items;
      var labels: map<Label, nat> := map[];
      for index := 0 to |items|
        invariant RenamedUpTo(before, items, labels, index)
      {
        ghost var was, ranks := items, labels;
        if Known(items[index].speaker) {
          var l := items[index].speaker.value;
          if l !in labels {
            labels := labels[l := |labels|];
          }
          items := items[index := items[index].(speaker := Some(SpeakerName(labels[l])))];
        }
        RenameStep(before, was, items, ranks, labels, index);
      }
      RenamedByRank(before, items, labels);
    }
  }

  /** Positions before `index` carry the names of their ranks, the others their old labels. */
  ghost predicate RenamedUpTo(before: seq<Segment>, now: seq<Segment>, labels: map<Label, nat>, index: nat) {
    && index <= |before| == |now|
    && (forall i | index <= i < |now| :: now[i] == before[i])
    && RanksInOrder(labels, Appearance(before[..index]))
    && (forall i {:trigger IsRenamed(before[i], now[i], labels)} | 0 <= i < index :: IsRenamed(before[i], now[i], labels))
  }

  lemma RenameStep(before: seq<Segment>, was: seq<Segment>, now: seq<Segment>,
                   ranks: map<Label, nat>, labels: map<Label, nat>, index: nat)
    requires RenamedUpTo(before, was, ranks, index) && index < |before| == |now|
    requires forall i | 0 <= i < |now| && i != index :: now[i] == was[i]
    requires if !Known(before[index].speaker) then labels == ranks && now[index] == before[index]
             else var l := before[index].speaker.value;
                  && labels == (if l in ranks then ranks else ranks[l := |ranks|])
                  && now[index] == before[index].(speaker := Some(SpeakerName(labels[l])))
    ensures RenamedUpTo(before, now, labels, index + 1)
  {
    assert before[..index + 1][..index] == before[..index];
    if Known(before[index].speaker) && before[index].speaker.value !in ranks {
      RanksGrow(ranks, Appearance(before[..index]), before[index].speaker.value);
    }
    forall i | 0 <= i < index + 1 ensures IsRenamed(before[i], now[i], labels) {
      if i < index { assert IsRenamed(before[i], was[i], ranks); }
    }
  }

  /** `labels` numbers the labels of `order` by their position. */
  ghost predicate RanksInOrder(labels: map<Label, nat>, order: seq<Label>) {
    && |labels| == |order|
    && (forall l | l in labels :: l in order)
    && (forall k | 0 <= k < |order| :: order[k] in labels && labels[order[k]] == k)
  }

  predicate IsRenamed(before: Segment, after: Segment, labels: map<Label, nat>) {
    if !Known(before.speaker) then after == before
    else before.speaker.value in labels && after == before.(speaker := Some(SpeakerName(labels[before.speaker.value])))
  }

  lemma RanksGrow(labels: map<Label, nat>, order: seq<Label>, l: Label)
    requires RanksInOrder(labels, order) && l !in labels
    ensures RanksInOrder(labels[l := |labels|], order + [l])
  {
    var more := labels[l := |labels|];
    assert more.Keys == labels.Keys + {l};
  }

  lemma RenamedByRank(before: seq<Segment>, after: seq<Segment>, labels: map<Label, nat>)
    requires RenamedUpTo(before, after, labels, |before|)
    ensures Renumbered(before, after)
  {
    assert before[..|before|] == before;
    forall i | 0 <= i < |before| ensures IsRenamed(before[i], after[i], labels) {}
    forall i | 0 <= i < |before| && Known(before[i].speaker)
      ensures after[i].speaker == Some(SpeakerName(Rank(before, before[i].speaker.value)))
    {
      assert IsRenamed(before[i], after[i], labels);
      var order, l := Appearance(before), before[i].speaker.value;
      assert l in order && order[IndexIn(l, order)] == l;
    }
  }

  // ---------------------------------------------------------------- splitting

  ghost predicate IsEnvelope(s: Segment) {
    && s.words != [] && ContainsWords(s)
    && (exists w :: w in s.words && w.start == s.start)
    && (exists w :: w in s.words && w.end == s.end)
  }

  function FirstStart(words: seq<Word>): real
    requires words != []
  {
    if |words| == 1 then words[0].start else Min(words[0].start, FirstStart(words[1..]))
  }

  function LastEnd(words: seq<Word>): real
    requires words != []
  {
    if |words| == 1 then words[0].end else Max(words[0].end, LastEnd(words[1..]))
  }

  function RunSegment(words: seq<Word>, speaker: Label): Segment
    requires words != []
  {
    Segment(FirstStart(words), LastEnd(words), Text(words), words, Some(speaker), High)
  }

  lemma {:induction false} BoundsOfWords(words: seq<Word>)
    requires words != []
    ensures forall w | w in words :: FirstStart(words) <= w.start && w.end <= LastEnd(words)
    ensures exists w :: w in words && w.start == FirstStart(words)
    ensures exists w :: w in words && w.end == LastEnd(words)
  {
    assert words[0] in words;
    if |words| > 1 {
      BoundsOfWords(words[1..]);
      var a :| a in words[1..] && a.start == FirstStart(words[1..]);
      var b :| b in words[1..] && b.end == LastEnd(words[1..]);
      assert a in words && b in words;
    }
  }

  /** The runs after one more word. */
  function AddWord(runs: seq<Segment>, word: Word, speaker: Label): (r: seq<Segment>)
    ensures r != [] && r[|r| - 1].speaker == Some(speaker)
  {
    var last := |runs| - 1;
    if runs != [] && runs[last].speaker == Some(speaker)
    then runs[..last] + [RunSegment(runs[last].words + [word], speaker)]
    else runs + [RunSegment([word], speaker)]
  }

  /** The runs of the first `n` words. */
  function SplitRuns(words: seq<Word>, speakers: seq<Label>, n: nat): seq<Segment>
    requires n <= |speakers| == |words|
  {
    if n == 0 then [] else AddWord(SplitRuns(words, speakers, n - 1), words[n - 1], speakers[n - 1])
  }

  method SplitSegmentBySpeaker(words: seq<Word>, speakers: seq<Label>) returns (r: Result<seq<Segment>>)
    ensures if |speakers| == |words| then r == Ok(SplitRuns(words, speakers, |words|)) else r == LengthMismatch
  {
    if |speakers| != |words| { return LengthMismatch; }
    var runs: seq<Segment> := [];
    for k := 0 to |words|
      invariant runs == SplitRuns(words, speakers, k)
    {
      runs := AddWord(runs, words[k], speakers[k]);
    }
    r := Ok(runs);
  }

  lemma TextSnoc(words: seq<Word>, w: Word)
    ensures Text(words + [w]) == Text(words) + w.text
  {
    assert (words + [w])[..|words|] == words;
  }

  ghost predicate IsRun(s: Segment, speakers: seq<Label>) {
    IsEnvelope(s) && s.confidence.High? && s.speaker.Some? && s.speaker.value in speakers && s.text == Text(s.words)
  }

  ghost predicate AllRuns(items: seq<Segment>, speakers: seq<Label>) {
    forall s {:trigger IsRun(s, speakers)} | s in items :: IsRun(s, speakers)
  }

  ghost predicate Alternates(items: seq<Segment>) {
    forall i | 0 < i < |items| :: items[i - 1].speaker != items[i].speaker
  }

  /** Neighbouring runs have different speakers, and each run's bounds and text are those of its words. */
  lemma {:induction false} SplitMakesRuns(words: seq<Word>, speakers: seq<Label>, n: nat)
    requires n <= |speakers| == |words|
    ensures AllRuns(SplitRuns(words, speakers, n), speakers) && Alternates(SplitRuns(words, speakers, n))
  {
    if n > 0 {
      var before := SplitRuns(words, speakers, n - 1);
      SplitMakesRuns(words, speakers, n - 1);
      AddWordMakesRuns(before, speakers, words[n - 1], speakers[n - 1]);
    }
  }

  lemma AddWordMakesRuns(runs: seq<Segment>, speakers: seq<Label>, word: Word, speaker: Label)
    requires AllRuns(runs, speakers) && Alternates(runs) && speaker in speakers
    ensures AllRuns(AddWord(runs, word, speaker), speakers) && Alternates(AddWord(runs, word, speaker))
  {
    var more := AddWord(runs, word, speaker);
    forall s | s in more ensures IsRun(s, speakers) {
      if s in runs {
        assert IsRun(s, speakers);
      } else {
        BoundsOfWords(s.words);
      }
    }
  }

  /** The runs hold these words in order, and their text is the text of the words. */
  ghost predicate Partitions(runs: seq<Segment>, words: seq<Word>) {
    AllWords(runs) == words && AllText(runs) == Text(words)
  }

  lemma NothingPartitions()
    ensures Partitions([], [])
  {
  }

  lemma {:induction false} SplitPartitions(words: seq<Word>, speakers: seq<Label>, n: nat)
    requires n <= |speakers| == |words|
    ensures Partitions(SplitRuns(words, speakers, n), words[..n])
  {
    if n == 0 {
      NothingPartitions();
      assert words[..0] == [];
    } else {
      SplitPartitions(words, speakers, n - 1);
      var runs, now := LastRun(words, speakers, n);
      PartitionStep(runs, now, speakers, words, n - 1, speakers[n - 1]);
    }
  }

  lemma LastRun(words: seq<Word>, speakers: seq<Label>, n: nat) returns (runs: seq<Segment>, now: seq<Segment>)
    requires 0 < n <= |speakers| == |words|
    ensures runs == SplitRuns(words, speakers, n - 1) && AllRuns(runs, speakers)
    ensures now == SplitRuns(words, speakers, n) == AddWord(runs, words[n - 1], speakers[n - 1])
  {
    runs, now := SplitRuns(words, speakers, n - 1), SplitRuns(words, speakers, n);
    SplitMakesRuns(words, speakers, n - 1);
  }

  lemma PartitionStep(runs: seq<Segment>, now: seq<Segment>, speakers: seq<Label>, words: seq<Word>, n: nat, speaker: Label)
    requires AllRuns(runs, speakers) && n < |words| && now == AddWord(runs, words[n], speaker)
    requires Partitions(runs, words[..n])
    ensures Partitions(now, words[..n + 1])
  {
    AddWordExtends(runs, speakers, words[n], speaker);
    TextSnoc(words[..n], words[n]);
    TakeOneMore(words, n);
  }

  lemma AddWordExtends(runs: seq<Segment>, speakers: seq<Label>, word: Word, speaker: Label)
    requires AllRuns(runs, speakers)
    ensures AllWords(AddWord(runs, word, speaker)) == AllWords(runs) + [word]
    ensures AllText(AddWord(runs, word, speaker)) == AllText(runs) + word.text
  {
    var last := |runs| - 1;
    if runs != [] && runs[last].speaker == Some(speaker) {
      assert IsRun(runs[last], speakers);
      var grown := RunSegment(runs[last].words + [word], speaker);
      assert grown.words == runs[last].words + [word];
      TextSnoc(runs[last].words, word);
      assert grown.text == runs[last].text + word.text;
      GrownLast(runs[..last], runs[last], grown, word);
      assert runs == runs[..last] + [runs[last]];
    } else {
      var single := RunSegment([word], speaker);
      TextSnoc([], word);
      assert single.words == [word] && single.text == word.text by { assert [] + [word] == [word]; }
    }
  }

  lemma GrownLast(head: seq<Segment>, run: Segment, grown: Segment, word: Word)
    requires grown.words == run.words + [word] && grown.text == run.text + word.text
    ensures AllWords(head + [grown]) == AllWords(head + [run]) + [word]
    ensures AllText(head + [grown]) == AllText(head + [run]) + word.text
  {
    Assoc(AllWords(head), run.words, [word]);
    Assoc(AllText(head), run.text, word.text);
  }

  ghost function Repeat(n: nat, l: Label): seq<Label> {
    if n == 0 then [] else Repeat(n - 1, l) + [l]
  }

  /** The label of every word, read off the runs. */
  ghost function WordLabels(runs: seq<Segment>): seq<Label> {
    if runs == [] then []
    else
      var s := runs[|runs| - 1];
      WordLabels(runs[..|runs| - 1]) + if s.speaker.Some? then Repeat(|s.words|, s.speaker.value) else []
  }

  /** Every word keeps the label it was assigned. */
  lemma {:induction false} SplitKeepsLabels(words: seq<Word>, speakers: seq<Label>, n: nat)
    requires n <= |speakers| == |words|
    ensures WordLabels(SplitRuns(words, speakers, n)) == speakers[..n]
  {
    if n > 0 {
      SplitKeepsLabels(words, speakers, n - 1);
      LabelStep(SplitRuns(words, speakers, n - 1), words[n - 1], speakers, n - 1);
    }
  }

  lemma TakeOneMore<T>(s: seq<T>, n: nat)
    requires n < |s|
    ensures s[..n + 1] == s[..n] + [s[n]]
  {
  }

  lemma LabelStep(runs: seq<Segment>, word: Word, speakers: seq<Label>, n: nat)
    requires n < |speakers| && WordLabels(runs) == speakers[..n]
    ensures WordLabels(AddWord(runs, word, speakers[n])) == speakers[..n + 1]
  {
    AddWordLabel(runs, word, speakers[n]);
    TakeOneMore(speakers, n);
  }

  lemma AddWordLabel(runs: seq<Segment>, word: Word, speaker: Label)
    ensures WordLabels(AddWord(runs, word, speaker)) == WordLabels(runs) + [speaker]
  {
    var last := |runs| - 1;
    var more := AddWord(runs, word, speaker);
    if runs != [] && runs[last].speaker == Some(speaker) {
      assert more[..last] == runs[..last];
      assert WordLabels(more) == WordLabels(runs[..last]) + Repeat(|runs[last].words| + 1, speaker);
    } else {
      assert more[..|runs|] == runs;
      assert Repeat(1, speaker) == Repeat(0, speaker) + [speaker] == [speaker];
    }
  }
}
