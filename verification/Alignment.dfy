/** The whole alignment of a transcription with speaker turns (`src/utteran/align.py`). */
module Alignment {
  import opened Basics
  import opened AlignTypes
  import opened SpeakerPasses
  import opened SegmentPasses
  import opened SegmentEditing
  import opened SpeakerScores
  import Viterbi

  // ---------------------------------------------------------------- turns in order

  predicate TurnLeq(a: Turn, b: Turn) {
    a.start < b.start || (a.start == b.start && (a.end < b.end || (a.end == b.end && LabelLeq(a.speaker, b.speaker))))
  }

  function InsertTurn(t: Turn, sorted: seq<Turn>): seq<Turn> {
    if sorted == [] then [t]
    else if TurnLeq(t, sorted[0]) then [t] + sorted
    else [sorted[0]] + InsertTurn(t, sorted[1..])
  }

  ghost predicate InOrder(turns: seq<Turn>) {
    forall i, j | 0 <= i < j < |turns| :: TurnLeq(turns[i], turns[j])
  }

  lemma {:induction false} InsertTurnKeeps(t: Turn, sorted: seq<Turn>)
    ensures multiset(InsertTurn(t, sorted)) == multiset(sorted) + multiset{t}
    ensures forall x :: x in InsertTurn(t, sorted) <==> x == t || x in sorted
  {
    if sorted != [] {
      assert sorted == [sorted[0]] + sorted[1..];
      InsertTurnKeeps(t, sorted[1..]);
    }
  }

  lemma {:induction false} InsertTurnSorts(t: Turn, sorted: seq<Turn>)
    requires InOrder(sorted)
    ensures InOrder(InsertTurn(t, sorted))
  {
    if sorted != [] {
      if TurnLeq(t, sorted[0]) {
        forall j | 0 <= j < |sorted| ensures TurnLeq(t, sorted[j]) {
          if j > 0 { TurnLeqTransitive(t, sorted[0], sorted[j]); }
        }
      } else {
        TurnLeqTotal(t, sorted[0]);
        InsertTurnSorts(t, sorted[1..]);
        InsertTurnKeeps(t, sorted[1..]);
        var rest := InsertTurn(t, sorted[1..]);
        forall k | 0 <= k < |rest| ensures TurnLeq(sorted[0], rest[k]) {
          assert rest[k] in rest;
        }
      }
    }
  }

  lemma TurnLeqTotal(a: Turn, b: Turn)
    ensures TurnLeq(a, b) || TurnLeq(b, a)
  {
    LabelLeqTotal(a.speaker, b.speaker);
  }

  lemma TurnLeqTransitive(a: Turn, b: Turn, c: Turn)
    requires TurnLeq(a, b) && TurnLeq(b, c)
    ensures TurnLeq(a, c)
  {
    if LabelLeq(a.speaker, b.speaker) && LabelLeq(b.speaker, c.speaker) {
      LabelLeqTransitive(a.speaker, b.speaker, c.speaker);
    }
  }

  /** The turns ordered by (start, end, speaker). */
  function SortTurns(turns: seq<Turn>): (r: seq<Turn>)
    ensures multiset(r) == multiset(turns) && InOrder(r)
  {
    if turns == [] then []
    else
      assert turns == [turns[0]] + turns[1..];
      InsertTurnSorts(turns[0], SortTurns(turns[1..]));
      InsertTurnKeeps(turns[0], SortTurns(turns[1..]));
      InsertTurn(turns[0], SortTurns(turns[1..]))
  }

  // ---------------------------------------------------------------- segments without words

  predicate CoversCenter(word: Word, t: Turn) {
    var center := (word.start + word.end) / 2.0;
    t.start <= center < t.end
  }

  /** The first turn in order that covers the centre. */
  function FirstCovering(word: Word, turns: seq<Turn>): (r: Option<Turn>)
    requires InOrder(turns)
    ensures r.Some? <==> exists t :: t in turns && CoversCenter(word, t)
    ensures r.Some? ==> r.value in turns && CoversCenter(word, r.value)
    ensures r.Some? ==> forall t | t in turns && CoversCenter(word, t) :: t == r.value || TurnLeq(r.value, t)
  {
    if turns == [] then None
    else if CoversCenter(word, turns[0]) then Some(turns[0])
    else FirstCovering(word, turns[1..])
  }

  function WordOverlap(word: Word, t: Turn): real {
    Overlap(word.start, word.end, t.start, t.end)
  }

  /** The first turn in order of greatest overlap. */
  function MostOverlapping(word: Word, turns: seq<Turn>): (r: Turn)
    requires turns != [] && InOrder(turns)
    ensures r in turns && forall t | t in turns :: WordOverlap(word, t) <= WordOverlap(word, r)
    ensures forall t | t in turns && WordOverlap(word, t) == WordOverlap(word, r) :: t == r || TurnLeq(r, t)
  {
    if |turns| == 1 then turns[0]
    else
      var rest := MostOverlapping(word, turns[1..]);
      if WordOverlap(word, turns[0]) >= WordOverlap(word, rest) then turns[0] else rest
  }

  /** The speaker at the centre, else the speaker who overlaps most, else UNKNOWN; the least
      turn by (start, end, speaker) decides between several. */
  function AssignWordSpeaker(word: Word, turns: seq<Turn>): (r: Label)
    ensures if exists t :: t in turns && CoversCenter(word, t)
            then exists t :: t in turns && CoversCenter(word, t) && t.speaker == r
                          && forall u | u in turns && CoversCenter(word, u) :: u == t || TurnLeq(t, u)
            else if exists t :: t in turns && WordOverlap(word, t) > 0.0
            then exists t :: t in turns && t.speaker == r && WordOverlap(word, t) > 0.0
                          && forall u | u in turns :: WordOverlap(word, u) <= WordOverlap(word, t)
                                                   && (WordOverlap(word, u) == WordOverlap(word, t) ==> u == t || TurnLeq(t, u))
            else r == UNKNOWN
  {
    var ordered := SortTurns(turns);
    assert forall t :: t in ordered <==> t in turns by { SameMembers(ordered, turns); }
    var covering := FirstCovering(word, ordered);
    if covering.Some? then covering.value.speaker
    else if ordered == [] then UNKNOWN
    else
      var best := MostOverlapping(word, ordered);
      if WordOverlap(word, best) > 0.0 then best.speaker else UNKNOWN
  }

  lemma SameMembers(a: seq<Turn>, b: seq<Turn>)
    requires multiset(a) == multiset(b)
    ensures forall t :: t in a <==> t in b
  {
    forall t ensures t in a <==> t in b { assert t in multiset(a) <==> t in multiset(b); }
  }

  /** The turn starts by the middle of the word and ends after it. */
  ghost predicate SpansMiddle(word: Word, t: Turn) {
    2.0 * t.start <= word.start + word.end < 2.0 * t.end
  }

  /** No other order by start, then end, then label puts `u` before `t`. */
  ghost predicate ComesFirst(t: Turn, u: Turn) {
    && !(u.start < t.start)
    && !(u.start == t.start && u.end < t.end)
    && (u.start == t.start && u.end == t.end ==> LabelLeq(t.speaker, u.speaker))
  }

  ghost predicate SharesTime(word: Word, t: Turn) {
    word.start < word.end && t.start < t.end && word.start < t.end && t.start < word.end
  }

  /** This turn decides about the word: it spans its middle or, if no turn does, shares most time
      with it, and comes first among those. */
  ghost predicate Decides(t: Turn, word: Word, turns: seq<Turn>) {
    && t in turns
    && if exists u :: u in turns && SpansMiddle(word, u)
       then SpansMiddle(word, t) && forall u | u in turns && SpansMiddle(word, u) :: ComesFirst(t, u)
       else SharesTime(word, t) && forall u | u in turns :: SharesNoMore(word, t, u)
  }

  /** `u` shares less time with the word than `t`, or as much and does not come before it. */
  ghost predicate SharesNoMore(word: Word, t: Turn, u: Turn) {
    var mine, other := Overlap(word.start, word.end, t.start, t.end), Overlap(word.start, word.end, u.start, u.end);
    other < mine || (other == mine && ComesFirst(t, u))
  }

  lemma TimesOfTurn(word: Word, t: Turn, u: Turn)
    ensures SpansMiddle(word, t) <==> CoversCenter(word, t)
    ensures SharesTime(word, t) <==> WordOverlap(word, t) > 0.0
    ensures ComesFirst(t, u) <==> t == u || TurnLeq(t, u)
  {
    LabelLeqTotal(t.speaker, u.speaker);
  }

  /** A word goes to the speaker of the turn that decides about it, and to nobody exactly when no
      turn spans its middle or shares time with it. */
  lemma SpeakerByTimes(word: Word, turns: seq<Turn>)
    ensures var r := AssignWordSpeaker(word, turns);
            if exists t :: t in turns && (SpansMiddle(word, t) || SharesTime(word, t))
            then exists t :: Decides(t, word, turns) && t.speaker == r
            else r == UNKNOWN
  {
    var r := AssignWordSpeaker(word, turns);
    forall t | t in turns
      ensures SpansMiddle(word, t) <==> CoversCenter(word, t)
      ensures SharesTime(word, t) <==> WordOverlap(word, t) > 0.0
    {
      TimesOfTurn(word, t, t);
    }
    if exists t :: t in turns && CoversCenter(word, t) {
      var t :| t in turns && CoversCenter(word, t) && t.speaker == r
               && forall u | u in turns && CoversCenter(word, u) :: u == t || TurnLeq(t, u);
      FirstSpans(word, turns, t);
    } else if exists t :: t in turns && WordOverlap(word, t) > 0.0 {
      var t :| t in turns && t.speaker == r && WordOverlap(word, t) > 0.0
               && forall u | u in turns :: WordOverlap(word, u) <= WordOverlap(word, t)
                                        && (WordOverlap(word, u) == WordOverlap(word, t) ==> u == t || TurnLeq(t, u));
      MostShares(word, turns, t);
    }
  }

  lemma FirstSpans(word: Word, turns: seq<Turn>, t: Turn)
    requires t in turns && CoversCenter(word, t)
    requires forall u | u in turns && CoversCenter(word, u) :: u == t || TurnLeq(t, u)
    ensures Decides(t, word, turns)
  {
    TimesOfTurn(word, t, t);
    forall u | u in turns && SpansMiddle(word, u) ensures ComesFirst(t, u) {
      TimesOfTurn(word, u, u);
      TimesOfTurn(word, t, u);
    }
  }

  lemma MostShares(word: Word, turns: seq<Turn>, t: Turn)
    requires t in turns && WordOverlap(word, t) > 0.0
    requires forall u | u in turns :: !SpansMiddle(word, u)
    requires forall u | u in turns :: WordOverlap(word, u) <= WordOverlap(word, t)
                                   && (WordOverlap(word, u) == WordOverlap(word, t) ==> u == t || TurnLeq(t, u))
    ensures Decides(t, word, turns)
  {
    TimesOfTurn(word, t, t);
    forall u | u in turns ensures SharesNoMore(word, t, u) {
      TimesOfTurn(word, t, u);
    }
  }

  function SegmentOverlap(s: Segment, t: Turn): real {
    Overlap(s.start, s.end, t.start, t.end)
  }

  /** Earliest start and latest end of the turns that overlap a segment. */
  function SpeechEnvelope(s: Segment, turns: seq<Turn>): (r: Option<(real, real)>)
    ensures r.Some? <==> exists t :: t in turns && SegmentOverlap(s, t) > 0.0
    ensures r.Some? ==> forall t | t in turns && SegmentOverlap(s, t) > 0.0 :: r.value.0 <= t.start && t.end <= r.value.1
    ensures r.Some? ==> exists t :: t in turns && SegmentOverlap(s, t) > 0.0 && t.start == r.value.0
    ensures r.Some? ==> exists t :: t in turns && SegmentOverlap(s, t) > 0.0 && t.end == r.value.1
  {
    if turns == [] then None
    else
      var t, rest := turns[0], SpeechEnvelope(s, turns[1..]);
      if SegmentOverlap(s, t) <= 0.0 then rest
      else if rest.None? then Some((t.start, t.end))
      else Some((Min(t.start, rest.value.0), Max(t.end, rest.value.1)))
  }

  function NonSpaceCount(text: string): nat {
    if text == "" then 0 else NonSpaceCount(text[..|text| - 1]) + if IsSpace(text[|text| - 1]) then 0 else 1
  }

  ghost function Visible(text: string): set<int> {
    set k | 0 <= k < |text| && !IsSpace(text[k])
  }

  /** The number of positions that hold no white space. */
  lemma {:induction false} NonSpaceIsCount(text: string)
    ensures NonSpaceCount(text) == |Visible(text)|
  {
    if text == "" {
      assert Visible(text) == {};
    } else {
      var last := |text| - 1;
      NonSpaceIsCount(text[..last]);
      assert Visible(text) == Visible(text[..last]) + if IsSpace(text[last]) then {} else {last};
    }
  }

  /** The part of an untimed segment to keep: the least part of it that holds all of its speech,
      or without speech as much as its text takes to say. */
  function FallbackSegmentBounds(s: Segment, turns: seq<Turn>, options: AlignmentOptions): (r: (real, real))
    requires options.fallbackCharactersPerSecond > 0.0 && options.fallbackMinDuration > 0.0
    ensures s.start <= r.0 && r.1 <= s.end
    ensures s.start < s.end ==> r.0 < r.1
    ensures forall t | t in turns && SegmentOverlap(s, t) > 0.0 :: r.0 <= Max(s.start, t.start) && Min(s.end, t.end) <= r.1
    ensures if exists t :: t in turns && SegmentOverlap(s, t) > 0.0 then
              && (exists t :: t in turns && SegmentOverlap(s, t) > 0.0 && r.0 == Max(s.start, t.start))
              && (exists t :: t in turns && SegmentOverlap(s, t) > 0.0 && r.1 == Min(s.end, t.end))
            else
              var spoken := NonSpaceCount(s.text) as real / options.fallbackCharactersPerSecond + options.fallbackDurationPadding;
              r == (s.start, Min(s.end, s.start + Max(options.fallbackMinDuration, spoken)))
  {
    match SpeechEnvelope(s, turns)
    case Some(envelope) => (Max(s.start, envelope.0), Min(s.end, envelope.1))
    case None =>
      var estimated := NonSpaceCount(s.text) as real / options.fallbackCharactersPerSecond;
      var allowed := Max(options.fallbackMinDuration, estimated + options.fallbackDurationPadding);
      (s.start, Min(s.end, s.start + allowed))
  }

  // ---------------------------------------------------------------- low-confidence segments

  /** Observed time of one speaker among the first `n` words. */
  function Observed(words: seq<Word>, speakers: seq<Label>, n: nat, l: Label): real
    requires n <= |words| == |speakers|
  {
    if n == 0 then 0.0
    else Observed(words, speakers, n - 1, l)
         + if speakers[n - 1] == l then Max(0.0, words[n - 1].end - words[n - 1].start) else 0.0
  }

  ghost predicate SupportTable(words: seq<Word>, speakers: seq<Label>, n: nat, support: map<Label, real>)
    requires n <= |words| == |speakers|
  {
    && (forall k | 0 <= k < n :: speakers[k] in support)
    && (forall l | l in support :: support[l] == Observed(words, speakers, n, l))
    && (forall l | l !in support :: Observed(words, speakers, n, l) == 0.0)
    && (forall l | l in support :: exists k :: 0 <= k < n && speakers[k] == l)
  }

  /** `r` is the label of greatest (observed time, label). */
  ghost predicate IsDominant(words: seq<Word>, speakers: seq<Label>, r: Label)
    requires |words| == |speakers|
  {
    && r in speakers
    && forall l | l in speakers ::
         var mine, other := Observed(words, speakers, |words|, r), Observed(words, speakers, |words|, l);
         other < mine || (other == mine && LabelLeq(l, r))
  }

  method DominantObservedSpeaker(words: seq<Word>, speakers: seq<Label>) returns (r: Label)
    requires |words| == |speakers| && words != []
    ensures IsDominant(words, speakers, r)
  {
    var support: map<Label, real> := map[];
    for k := 0 to |words|
      invariant SupportTable(words, speakers, k, support)
    {
      var l := speakers[k];
      var before := if l in support then support[l] else 0.0;
      support := support[l := before + Max(0.0, words[k].end - words[k].start)];
    }
    r := speakers[0];
    LabelLeqTotal(r, r);
    for k := 1 to |speakers|
      invariant r in speakers && r in support
      invariant forall m | 0 <= m < k ::
                  support[speakers[m]] < support[r] || (support[speakers[m]] == support[r] && LabelLeq(speakers[m], r))
    {
      var l := speakers[k];
      LabelLeqTotal(l, r);
      LabelLeqTotal(l, l);
      if support[l] > support[r] || (support[l] == support[r] && LabelLeq(r, l)) {
        forall m | 0 <= m < k && support[speakers[m]] == support[l] ensures LabelLeq(speakers[m], l) {
          LabelLeqTransitive(speakers[m], r, l);
        }
        r := l;
      }
    }
  }

  // ---------------------------------------------------------------- the pipeline

  predicate IsTimed(s: Segment) {
    s.words != [] && s.confidence.High?
  }

  /** The text a segment contributes: a timed one is retold from its words. */
  ghost function Retold(segments: seq<Segment>): string {
    if segments == [] then ""
    else
      var s := segments[|segments| - 1];
      Retold(segments[..|segments| - 1]) + if IsTimed(s) then Text(s.words) else s.text
  }

  /** Segments made from the input so far: its words and retold text, every segment labelled with
      a turn's speaker or UNKNOWN, and every word inside its segment when the untimed input is so. */
  ghost predicate Carries(segments: seq<Segment>, labels: seq<Label>, made: seq<Segment>) {
    && AllWords(made) == AllWords(segments)
    && AllText(made) == Retold(segments)
    && Labelled(made, labels)
    && ((forall s | s in segments && !IsTimed(s) :: ContainsWords(s)) ==> forall s | s in made :: ContainsWords(s))
  }

  ghost predicate Labelled(items: seq<Segment>, labels: seq<Label>) {
    forall s | s in items :: s.speaker.Some? && s.speaker.value in labels
  }

  /** A part with the words and the retold text of its segment. */
  ghost predicate IsFaithfulPart(s: Segment, labels: seq<Label>, part: seq<Segment>) {
    && Labelled(part, labels) && AllWords(part) == s.words
    && AllText(part) == (if IsTimed(s) then Text(s.words) else s.text)
    && ((!IsTimed(s) ==> ContainsWords(s)) ==> forall x | x in part :: ContainsWords(x))
  }

  lemma CarryOne(segments: seq<Segment>, n: nat, labels: seq<Label>, made: seq<Segment>, more: seq<Segment>)
    requires n < |segments| && Carries(segments[..n], labels, made) && IsFaithfulPart(segments[n], labels, more)
    ensures Carries(segments[..n + 1], labels, made + more)
  {
    AllConcat(made, more);
    RetoldSnoc(segments, n);
    TakeOneMore(segments, n);
  }

  lemma RetoldSnoc(segments: seq<Segment>, n: nat)
    requires n < |segments|
    ensures Retold(segments[..n + 1]) == Retold(segments[..n]) + if IsTimed(segments[n]) then Text(segments[n].words) else segments[n].text
  {
    assert segments[..n + 1][..n] == segments[..n];
  }

  /** The runs of a timed segment after the three passes over its word labels. */
  ghost predicate TimedPart(s: Segment, labels: seq<Label>, turns: seq<Turn>, language: string,
                            options: AlignmentOptions, b: Boundaries, part: seq<Segment>) {
    exists recovered, snapped, final ::
      && Recovered(s.words, turns, labels, recovered)
      && Snapped(s.words, recovered, snapped, language, options, b)
      && Protected(s.words, snapped, final)
      && part == SplitRuns(s.words, final, |s.words|)
  }

  /** What one input segment and the labels of its words become. */
  ghost predicate PartOf(s: Segment, labels: seq<Label>, turns: seq<Turn>, language: string,
                         options: AlignmentOptions, b: Boundaries, part: seq<Segment>)
    requires options.fallbackCharactersPerSecond > 0.0 && options.fallbackMinDuration > 0.0
  {
    && |labels| == |s.words|
    && if s.words != [] && s.confidence.High? then TimedPart(s, labels, turns, language, options, b, part)
       else if s.words != [] then exists l :: IsDominant(s.words, labels, l) && part == [s.(speaker := Some(l))]
       else
         var l := AssignWordSpeaker(Word(s.start, s.end, s.text, None), turns);
         var bounds := FallbackSegmentBounds(s, turns, options);
         part == [Segment(bounds.0, bounds.1, s.text, [], Some(l), Low)]
  }

  method SplitTimed(s: Segment, labels: seq<Label>, turns: seq<Turn>, language: string,
                    options: AlignmentOptions, boundaries: Boundaries)
    returns (r: Result<seq<Segment>>)
    requires IsTimed(s) && |labels| == |s.words|
    requires forall l | l in labels :: l in States(turns)
    ensures r.Ok? && TimedPart(s, labels, turns, language, options, boundaries, r.value)
    ensures AllWords(r.value) == s.words && AllText(r.value) == Text(s.words)
    ensures Labelled(r.value, States(turns)) && forall x | x in r.value :: ContainsWords(x)
  {
    var speakers := new Label[|labels|](i requires 0 <= i < |labels| => labels[i]);
    assert speakers[..] == labels;
    RecoverSupportedTrailingResponse(s.words, speakers, turns);
    ghost var recovered := speakers[..];
    assert forall l | l in recovered :: l in States(turns);
    SnapSegmentSpeakerBoundaries(s.words, speakers, language, options, boundaries);
    ghost var snapped := speakers[..];
    ProtectIdenticalTimestampGroups(s.words, speakers);
    ghost var final := speakers[..];
    r := SplitSegmentBySpeaker(s.words, speakers[..]);
    TimedPartMade(s, labels, turns, language, options, boundaries, recovered, snapped, final);
    RunsCarry(s, final, turns);
  }

  lemma TimedPartMade(s: Segment, labels: seq<Label>, turns: seq<Turn>, language: string, options: AlignmentOptions,
                      b: Boundaries, recovered: seq<Label>, snapped: seq<Label>, final: seq<Label>)
    requires |s.words| == |labels| == |recovered| == |snapped| == |final|
    requires Recovered(s.words, turns, labels, recovered)
    requires Snapped(s.words, recovered, snapped, language, options, b) && Protected(s.words, snapped, final)
    ensures TimedPart(s, labels, turns, language, options, b, SplitRuns(s.words, final, |s.words|))
  {
  }

  lemma RunsCarry(s: Segment, final: seq<Label>, turns: seq<Turn>)
    requires |final| == |s.words| && forall l | l in final :: l in States(turns)
    ensures var runs := SplitRuns(s.words, final, |s.words|);
            && AllWords(runs) == s.words && AllText(runs) == Text(s.words)
            && Labelled(runs, States(turns)) && forall x | x in runs :: ContainsWords(x)
  {
    var runs := SplitRuns(s.words, final, |s.words|);
    SplitPartitions(s.words, final, |s.words|);
    SplitMakesRuns(s.words, final, |s.words|);
    assert s.words[..|s.words|] == s.words;
    forall x | x in runs ensures ContainsWords(x) && x.speaker.Some? && x.speaker.value in States(turns) {
      assert IsRun(x, final);
    }
  }

  /** The labels of the words of segment `n`. */
  ghost function LabelsOf(wordLabels: seq<Label>, segments: seq<Segment>, n: nat): seq<Label>
    requires n < |segments| && |wordLabels| == |AllWords(segments)|
  {
    WordsAt(segments, n);
    wordLabels[|AllWords(segments[..n])|..|AllWords(segments[..n + 1])|]
  }

  /** The labels of the first `n` segments one after the other are the labels of their words. */
  ghost function LabelsUpTo(wordLabels: seq<Label>, segments: seq<Segment>, n: nat): seq<Label>
    requires n <= |segments| && |wordLabels| == |AllWords(segments)|
  {
    if n == 0 then [] else LabelsUpTo(wordLabels, segments, n - 1) + LabelsOf(wordLabels, segments, n - 1)
  }

  lemma {:induction false} LabelsArePrefix(wordLabels: seq<Label>, segments: seq<Segment>, n: nat)
    requires n <= |segments| && |wordLabels| == |AllWords(segments)|
    ensures |AllWords(segments[..n])| <= |wordLabels|
    ensures LabelsUpTo(wordLabels, segments, n) == wordLabels[..|AllWords(segments[..n])|]
  {
    if n > 0 {
      LabelsArePrefix(wordLabels, segments, n - 1);
      WordsAt(segments, n - 1);
      var a, b := |AllWords(segments[..n - 1])|, |AllWords(segments[..n])|;
      assert wordLabels[..a] + wordLabels[a..b] == wordLabels[..b];
    }
  }

  /** Every segment gets as many labels as it has words, and together they are the word labels. */
  lemma LabelsAreDealtOut(wordLabels: seq<Label>, segments: seq<Segment>, n: nat)
    requires n < |segments| && |wordLabels| == |AllWords(segments)|
    ensures |LabelsOf(wordLabels, segments, n)| == |segments[n].words|
    ensures LabelsUpTo(wordLabels, segments, |segments|) == wordLabels
  {
    WordsAt(segments, n);
    LabelsArePrefix(wordLabels, segments, |segments|);
    assert segments[..|segments|] == segments;
  }

  ghost function Concat(parts: seq<seq<Segment>>): seq<Segment> {
    if parts == [] then [] else Concat(parts[..|parts| - 1]) + parts[|parts| - 1]
  }

  /** Every segment became its part. */
  ghost predicate PartsOf(segments: seq<Segment>, wordLabels: seq<Label>, turns: seq<Turn>, language: string,
                          options: AlignmentOptions, boundaries: seq<Boundaries>, parts: seq<seq<Segment>>)
    requires options.fallbackCharactersPerSecond > 0.0 && options.fallbackMinDuration > 0.0
  {
    && |wordLabels| == |AllWords(segments)| && |parts| <= |segments| == |boundaries|
    && forall n: nat {:trigger parts[n]} | n < |parts| ::
         PartOf(segments[n], LabelsOf(wordLabels, segments, n), turns, language, options, boundaries[n], parts[n])
  }

  /** The state after the first `n` segments. */
  ghost predicate SplitState(segments: seq<Segment>, wordLabels: seq<Label>, turns: seq<Turn>, language: string,
                             options: AlignmentOptions, boundaries: seq<Boundaries>,
                             n: nat, parts: seq<seq<Segment>>, made: seq<Segment>)
    requires options.fallbackCharactersPerSecond > 0.0 && options.fallbackMinDuration > 0.0
  {
    && n <= |segments| && |parts| == n && made == Concat(parts)
    && Carries(segments[..n], States(turns), made)
    && PartsOf(segments, wordLabels, turns, language, options, boundaries, parts)
  }

  lemma SplitStateGrows(segments: seq<Segment>, wordLabels: seq<Label>, turns: seq<Turn>, language: string,
                        options: AlignmentOptions, boundaries: seq<Boundaries>,
                        n: nat, parts: seq<seq<Segment>>, made: seq<Segment>, part: seq<Segment>)
    requires options.fallbackCharactersPerSecond > 0.0 && options.fallbackMinDuration > 0.0
    requires SplitState(segments, wordLabels, turns, language, options, boundaries, n, parts, made) && n < |segments|
    requires PartOf(segments[n], LabelsOf(wordLabels, segments, n), turns, language, options, boundaries[n], part)
    requires IsFaithfulPart(segments[n], States(turns), part)
    ensures SplitState(segments, wordLabels, turns, language, options, boundaries, n + 1, parts + [part], made + part)
  {
    CarryOne(segments, n, States(turns), made, part);
    assert (parts + [part])[..n] == parts;
    PartsGrow(segments, wordLabels, turns, language, options, boundaries, parts, part);
  }

  lemma PartsGrow(segments: seq<Segment>, wordLabels: seq<Label>, turns: seq<Turn>, language: string,
                  options: AlignmentOptions, boundaries: seq<Boundaries>, parts: seq<seq<Segment>>, part: seq<Segment>)
    requires options.fallbackCharactersPerSecond > 0.0 && options.fallbackMinDuration > 0.0
    requires PartsOf(segments, wordLabels, turns, language, options, boundaries, parts) && |parts| < |segments|
    requires PartOf(segments[|parts|], LabelsOf(wordLabels, segments, |parts|), turns, language, options, boundaries[|parts|], part)
    ensures PartsOf(segments, wordLabels, turns, language, options, boundaries, parts + [part])
  {
  }

  /** The labels of the words of segment `n`, and the position after them. */
  method TakeLabels(wordLabels: seq<Label>, segments: seq<Segment>, n: nat, index: nat)
    returns (labels: seq<Label>, next: nat)
    requires |wordLabels| == |AllWords(segments)| && n < |segments| && index == |AllWords(segments[..n])|
    ensures labels == LabelsOf(wordLabels, segments, n) && |labels| == |segments[n].words|
    ensures forall l | l in labels :: l in wordLabels
    ensures next == |AllWords(segments[..n + 1])|
  {
    WordsAt(segments, n);
    next := index + |segments[n].words|;
    labels := wordLabels[index..next];
  }

  /** Assign speakers to words and split every segment. */
  method SplitAll(segments: seq<Segment>, turns: seq<Turn>, language: string, options: AlignmentOptions,
                  boundaries: seq<Boundaries>)
    returns (list: SegmentList, ghost wordLabels: seq<Label>, ghost parts: seq<seq<Segment>>)
    requires |boundaries| == |segments|
    requires options.fallbackCharactersPerSecond > 0.0 && options.fallbackMinDuration > 0.0
    ensures fresh(list)
    ensures AllWords(segments) != [] ==> Viterbi.Optimal(WordChain(AllWords(segments), turns, options), wordLabels)
    ensures SplitState(segments, wordLabels, turns, language, options, boundaries, |segments|, parts, list.items)
  {
    var allWords := JoinWords(segments);
    var assignedLabels := AssignWordSpeakerSequence(allWords, turns, options);
    wordLabels, parts := assignedLabels, [];
    var assignmentIndex := 0;
    list := new SegmentList();
    for n := 0 to |segments|
      invariant fresh(list) && assignmentIndex == |AllWords(segments[..n])|
      invariant SplitState(segments, wordLabels, turns, language, options, boundaries, n, parts, list.items)
    {
      var labels;
      labels, assignmentIndex := TakeLabels(assignedLabels, segments, n, assignmentIndex);
      var part := SplitOne(segments[n], labels, turns, language, options, boundaries[n]);
      SplitStateGrows(segments, wordLabels, turns, language, options, boundaries, n, parts, list.items, part);
      list.Extend(part);
      parts := parts + [part];
    }
  }

  method SplitOne(s: Segment, labels: seq<Label>, turns: seq<Turn>, language: string, options: AlignmentOptions,
                  boundaries: Boundaries)
    returns (part: seq<Segment>)
    requires |labels| == |s.words| && forall l | l in labels :: l in States(turns)
    requires options.fallbackCharactersPerSecond > 0.0 && options.fallbackMinDuration > 0.0
    ensures PartOf(s, labels, turns, language, options, boundaries, part)
    ensures IsFaithfulPart(s, States(turns), part)
  {
    if s.words != [] {
      if s.confidence.Low? {
        var speaker := DominantObservedSpeaker(s.words, labels);
        part := [s.(speaker := Some(speaker))];
        Single(part[0]);
      } else {
        var runs := SplitTimed(s, labels, turns, language, options, boundaries);
        part := runs.value;
      }
    } else {
      var speaker := AssignWordSpeaker(Word(s.start, s.end, s.text, None), turns);
      var bounds := FallbackSegmentBounds(s, turns, options);
      part := [Segment(bounds.0, bounds.1, s.text, [], Some(speaker), Low)];
      Single(part[0]);
    }
  }

  method JoinWords(segments: seq<Segment>) returns (words: seq<Word>)
    ensures words == AllWords(segments)
  {
    words := [];
    for n := 0 to |segments|
      invariant words == AllWords(segments[..n])
    {
      assert segments[..n + 1][..n] == segments[..n];
      words := words + segments[n].words;
    }
    assert segments[..|segments|] == segments;
  }

  lemma {:induction false} WordsAt(segments: seq<Segment>, n: nat)
    requires n < |segments|
    ensures AllWords(segments[..n + 1]) == AllWords(segments[..n]) + segments[n].words
    ensures |AllWords(segments[..n + 1])| <= |AllWords(segments)|
    decreases |segments| - n
  {
    assert segments[..n + 1][..n] == segments[..n];
    if n + 1 < |segments| {
      WordsAt(segments, n + 1);
    } else {
      assert segments[..n + 1] == segments;
    }
  }

  /** Labels come from the turns or are UNKNOWN through every later pass. */
  lemma {:induction false} AbsorbKeepsLabels(items: seq<Segment>, index: nat, turns: seq<Turn>, options: AlignmentOptions, labels: seq<Label>)
    requires Labelled(items, labels)
    ensures Labelled(AbsorbFrom(items, index, turns, options), labels)
    decreases |items|, |items| - index
  {
    if index < |items| {
      match ChooseNeighbour(items, index)
      case None => AbsorbKeepsLabels(items, index + 1, turns, options, labels);
      case Some(j) =>
        if !IsFragment(items[index], turns, options) {
          AbsorbKeepsLabels(items, index + 1, turns, options, labels);
        } else {
          var at := if j < index then j else index;
          AbsorbKeepsLabels(Join(items, at, items[j].speaker), at, turns, options, labels);
        }
    }
  }

  lemma {:induction false} RelabelKeepsLabels(items: seq<Segment>, index: nat, options: AlignmentOptions, labels: seq<Label>)
    requires Labelled(items, labels)
    ensures Labelled(RelabelUnknownFrom(items, index, options), labels)
    decreases |items| - index
  {
    if index < |items| {
      RelabelKeepsLabels(RelabelUnknownAt(items, index, options), index + 1, options, labels);
    }
  }

  lemma {:induction false} ReassessKeepsLabels(items: seq<Segment>, index: nat, turns: seq<Turn>, labels: seq<Label>)
    requires 0 < index && Labelled(items, labels)
    ensures Labelled(ReassessFrom(items, index, turns), labels)
    decreases |items| - index
  {
    if index + 1 < |items| {
      var next := if IsSandwiched(items, index, turns)
                  then items[index := items[index].(speaker := items[index - 1].speaker)] else items;
      ReassessKeepsLabels(next, index + 1, turns, labels);
    }
  }

  lemma {:induction false} MergeKeepsLabels(segments: seq<Segment>, maxGap: real, labels: seq<Label>)
    requires Labelled(segments, labels)
    ensures Labelled(Merge(segments, maxGap), labels)
  {
    if segments != [] {
      MergeKeepsLabels(segments[..|segments| - 1], maxGap, labels);
    }
  }

  method MergeAdjacentSameSpeaker(segments: seq<Segment>, maxGap: real) returns (merged: seq<Segment>)
    ensures merged == Merge(segments, maxGap)
  {
    merged := [];
    for k := 0 to |segments|
      invariant merged == Merge(segments[..k], maxGap)
    {
      assert segments[..k + 1][..k] == segments[..k];
      var last := |merged| - 1;
      if merged != [] && Mergeable(merged[last], segments[k], maxGap) {
        merged := merged[..last] + [CombineSegments(merged[last], segments[k], segments[k].speaker)];
      } else {
        merged := merged + [segments[k]];
      }
    }
    assert segments[..|segments|] == segments;
  }

  ghost predicate Numbered(items: seq<Segment>) {
    var labels := Appearance(items);
    forall k: nat | k < |labels| :: labels[k] == SpeakerName(k)
  }

  /** The passes after the split, up to the merge. */
  function Edited(split: seq<Segment>, turns: seq<Turn>, options: AlignmentOptions): seq<Segment> {
    Merge(ReassessFrom(AbsorbFrom(RelabelUnknownFrom(split, 0, options), 0, turns, options), 1, turns), options.mergeGap)
  }

  lemma EditingConserves(split: seq<Segment>, turns: seq<Turn>, options: AlignmentOptions)
    ensures Conserves(split, Edited(split, turns, options))
  {
    var relabelled := RelabelUnknownFrom(split, 0, options);
    var absorbed := AbsorbFrom(relabelled, 0, turns, options);
    var reassessed := ReassessFrom(absorbed, 1, turns);
    RelabelsConserves(split, relabelled);
    AbsorbConserves(relabelled, 0, turns, options);
    RelabelsConserves(absorbed, reassessed);
    MergeConserves(reassessed, options.mergeGap);
  }

  lemma EditingKeepsLabels(split: seq<Segment>, turns: seq<Turn>, options: AlignmentOptions, labels: seq<Label>)
    requires Labelled(split, labels)
    ensures Labelled(Edited(split, turns, options), labels)
  {
    var relabelled := RelabelUnknownFrom(split, 0, options);
    var absorbed := AbsorbFrom(relabelled, 0, turns, options);
    RelabelKeepsLabels(split, 0, options, labels);
    AbsorbKeepsLabels(relabelled, 0, turns, options, labels);
    ReassessKeepsLabels(absorbed, 1, turns, labels);
    MergeKeepsLabels(ReassessFrom(absorbed, 1, turns), options.mergeGap, labels);
  }

  method EditSegments(list: SegmentList, turns: seq<Turn>, options: AlignmentOptions) returns (merged: seq<Segment>)
    modifies list
    ensures merged == Edited(old(list.items), turns, options)
  {
    list.AbsorbShortUnknownSegments(options);
    var _ := list.AbsorbUnsupportedFragments(turns, options);
    list.ReassessSandwichedFragments(turns);
    merged := MergeAdjacentSameSpeaker(list.items, options.mergeGap);
  }

  method Renumber(segments: seq<Segment>) returns (r: seq<Segment>)
    ensures Renumbered(segments, r) && Conserves(segments, r) && Numbered(r)
    ensures (forall s | s in segments :: s.speaker.Some?) ==> forall s | s in r :: s.speaker.Some?
  {
    var list := new SegmentList.Of(segments);
    list.RenumberInAppearanceOrder();
    r := list.items;
    RenumberingConserves(segments, r);
  }

  lemma RenumberingConserves(before: seq<Segment>, after: seq<Segment>)
    requires Renumbered(before, after)
    ensures Conserves(before, after) && Numbered(after)
    ensures (forall s | s in before :: s.speaker.Some?) ==> forall s | s in after :: s.speaker.Some?
  {
    RelabelsConserves(before, after);
    RenumberedAppear(before, after);
  }

  /** The segment is labelled UNKNOWN or with the speaker of a turn. */
  ghost predicate FromTurns(s: Segment, turns: seq<Turn>) {
    s.speaker.Some? && (s.speaker.value == UNKNOWN || exists t :: t in turns && t.speaker == s.speaker.value)
  }

  lemma LabelledFromTurns(items: seq<Segment>, sourceTurns: seq<Turn>)
    requires Labelled(items, States(SortTurns(sourceTurns)))
    ensures forall s | s in items :: FromTurns(s, sourceTurns)
  {
    var turns := SortTurns(sourceTurns);
    forall s | s in items ensures FromTurns(s, sourceTurns) {
      if s.speaker.value != UNKNOWN {
        assert s.speaker.value in KnownSpeakers(turns);
        var t :| t in turns && t.speaker == s.speaker.value;
        assert t in multiset(turns);
        assert t in sourceTurns;
      }
    }
  }

  /** Align a transcription: no word is lost, duplicated or moved, whatever the thresholds. The
      ghost results say where the segments come from: the optimal word labels and the parts. */
  method AlignTranscription(segments: seq<Segment>, sourceTurns: seq<Turn>, language: string,
                            options: AlignmentOptions, boundaries: seq<Boundaries>)
    returns (merged: seq<Segment>, ghost wordLabels: seq<Label>, ghost parts: seq<seq<Segment>>)
    requires |boundaries| == |segments|
    requires options.fallbackCharactersPerSecond > 0.0 && options.fallbackMinDuration > 0.0
    ensures AllWords(merged) == AllWords(segments)
    ensures AllText(merged) == Retold(segments)
    ensures (forall s | s in segments && !IsTimed(s) :: ContainsWords(s)) ==> forall s | s in merged :: ContainsWords(s)
    ensures forall s | s in merged :: s.speaker.Some?
    ensures AllWords(segments) != [] ==>
              Viterbi.Optimal(WordChain(AllWords(segments), SortTurns(sourceTurns), options), wordLabels)
    ensures |parts| == |segments|
         && PartsOf(segments, wordLabels, SortTurns(sourceTurns), language, options, boundaries, parts)
    ensures var edited := Edited(Concat(parts), SortTurns(sourceTurns), options);
            if options.renumberSpeakers then Renumbered(edited, merged) && Numbered(merged)
            else merged == edited && forall s | s in merged :: FromTurns(s, sourceTurns)
  {
    var turns := SortTurns(sourceTurns);
    var list;
    list, wordLabels, parts := SplitAll(segments, turns, language, options, boundaries);
    assert segments[..|segments|] == segments;
    EditingConserves(list.items, turns, options);
    EditingKeepsLabels(list.items, turns, options, States(turns));
    merged := EditSegments(list, turns, options);
    LabelledFromTurns(merged, sourceTurns);
    if options.renumberSpeakers {
      merged := Renumber(merged);
    }
  }

  /** Text survives alignment unchanged exactly when retelling the timed segments reproduces it,
      as it does when each of them is the text of its words. */
  lemma {:induction false} RetellingIsFaithful(segments: seq<Segment>)
    requires forall s | s in segments && IsTimed(s) :: s.text == Text(s.words)
    ensures Retold(segments) == AllText(segments)
  {
    if segments != [] {
      RetellingIsFaithful(segments[..|segments| - 1]);
    }
  }

  lemma RankIsPosition(labels: seq<Label>, k: nat)
    requires k < |labels| && forall i, j | 0 <= i < j < |labels| :: labels[i] != labels[j]
    ensures IndexIn(labels[k], labels) == k
  {
    assert labels[IndexIn(labels[k], labels)] == labels[k];
  }

  /** The label at a position after renumbering is the name of that position. */
  ghost predicate NamesFollow(old_: seq<Label>, new_: seq<Label>, ranks: seq<Label>) {
    && |new_| == |old_|
    && forall k | 0 <= k < |old_| :: old_[k] in ranks && new_[k] == SpeakerName(IndexIn(old_[k], ranks))
  }

  lemma NamesFollowStep(old_: seq<Label>, new_: seq<Label>, ranks: seq<Label>, l: Label)
    requires NamesFollow(old_, new_, ranks) && l in ranks
    ensures l in old_ <==> SpeakerName(IndexIn(l, ranks)) in new_
  {
    forall k | 0 <= k < |old_| ensures new_[k] == SpeakerName(IndexIn(l, ranks)) ==> old_[k] == l {
      SpeakerNamesDiffer(IndexIn(l, ranks), IndexIn(old_[k], ranks));
    }
    if l in old_ {
      var k :| 0 <= k < |old_| && old_[k] == l;
      assert new_[k] == SpeakerName(IndexIn(l, ranks));
    }
  }

  /** Labels in order of appearance after one more speaker. */
  ghost function WithSpeaker(labels: seq<Label>, speaker: Option<Label>): seq<Label> {
    if Known(speaker) && speaker.value !in labels then labels + [speaker.value] else labels
  }

  lemma AppearanceSnoc(items: seq<Segment>, n: nat)
    requires n < |items|
    ensures Appearance(items[..n + 1]) == WithSpeaker(Appearance(items[..n]), items[n].speaker)
  {
    assert items[..n + 1][..n] == items[..n];
  }

  lemma NamesFollowMore(old_: seq<Label>, new_: seq<Label>, ranks: seq<Label>, l: Label)
    requires NamesFollow(old_, new_, ranks) && l in ranks && l != UNKNOWN
    ensures NamesFollow(WithSpeaker(old_, Some(l)), WithSpeaker(new_, Some(SpeakerName(IndexIn(l, ranks)))), ranks)
  {
    NamesFollowStep(old_, new_, ranks, l);
    SpeakerNamesDiffer(IndexIn(l, ranks), IndexIn(l, ranks));
  }

  lemma {:induction false} RenumberedFollow(before: seq<Segment>, after: seq<Segment>, n: nat)
    requires Renumbered(before, after) && n <= |before|
    ensures NamesFollow(Appearance(before[..n]), Appearance(after[..n]), Appearance(before))
  {
    if n > 0 {
      RenumberedFollow(before, after, n - 1);
      FollowOneMore(before, after, n - 1);
    }
  }

  lemma FollowOneMore(before: seq<Segment>, after: seq<Segment>, n: nat)
    requires Renumbered(before, after) && n < |before|
    requires NamesFollow(Appearance(before[..n]), Appearance(after[..n]), Appearance(before))
    ensures NamesFollow(Appearance(before[..n + 1]), Appearance(after[..n + 1]), Appearance(before))
  {
    AppearanceSnoc(before, n);
    AppearanceSnoc(after, n);
    assert before[n] in before;
    var old_, new_, speaker := Appearance(before[..n]), Appearance(after[..n]), before[n].speaker;
    if Known(speaker) {
      assert after[n].speaker == Some(SpeakerName(Rank(before, speaker.value)));
      NamesFollowMore(old_, new_, Appearance(before), speaker.value);
    } else {
      assert after[n] == before[n];
    }
  }

  /** Renumbered labels appear in the order of their numbers. */
  lemma RenumberedAppear(before: seq<Segment>, after: seq<Segment>)
    requires Renumbered(before, after)
    ensures Numbered(after)
  {
    RenumberedFollow(before, after, |before|);
    assert before[..|before|] == before && after[..|after|] == after;
    forall k: nat | k < |Appearance(after)| ensures Appearance(after)[k] == SpeakerName(k) {
      RankIsPosition(Appearance(before), k);
    }
  }
}
