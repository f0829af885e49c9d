/** What one word says about each speaker, and what a change of speaker costs
    (`src/utteran/align.py`). */
module SpeakerScores {
  import opened Basics
  import opened AlignTypes
  import opened Viterbi

  const EMISSION_SCALE_SECONDS := 0.3
  const SILENCE_PENALTY_SCALE := 0.15
  const CLEAR_BOUNDARY_PENALTY_SCALE := 0.2
  const UNKNOWN_TRANSITION_SCALE := 1.0

  // ---------------------------------------------------------------- states

  function InsertLabel(speaker: Label, sorted: seq<Label>): (r: seq<Label>)
    ensures forall l :: l in r <==> l == speaker || l in sorted
  {
    if sorted == [] then [speaker]
    else if sorted[0] == speaker then sorted
    else if LabelLeq(speaker, sorted[0]) then [speaker] + sorted
    else [sorted[0]] + InsertLabel(speaker, sorted[1..])
  }

  /** The distinct turn labels in code-point order. */
  function KnownSpeakers(turns: seq<Turn>): (r: seq<Label>)
    ensures forall l :: l in r <==> exists t :: t in turns && t.speaker == l
  {
    if turns == [] then []
    else
      var last := |turns| - 1;
      assert turns == turns[..last] + [turns[last]];
      InsertLabel(turns[last].speaker, KnownSpeakers(turns[..last]))
  }

  function States(turns: seq<Turn>): (r: seq<Label>)
    ensures UNKNOWN in r
  {
    KnownSpeakers(turns) + [UNKNOWN]
  }

  // ---------------------------------------------------------------- emissions

  function CappedOverlap(word: Word, turns: seq<Turn>, speaker: Label): (r: real)
    ensures r >= 0.0
  {
    Min(Max(0.0, word.end - word.start), SpeakerSupport(word.start, word.end, turns, speaker))
  }

  function MaximumOverlap(word: Word, turns: seq<Turn>, speakers: seq<Label>): (r: real)
    ensures r >= 0.0
    ensures forall s | s in speakers && s != UNKNOWN :: CappedOverlap(word, turns, s) <= r
    ensures r == 0.0 || exists s :: s in speakers && s != UNKNOWN && CappedOverlap(word, turns, s) == r
  {
    if speakers == [] then 0.0
    else
      var rest := MaximumOverlap(word, turns, speakers[1..]);
      if speakers[0] == UNKNOWN then rest else Max(CappedOverlap(word, turns, speakers[0]), rest)
  }

  /** Order of Python tuples (a, b, label). */
  predicate KeyLeq(a1: real, b1: real, l1: Label, a2: real, b2: real, l2: Label) {
    a1 < a2 || (a1 == a2 && (b1 < b2 || (b1 == b2 && LabelLeq(l1, l2))))
  }

  /** The turn that ends last among those ending at or before `time`. */
  function LatestEnding(turns: seq<Turn>, time: real): (r: Option<Turn>)
    ensures r.Some? ==> r.value in turns && r.value.end <= time
    ensures forall t | t in turns && t.end <= time :: r.Some? && t.end <= r.value.end
  {
    if turns == [] then None
    else
      var rest := LatestEnding(turns[1..], time);
      var t := turns[0];
      if t.end > time then rest
      else if rest.None? then Some(t)
      else if KeyLeq(t.end, t.start, t.speaker, rest.value.end, rest.value.start, rest.value.speaker) then rest
      else Some(t)
  }

  /** The turn that starts first among those starting at or after `time`. */
  function EarliestStarting(turns: seq<Turn>, time: real): (r: Option<Turn>)
    ensures r.Some? ==> r.value in turns && r.value.start >= time
    ensures forall t | t in turns && t.start >= time :: r.Some? && r.value.start <= t.start
  {
    if turns == [] then None
    else
      var rest := EarliestStarting(turns[1..], time);
      var t := turns[0];
      if t.start < time then rest
      else if rest.None? then Some(t)
      else if KeyLeq(rest.value.start, rest.value.end, rest.value.speaker, t.start, t.end, t.speaker) then rest
      else Some(t)
  }

  function SameSpeakerBridge(word: Word, turns: seq<Turn>, maxGap: real): (r: Option<Label>)
    ensures r.Some? ==> exists t :: t in turns && t.speaker == r.value
  {
    var left := LatestEnding(turns, word.start);
    var right := EarliestStarting(turns, word.end);
    if left.None? || right.None? then None
    else if left.value.speaker == right.value.speaker
         && word.start - left.value.end <= maxGap
         && right.value.start - word.end <= maxGap then Some(left.value.speaker)
    else None
  }

  lemma {:induction false} EndsLast(turns: seq<Turn>, time: real, t: Turn)
    requires t in turns && t.end <= time
    ensures var last := LatestEnding(turns, time).value;
            KeyLeq(t.end, t.start, t.speaker, last.end, last.start, last.speaker)
  {
    var first, rest := turns[0], LatestEnding(turns[1..], time);
    if t in turns[1..] {
      EndsLast(turns[1..], time, t);
      LabelLeqTotal(first.speaker, rest.value.speaker);
      if LabelLeq(t.speaker, rest.value.speaker) && LabelLeq(rest.value.speaker, first.speaker) {
        LabelLeqTransitive(t.speaker, rest.value.speaker, first.speaker);
      }
    } else {
      LabelLeqTotal(t.speaker, t.speaker);
    }
  }

  lemma {:induction false} StartsFirst(turns: seq<Turn>, time: real, t: Turn)
    requires t in turns && t.start >= time
    ensures var next := EarliestStarting(turns, time).value;
            KeyLeq(next.start, next.end, next.speaker, t.start, t.end, t.speaker)
  {
    var first, rest := turns[0], EarliestStarting(turns[1..], time);
    if t in turns[1..] {
      StartsFirst(turns[1..], time, t);
      LabelLeqTotal(first.speaker, rest.value.speaker);
      if LabelLeq(first.speaker, rest.value.speaker) && LabelLeq(rest.value.speaker, t.speaker) {
        LabelLeqTransitive(first.speaker, rest.value.speaker, t.speaker);
      }
    } else {
      LabelLeqTotal(t.speaker, t.speaker);
    }
  }

  /** No turn that ends by `time` comes after this one by end, start and label. */
  ghost predicate IsLastBefore(left: Turn, turns: seq<Turn>, time: real) {
    && left in turns && left.end <= time
    && forall t | t in turns && t.end <= time ::
         || t.end < left.end
         || (t.end == left.end && t.start < left.start)
         || (t.end == left.end && t.start == left.start && LabelLeq(t.speaker, left.speaker))
  }

  /** No turn that starts from `time` on comes before this one by start, end and label. */
  ghost predicate IsFirstAfter(right: Turn, turns: seq<Turn>, time: real) {
    && right in turns && right.start >= time
    && forall t | t in turns && t.start >= time ::
         || right.start < t.start
         || (right.start == t.start && right.end < t.end)
         || (right.start == t.start && right.end == t.end && LabelLeq(right.speaker, t.speaker))
  }

  lemma EndIsUnique(turns: seq<Turn>, time: real, left: Turn)
    ensures IsLastBefore(left, turns, time) <==> LatestEnding(turns, time) == Some(left)
  {
    var last := LatestEnding(turns, time);
    if last.Some? {
      forall t | t in turns && t.end <= time
        ensures KeyLeq(t.end, t.start, t.speaker, last.value.end, last.value.start, last.value.speaker)
      {
        EndsLast(turns, time, t);
      }
      LabelLeqTotal(left.speaker, last.value.speaker);
    }
  }

  lemma StartIsUnique(turns: seq<Turn>, time: real, right: Turn)
    ensures IsFirstAfter(right, turns, time) <==> EarliestStarting(turns, time) == Some(right)
  {
    var next := EarliestStarting(turns, time);
    if next.Some? {
      forall t | t in turns && t.start >= time
        ensures KeyLeq(next.value.start, next.value.end, next.value.speaker, t.start, t.end, t.speaker)
      {
        StartsFirst(turns, time, t);
      }
      LabelLeqTotal(right.speaker, next.value.speaker);
    }
  }

  /** A word is bridged exactly when the last turn before it and the first turn after it are of
      one speaker and neither lies further away than the greatest gap. */
  lemma BridgeIff(word: Word, turns: seq<Turn>, maxGap: real, speaker: Label)
    ensures SameSpeakerBridge(word, turns, maxGap) == Some(speaker)
       <==> exists left, right :: IsLastBefore(left, turns, word.start) && IsFirstAfter(right, turns, word.end)
                               && left.speaker == right.speaker == speaker
                               && word.start - left.end <= maxGap && right.start - word.end <= maxGap
  {
    forall left: Turn ensures IsLastBefore(left, turns, word.start) <==> LatestEnding(turns, word.start) == Some(left) {
      EndIsUnique(turns, word.start, left);
    }
    forall right: Turn ensures IsFirstAfter(right, turns, word.end) <==> EarliestStarting(turns, word.end) == Some(right) {
      StartIsUnique(turns, word.end, right);
    }
  }

  /** Score of one state for one word. */
  function EmissionScore(word: Word, turns: seq<Turn>, options: AlignmentOptions, state: Label): real {
    var maximum := MaximumOverlap(word, turns, KnownSpeakers(turns));
    if state == UNKNOWN then
      if maximum == 0.0 then options.unknownEmissionScore else -options.unknownEmissionScore
    else if maximum == 0.0 && SameSpeakerBridge(word, turns, options.maxSameSpeakerBridgeGap) == Some(state) then
      options.unknownEmissionScore + 0.05
    else
      Min(1.0, CappedOverlap(word, turns, state) / EMISSION_SCALE_SECONDS)
  }

  /** Some known speaker talks during the word. */
  ghost predicate Spoken(word: Word, turns: seq<Turn>) {
    exists t :: t in turns && t.speaker != UNKNOWN && word.start < word.end
             && Overlap(word.start, word.end, t.start, t.end) > 0.0
  }

  lemma SpokenIsMaximal(word: Word, turns: seq<Turn>)
    ensures Spoken(word, turns) <==> MaximumOverlap(word, turns, KnownSpeakers(turns)) > 0.0
  {
    var known := KnownSpeakers(turns);
    var maximum := MaximumOverlap(word, turns, known);
    if word.start < word.end {
      forall t | t in turns && t.speaker != UNKNOWN && Overlap(word.start, word.end, t.start, t.end) > 0.0
        ensures maximum > 0.0
      {
        SupportBounds(word.start, word.end, turns, t.speaker, t);
        assert t.speaker in known;
      }
      if forall t | t in turns && t.speaker != UNKNOWN :: Overlap(word.start, word.end, t.start, t.end) == 0.0 {
        forall s | s in known && s != UNKNOWN ensures CappedOverlap(word, turns, s) == 0.0 {
          SupportVanishes(word.start, word.end, turns, s);
        }
      }
    }
  }

  /** During speech a known speaker scores its share of 0.3 seconds, at most one, and UNKNOWN
      pays; in silence UNKNOWN scores, but less than a speaker who talks on both sides. */
  lemma EmissionRanking(word: Word, turns: seq<Turn>, options: AlignmentOptions, state: Label)
    requires state in KnownSpeakers(turns) && state != UNKNOWN
    ensures var known, unknown := EmissionScore(word, turns, options, state), EmissionScore(word, turns, options, UNKNOWN);
            if Spoken(word, turns) then
              && unknown == -options.unknownEmissionScore
              && var support := SpeakerSupport(word.start, word.end, turns, state);
                 known == Min(1.0, Min(word.end - word.start, support) / 0.3) && 0.0 <= known <= 1.0
            else
              && unknown == options.unknownEmissionScore
              && known == if SameSpeakerBridge(word, turns, options.maxSameSpeakerBridgeGap) == Some(state)
                          then unknown + 0.05 else 0.0
  {
    SpokenIsMaximal(word, turns);
    if Spoken(word, turns) { assert word.start < word.end; }
  }

  lemma SupportBounds(start: real, end: real, turns: seq<Turn>, speaker: Label, t: Turn)
    requires t in turns && t.speaker == speaker
    ensures SpeakerSupport(start, end, turns, speaker) >= Overlap(start, end, t.start, t.end)
  {
    var last := |turns| - 1;
    if turns[last] != t {
      SupportBounds(start, end, turns[..last], speaker, t);
    }
  }

  lemma SupportVanishes(start: real, end: real, turns: seq<Turn>, speaker: Label)
    requires forall t | t in turns && t.speaker == speaker :: Overlap(start, end, t.start, t.end) == 0.0
    ensures SpeakerSupport(start, end, turns, speaker) == 0.0
  {
    if turns != [] {
      SupportVanishes(start, end, turns[..|turns| - 1], speaker);
    }
  }

  // ---------------------------------------------------------------- transitions

  predicate Supports(t: Turn, word: Word, speaker: Label) {
    t.speaker == speaker && Overlap(word.start, word.end, t.start, t.end) > 0.0
  }

  /** The longest turn of the speaker that overlaps the word. */
  function SupportingTurnDuration(word: Word, speaker: Label, turns: seq<Turn>): (r: real)
    ensures forall t | t in turns && Supports(t, word, speaker) :: t.end - t.start <= r
    ensures if exists t :: t in turns && Supports(t, word, speaker)
            then exists t :: t in turns && Supports(t, word, speaker) && t.end - t.start == r
            else r == 0.0
  {
    if turns == [] then 0.0
    else
      var rest := SupportingTurnDuration(word, speaker, turns[1..]);
      var t := turns[0];
      if Supports(t, word, speaker)
      then Max(t.end - t.start, rest) else rest
  }

  predicate IsClearSupportedSwitch(previousWord: Word, word: Word, previous: Label, speaker: Label,
                                   turns: seq<Turn>, options: AlignmentOptions) {
    && previous != UNKNOWN && speaker != UNKNOWN
    && EmissionScore(previousWord, turns, options, previous)
       - EmissionScore(previousWord, turns, options, speaker) >= CLEAR_OVERLAP_MARGIN
    && EmissionScore(word, turns, options, speaker)
       - EmissionScore(word, turns, options, previous) >= CLEAR_OVERLAP_MARGIN
    && SupportingTurnDuration(previousWord, previous, turns) >= options.minClearTurnDuration
    && SupportingTurnDuration(word, speaker, turns) >= options.minClearTurnDuration
  }

  datatype SwitchKind = Same | AcrossSilence | Clear | Plain

  /** A silence makes a change cheap; otherwise clear acoustic support does. */
  function KindOfSwitch(previousWord: Word, word: Word, previous: Label, speaker: Label,
                        turns: seq<Turn>, options: AlignmentOptions): SwitchKind {
    var gap := Max(0.0, word.start - previousWord.end);
    if previous == speaker then Same
    else if gap >= options.silenceSwitchThreshold then AcrossSilence
    else if IsClearSupportedSwitch(previousWord, word, previous, speaker, turns, options) then Clear
    else Plain
  }

  function Charge(penalty: real, kind: SwitchKind, unknown: bool): real {
    var scaled := match kind
      case Same => 0.0
      case AcrossSilence => penalty * SILENCE_PENALTY_SCALE
      case Clear => penalty * CLEAR_BOUNDARY_PENALTY_SCALE
      case Plain => penalty;
    if unknown then scaled * UNKNOWN_TRANSITION_SCALE else scaled
  }

  function TransitionPenalty(previousWord: Word, word: Word, previous: Label, speaker: Label,
                             turns: seq<Turn>, options: AlignmentOptions): real {
    Charge(options.speakerSwitchPenalty,
           KindOfSwitch(previousWord, word, previous, speaker, turns, options),
           previous == UNKNOWN || speaker == UNKNOWN)
  }

  /** The minimum is not positive, or a turn of the speaker that long overlaps the word. */
  ghost predicate HasLongTurn(word: Word, speaker: Label, turns: seq<Turn>, minimum: real) {
    minimum <= 0.0 || exists t :: t in turns && IsLongTurn(t, word, speaker, minimum)
  }

  ghost predicate IsLongTurn(t: Turn, word: Word, speaker: Label, minimum: real) {
    && t.speaker == speaker && t.end - t.start >= minimum
    && word.start < t.end && t.start < word.end && word.start < word.end && t.start < t.end
  }

  lemma LongTurnSupports(word: Word, speaker: Label, turns: seq<Turn>, minimum: real)
    ensures SupportingTurnDuration(word, speaker, turns) >= minimum <==> HasLongTurn(word, speaker, turns, minimum)
  {
    var r := SupportingTurnDuration(word, speaker, turns);
    if exists t :: t in turns && Supports(t, word, speaker) {
      var t :| t in turns && Supports(t, word, speaker) && t.end - t.start == r;
      if r >= minimum { assert IsLongTurn(t, word, speaker, minimum); }
    }
    if u :| u in turns && IsLongTurn(u, word, speaker, minimum) { assert Supports(u, word, speaker); }
  }

  /** What a change of speaker costs, by the times of both words, the turns and the scores: 0.15
      of the penalty across a pause; below it 0.2 of the penalty exactly when both speakers are
      known, each leads by 0.15 on its own word and has a long enough turn there; all of it
      otherwise. */
  lemma SwitchCosts(previousWord: Word, word: Word, a: Label, b: Label, turns: seq<Turn>, options: AlignmentOptions)
    ensures var threshold, penalty, minimum :=
              options.silenceSwitchThreshold, options.speakerSwitchPenalty, options.minClearTurnDuration;
            TransitionPenalty(previousWord, word, a, b, turns, options)
            == if a == b then 0.0
               else if word.start - previousWord.end >= threshold || threshold <= 0.0 then 0.15 * penalty
               else if a != UNKNOWN && b != UNKNOWN
                 && EmissionScore(previousWord, turns, options, a) >= EmissionScore(previousWord, turns, options, b) + 0.15
                 && EmissionScore(word, turns, options, b) >= EmissionScore(word, turns, options, a) + 0.15
                 && HasLongTurn(previousWord, a, turns, minimum) && HasLongTurn(word, b, turns, minimum)
               then 0.2 * penalty
               else penalty
  {
    LongTurnSupports(previousWord, a, turns, options.minClearTurnDuration);
    LongTurnSupports(word, b, turns, options.minClearTurnDuration);
  }

  /** A penalty is the switch penalty times a weight in [0, 1]; only staying costs nothing. */
  lemma ChargeIsLinear(penalty: real, kind: SwitchKind, unknown: bool)
    ensures Charge(penalty, kind, unknown) == penalty * Charge(1.0, kind, unknown)
    ensures 0.0 <= Charge(1.0, kind, unknown) <= 1.0
    ensures Charge(1.0, kind, unknown) == 0.0 <==> kind == Same
  {}

  lemma EmissionIgnoresPenalty(word: Word, turns: seq<Turn>, options: AlignmentOptions, penalty: real, state: Label)
    ensures EmissionScore(word, turns, options.(speakerSwitchPenalty := penalty), state)
         == EmissionScore(word, turns, options, state)
  {}

  lemma ClearSwitchIgnoresPenalty(previousWord: Word, word: Word, previous: Label, speaker: Label,
                                  turns: seq<Turn>, options: AlignmentOptions, penalty: real)
    ensures IsClearSupportedSwitch(previousWord, word, previous, speaker, turns,
                                   options.(speakerSwitchPenalty := penalty))
        <==> IsClearSupportedSwitch(previousWord, word, previous, speaker, turns, options)
  {
    EmissionIgnoresPenalty(previousWord, turns, options, penalty, previous);
    EmissionIgnoresPenalty(previousWord, turns, options, penalty, speaker);
    EmissionIgnoresPenalty(word, turns, options, penalty, previous);
    EmissionIgnoresPenalty(word, turns, options, penalty, speaker);
  }

  lemma KindIgnoresPenalty(previousWord: Word, word: Word, previous: Label, speaker: Label,
                           turns: seq<Turn>, options: AlignmentOptions, penalty: real)
    ensures KindOfSwitch(previousWord, word, previous, speaker, turns, options.(speakerSwitchPenalty := penalty))
         == KindOfSwitch(previousWord, word, previous, speaker, turns, options)
  {
    ClearSwitchIgnoresPenalty(previousWord, word, previous, speaker, turns, options, penalty);
  }

  // ---------------------------------------------------------------- the chain of words

  lemma LabelOrder()
    ensures TotalOrder(LabelLeq)
  {
    forall a, b { LabelLeqTotal(a, b); }
    forall a, b, c | LabelLeq(a, b) && LabelLeq(b, c) ensures LabelLeq(a, c) { LabelLeqTransitive(a, b, c); }
  }

  /** The chain that the words, the turns and the options define. */
  function WordChain(words: seq<Word>, turns: seq<Turn>, options: AlignmentOptions): Chain<Label> {
    Chain(
      |words|,
      set s | s in States(turns),
      (k: nat, s: Label) => if k < |words| then EmissionScore(words[k], turns, options, s) else 0.0,
      (k: nat, a: Label, b: Label) =>
        if 0 < k < |words| then TransitionPenalty(words[k - 1], words[k], a, b, turns, options) else 0.0,
      LabelLeq)
  }

  /** One speaker for every word: the unique sequence of greatest total. */
  method AssignWordSpeakerSequence(words: seq<Word>, turns: seq<Turn>, options: AlignmentOptions)
    returns (sequence: seq<Label>)
    ensures |sequence| == |words|
    ensures forall l | l in sequence :: l == UNKNOWN || exists t :: t in turns && t.speaker == l
    ensures words != [] ==> Optimal(WordChain(words, turns, options), sequence)
  {
    if words == [] {
      return [];
    }
    var c := WordChain(words, turns, options);
    if KnownSpeakers(turns) == [] {
      sequence := seq(|words|, _ => UNKNOWN);
      OnlyPath(c, sequence);
      return;
    }
    LabelOrder();
    sequence := BestSequence(c, States(turns));
    assert IsPath(c, sequence);
  }

  lemma OnlyPath(c: Chain<Label>, path: seq<Label>)
    requires c.states == {UNKNOWN} && |path| == c.size >= 1
    requires forall k | 0 <= k < |path| :: path[k] == UNKNOWN
    ensures Optimal(c, path)
  {
    forall q | IsPath(c, q) && |q| == |path| ensures Beats(c, path, q) {
      assert q == path;
      BackwardLeqReflexive(c.leq, path);
    }
  }

  /** The kind of every possible change, which no penalty influences. */
  function KindAt(words: seq<Word>, turns: seq<Turn>, options: AlignmentOptions, k: nat, a: Label, b: Label): SwitchKind {
    if 0 < k < |words| then KindOfSwitch(words[k - 1], words[k], a, b, turns, options) else Same
  }

  lemma ChainByKind(words: seq<Word>, turns: seq<Turn>, options: AlignmentOptions, penalty: real)
    ensures var c := WordChain(words, turns, options.(speakerSwitchPenalty := penalty));
            && (forall k: nat, s: Label :: c.emit(k, s) == WordChain(words, turns, options).emit(k, s))
            && (forall k: nat, a: Label, b: Label ::
                  c.switch(k, a, b)
                  == Charge(penalty, KindAt(words, turns, options, k, a, b), a == UNKNOWN || b == UNKNOWN))
  {
    var c := WordChain(words, turns, options.(speakerSwitchPenalty := penalty));
    forall k: nat, s: Label ensures c.emit(k, s) == WordChain(words, turns, options).emit(k, s) {
      if k < |words| { EmissionIgnoresPenalty(words[k], turns, options, penalty, s); }
    }
    forall k: nat, a: Label, b: Label
      ensures c.switch(k, a, b)
           == Charge(penalty, KindAt(words, turns, options, k, a, b), a == UNKNOWN || b == UNKNOWN)
    {
      if 0 < k < |words| { KindIgnoresPenalty(words[k - 1], words[k], a, b, turns, options, penalty); }
    }
  }

  lemma ScalesByKind(c: Chain<Label>, unit: Chain<Label>, penalty: real, kind: (nat, Label, Label) -> SwitchKind)
    requires c.size == unit.size && c.states == unit.states
    requires forall k, s :: c.emit(k, s) == unit.emit(k, s)
    requires forall k, a, b :: c.switch(k, a, b) == Charge(penalty, kind(k, a, b), a == UNKNOWN || b == UNKNOWN)
    requires forall k, a, b :: unit.switch(k, a, b) == Charge(1.0, kind(k, a, b), a == UNKNOWN || b == UNKNOWN)
    ensures Scales(c, unit, penalty)
  {
    forall k: nat, a: Label, b: Label ensures c.switch(k, a, b) == penalty * unit.switch(k, a, b) {
      ChargeIsLinear(penalty, kind(k, a, b), a == UNKNOWN || b == UNKNOWN);
    }
  }

  lemma PenaltyScales(words: seq<Word>, turns: seq<Turn>, options: AlignmentOptions, penalty: real)
    ensures Scales(WordChain(words, turns, options.(speakerSwitchPenalty := penalty)),
                   WordChain(words, turns, options.(speakerSwitchPenalty := 1.0)), penalty)
  {
    ChainByKind(words, turns, options, penalty);
    ChainByKind(words, turns, options, 1.0);
    ScalesByKind(
      WordChain(words, turns, options.(speakerSwitchPenalty := penalty)),
      WordChain(words, turns, options.(speakerSwitchPenalty := 1.0)), penalty,
      (k: nat, a: Label, b: Label) => KindAt(words, turns, options, k, a, b));
  }

  /** Raising `speaker_switch_penalty` never increases the switching weight of the chosen
      sequence (nor, for a non-negative penalty, its emission total). */
  lemma PenaltyReducesSwitching(words: seq<Word>, turns: seq<Turn>, options: AlignmentOptions,
                                low: real, high: real, pathLow: seq<Label>, pathHigh: seq<Label>)
    requires low < high
    requires Optimal(WordChain(words, turns, options.(speakerSwitchPenalty := low)), pathLow)
    requires Optimal(WordChain(words, turns, options.(speakerSwitchPenalty := high)), pathHigh)
    ensures var unit := WordChain(words, turns, options.(speakerSwitchPenalty := 1.0));
            && SwitchTotal(unit, pathHigh) <= SwitchTotal(unit, pathLow)
            && (low >= 0.0 ==> EmissionTotal(unit, pathHigh) <= EmissionTotal(unit, pathLow))
  {
    PenaltyScales(words, turns, options, low);
    PenaltyScales(words, turns, options, high);
    LargerFactorSwitchesLess(
      WordChain(words, turns, options.(speakerSwitchPenalty := 1.0)),
      WordChain(words, turns, options.(speakerSwitchPenalty := low)),
      WordChain(words, turns, options.(speakerSwitchPenalty := high)),
      low, high, pathLow, pathHigh);
  }

  // ---------------------------------------------------------------- what the chosen labels satisfy

  /** The words are at least as far apart as the threshold. */
  ghost predicate Paused(previousWord: Word, word: Word, options: AlignmentOptions) {
    var threshold := options.silenceSwitchThreshold;
    threshold <= 0.0 || word.start - previousWord.end >= threshold
  }

  lemma PausedCost(previousWord: Word, word: Word, a: Label, b: Label, turns: seq<Turn>, options: AlignmentOptions)
    requires Paused(previousWord, word, options)
    ensures TransitionPenalty(previousWord, word, a, b, turns, options)
         == if a == b then 0.0 else 0.15 * options.speakerSwitchPenalty
  {
    SwitchCosts(previousWord, word, a, b, turns, options);
  }

  /** A word set off by pauses goes to a speaker that no other state beats by more than 0.15
      penalties for each of its neighbours. */
  lemma {:induction false} PausedWordFollowsItsScores(words: seq<Word>, turns: seq<Turn>, options: AlignmentOptions, path: seq<Label>,
                                   k: nat, s: Label)
    requires Optimal(WordChain(words, turns, options), path) && k < |words|
    requires s == UNKNOWN || exists t :: t in turns && t.speaker == s
    requires k > 0 ==> Paused(words[k - 1], words[k], options)
    requires k + 1 < |words| ==> Paused(words[k], words[k + 1], options)
    ensures var penalty := options.speakerSwitchPenalty;
            var slack := 0.15 * Max(penalty, -penalty);
            EmissionScore(words[k], turns, options, s) - EmissionScore(words[k], turns, options, path[k])
            <= (if k > 0 then slack else 0.0) + (if k + 1 < |words| then slack else 0.0)
  {
    var c := WordChain(words, turns, options);
    OptimalPlace(c, path, k, s);
    if k > 0 {
      PausedCost(words[k - 1], words[k], path[k - 1], path[k], turns, options);
      PausedCost(words[k - 1], words[k], path[k - 1], s, turns, options);
    }
    if k + 1 < |words| {
      PausedCost(words[k], words[k + 1], path[k], path[k + 1], turns, options);
      PausedCost(words[k], words[k + 1], s, path[k + 1], turns, options);
    }
  }

  /** Scores of one state for all words from position `k` on. */
  ghost function ScoreFrom(words: seq<Word>, turns: seq<Turn>, options: AlignmentOptions, k: nat, n: nat, s: Label): real
    requires k <= n <= |words|
  {
    if k == n then 0.0
    else ScoreFrom(words, turns, options, k, n - 1, s) + EmissionScore(words[n - 1], turns, options, s)
  }

  lemma {:induction false} ScoresOfState(c: Chain<Label>, words: seq<Word>, turns: seq<Turn>, options: AlignmentOptions,
                                         k: nat, n: nat, s: Label)
    requires k <= n <= |words|
    requires forall j: nat | j < |words| :: c.emit(j, s) == EmissionScore(words[j], turns, options, s)
    ensures StateTotal(c, k, n, s) == ScoreFrom(words, turns, options, k, n, s)
  {
    if k < n { ScoresOfState(c, words, turns, options, k, n - 1, s); }
  }

  lemma ChangeCharge(words: seq<Word>, turns: seq<Turn>, options: AlignmentOptions, k: nat, a: Label, b: Label)
    requires 0 < k < |words|
    ensures WordChain(words, turns, options).switch(k, a, b)
         == TransitionPenalty(words[k - 1], words[k], a, b, turns, options)
  {}

  /** The last change of speaker pays for itself: the words from there on score its speaker
      higher than the speaker before by at least what the change costs. */
  lemma {:induction false} LastChangePays(words: seq<Word>, turns: seq<Turn>, options: AlignmentOptions,
                                          path: seq<Label>, k: nat)
    requires Optimal(WordChain(words, turns, options), path) && 0 < k < |words|
    requires forall j | k <= j < |path| :: path[j] == path[k]
    ensures ScoreFrom(words, turns, options, k, |words|, path[k])
         >= ScoreFrom(words, turns, options, k, |words|, path[k - 1])
            + TransitionPenalty(words[k - 1], words[k], path[k - 1], path[k], turns, options)
  {
    var c := WordChain(words, turns, options);
    StayingIsFree(words, turns, options);
    OptimalRun(c, path, k);
    ScoresOfState(c, words, turns, options, k, |words|, path[k - 1]);
    ScoresOfState(c, words, turns, options, k, |words|, path[k]);
    ChangeCharge(words, turns, options, k, path[k - 1], path[k]);
  }

  lemma StayingIsFree(words: seq<Word>, turns: seq<Turn>, options: AlignmentOptions)
    ensures forall j: nat, s: Label :: WordChain(words, turns, options).switch(j, s, s) == 0.0
  {
  }

  /** Within running speech a last change without clear support is made only where the words from
      there on score its speaker higher by the whole penalty. */
  lemma {:induction false} UnsupportedChangePaysInFull(words: seq<Word>, turns: seq<Turn>, options: AlignmentOptions, path: seq<Label>, k: nat)
    requires Optimal(WordChain(words, turns, options), path) && 0 < k < |words|
    requires path[k - 1] != path[k] && forall j | k <= j < |path| :: path[j] == path[k]
    requires !Paused(words[k - 1], words[k], options)
    requires || UNKNOWN in {path[k - 1], path[k]}
             || EmissionScore(words[k - 1], turns, options, path[k - 1])
                < EmissionScore(words[k - 1], turns, options, path[k]) + 0.15
             || EmissionScore(words[k], turns, options, path[k])
                < EmissionScore(words[k], turns, options, path[k - 1]) + 0.15
             || !HasLongTurn(words[k - 1], path[k - 1], turns, options.minClearTurnDuration)
             || !HasLongTurn(words[k], path[k], turns, options.minClearTurnDuration)
    ensures ScoreFrom(words, turns, options, k, |words|, path[k])
         >= ScoreFrom(words, turns, options, k, |words|, path[k - 1]) + options.speakerSwitchPenalty
  {
    LastChangePays(words, turns, options, path, k);
    SwitchCosts(words[k - 1], words[k], path[k - 1], path[k], turns, options);
  }
}
