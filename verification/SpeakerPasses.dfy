/** The passes that edit the speaker labels of one segment's words in place, between the
    Viterbi assignment and the split (`src/utteran/align.py`). */
module SpeakerPasses {
  import opened Basics
  import opened AlignTypes
  import opened SpeakerChanges

  method FillRange(speakers: array<Label>, lo: nat, hi: nat, x: Label)
    requires lo <= hi <= speakers.Length
    modifies speakers
    ensures IsFill(old(speakers[..]), speakers[..], lo, hi, x)
  {
    for k := lo to hi
      invariant forall j | 0 <= j < speakers.Length :: speakers[j] == if lo <= j < k then x else old(speakers[j])
    {
      speakers[k] := x;
    }
  }

  // ---------------------------------------------------------------- identical timestamps

  predicate SameInterval(a: Word, b: Word) {
    a.start == b.start && a.end == b.end
  }

  /** Words a..b are a maximal run of adjacent words that share one interval. */
  ghost predicate IsGroup(words: seq<Word>, a: nat, b: nat) {
    && a < b <= |words|
    && (forall k | a <= k < b :: SameInterval(words[k], words[a]))
    && (b < |words| ==> !SameInterval(words[b], words[a]))
    && (a > 0 ==> !SameInterval(words[a - 1], words[a]))
  }

  /** `x` occurs most often, and the leading label wins a tie it takes part in. */
  ghost predicate Majority(group: seq<Label>, x: Label) {
    && x in group
    && (forall y | y in group :: multiset(group)[y] <= multiset(group)[x])
    && (multiset(group)[group[0]] == multiset(group)[x] ==> x == group[0])
  }

  method MajorityLabel(group: seq<Label>) returns (selected: Label)
    requires group != []
    ensures Majority(group, selected)
  {
    var counts := multiset(group);
    var leading := group[0];
    selected := leading;
    var todo := set l | l in group;
    while todo != {}
      invariant selected in group
      invariant counts[leading] <= counts[selected]
      invariant counts[leading] == counts[selected] ==> selected == leading
      invariant forall l | l in group && l !in todo :: counts[l] <= counts[selected]
    {
      var l :| l in todo;
      if counts[l] > counts[selected] || (counts[l] == counts[selected] && l == leading) {
        selected := l;
      }
      todo := todo - {l};
    }
  }

  ghost predicate Settled(before: seq<Label>, now: seq<Label>, a: nat, b: nat)
    requires a < b <= |before| == |now|
  {
    Majority(before[a..b], now[a]) && forall k | a <= k < b :: now[k] == now[a]
  }

  /** Groups up to `index` share their majority label, the rest is untouched. */
  ghost predicate ProtectedUpTo(words: seq<Word>, before: seq<Label>, now: seq<Label>, index: nat) {
    && |words| == |before| == |now| && index <= |words|
    && (0 < index < |words| ==> !SameInterval(words[index - 1], words[index]))
    && (forall k | index <= k < |now| :: now[k] == before[k])
    && (forall a: nat, b: nat | IsGroup(words, a, b) && b <= index :: Settled(before, now, a, b))
  }

  /** Labels only come from before, and no change is added. */
  ghost predicate NoNewChange(before: seq<Label>, now: seq<Label>) {
    Changes(now) <= Changes(before) && forall l | l in now :: l in before
  }

  lemma ProtectStep(words: seq<Word>, before: seq<Label>, now: seq<Label>, next: seq<Label>,
                    index: nat, end: nat, selected: Label)
    requires ProtectedUpTo(words, before, now, index) && index < end <= |words|
    requires forall k | index <= k < end :: SameInterval(words[k], words[index])
    requires end < |words| ==> !SameInterval(words[end], words[index])
    requires Majority(before[index..end], selected) && IsFill(now, next, index, end, selected)
    ensures ProtectedUpTo(words, before, next, end)
  {
    GroupsEndAt(words, index, end);
    forall a: nat, b: nat | IsGroup(words, a, b) && b <= end
      ensures Settled(before, next, a, b)
    {
      if b <= index { assert Settled(before, now, a, b); }
    }
  }

  /** What protecting identical timestamps does: every group ends with its majority label. */
  ghost predicate Protected(words: seq<Word>, before: seq<Label>, now: seq<Label>) {
    && |words| == |before| == |now|
    && forall a: nat, b: nat | IsGroup(words, a, b) :: Settled(before, now, a, b)
  }

  method ProtectIdenticalTimestampGroups(words: seq<Word>, speakers: array<Label>)
    requires speakers.Length == |words|
    modifies speakers
    ensures Protected(words, old(speakers[..]), speakers[..])
    ensures NoNewChange(old(speakers[..]), speakers[..])
  {
    ghost var before := speakers[..];
    var index := 0;
    while index < |words|
      invariant index <= |words|
      invariant ProtectedUpTo(words, before, speakers[..], index)
      invariant NoNewChange(before, speakers[..])
    {
      var end := index + 1;
      while end < |words| && SameInterval(words[end], words[index])
        invariant index < end <= |words|
        invariant forall k | index <= k < end :: SameInterval(words[k], words[index])
      {
        end := end + 1;
      }
      ghost var now := speakers[..];
      var selected := ProtectGroup(speakers, index, end);
      assert now[index..end] == before[index..end];
      ProtectStep(words, before, now, speakers[..], index, end, selected);
      index := end;
    }
  }

  /** Give words index..end the label of the majority, unless they already agree. */
  method ProtectGroup(speakers: array<Label>, index: nat, end: nat) returns (selected: Label)
    requires index < end <= speakers.Length
    modifies speakers
    ensures Majority(old(speakers[index..end]), selected)
    ensures IsFill(old(speakers[..]), speakers[..], index, end, selected)
    ensures NoNewChange(old(speakers[..]), speakers[..])
  {
    ghost var now := speakers[..];
    var group := speakers[index..end];
    selected := group[0];
    if exists k | 0 <= k < |group| :: group[k] != group[0] {
      selected := MajorityLabel(group);
      ghost var at :| 0 <= at < |group| && group[at] == selected;
      FillRange(speakers, index, end, selected);
      FillNeverAddsChanges(now, speakers[..], index, end, index + at);
    }
  }

  /** Words with equal times between words with other times end with the label that most of them
      had; the first one's label wins a tie. */
  lemma EqualTimesTakeMajority(words: seq<Word>, before: seq<Label>, now: seq<Label>, a: nat, b: nat, k: nat)
    requires Protected(words, before, now) && a <= k < b <= |words|
    requires forall j | a <= j < b :: words[j].start == words[a].start && words[j].end == words[a].end
    requires a > 0 ==> words[a - 1].start != words[a].start || words[a - 1].end != words[a].end
    requires b < |words| ==> words[b].start != words[a].start || words[b].end != words[a].end
    ensures var group := before[a..b];
            && now[k] in group
            && (forall y | y in group :: multiset(group)[y] <= multiset(group)[now[k]])
            && (multiset(group)[before[a]] == multiset(group)[now[k]] ==> now[k] == before[a])
  {
    assert IsGroup(words, a, b);
    assert Settled(before, now, a, b);
  }

  /** Adjacent words with equal times end with the same speaker. */
  lemma SameIntervalSameSpeaker(words: seq<Word>, before: seq<Label>, now: seq<Label>, k: nat)
    requires Protected(words, before, now) && 0 < k < |words|
    requires words[k - 1].start == words[k].start && words[k - 1].end == words[k].end
    ensures now[k - 1] == now[k]
  {
    var a, b := k - 1, k + 1;
    while a > 0 && SameInterval(words[a - 1], words[k])
      invariant 0 <= a < k && forall j | a <= j <= k :: SameInterval(words[j], words[k])
    {
      a := a - 1;
    }
    while b < |words| && SameInterval(words[b], words[k])
      invariant k < b <= |words| && forall j | a <= j < b :: SameInterval(words[j], words[k])
    {
      b := b + 1;
    }
    assert IsGroup(words, a, b);
    assert Settled(before, now, a, b);
  }

  /** A group that ends by `end` either ended by `index` or is index..end. */
  lemma GroupsEndAt(words: seq<Word>, index: nat, end: nat)
    requires index < end <= |words|
    requires forall k | index <= k < end :: SameInterval(words[k], words[index])
    requires end < |words| ==> !SameInterval(words[end], words[index])
    requires 0 < index ==> !SameInterval(words[index - 1], words[index])
    ensures forall a: nat, b: nat | IsGroup(words, a, b) && b <= end :: b <= index || (a == index && b == end)
  {
    forall a: nat, b: nat | IsGroup(words, a, b) && index < b <= end
      ensures a == index && b == end
    {
      GroupIs(words, index, end, a, b);
    }
  }

  lemma GroupIs(words: seq<Word>, index: nat, end: nat, a: nat, b: nat)
    requires index < end <= |words|
    requires forall k | index <= k < end :: SameInterval(words[k], words[index])
    requires 0 < index ==> !SameInterval(words[index - 1], words[index])
    requires IsGroup(words, a, b) && index < b <= end
    ensures a == index && b == end
  {
    var last := words[b - 1];
    assert SameInterval(last, words[index]) && SameInterval(last, words[a]);
    assert a < index ==> SameInterval(words[index - 1], words[a]);
    assert a > index ==> SameInterval(words[a - 1], words[index]);
  }

  // ---------------------------------------------------------------- boundary snapping

  function Text(words: seq<Word>): string {
    if words == [] then "" else Text(words[..|words| - 1]) + words[|words| - 1].text
  }

  /** Character offset of the boundary before word `k`. */
  function Offset(words: seq<Word>, k: nat): nat
    requires k <= |words|
  {
    if k == 0 then 0 else Offset(words, k - 1) + |words[k - 1].text|
  }

  lemma OffsetsIncrease(words: seq<Word>, a: nat, b: nat)
    requires a <= b <= |words|
    ensures Offset(words, a) <= Offset(words, b)
  {
    if a < b { OffsetsIncrease(words, a, b - 1); }
  }

  function Distance(a: int, b: int): nat {
    if a <= b then b - a else a - b
  }

  predicate ContainsJapaneseScript(text: string) {
    exists k | 0 <= k < |text| ::
      0x3040 <= text[k] as int <= 0x30FF || 0x3400 <= text[k] as int <= 0x9FFF
  }

  predicate IsJapanese(language: string) {
    |language| >= 2 && language[0] in "jJ" && language[1] in "aA"
  }

  ghost predicate IsWordBoundary(words: seq<Word>, boundary: int) {
    exists k: nat :: k <= |words| && Offset(words, k) == boundary
  }

  ghost predicate IsCandidate(boundary: int, current: int, words: seq<Word>, maxDistance: int) {
    && IsWordBoundary(words, boundary)
    && current - maxDistance <= boundary <= current + maxDistance
  }

  /** `v` lies at some distance from `current`, and `b` is not nearer; at the same distance, `v`
      is the smaller one. */
  ghost predicate NoNearer(v: int, b: int, current: int, distance: int) {
    && (v == current - distance || v == current + distance)
    && (b <= current - distance || b >= current + distance)
    && (b == current - distance ==> v == b)
  }

  /** `r` is the token boundary nearest to `current` that is also a word boundary, the smaller on a tie. */
  ghost predicate IsNearest(r: Option<int>, current: int, boundaries: Option<set<int>>, words: seq<Word>, maxDistance: int) {
    match r
    case None => boundaries.None? || forall b | b in boundaries.value :: !IsCandidate(b, current, words, maxDistance)
    case Some(v) =>
      && boundaries.Some? && v in boundaries.value && IsCandidate(v, current, words, maxDistance)
      && exists distance: nat {:trigger Apart(v, current, distance)} ::
           Apart(v, current, distance)
           && forall b | b in boundaries.value && IsCandidate(b, current, words, maxDistance) :: NoNearer(v, b, current, distance)
  }

  method NearestBoundaryOffset(current: int, boundaries: Option<set<int>>, words: seq<Word>,
                               indexByOffset: map<int, nat>, maxDistance: int)
    returns (r: Option<int>)
    requires exists offsets :: IsOffsetTable(words, |words|, offsets, indexByOffset)
    ensures IsNearest(r, current, boundaries, words, maxDistance)
  {
    r := None;
    if boundaries.None? { return; }
    var todo := boundaries.value;
    while todo != {}
      invariant todo <= boundaries.value
      invariant r.None? ==> forall b | b in boundaries.value - todo :: !IsCandidate(b, current, words, maxDistance)
      invariant r.Some? ==> r.value in boundaries.value && IsCandidate(r.value, current, words, maxDistance)
      invariant r.Some? ==> forall b | b in boundaries.value - todo && IsCandidate(b, current, words, maxDistance) ::
                NoNearer(r.value, b, current, Distance(r.value, current))
    {
      var b := Pick(todo);
      assert b in indexByOffset <==> IsWordBoundary(words, b) by {
        var offsets :| IsOffsetTable(words, |words|, offsets, indexByOffset);
        TableHoldsBoundaries(words, offsets, indexByOffset, b);
      }
      if b in indexByOffset && Distance(b, current) <= maxDistance {
        if r.None? || Distance(b, current) < Distance(r.value, current)
           || (Distance(b, current) == Distance(r.value, current) && b <= r.value) {
          r := Some(b);
        }
      }
      todo := todo - {b};
    }
    if r.Some? { assert Apart(r.value, current, Distance(r.value, current)); }
  }

  ghost predicate Apart(a: int, b: int, distance: nat) {
    a == b - distance || a == b + distance
  }

  /** `c` is a change of speaker without a pause of `maxGap`, and both ends of word `k` lie
      within `maxCharacters` of it. */
  ghost predicate NearChange(words: seq<Word>, before: seq<Label>, options: AlignmentOptions, k: nat, c: nat)
    requires |words| == |before| && k < |words|
  {
    && 0 < c < |words| && before[c - 1] != before[c]
    && Max(0.0, words[c].start - words[c - 1].end) < options.boundarySnapMaxGap
    && Offset(words, c) - options.boundarySnapMaxCharacters <= Offset(words, k)
    && Offset(words, k + 1) <= Offset(words, c) + options.boundarySnapMaxCharacters
  }

  ghost predicate SnapAllowed(words: seq<Word>, before: seq<Label>, now: seq<Label>, options: AlignmentOptions)
    requires |words| == |before| == |now|
  {
    && NoNewChange(before, now)
    && (forall k: nat | k < |words| && now[k] != before[k] :: NearSomeChange(words, before, options, k))
  }

  ghost predicate NearSomeChange(words: seq<Word>, before: seq<Label>, options: AlignmentOptions, k: nat)
    requires |words| == |before| && k < |words|
  {
    exists c: nat :: NearChange(words, before, options, k, c)
  }

  /** Both tables of one segment: the offset of a boundary, and the last boundary at an offset. */
  ghost predicate IsOffsetTable(words: seq<Word>, n: nat, offsets: seq<nat>, indexByOffset: map<int, nat>) {
    && n <= |words| && |offsets| == n + 1
    && (forall k: nat | k <= n :: offsets[k] == Offset(words, k) && offsets[k] in indexByOffset)
    && (forall o | o in indexByOffset :: indexByOffset[o] <= n && offsets[indexByOffset[o]] == o)
    && (forall k: nat | k <= n :: k <= indexByOffset[offsets[k]])
  }

  method OffsetTable(words: seq<Word>) returns (offsets: seq<nat>, indexByOffset: map<int, nat>)
    ensures IsOffsetTable(words, |words|, offsets, indexByOffset)
  {
    offsets := [0];
    indexByOffset := map[0 := 0];
    for k := 0 to |words|
      invariant IsOffsetTable(words, k, offsets, indexByOffset)
    {
      var next := offsets[k] + |words[k].text|;
      assert next == Offset(words, k + 1);
      offsets := offsets + [next];
      indexByOffset := indexByOffset[next := k + 1];
    }
  }

  lemma TableHoldsBoundaries(words: seq<Word>, offsets: seq<nat>, indexByOffset: map<int, nat>, o: int)
    requires IsOffsetTable(words, |words|, offsets, indexByOffset)
    ensures o in indexByOffset <==> IsWordBoundary(words, o)
  {
    if o in indexByOffset { assert Offset(words, indexByOffset[o]) == o; }
    if IsWordBoundary(words, o) {
      var k: nat :| k <= |words| && Offset(words, k) == o;
      assert offsets[k] == o;
    }
  }

  /** Move one boundary of speakers at `index` to `target`. */
  method MoveBoundary(words: seq<Word>, speakers: array<Label>, index: nat, target: nat,
                      ghost before: seq<Label>, options: AlignmentOptions)
    requires speakers.Length == |words| == |before| && 0 < index < |words| && target <= |words|
    requires Offset(words, target) != Offset(words, index)
    requires Distance(Offset(words, target), Offset(words, index)) <= options.boundarySnapMaxCharacters
    requires before[index - 1] != before[index]
    requires Max(0.0, words[index].start - words[index - 1].end) < options.boundarySnapMaxGap
    requires SnapAllowed(words, before, speakers[..], options)
    modifies speakers
    ensures SnapAllowed(words, before, speakers[..], options)
    ensures IsFill(old(speakers[..]), speakers[..],
                   if target < index then target else index,
                   if target < index then index else target,
                   old(if target < index then speakers[index] else speakers[index - 1]))
  {
    ghost var now := speakers[..];
    if target < index {
      FillRange(speakers, target, index, speakers[index]);
      MoveAllowed(words, before, now, speakers[..], options, target, index, index, target, index + 1, index);
    } else {
      FillRange(speakers, index, target, speakers[index - 1]);
      MoveAllowed(words, before, now, speakers[..], options, index, target, index, index - 1, target, index - 1);
    }
  }

  /** Moving the change at `c` over [lo, hi) is allowed; [from, to) also has the word `at` whose
      label is taken. */
  lemma MoveAllowed(words: seq<Word>, before: seq<Label>, now: seq<Label>, next: seq<Label>, options: AlignmentOptions,
                    lo: nat, hi: nat, c: nat, from: nat, to: nat, at: nat)
    requires |words| == |before| == |now| && lo <= hi <= |words| && (c == lo || c == hi)
    requires 0 < c < |words| && before[c - 1] != before[c] && at < |now|
    requires Max(0.0, words[c].start - words[c - 1].end) < options.boundarySnapMaxGap
    requires Distance(Offset(words, lo), Offset(words, hi)) <= options.boundarySnapMaxCharacters
    requires SnapAllowed(words, before, now, options) && IsFill(now, next, lo, hi, now[at])
    requires (from == lo && to == hi + 1 && at == hi) || (from + 1 == lo && to == hi && at == from < to)
    ensures SnapAllowed(words, before, next, options)
  {
    MovedNear(words, before, options, lo, hi, c);
    WiderFill(now, next, lo, hi, from, to, at);
    SnapStep(words, before, now, next, options, from, to, at);
  }

  /** A fill may include the position whose label it takes. */
  lemma WiderFill(now: seq<Label>, next: seq<Label>, lo: nat, hi: nat, from: nat, to: nat, at: nat)
    requires at < |now| && lo <= hi <= |now| && IsFill(now, next, lo, hi, now[at])
    requires (from == lo && to == hi + 1 && at == hi) || (from + 1 == lo && to == hi && at == from)
    ensures IsFill(now, next, from, to, now[at])
  {
  }

  /** Every word between the old and the new boundary is near the change at `c`. */
  lemma MovedNear(words: seq<Word>, before: seq<Label>, options: AlignmentOptions, lo: nat, hi: nat, c: nat)
    requires |words| == |before| && lo <= hi <= |words| && (c == lo || c == hi)
    requires 0 < c < |words| && before[c - 1] != before[c]
    requires Max(0.0, words[c].start - words[c - 1].end) < options.boundarySnapMaxGap
    requires Distance(Offset(words, lo), Offset(words, hi)) <= options.boundarySnapMaxCharacters
    ensures forall k: nat | lo <= k < hi :: NearSomeChange(words, before, options, k)
  {
    forall k: nat | lo <= k < hi ensures NearSomeChange(words, before, options, k) {
      OffsetsIncrease(words, lo, k);
      OffsetsIncrease(words, k, k + 1);
      OffsetsIncrease(words, k + 1, hi);
      assert NearChange(words, before, options, k, c);
    }
  }

  lemma SnapStep(words: seq<Word>, before: seq<Label>, now: seq<Label>, next: seq<Label>, options: AlignmentOptions,
                 lo: nat, hi: nat, at: nat)
    requires |words| == |before| == |now| && SnapAllowed(words, before, now, options)
    requires lo <= at < hi <= |words| && IsFill(now, next, lo, hi, now[at])
    requires forall k: nat | lo <= k < hi && k != at :: NearSomeChange(words, before, options, k)
    ensures SnapAllowed(words, before, next, options)
  {
    FillNeverAddsChanges(now, next, lo, hi, at);
    forall l | l in next ensures l in before {
      var k :| 0 <= k < |next| && next[k] == l;
      assert l in now;
    }
  }

  /** Snapping is off, or the text cannot be analysed. */
  predicate SnapInert(words: seq<Word>, language: string, options: AlignmentOptions, boundaries: Option<set<int>>) {
    !options.boundarySnapEnabled || !IsJapanese(language) || !ContainsJapaneseScript(Text(words)) || boundaries.None?
  }

  /** Some character with a code in this range. */
  ghost predicate HasCharacter(text: string, low: int, high: int) {
    exists c :: c in text && low <= c as int <= high
  }

  ghost predicate SomeWordHas(words: seq<Word>, low: int, high: int) {
    exists w :: w in words && HasCharacter(w.text, low, high)
  }

  lemma {:induction false} HasInEither(a: string, b: string, low: int, high: int)
    ensures HasCharacter(a + b, low, high) <==> HasCharacter(a, low, high) || HasCharacter(b, low, high)
  {
    if c :| c in a && low <= c as int <= high { assert c in a + b; }
    if c :| c in b && low <= c as int <= high { assert c in a + b; }
  }

  lemma {:induction false} TextHasCharacters(words: seq<Word>, low: int, high: int)
    ensures HasCharacter(Text(words), low, high) <==> SomeWordHas(words, low, high)
  {
    if words != [] {
      var head, last := words[..|words| - 1], words[|words| - 1];
      TextHasCharacters(head, low, high);
      HasInEither(Text(head), last.text, low, high);
      assert words == head + [last];
    }
  }

  /** Snapping does nothing exactly when it is off, the language is not some form of Japanese, no
      word has a kana or a CJK ideograph, or the tokenizer is not there. */
  lemma SnapInertIff(words: seq<Word>, language: string, options: AlignmentOptions, boundaries: Option<set<int>>)
    ensures !SnapInert(words, language, options, boundaries)
       <==> && options.boundarySnapEnabled && boundaries.Some?
            && |language| >= 2 && (language[0] == 'j' || language[0] == 'J') && (language[1] == 'a' || language[1] == 'A')
            && (SomeWordHas(words, 0x3040, 0x30FF) || SomeWordHas(words, 0x3400, 0x9FFF))
  {
    TextHasCharacters(words, 0x3040, 0x30FF);
    TextHasCharacters(words, 0x3400, 0x9FFF);
    var text := Text(words);
    if ContainsJapaneseScript(text) {
      var k :| 0 <= k < |text| && (0x3040 <= text[k] as int <= 0x30FF || 0x3400 <= text[k] as int <= 0x9FFF);
      assert text[k] in text;
    }
  }

  /** The offset of a boundary is the length of the text before it. */
  lemma {:induction false} OffsetIsLength(words: seq<Word>, k: nat)
    requires k <= |words|
    ensures Offset(words, k) == |Text(words[..k])|
  {
    if k > 0 {
      OffsetIsLength(words, k - 1);
      assert words[..k][..k - 1] == words[..k - 1];
    }
  }

  /** Boundaries of the tokens of the selected unit and of phrases, from the tokenizer. */
  datatype Boundaries = Boundaries(unit: Option<set<int>>, phrase: Option<set<int>>)

  predicate SkipsChange(words: seq<Word>, s: seq<Label>, index: nat, options: AlignmentOptions)
    requires |words| == |s| && 0 < index < |s|
  {
    s[index - 1] == s[index] || Max(0.0, words[index].start - words[index - 1].end) >= options.boundarySnapMaxGap
  }

  /** The offset to move the boundary to: a phrase boundary elsewhere, else a token boundary elsewhere. */
  ghost predicate IsTarget(target: Option<int>, words: seq<Word>, index: nat, options: AlignmentOptions, b: Boundaries)
    requires index <= |words|
  {
    var current, reach := Offset(words, index), options.boundarySnapMaxCharacters;
    exists phrase, token ::
      && IsNearest(phrase, current, b.phrase, words, reach) && IsNearest(token, current, b.unit, words, reach)
      && var chosen := if phrase.Some? && phrase.value != current then phrase else token;
         target == if chosen.Some? && chosen.value != current then chosen else None
  }

  lemma NearestIsUnique(r: Option<int>, q: Option<int>, current: int, boundaries: Option<set<int>>, words: seq<Word>, reach: int)
    requires IsNearest(r, current, boundaries, words, reach) && IsNearest(q, current, boundaries, words, reach)
    ensures r == q
  {
  }

  lemma TargetIsUnique(target: Option<int>, other: Option<int>, words: seq<Word>, index: nat, options: AlignmentOptions, b: Boundaries)
    requires index <= |words| && IsTarget(target, words, index, options, b) && IsTarget(other, words, index, options, b)
    ensures target == other
  {
    var current, reach := Offset(words, index), options.boundarySnapMaxCharacters;
    forall p, q | IsNearest(p, current, b.phrase, words, reach) && IsNearest(q, current, b.phrase, words, reach) ensures p == q {
      NearestIsUnique(p, q, current, b.phrase, words, reach);
    }
    forall p, q | IsNearest(p, current, b.unit, words, reach) && IsNearest(q, current, b.unit, words, reach) ensures p == q {
      NearestIsUnique(p, q, current, b.unit, words, reach);
    }
  }

  /** What one change of speaker at `index` does to the labels. */
  ghost predicate SnapsOne(words: seq<Word>, s: seq<Label>, t: seq<Label>, index: nat, options: AlignmentOptions, b: Boundaries)
    requires |words| == |s| == |t| && 0 < index < |s|
  {
    if SkipsChange(words, s, index, options) then t == s
    else if IsTarget(None, words, index, options, b) then t == s
    else exists target: nat ::
           && target <= |words| && IsTarget(Some(Offset(words, target)), words, index, options, b)
           && MovesTo(words, s, t, index, target)
  }

  /** The boundary moves to the last word boundary at the target offset. */
  ghost predicate MovesTo(words: seq<Word>, s: seq<Label>, t: seq<Label>, index: nat, target: nat)
    requires |words| == |s| == |t| && 0 < index < |s| && target <= |words|
  {
    && (forall k: nat | target < k <= |words| :: Offset(words, k) != Offset(words, target))
    && if target < index then IsFill(s, t, target, index, s[index]) else IsFill(s, t, index, target, s[index - 1])
  }

  /** The labels before, between and after the treatment of the successive changes. */
  ghost predicate IsSnapTrace(words: seq<Word>, trace: seq<seq<Label>>, changes: seq<nat>, n: nat,
                              options: AlignmentOptions, b: Boundaries) {
    && |trace| == n + 1 && n <= |changes|
    && forall i: nat | i < n :: SnapStepAt(words, trace, changes, i, options, b)
  }

  ghost predicate SnapStepAt(words: seq<Word>, trace: seq<seq<Label>>, changes: seq<nat>, i: nat,
                             options: AlignmentOptions, b: Boundaries)
    requires i < |changes| && i + 1 < |trace|
  {
    && |trace[i]| == |trace[i + 1]| == |words| && 0 < changes[i] < |words|
    && SnapsOne(words, trace[i], trace[i + 1], changes[i], options, b)
  }

  lemma TraceGrows(words: seq<Word>, trace: seq<seq<Label>>, changes: seq<nat>, n: nat,
                   options: AlignmentOptions, b: Boundaries, next: seq<Label>)
    requires IsSnapTrace(words, trace, changes, n, options, b) && n < |changes|
    requires |trace[n]| == |next| == |words| && 0 < changes[n] < |words|
    requires SnapsOne(words, trace[n], next, changes[n], options, b)
    ensures IsSnapTrace(words, trace + [next], changes, n + 1, options, b)
  {
    var longer := trace + [next];
    forall i: nat | i < n + 1 ensures SnapStepAt(words, longer, changes, i, options, b) {
      if i < n { assert SnapStepAt(words, trace, changes, i, options, b); }
    }
  }

  predicate IsChange(s: seq<Label>, c: nat) {
    0 < c < |s| && s[c - 1] != s[c]
  }

  /** `changes` lists exactly the positions where a label differs from the previous one. */
  ghost predicate ListsChanges(s: seq<Label>, changes: seq<nat>) {
    && (forall i, j | 0 <= i < j < |changes| :: changes[i] < changes[j])
    && (forall i | 0 <= i < |changes| :: IsChange(s, changes[i]))
    && (forall c: nat | IsChange(s, c) :: c in changes)
  }

  /** What snapping does: the original changes are treated one after the other. */
  ghost predicate Snapped(words: seq<Word>, before: seq<Label>, now: seq<Label>, language: string,
                          options: AlignmentOptions, b: Boundaries) {
    if SnapInert(words, language, options, b.unit) then now == before
    else exists changes, trace ::
           && ListsChanges(before, changes) && IsSnapTrace(words, trace, changes, |changes|, options, b)
           && trace[0] == before && trace[|changes|] == now
  }

  method SnapSegmentSpeakerBoundaries(words: seq<Word>, speakers: array<Label>, language: string,
                                      options: AlignmentOptions, b: Boundaries)
    requires speakers.Length == |words|
    modifies speakers
    ensures Snapped(words, old(speakers[..]), speakers[..], language, options, b)
    ensures SnapAllowed(words, old(speakers[..]), speakers[..], options)
  {
    if SnapInert(words, language, options, b.unit) { return; }
    ghost var before := speakers[..];
    var offsets, indexByOffset := OffsetTable(words);
    var originalChanges := OriginalChanges(speakers);
    ghost var changes, trace := originalChanges, [before];
    for i := 0 to |originalChanges|
      invariant SnapAllowed(words, before, speakers[..], options)
      invariant IsSnapTrace(words, trace, changes, i, options, b)
      invariant trace[0] == before && trace[i] == speakers[..]
    {
      assert IsChange(before, originalChanges[i]);
      SnapOne(words, speakers, originalChanges[i], before, options, b, offsets, indexByOffset);
      TraceGrows(words, trace, changes, i, options, b, speakers[..]);
      trace := trace + [speakers[..]];
    }
  }

  method SnapOne(words: seq<Word>, speakers: array<Label>, index: nat, ghost before: seq<Label>,
                 options: AlignmentOptions, b: Boundaries, offsets: seq<nat>, indexByOffset: map<int, nat>)
    requires speakers.Length == |words| == |before| && 0 < index < |words| && before[index - 1] != before[index]
    requires IsOffsetTable(words, |words|, offsets, indexByOffset)
    requires SnapAllowed(words, before, speakers[..], options)
    modifies speakers
    ensures SnapAllowed(words, before, speakers[..], options)
    ensures SnapsOne(words, old(speakers[..]), speakers[..], index, options, b)
  {
    if speakers[index - 1] == speakers[index] { return; }
    var gap := Max(0.0, words[index].start - words[index - 1].end);
    if gap >= options.boundarySnapMaxGap { return; }
    var target := TargetOffset(words, index, options, b, offsets, indexByOffset);
    if target.None? { return; }
    TableHoldsBoundaries(words, offsets, indexByOffset, target.value);
    var targetIndex := indexByOffset[target.value];
    TableHoldsLast(words, offsets, indexByOffset, target.value);
    MoveBoundary(words, speakers, index, targetIndex, before, options);
    assert MovesTo(words, old(speakers[..]), speakers[..], index, targetIndex);
  }

  lemma TableHoldsLast(words: seq<Word>, offsets: seq<nat>, indexByOffset: map<int, nat>, o: int)
    requires IsOffsetTable(words, |words|, offsets, indexByOffset) && o in indexByOffset
    ensures Offset(words, indexByOffset[o]) == o
    ensures forall k: nat | indexByOffset[o] < k <= |words| :: Offset(words, k) != o
  {
    forall k: nat | k <= |words| && Offset(words, k) == o ensures k <= indexByOffset[o] {
      assert offsets[k] == o;
    }
  }

  method TargetOffset(words: seq<Word>, index: nat, options: AlignmentOptions, b: Boundaries,
                      offsets: seq<nat>, indexByOffset: map<int, nat>)
    returns (target: Option<int>)
    requires 0 < index < |words| && IsOffsetTable(words, |words|, offsets, indexByOffset)
    ensures IsTarget(target, words, index, options, b)
    ensures target.Some? ==> IsWordBoundary(words, target.value) && target.value != Offset(words, index)
    ensures target.Some? ==> Distance(target.value, Offset(words, index)) <= options.boundarySnapMaxCharacters
    ensures target.Some? ==> !IsTarget(None, words, index, options, b)
  {
    var current := offsets[index];
    var token := NearestBoundaryOffset(current, b.unit, words, indexByOffset, options.boundarySnapMaxCharacters);
    var phrase := NearestBoundaryOffset(current, b.phrase, words, indexByOffset, options.boundarySnapMaxCharacters);
    target := token;
    if phrase.Some? && phrase.value != current {
      target := phrase;
    }
    if target.None? || target.value == current {
      target := None;
    }
    assert IsTarget(target, words, index, options, b);
    if IsTarget(None, words, index, options, b) { TargetIsUnique(target, None, words, index, options, b); }
  }

  method OriginalChanges(speakers: array<Label>) returns (r: seq<nat>)
    ensures ListsChanges(speakers[..], r)
  {
    r := [];
    var k := 1;
    while k < speakers.Length
      invariant 1 <= k
      invariant forall i, j | 0 <= i < j < |r| :: r[i] < r[j]
      invariant forall i | 0 <= i < |r| :: r[i] < k && IsChange(speakers[..], r[i])
      invariant forall c: nat | c < k && IsChange(speakers[..], c) :: c in r
    {
      if speakers[k - 1] != speakers[k] { r := r + [k]; }
      k := k + 1;
    }
  }

  // ---------------------------------------------------------------- trailing responses

  predicate IsResponse(words: seq<Word>, current: Label, turn: Turn)
    requires words != []
  {
    var last := words[|words| - 1];
    && turn.speaker != current
    && 0.2 <= turn.end - turn.start <= 1.5
    && Overlap(last.start, last.end, turn.start, turn.end) > 0.0
    && turn.start - words[0].start >= 2.0
  }

  /** The turn overlaps the word clearly more than the current speaker does. */
  predicate ClearlyResponse(word: Word, turns: seq<Turn>, turn: Turn, current: Label) {
    Overlap(word.start, word.end, turn.start, turn.end)
    > SpeakerSupport(word.start, word.end, turns, current) + CLEAR_OVERLAP_MARGIN
  }

  /** A turn of another speaker of 0.2 to 1.5 seconds that starts at least two seconds after the
      first word and shares some time with the last one. */
  ghost predicate Responds(words: seq<Word>, current: Label, t: Turn)
    requires words != []
  {
    var last := words[|words| - 1];
    && t.speaker != current
    && t.start + 0.2 <= t.end <= t.start + 1.5
    && words[0].start + 2.0 <= t.start
    && last.start < last.end && last.start < t.end && t.start < last.end
  }

  lemma ResponseIsResponds(words: seq<Word>, current: Label, t: Turn)
    requires words != []
    ensures IsResponse(words, current, t) <==> Responds(words, current, t)
  {
  }

  /** The turn and the word share over 0.15 seconds more than the current speaker's turns share
      with the word. */
  ghost predicate HeardIn(word: Word, turns: seq<Turn>, t: Turn, current: Label) {
    var least := SpeakerSupport(word.start, word.end, turns, current) + 0.15;
    word.end - word.start > least && word.end - t.start > least && t.end - word.start > least && t.end - t.start > least
  }

  /** The longest suffix clearly spoken in `turn`, when it is neither empty nor everything. */
  ghost predicate RecoveredTail(words: seq<Word>, turns: seq<Turn>, before: seq<Label>, now: seq<Label>,
                                turn: Turn, suffix: nat)
    requires |words| == |before| == |now| && words != []
  {
    var current := before[|before| - 1];
    && turn in turns && Responds(words, current, turn)
    && 0 < suffix < |words|
    && !HeardIn(words[suffix - 1], turns, turn, current)
    && (forall k | suffix <= k < |words| :: HeardIn(words[k], turns, turn, current))
    && IsFill(before, now, suffix, |before|, turn.speaker)
  }

  /** `r` is a candidate of greatest (overlap with the last word, start) among `turns`. */
  ghost predicate IsBestResponse(words: seq<Word>, turns: seq<Turn>, current: Label, r: Option<Turn>)
    requires words != []
  {
    match r
    case None => forall t | t in turns :: !Responds(words, current, t)
    case Some(best) =>
      var last := words[|words| - 1];
      && best in turns && Responds(words, current, best)
      && forall t | t in turns && Responds(words, current, t) ::
           var mine, other := Overlap(last.start, last.end, best.start, best.end), Overlap(last.start, last.end, t.start, t.end);
           other < mine || (other == mine && t.start <= best.start)
  }

  method BestResponse(words: seq<Word>, turns: seq<Turn>, current: Label) returns (r: Option<Turn>)
    requires words != []
    ensures IsBestResponse(words, turns, current, r)
  {
    r := None;
    for k := 0 to |turns|
      invariant IsBestResponse(words, turns[..k], current, r)
    {
      assert turns[..k + 1] == turns[..k] + [turns[k]];
      ResponseIsResponds(words, current, turns[k]);
      if IsResponse(words, current, turns[k])
         && (r.None? || !ResponseKeyLeq(words[|words| - 1], turns[k], r.value)) {
        r := Some(turns[k]);
      }
    }
    assert turns[..|turns|] == turns;
  }

  predicate ResponseKeyLeq(word: Word, a: Turn, b: Turn) {
    var oa, ob := Overlap(word.start, word.end, a.start, a.end), Overlap(word.start, word.end, b.start, b.end);
    oa < ob || (oa == ob && a.start <= b.start)
  }

  /** The words clearly spoken in `turn` at the end are some of the words but not all. */
  ghost predicate HasTail(words: seq<Word>, turns: seq<Turn>, turn: Turn, current: Label)
    requires words != []
  {
    && HeardIn(words[|words| - 1], turns, turn, current)
    && exists k: nat :: k < |words| && !HeardIn(words[k], turns, turn, current)
  }

  /** What recovering a trailing response does. */
  ghost predicate Recovered(words: seq<Word>, turns: seq<Turn>, before: seq<Label>, now: seq<Label>) {
    && |words| == |before| == |now|
    && if |words| < 2 || words[|words| - 1].end - words[0].start < 2.0 then now == before
       else exists r ::
              && IsBestResponse(words, turns, before[|before| - 1], r)
              && if r.None? || !HasTail(words, turns, r.value, before[|before| - 1]) then now == before
                 else exists suffix: nat :: RecoveredTail(words, turns, before, now, r.value, suffix)
  }

  method RecoverSupportedTrailingResponse(words: seq<Word>, speakers: array<Label>, turns: seq<Turn>)
    requires speakers.Length == |words|
    modifies speakers
    ensures Recovered(words, turns, old(speakers[..]), speakers[..])
    ensures forall l | l in speakers[..] :: l in old(speakers[..]) || exists t :: t in turns && t.speaker == l
  {
    if |words| < 2 || words[|words| - 1].end - words[0].start < 2.0 { return; }
    ghost var before := speakers[..];
    var current := speakers[|words| - 1];
    var candidate := BestResponse(words, turns, current);
    if candidate.None? { return; }
    var turn := candidate.value;
    var suffix := |words|;
    while suffix > 0 && ClearlyResponse(words[suffix - 1], turns, turn, current)
      invariant 0 <= suffix <= |words|
      invariant forall k | suffix <= k < |words| :: HeardIn(words[k], turns, turn, current)
    {
      suffix := suffix - 1;
    }
    if suffix == |words| || suffix == 0 { return; }
    FillRange(speakers, suffix, |words|, turn.speaker);
    assert RecoveredTail(words, turns, before, speakers[..], turn, suffix);
  }

  /** Recovery can add at most one change. */
  lemma RecoveryAddsAtMostOneChange(words: seq<Word>, turns: seq<Turn>, before: seq<Label>, now: seq<Label>,
                                    turn: Turn, suffix: nat)
    requires |words| == |before| == |now| && words != []
    requires RecoveredTail(words, turns, before, now, turn, suffix)
    ensures Changes(now) <= Changes(before) + 1
  {
    FillTailAddsAtMostOne(before, now, suffix, turn.speaker);
  }
}
