/** Diarization error rate (`src/utteran/diarization_quality.py`): sampling at midpoints, the
    speaker mapping, and what the mapping minimises. Values are taken before rounding. */
module DerScoring {
  import opened Basics
  import opened GreedyMatching

  /** An unknown or empty speaker is none. */
  datatype Turn = Turn(start: real, end: real, speaker: Option<nat>)

  /** One elementary interval with the speakers sampled at its midpoint. */
  datatype Sample = Sample(length: real, reference: Option<nat>, hypothesis: Option<nat>)

  // ---------------------------------------------------------------- sampling

  ghost predicate Ascending(bs: seq<real>) {
    forall i, j | 0 <= i < j < |bs| :: bs[i] < bs[j]
  }

  function Endpoints(turns: seq<Turn>): set<real> {
    (set t | t in turns :: t.start) + (set t | t in turns :: t.end)
  }

  ghost predicate BoundsTurns(bs: seq<real>, turns: seq<Turn>) {
    forall i {:trigger turns[i]} | 0 <= i < |turns| :: turns[i].start in bs && turns[i].end in bs
  }

  /** The first turn with a known speaker that contains the timestamp. */
  function SpeakerAt(timestamp: real, turns: seq<Turn>): Option<nat> {
    if turns == [] then None
    else if turns[0].start <= timestamp < turns[0].end && turns[0].speaker.Some? then turns[0].speaker
    else SpeakerAt(timestamp, turns[1..])
  }

  ghost predicate Talks(t: Turn, timestamp: real, speaker: nat) {
    t.speaker == Some(speaker) && t.start <= timestamp && timestamp < t.end
  }

  /** Of several turns with a known speaker at a timestamp the first one listed decides. */
  lemma {:induction false} FirstTalks(timestamp: real, turns: seq<Turn>, speaker: nat)
    ensures SpeakerAt(timestamp, turns) == Some(speaker)
       <==> exists i :: 0 <= i < |turns| && Talks(turns[i], timestamp, speaker)
                     && forall j, other | 0 <= j < i :: !Talks(turns[j], timestamp, other)
  {
    if turns != [] {
      FirstTalks(timestamp, turns[1..], speaker);
      if SpeakerAt(timestamp, turns) == Some(speaker) {
        if !Talks(turns[0], timestamp, speaker) {
          var i :| 0 <= i < |turns[1..]| && Talks(turns[1..][i], timestamp, speaker)
                   && forall j, other | 0 <= j < i :: !Talks(turns[1..][j], timestamp, other);
          forall j, other | 0 <= j < i + 1 ensures !Talks(turns[j], timestamp, other) {
            if j > 0 { assert turns[1..][j - 1] == turns[j]; }
          }
          assert turns[i + 1] == turns[1..][i];
        }
      }
      if i :| 0 <= i < |turns| && Talks(turns[i], timestamp, speaker)
              && forall j, other | 0 <= j < i :: !Talks(turns[j], timestamp, other) {
        if i > 0 {
          assert turns[1..][i - 1] == turns[i];
          forall j, other | 0 <= j < i - 1 ensures !Talks(turns[1..][j], timestamp, other) {
            assert turns[1..][j] == turns[j + 1];
          }
          assert turns[0].speaker.Some? ==> !Talks(turns[0], timestamp, turns[0].speaker.value);
        }
      }
    }
  }

  function Midpoint(bs: seq<real>, k: nat): real
    requires k + 1 < |bs|
  {
    (bs[k] + bs[k + 1]) / 2.0
  }

  /** No endpoint of a turn lies inside an elementary interval. */
  lemma EndpointsOutside(bs: seq<real>, k: nat, x: real)
    requires Ascending(bs) && k + 1 < |bs| && x in bs
    ensures x <= bs[k] || bs[k + 1] <= x
  {
    var i :| 0 <= i < |bs| && bs[i] == x;
  }

  /** Sampling at the midpoint is exact: every instant of an elementary interval has the speaker
      of its midpoint. */
  lemma {:induction false} MidpointIsExact(bs: seq<real>, k: nat, turns: seq<Turn>, x: real)
    requires Ascending(bs) && k + 1 < |bs| && BoundsTurns(bs, turns) && bs[k] <= x < bs[k + 1]
    ensures SpeakerAt(x, turns) == SpeakerAt(Midpoint(bs, k), turns)
  {
    if turns != [] {
      EndpointsOutside(bs, k, turns[0].start);
      EndpointsOutside(bs, k, turns[0].end);
      forall i | 0 <= i < |turns[1..]| ensures turns[1..][i].start in bs && turns[1..][i].end in bs {
        assert turns[1..][i] == turns[i + 1];
      }
      MidpointIsExact(bs, k, turns[1..], x);
    }
  }

  function SampleAt(bs: seq<real>, reference: seq<Turn>, hypothesis: seq<Turn>, k: nat): Sample
    requires k + 1 < |bs|
  {
    Sample(bs[k + 1] - bs[k], SpeakerAt(Midpoint(bs, k), reference), SpeakerAt(Midpoint(bs, k), hypothesis))
  }

  ghost function Samples(bs: seq<real>, reference: seq<Turn>, hypothesis: seq<Turn>): seq<Sample> {
    if |bs| < 2 then [] else seq(|bs| - 1, k requires 0 <= k < |bs| - 1 => SampleAt(bs, reference, hypothesis, k))
  }

  method SortedBoundaries(values: set<real>) returns (bs: seq<real>)
    ensures Ascending(bs) && forall x :: x in bs <==> x in values
  {
    bs := [];
    var left := values;
    while left != {}
      invariant left <= values && Ascending(bs)
      invariant forall x :: x in bs <==> x in values - left
      invariant forall x, y | x in bs && y in left :: x < y
      decreases |left|
    {
      var least := LeastOf(left);
      assert forall i | 0 <= i < |bs| :: bs[i] in bs;
      bs := bs + [least];
      left := left - {least};
    }
  }

  method LeastOf(values: set<real>) returns (least: real)
    requires values != {}
    ensures least in values && forall x: real {:trigger x in values} :: x in values ==> least <= x
  {
    least := Pick(values);
    var left := values - {least};
    while left != {}
      invariant left <= values && least in values
      invariant forall x: real {:trigger x in values} :: x in values && x !in left ==> least <= x
      decreases |left|
    {
      var x := Pick(left);
      left := left - {x};
      if x < least { least := x; }
    }
  }

  // ---------------------------------------------------------------- the components

  /** The mapped hypothesis speaker is this reference speaker. */
  predicate Matched(s: Sample, m: Mapping) {
    s.reference.Some? && s.hypothesis.Some? && s.hypothesis.value in m && m[s.hypothesis.value] == s.reference.value
  }

  datatype Kind = Silence | Miss | FalseAlarm | Confusion | Correct

  function KindOf(s: Sample, m: Mapping): Kind {
    if s.reference.Some? && s.hypothesis.None? then Miss
    else if s.reference.None? && s.hypothesis.Some? then FalseAlarm
    else if s.reference.None? then Silence
    else if Matched(s, m) then Correct else Confusion
  }

  /** Who is sampled on either side decides the kind, and only two speakers can be confused. */
  lemma KindsBySpeakers(s: Sample, m: Mapping)
    ensures KindOf(s, m).Silence? <==> s.reference == None && s.hypothesis == None
    ensures KindOf(s, m).Miss? <==> s.reference != None && s.hypothesis == None
    ensures KindOf(s, m).FalseAlarm? <==> s.reference == None && s.hypothesis != None
    ensures KindOf(s, m).Correct? <==> exists h :: h in m && s.hypothesis == Some(h) && s.reference == Some(m[h])
  {
    if KindOf(s, m).Correct? { assert s.hypothesis.value in m; }
  }

  /** Time of the first `n` samples that is of this kind. */
  ghost function Seconds(samples: seq<Sample>, n: nat, m: Mapping, kind: Kind): real
    requires n <= |samples|
  {
    if n == 0 then 0.0
    else Seconds(samples, n - 1, m, kind) + if KindOf(samples[n - 1], m) == kind then samples[n - 1].length else 0.0
  }

  ghost function ReferenceSeconds(samples: seq<Sample>, n: nat): real
    requires n <= |samples|
  {
    if n == 0 then 0.0
    else ReferenceSeconds(samples, n - 1) + if samples[n - 1].reference.Some? then samples[n - 1].length else 0.0
  }

  datatype Components = Components(reference: real, miss: real, falseAlarm: real, confusion: real, rate: real)

  ghost function Error(samples: seq<Sample>, m: Mapping): real {
    Seconds(samples, |samples|, m, Miss) + Seconds(samples, |samples|, m, FalseAlarm) + Seconds(samples, |samples|, m, Confusion)
  }

  /** A speaker without a mapping gets a label that no reference speaker has. */
  datatype Label = OfReference(speaker: nat) | Unmapped(speaker: nat)

  function MappedSpeakerAt(timestamp: real, turns: seq<Turn>, m: Mapping): Option<Label> {
    match SpeakerAt(timestamp, turns)
    case None => None
    case Some(s) => Some(if s in m then OfReference(m[s]) else Unmapped(s))
  }

  /** The branches of the loop tell the kind of the sample. */
  lemma BranchesTellKind(s: Sample, m: Mapping, heard: Option<Label>)
    requires heard == match s.hypothesis case None => None case Some(h) => Some(if h in m then OfReference(m[h]) else Unmapped(h))
    ensures KindOf(s, m).Miss? <==> s.reference.Some? && heard.None?
    ensures KindOf(s, m).FalseAlarm? <==> s.reference.None? && heard.Some?
    ensures KindOf(s, m).Confusion? <==> s.reference.Some? && heard.Some? && OfReference(s.reference.value) != heard.value
  {
  }

  /** The four totals of the loop after `n` intervals. */
  datatype Totals = Totals(speech: real, miss: real, falseAlarm: real, confusion: real)

  ghost predicate TotalsAt(t: Totals, samples: seq<Sample>, n: nat, m: Mapping)
    requires n <= |samples|
  {
    && t.speech == ReferenceSeconds(samples, n) && t.miss == Seconds(samples, n, m, Miss)
    && t.falseAlarm == Seconds(samples, n, m, FalseAlarm) && t.confusion == Seconds(samples, n, m, Confusion)
  }

  method Accumulate(boundaries: seq<real>, reference: seq<Turn>, hypothesis: seq<Turn>, m: Mapping) returns (t: Totals)
    requires boundaries != []
    ensures TotalsAt(t, Samples(boundaries, reference, hypothesis), |boundaries| - 1, m)
  {
    ghost var samples := Samples(boundaries, reference, hypothesis);
    t := Totals(0.0, 0.0, 0.0, 0.0);
    for k := 0 to |boundaries| - 1
      invariant TotalsAt(t, samples, k, m)
    {
      var midpoint := (boundaries[k] + boundaries[k + 1]) / 2.0;
      var spoken := SpeakerAt(midpoint, reference);
      var heard := MappedSpeakerAt(midpoint, hypothesis, m);
      var length := boundaries[k + 1] - boundaries[k];
      BranchesTellKind(samples[k], m, heard);
      if spoken.Some? { t := t.(speech := t.speech + length); }
      if spoken.Some? && heard.None? {
        t := t.(miss := t.miss + length);
      } else if spoken.None? && heard.Some? {
        t := t.(falseAlarm := t.falseAlarm + length);
      } else if spoken.Some? && heard.Some? && OfReference(spoken.value) != heard.value {
        t := t.(confusion := t.confusion + length);
      }
    }
  }

  /** Zero, the duration and all endpoints, in order. */
  ghost predicate IsBoundaries(bs: seq<real>, duration: real, reference: seq<Turn>, hypothesis: seq<Turn>) {
    && bs != [] && Ascending(bs)
    && forall x :: x in bs <==> x in {0.0, duration} + Endpoints(reference) + Endpoints(hypothesis)
  }

  method Boundaries(duration: real, reference: seq<Turn>, hypothesis: seq<Turn>) returns (bs: seq<real>)
    ensures IsBoundaries(bs, duration, reference, hypothesis) && Grid(bs, reference, hypothesis)
  {
    bs := SortedBoundaries({0.0, duration} + Endpoints(reference) + Endpoints(hypothesis));
    assert 0.0 in bs;
    forall i | 0 <= i < |reference| ensures reference[i].start in bs && reference[i].end in bs { assert reference[i] in reference; }
    forall i | 0 <= i < |hypothesis| ensures hypothesis[i].start in bs && hypothesis[i].end in bs { assert hypothesis[i] in hypothesis; }
  }

  /** The rate times the speech is the error, and it is zero without speech. */
  ghost predicate IsRate(rate: real, error: real, speech: real) {
    if speech == 0.0 then rate == 0.0 else rate * speech == error
  }

  function Rate(error: real, speech: real): (rate: real)
    ensures IsRate(rate, error, speech)
  {
    if speech != 0.0 then error / speech else 0.0
  }

  lemma SomeElement(s: seq<real>) returns (x: real)
    requires s != []
    ensures x in s
  {
    x := s[0];
  }

  /** An ascending list is determined by its elements. */
  lemma {:induction false} AscendingIsUnique(a: seq<real>, b: seq<real>)
    requires Ascending(a) && Ascending(b) && forall x :: x in a <==> x in b
    ensures a == b
  {
    if a == [] {
      if b != [] { var x := SomeElement(b); }
    } else {
      var m, n := |a| - 1, |b| - 1;
      assert a[m] in b && b[n] in a;
      forall x ensures x in a[..m] <==> x in b[..n] {
        assert x in a <==> x in a[..m] || x == a[m];
        assert x in b <==> x in b[..n] || x == b[n];
      }
      AscendingIsUnique(a[..m], b[..n]);
      assert a == a[..m] + [a[m]] && b == b[..n] + [b[n]];
    }
  }

  lemma SameBoundaries(a: seq<real>, b: seq<real>, duration: real, reference: seq<Turn>, hypothesis: seq<Turn>)
    requires IsBoundaries(a, duration, reference, hypothesis) && IsBoundaries(b, duration, reference, hypothesis)
    ensures a == b
  {
    AscendingIsUnique(a, b);
  }

  /** The totals of the elementary intervals between `bs`, and their error relative to speech. */
  ghost predicate Describes(r: Components, bs: seq<real>, reference: seq<Turn>, hypothesis: seq<Turn>, m: Mapping)
    requires bs != []
  {
    && TotalsAt(Totals(r.reference, r.miss, r.falseAlarm, r.confusion), Samples(bs, reference, hypothesis), |bs| - 1, m)
    && r.rate == Rate(Error(Samples(bs, reference, hypothesis), m), r.reference)
  }

  /** The components and the rate over the elementary intervals between the boundaries. */
  method DerComponents(duration: real, reference: seq<Turn>, hypothesis: seq<Turn>, m: Mapping) returns (r: Components)
    ensures forall bs | IsBoundaries(bs, duration, reference, hypothesis) :: Describes(r, bs, reference, hypothesis, m)
    ensures IsRate(r.rate, r.miss + r.falseAlarm + r.confusion, r.reference)
  {
    var boundaries := Boundaries(duration, reference, hypothesis);
    var t := Accumulate(boundaries, reference, hypothesis, m);
    r := Components(t.speech, t.miss, t.falseAlarm, t.confusion, Rate(t.miss + t.falseAlarm + t.confusion, t.speech));
    assert Describes(r, boundaries, reference, hypothesis, m);
    forall bs | IsBoundaries(bs, duration, reference, hypothesis)
      ensures Describes(r, bs, reference, hypothesis, m)
    {
      SameBoundaries(bs, boundaries, duration, reference, hypothesis);
    }
  }

  /** Miss, confusion and correct time make up the reference time. */
  lemma {:induction false} ReferenceIsPartitioned(samples: seq<Sample>, n: nat, m: Mapping)
    requires n <= |samples|
    ensures Seconds(samples, n, m, Miss) + Seconds(samples, n, m, Confusion) + Seconds(samples, n, m, Correct) == ReferenceSeconds(samples, n)
  {
    if n > 0 { ReferenceIsPartitioned(samples, n - 1, m); }
  }

  /** The mapping moves time only between confusion and correct. */
  lemma {:induction false} MappingMovesConfusionOnly(samples: seq<Sample>, n: nat, m: Mapping, k: Mapping)
    requires n <= |samples|
    ensures Seconds(samples, n, m, Miss) == Seconds(samples, n, k, Miss)
    ensures Seconds(samples, n, m, FalseAlarm) == Seconds(samples, n, k, FalseAlarm)
    ensures Seconds(samples, n, m, Confusion) + Seconds(samples, n, m, Correct) == Seconds(samples, n, k, Confusion) + Seconds(samples, n, k, Correct)
  {
    if n > 0 { MappingMovesConfusionOnly(samples, n - 1, m, k); }
  }

  // ---------------------------------------------------------------- overlap weights

  function Overlap(a: Turn, b: Turn): real {
    Max(0.0, Min(a.end, b.end) - Max(a.start, b.start))
  }

  /** Overlap of one hypothesis turn with the first `j` reference turns of speaker `r`. */
  function TurnOverlap(t: Turn, reference: seq<Turn>, j: nat, r: nat): real
    requires j <= |reference|
  {
    if j == 0 then 0.0
    else TurnOverlap(t, reference, j - 1, r) + if reference[j - 1].speaker == Some(r) then Overlap(t, reference[j - 1]) else 0.0
  }

  /** The weight of a pair of speakers: all overlaps between their turns. */
  function Weight(hypothesis: seq<Turn>, i: nat, reference: seq<Turn>, h: nat, r: nat): real
    requires i <= |hypothesis|
  {
    if i == 0 then 0.0
    else Weight(hypothesis, i - 1, reference, h, r)
         + if hypothesis[i - 1].speaker == Some(h) then TurnOverlap(hypothesis[i - 1], reference, |reference|, r) else 0.0
  }

  /** Turns last, and no two turns of known speakers overlap. */
  ghost predicate Disjoint(turns: seq<Turn>) {
    && (forall i {:trigger turns[i]} | 0 <= i < |turns| :: turns[i].start < turns[i].end)
    && (forall i, j {:trigger Apart(turns[i], turns[j])} | 0 <= i < j < |turns| :: Apart(turns[i], turns[j]))
  }

  ghost predicate Apart(a: Turn, b: Turn) {
    a.speaker.Some? && b.speaker.Some? ==> a.end <= b.start || b.end <= a.start
  }

  /** The turn spans elementary interval `k`. */
  ghost predicate Spans(t: Turn, bs: seq<real>, k: nat)
    requires k + 1 < |bs|
  {
    t.start <= bs[k] && bs[k + 1] <= t.end
  }

  /** Time of the first `n` intervals inside [lo, hi]. */
  ghost function Inside(bs: seq<real>, n: nat, lo: real, hi: real): real
    requires n < |bs|
  {
    if n == 0 then 0.0
    else Inside(bs, n - 1, lo, hi) + if lo <= bs[n - 1] && bs[n] <= hi then bs[n] - bs[n - 1] else 0.0
  }

  lemma {:induction false} InsideClamps(bs: seq<real>, n: nat, lo: real, hi: real)
    requires Ascending(bs) && n < |bs| && lo in bs && hi in bs
    ensures Inside(bs, n, lo, hi) == if lo > hi then 0.0 else Max(lo, Min(bs[n], hi)) - lo
  {
    if n == 0 {
      var i :| 0 <= i < |bs| && bs[i] == lo;
    } else {
      InsideClamps(bs, n - 1, lo, hi);
      EndpointsOutside(bs, n - 1, lo);
      EndpointsOutside(bs, n - 1, hi);
    }
  }

  ghost function Lo(a: Turn, b: Turn): real { Max(a.start, b.start) }
  ghost function Hi(a: Turn, b: Turn): real { Min(a.end, b.end) }

  /** The overlap of two turns is the time of the intervals that both span. */
  lemma OverlapIsInside(a: Turn, b: Turn, bs: seq<real>)
    requires Ascending(bs) && bs != [] && a.start in bs && a.end in bs && b.start in bs && b.end in bs
    ensures Overlap(a, b) == Inside(bs, |bs| - 1, Lo(a, b), Hi(a, b))
  {
    InsideClamps(bs, |bs| - 1, Lo(a, b), Hi(a, b));
    var i :| 0 <= i < |bs| && bs[i] == Hi(a, b);
  }

  /** Partial sums of the weights over the first `n` intervals. */
  ghost function TurnPart(t: Turn, reference: seq<Turn>, j: nat, r: nat, bs: seq<real>, n: nat): real
    requires j <= |reference| && n < |bs|
  {
    if j == 0 then 0.0
    else TurnPart(t, reference, j - 1, r, bs, n)
         + if reference[j - 1].speaker == Some(r) then Inside(bs, n, Lo(t, reference[j - 1]), Hi(t, reference[j - 1])) else 0.0
  }

  ghost function WeightPart(hypothesis: seq<Turn>, i: nat, reference: seq<Turn>, h: nat, r: nat, bs: seq<real>, n: nat): real
    requires i <= |hypothesis| && n < |bs|
  {
    if i == 0 then 0.0
    else WeightPart(hypothesis, i - 1, reference, h, r, bs, n)
         + if hypothesis[i - 1].speaker == Some(h) then TurnPart(hypothesis[i - 1], reference, |reference|, r, bs, n) else 0.0
  }

  /** One of the first `j` turns of speaker `r` spans the interval. */
  ghost predicate SpokenBy(turns: seq<Turn>, j: nat, r: nat, bs: seq<real>, k: nat)
    requires j <= |turns| && k + 1 < |bs|
  {
    j > 0 && (SpokenBy(turns, j - 1, r, bs, k) || (turns[j - 1].speaker == Some(r) && Spans(turns[j - 1], bs, k)))
  }

  lemma {:induction false} SpokenByWitness(turns: seq<Turn>, j: nat, r: nat, bs: seq<real>, k: nat) returns (i: nat)
    requires j <= |turns| && k + 1 < |bs| && SpokenBy(turns, j, r, bs, k)
    ensures i < j && turns[i].speaker == Some(r) && Spans(turns[i], bs, k)
  {
    if turns[j - 1].speaker == Some(r) && Spans(turns[j - 1], bs, k) { i := j - 1; } else { i := SpokenByWitness(turns, j - 1, r, bs, k); }
  }

  lemma {:induction false} SpokenByIntro(turns: seq<Turn>, j: nat, r: nat, bs: seq<real>, k: nat, i: nat)
    requires i < j <= |turns| && k + 1 < |bs| && turns[i].speaker == Some(r) && Spans(turns[i], bs, k)
    ensures SpokenBy(turns, j, r, bs, k)
  {
    if i < j - 1 { SpokenByIntro(turns, j - 1, r, bs, k, i); }
  }

  /** Only one known turn spans an interval. */
  lemma OneSpans(turns: seq<Turn>, bs: seq<real>, k: nat, i: nat, j: nat)
    requires Disjoint(turns) && Ascending(bs) && k + 1 < |bs| && i < |turns| && j < |turns|
    requires turns[i].speaker.Some? && turns[j].speaker.Some? && Spans(turns[i], bs, k) && Spans(turns[j], bs, k)
    ensures i == j
  {
    assert bs[k] < bs[k + 1];
    assert i < j ==> Apart(turns[i], turns[j]);
    assert j < i ==> Apart(turns[j], turns[i]);
  }

  lemma {:induction false} TurnPartStep(t: Turn, reference: seq<Turn>, j: nat, r: nat, bs: seq<real>, n: nat)
    requires Disjoint(reference) && Ascending(bs) && j <= |reference| && n + 1 < |bs|
    ensures TurnPart(t, reference, j, r, bs, n + 1)
         == TurnPart(t, reference, j, r, bs, n) + if Spans(t, bs, n) && SpokenBy(reference, j, r, bs, n) then bs[n + 1] - bs[n] else 0.0
  {
    if j > 0 {
      TurnPartStep(t, reference, j - 1, r, bs, n);
      if reference[j - 1].speaker == Some(r) && Spans(reference[j - 1], bs, n) && SpokenBy(reference, j - 1, r, bs, n) {
        var i := SpokenByWitness(reference, j - 1, r, bs, n);
        OneSpans(reference, bs, n, i, j - 1);
      }
    }
  }

  lemma {:induction false} WeightPartStep(hypothesis: seq<Turn>, i: nat, reference: seq<Turn>, h: nat, r: nat, bs: seq<real>, n: nat)
    requires Disjoint(reference) && Disjoint(hypothesis) && Ascending(bs) && i <= |hypothesis| && n + 1 < |bs|
    ensures WeightPart(hypothesis, i, reference, h, r, bs, n + 1)
         == WeightPart(hypothesis, i, reference, h, r, bs, n)
            + if SpokenBy(hypothesis, i, h, bs, n) && SpokenBy(reference, |reference|, r, bs, n) then bs[n + 1] - bs[n] else 0.0
  {
    if i > 0 {
      WeightPartStep(hypothesis, i - 1, reference, h, r, bs, n);
      TurnPartStep(hypothesis[i - 1], reference, |reference|, r, bs, n);
      if hypothesis[i - 1].speaker == Some(h) && Spans(hypothesis[i - 1], bs, n) && SpokenBy(hypothesis, i - 1, h, bs, n) {
        var j := SpokenByWitness(hypothesis, i - 1, h, bs, n);
        OneSpans(hypothesis, bs, n, j, i - 1);
      }
    }
  }

  lemma {:induction false} SpeakerAtWitness(x: real, turns: seq<Turn>) returns (i: nat)
    requires SpeakerAt(x, turns).Some?
    ensures i < |turns| && turns[i].speaker == SpeakerAt(x, turns) && turns[i].start <= x < turns[i].end
  {
    if turns[0].start <= x < turns[0].end && turns[0].speaker.Some? {
      i := 0;
    } else {
      i := SpeakerAtWitness(x, turns[1..]);
      i := i + 1;
    }
  }

  lemma {:induction false} SomeoneAt(x: real, turns: seq<Turn>, i: nat)
    requires i < |turns| && turns[i].speaker.Some? && turns[i].start <= x < turns[i].end
    ensures SpeakerAt(x, turns).Some?
  {
    if !(turns[0].start <= x < turns[0].end && turns[0].speaker.Some?) {
      assert turns[1..][i - 1] == turns[i];
      SomeoneAt(x, turns[1..], i - 1);
    }
  }

  /** The sampled speaker is the one whose turn spans the interval. */
  lemma SampledIsSpoken(turns: seq<Turn>, r: nat, bs: seq<real>, k: nat)
    requires Disjoint(turns) && Ascending(bs) && BoundsTurns(bs, turns) && k + 1 < |bs|
    ensures SpeakerAt(Midpoint(bs, k), turns) == Some(r) <==> SpokenBy(turns, |turns|, r, bs, k)
  {
    var x := Midpoint(bs, k);
    assert bs[k] < x < bs[k + 1] by { assert bs[k] < bs[k + 1]; }
    if SpeakerAt(x, turns) == Some(r) {
      var i := SpeakerAtWitness(x, turns);
      EndpointsOutside(bs, k, turns[i].start);
      EndpointsOutside(bs, k, turns[i].end);
      SpokenByIntro(turns, |turns|, r, bs, k, i);
    }
    if SpokenBy(turns, |turns|, r, bs, k) {
      var i := SpokenByWitness(turns, |turns|, r, bs, k);
      SomeoneAt(x, turns, i);
      var j := SpeakerAtWitness(x, turns);
      EndpointsOutside(bs, k, turns[j].start);
      EndpointsOutside(bs, k, turns[j].end);
      OneSpans(turns, bs, k, i, j);
    }
  }

  /** Time of the first `n` samples with this pair of speakers. */
  ghost function PairSeconds(samples: seq<Sample>, n: nat, h: nat, r: nat): real
    requires n <= |samples|
  {
    if n == 0 then 0.0
    else PairSeconds(samples, n - 1, h, r)
         + if samples[n - 1].hypothesis == Some(h) && samples[n - 1].reference == Some(r) then samples[n - 1].length else 0.0
  }

  lemma SampleFacts(bs: seq<real>, reference: seq<Turn>, hypothesis: seq<Turn>, h: nat, r: nat, k: nat)
    requires Disjoint(reference) && Disjoint(hypothesis) && Ascending(bs) && BoundsTurns(bs, reference) && BoundsTurns(bs, hypothesis) && k + 1 < |bs|
    ensures k < |Samples(bs, reference, hypothesis)|
    ensures var s := Samples(bs, reference, hypothesis)[k];
            && s.length == bs[k + 1] - bs[k]
            && (s.hypothesis == Some(h) <==> SpokenBy(hypothesis, |hypothesis|, h, bs, k))
            && (s.reference == Some(r) <==> SpokenBy(reference, |reference|, r, bs, k))
  {
    SampledIsSpoken(hypothesis, h, bs, k);
    SampledIsSpoken(reference, r, bs, k);
  }

  lemma {:induction false} PartsArePairSeconds(bs: seq<real>, reference: seq<Turn>, hypothesis: seq<Turn>, samples: seq<Sample>,
                                             h: nat, r: nat, n: nat)
    requires Disjoint(reference) && Disjoint(hypothesis) && Ascending(bs) && BoundsTurns(bs, reference) && BoundsTurns(bs, hypothesis) && n < |bs|
    requires samples == Samples(bs, reference, hypothesis) && |samples| == |bs| - 1
    ensures WeightPart(hypothesis, |hypothesis|, reference, h, r, bs, n) == PairSeconds(samples, n, h, r)
  {
    if n == 0 {
      NothingYet(hypothesis, |hypothesis|, reference, h, r, bs);
    } else {
      PartsArePairSeconds(bs, reference, hypothesis, samples, h, r, n - 1);
      SampleFacts(bs, reference, hypothesis, h, r, n - 1);
      PairStep(hypothesis, reference, samples, h, r, bs, n - 1);
    }
  }

  lemma PairStep(hypothesis: seq<Turn>, reference: seq<Turn>, samples: seq<Sample>, h: nat, r: nat, bs: seq<real>, k: nat)
    requires Disjoint(reference) && Disjoint(hypothesis) && Ascending(bs) && k + 1 < |bs| && |samples| == |bs| - 1
    requires samples[k].length == bs[k + 1] - bs[k]
    requires samples[k].hypothesis == Some(h) <==> SpokenBy(hypothesis, |hypothesis|, h, bs, k)
    requires samples[k].reference == Some(r) <==> SpokenBy(reference, |reference|, r, bs, k)
    ensures WeightPart(hypothesis, |hypothesis|, reference, h, r, bs, k + 1) - WeightPart(hypothesis, |hypothesis|, reference, h, r, bs, k)
         == PairSeconds(samples, k + 1, h, r) - PairSeconds(samples, k, h, r)
  {
    WeightPartStep(hypothesis, |hypothesis|, reference, h, r, bs, k);
  }

  lemma {:induction false} NothingYetTurn(t: Turn, reference: seq<Turn>, j: nat, r: nat, bs: seq<real>)
    requires j <= |reference| && bs != []
    ensures TurnPart(t, reference, j, r, bs, 0) == 0.0
  {
    if j > 0 { NothingYetTurn(t, reference, j - 1, r, bs); }
  }

  lemma {:induction false} NothingYet(hypothesis: seq<Turn>, i: nat, reference: seq<Turn>, h: nat, r: nat, bs: seq<real>)
    requires i <= |hypothesis| && bs != []
    ensures WeightPart(hypothesis, i, reference, h, r, bs, 0) == 0.0
  {
    if i > 0 {
      NothingYet(hypothesis, i - 1, reference, h, r, bs);
      NothingYetTurn(hypothesis[i - 1], reference, |reference|, r, bs);
    }
  }

  lemma {:induction false} OverlapParts(t: Turn, reference: seq<Turn>, j: nat, r: nat, bs: seq<real>)
    requires Ascending(bs) && bs != [] && BoundsTurns(bs, reference) && t.start in bs && t.end in bs && j <= |reference|
    ensures TurnOverlap(t, reference, j, r) == TurnPart(t, reference, j, r, bs, |bs| - 1)
  {
    if j > 0 {
      OverlapParts(t, reference, j - 1, r, bs);
      OverlapIsInside(t, reference[j - 1], bs);
    }
  }

  lemma {:induction false} WeightParts(hypothesis: seq<Turn>, i: nat, reference: seq<Turn>, h: nat, r: nat, bs: seq<real>)
    requires Ascending(bs) && bs != [] && BoundsTurns(bs, reference) && BoundsTurns(bs, hypothesis) && i <= |hypothesis|
    ensures Weight(hypothesis, i, reference, h, r) == WeightPart(hypothesis, i, reference, h, r, bs, |bs| - 1)
  {
    if i > 0 {
      WeightParts(hypothesis, i - 1, reference, h, r, bs);
      OverlapParts(hypothesis[i - 1], reference, |reference|, r, bs);
    }
  }

  /** For turns that do not overlap, the weight of a pair of speakers is the time the samples give
      both. */
  lemma WeightIsPairSeconds(bs: seq<real>, reference: seq<Turn>, hypothesis: seq<Turn>, h: nat, r: nat)
    requires Disjoint(reference) && Disjoint(hypothesis) && Ascending(bs) && bs != [] && BoundsTurns(bs, reference) && BoundsTurns(bs, hypothesis)
    ensures var samples := Samples(bs, reference, hypothesis);
            Weight(hypothesis, |hypothesis|, reference, h, r) == PairSeconds(samples, |samples|, h, r)
  {
    WeightParts(hypothesis, |hypothesis|, reference, h, r, bs);
    PartsArePairSeconds(bs, reference, hypothesis, Samples(bs, reference, hypothesis), h, r, |bs| - 1);
  }

  // ---------------------------------------------------------------- arrangements

  /** All ways to choose `k` different elements of `s` in order, in the order of positions. */
  function Arrangements(s: seq<nat>, k: nat): seq<seq<nat>> {
    if k == 0 then [[]] else ExtendAll(s, Arrangements(s, k - 1), |Arrangements(s, k - 1)|)
  }

  function ExtendAll(s: seq<nat>, prefixes: seq<seq<nat>>, n: nat): seq<seq<nat>>
    requires n <= |prefixes|
  {
    if n == 0 then [] else ExtendAll(s, prefixes, n - 1) + ExtendOne(s, prefixes[n - 1], |s|)
  }

  function ExtendOne(s: seq<nat>, prefix: seq<nat>, n: nat): seq<seq<nat>>
    requires n <= |s|
  {
    if n == 0 then [] else ExtendOne(s, prefix, n - 1) + if s[n - 1] in prefix then [] else [prefix + [s[n - 1]]]
  }

  ghost predicate Arrangement(a: seq<nat>, s: seq<nat>, k: nat) {
    |a| == k && NoRepeats(a) && forall x | x in a :: x in s
  }

  lemma {:induction false} ExtendOneMembers(s: seq<nat>, prefix: seq<nat>, n: nat, a: seq<nat>)
    requires n <= |s|
    ensures a in ExtendOne(s, prefix, n) <==> |a| == |prefix| + 1 && a[..|prefix|] == prefix && a[|prefix|] in s[..n] && a[|prefix|] !in prefix
  {
    if n > 0 {
      ExtendOneMembers(s, prefix, n - 1, a);
      assert s[..n] == s[..n - 1] + [s[n - 1]];
      var one := prefix + [s[n - 1]];
      assert one[..|prefix|] == prefix && one[|prefix|] == s[n - 1];
      assert |a| == |prefix| + 1 && a[..|prefix|] == prefix ==> a == prefix + [a[|prefix|]];
    }
  }

  lemma {:induction false} ExtendAllMembers(s: seq<nat>, prefixes: seq<seq<nat>>, n: nat, a: seq<nat>) returns (i: nat)
    requires n <= |prefixes|
    ensures a in ExtendAll(s, prefixes, n) ==> i < n && a in ExtendOne(s, prefixes[i], |s|)
  {
    i := 0;
    if n > 0 {
      if a in ExtendOne(s, prefixes[n - 1], |s|) { i := n - 1; } else { i := ExtendAllMembers(s, prefixes, n - 1, a); }
    }
  }

  lemma {:induction false} ExtendAllHas(s: seq<nat>, prefixes: seq<seq<nat>>, n: nat, a: seq<nat>, i: nat)
    requires i < n <= |prefixes| && a in ExtendOne(s, prefixes[i], |s|)
    ensures a in ExtendAll(s, prefixes, n)
  {
    if i < n - 1 { ExtendAllHas(s, prefixes, n - 1, a, i); }
  }

  ghost predicate AllArranged(all: seq<seq<nat>>, s: seq<nat>, k: nat) {
    forall i {:trigger all[i]} | 0 <= i < |all| :: Arrangement(all[i], s, k)
  }

  lemma {:induction false} ListedAreArrangements(s: seq<nat>, k: nat)
    ensures AllArranged(Arrangements(s, k), s, k)
  {
    if k > 0 {
      ListedAreArrangements(s, k - 1);
      ExtendsArrangements(s, Arrangements(s, k - 1), k);
    }
  }

  lemma ExtendsArrangements(s: seq<nat>, prefixes: seq<seq<nat>>, k: nat)
    requires k > 0 && AllArranged(prefixes, s, k - 1)
    ensures AllArranged(ExtendAll(s, prefixes, |prefixes|), s, k)
  {
    var all := ExtendAll(s, prefixes, |prefixes|);
    forall i {:trigger all[i]} | 0 <= i < |all| ensures Arrangement(all[i], s, k) {
      assert all[i] in all;
      var p := LastExtended(s, prefixes, all[i]);
      var j :| 0 <= j < |prefixes| && prefixes[j] == p;
      ArrangesOneMore(prefixes[j], s, k, all[i]);
    }
  }

  lemma ArrangesOneMore(p: seq<nat>, s: seq<nat>, k: nat, a: seq<nat>)
    requires k > 0 && |a| == |p| + 1 && Arrangement(p, s, k - 1) && a == p + [a[k - 1]] && a[k - 1] in s && a[k - 1] !in p
    ensures Arrangement(a, s, k)
  {
  }

  lemma LastExtended(s: seq<nat>, prefixes: seq<seq<nat>>, a: seq<nat>) returns (p: seq<nat>)
    requires a in ExtendAll(s, prefixes, |prefixes|)
    ensures p in prefixes && |a| == |p| + 1 && a == p + [a[|p|]] && a[|p|] in s && a[|p|] !in p
  {
    var i := ExtendAllMembers(s, prefixes, |prefixes|, a);
    p := prefixes[i];
    ExtendOneMembers(s, p, |s|, a);
    assert s[..|s|] == s;
  }

  lemma {:induction false} ArrangementIsListed(s: seq<nat>, k: nat, a: seq<nat>)
    requires Arrangement(a, s, k)
    ensures a in Arrangements(s, k)
  {
    if k == 0 {
      assert a == [];
    } else {
      var p := a[..k - 1];
      assert forall x | x in p :: x in a;
      ArrangementIsListed(s, k - 1, p);
      var prefixes := Arrangements(s, k - 1);
      var i :| 0 <= i < |prefixes| && prefixes[i] == p;
      assert a[k - 1] in a && a[k - 1] !in p && s[..|s|] == s;
      ExtendOneMembers(s, p, |s|, a);
      ExtendAllHas(s, prefixes, |prefixes|, a, i);
    }
  }

  // ---------------------------------------------------------------- the mapping

  /** The mapping that pairs the lists up. */
  function Paired(hs: seq<nat>, rs: seq<nat>, n: nat): Mapping
    requires n <= |hs| && n <= |rs|
  {
    if n == 0 then map[] else Paired(hs, rs, n - 1)[hs[n - 1] := rs[n - 1]]
  }

  /** The weights of the first `n` pairs. */
  function PairScore(hypothesis: seq<Turn>, reference: seq<Turn>, hs: seq<nat>, rs: seq<nat>, n: nat): real
    requires n <= |hs| && n <= |rs|
  {
    if n == 0 then 0.0 else PairScore(hypothesis, reference, hs, rs, n - 1) + Weight(hypothesis, |hypothesis|, reference, hs[n - 1], rs[n - 1])
  }

  ghost predicate Positive(samples: seq<Sample>) {
    forall i {:trigger samples[i]} | 0 <= i < |samples| :: samples[i].length > 0.0
  }

  lemma {:induction false} PairedKeys(hs: seq<nat>, rs: seq<nat>, n: nat, h: nat)
    requires n <= |hs| && n <= |rs|
    ensures h in Paired(hs, rs, n) <==> h in hs[..n]
    ensures h in Paired(hs, rs, n) ==> Paired(hs, rs, n)[h] in rs[..n]
  {
    if n > 0 {
      PairedKeys(hs, rs, n - 1, h);
      assert hs[..n] == hs[..n - 1] + [hs[n - 1]] && rs[..n] == rs[..n - 1] + [rs[n - 1]];
    }
  }

  lemma {:induction false} PairedAt(hs: seq<nat>, rs: seq<nat>, n: nat, i: nat)
    requires i < n <= |hs| && n <= |rs| && NoRepeats(hs)
    ensures hs[i] in Paired(hs, rs, n) && Paired(hs, rs, n)[hs[i]] == rs[i]
  {
    if i < n - 1 { PairedAt(hs, rs, n - 1, i); }
  }

  lemma PairedInjective(hs: seq<nat>, rs: seq<nat>, n: nat)
    requires n <= |hs| && n <= |rs| && NoRepeats(hs) && NoRepeats(rs)
    ensures Injective(Paired(hs, rs, n))
  {
    var m := Paired(hs, rs, n);
    forall a, b | a in m && b in m && a != b ensures m[a] != m[b] {
      PairedKeys(hs, rs, n, a);
      PairedKeys(hs, rs, n, b);
      var i :| 0 <= i < n && hs[..n][i] == a;
      var j :| 0 <= j < n && hs[..n][j] == b;
      PairedAt(hs, rs, n, i);
      PairedAt(hs, rs, n, j);
    }
  }

  /** Adding a pair adds its time. */
  lemma {:induction false} OneMorePair(samples: seq<Sample>, n: nat, m: Mapping, h: nat, r: nat)
    requires n <= |samples| && h !in m
    ensures Seconds(samples, n, m[h := r], Correct) == Seconds(samples, n, m, Correct) + PairSeconds(samples, n, h, r)
  {
    if n > 0 { OneMorePair(samples, n - 1, m, h, r); }
  }

  lemma {:induction false} EmptyMapping(samples: seq<Sample>, n: nat)
    requires n <= |samples|
    ensures Seconds(samples, n, map[], Correct) == 0.0
  {
    if n > 0 { EmptyMapping(samples, n - 1); }
  }

  /** The score of a pairing is the time its mapping gets right. */
  lemma {:induction false} ScoreIsCorrectTime(bs: seq<real>, reference: seq<Turn>, hypothesis: seq<Turn>, hs: seq<nat>, rs: seq<nat>, n: nat)
    requires Disjoint(reference) && Disjoint(hypothesis) && Ascending(bs) && bs != [] && BoundsTurns(bs, reference) && BoundsTurns(bs, hypothesis)
    requires n <= |hs| && n <= |rs| && NoRepeats(hs) && NoRepeats(rs)
    ensures var samples := Samples(bs, reference, hypothesis);
            PairScore(hypothesis, reference, hs, rs, n) == Seconds(samples, |samples|, Paired(hs, rs, n), Correct)
  {
    var samples := Samples(bs, reference, hypothesis);
    if n == 0 {
      EmptyMapping(samples, |samples|);
    } else {
      ScoreIsCorrectTime(bs, reference, hypothesis, hs, rs, n - 1);
      PairedKeys(hs, rs, n - 1, hs[n - 1]);
      assert hs[n - 1] !in hs[..n - 1];
      OneMorePair(samples, |samples|, Paired(hs, rs, n - 1), hs[n - 1], rs[n - 1]);
      WeightIsPairSeconds(bs, reference, hypothesis, hs[n - 1], rs[n - 1]);
    }
  }

  lemma {:induction false} WeightNonNegative(hypothesis: seq<Turn>, i: nat, reference: seq<Turn>, h: nat, r: nat)
    requires i <= |hypothesis|
    ensures Weight(hypothesis, i, reference, h, r) >= 0.0
  {
    if i > 0 {
      WeightNonNegative(hypothesis, i - 1, reference, h, r);
      TurnOverlapNonNegative(hypothesis[i - 1], reference, |reference|, r);
    }
  }

  lemma {:induction false} TurnOverlapNonNegative(t: Turn, reference: seq<Turn>, j: nat, r: nat)
    requires j <= |reference|
    ensures TurnOverlap(t, reference, j, r) >= 0.0
  {
    if j > 0 { TurnOverlapNonNegative(t, reference, j - 1, r); }
  }

  lemma {:induction false} ScoreNonNegative(hypothesis: seq<Turn>, reference: seq<Turn>, hs: seq<nat>, rs: seq<nat>, n: nat)
    requires n <= |hs| && n <= |rs|
    ensures PairScore(hypothesis, reference, hs, rs, n) >= 0.0
  {
    if n > 0 {
      ScoreNonNegative(hypothesis, reference, hs, rs, n - 1);
      WeightNonNegative(hypothesis, |hypothesis|, reference, hs[n - 1], rs[n - 1]);
    }
  }

  /** The known speakers, each once, in ascending order. */
  ghost predicate IsSpeakers(s: seq<nat>, turns: seq<Turn>) {
    (forall i, j | 0 <= i < j < |s| :: s[i] < s[j]) && forall x :: x in s <==> exists t :: t in turns && t.speaker == Some(x)
  }

  method KnownSpeakers(turns: seq<Turn>) returns (s: seq<nat>)
    ensures IsSpeakers(s, turns)
  {
    var left := set t | t in turns && t.speaker.Some? :: t.speaker.value;
    ghost var all := left;
    assert forall x :: x in all <==> exists t :: t in turns && t.speaker == Some(x);
    s := [];
    while left != {}
      invariant left <= all && forall x :: x in s <==> x in all && x !in left
      invariant forall i, j | 0 <= i < j < |s| :: s[i] < s[j]
      invariant forall x, y | x in s && y in left :: x < y
      decreases |left|
    {
      var least := LeastSpeaker(left);
      assert forall i | 0 <= i < |s| :: s[i] in s;
      s := s + [least];
      left := left - {least};
    }
  }

  method LeastSpeaker(speakers: set<nat>) returns (least: nat)
    requires speakers != {}
    ensures least in speakers && forall x: nat {:trigger x in speakers} :: x in speakers ==> least <= x
  {
    least := Pick(speakers);
    var left := speakers - {least};
    while left != {}
      invariant left <= speakers && least in speakers
      invariant forall x: nat {:trigger x in speakers} :: x in speakers && x !in left ==> least <= x
      decreases |left|
    {
      var x := Pick(left);
      left := left - {x};
      if x < least { least := x; }
    }
  }

  /** The mapping of an arrangement of the longer list against the shorter one. */
  function MappingOf(hs: seq<nat>, rs: seq<nat>, a: seq<nat>, k: nat): Mapping
    requires k <= |a| && k <= |hs| && k <= |rs|
  {
    if |hs| <= |rs| then Paired(hs, a, k) else Paired(a, rs, k)
  }

  function Chosen(hs: seq<nat>, rs: seq<nat>): seq<nat> {
    if |hs| <= |rs| then rs else hs
  }

  function Shorter(hs: seq<nat>, rs: seq<nat>): (k: nat)
    ensures k <= |hs| && k <= |rs| && (k == |hs| || k == |rs|)
  {
    if |hs| <= |rs| then |hs| else |rs|
  }

  /** No arrangement scores more than this one. */
  ghost predicate IsBest(a: seq<nat>, hypothesis: seq<Turn>, reference: seq<Turn>, hs: seq<nat>, rs: seq<nat>) {
    var k := Shorter(hs, rs);
    && Arrangement(a, Chosen(hs, rs), k)
    && forall b {:trigger ScoreOf(hypothesis, reference, hs, rs, b, k)} | Arrangement(b, Chosen(hs, rs), k) ::
         ScoreOf(hypothesis, reference, hs, rs, b, k) <= ScoreOf(hypothesis, reference, hs, rs, a, k)
  }

  /** The running best over all arrangements. */
  method BestArrangement(hypothesis: seq<Turn>, reference: seq<Turn>, hs: seq<nat>, rs: seq<nat>) returns (best: Mapping)
    requires NoRepeats(hs) && NoRepeats(rs)
    ensures exists a :: IsBest(a, hypothesis, reference, hs, rs) && best == MappingOf(hs, rs, a, Shorter(hs, rs))
  {
    var k, chosen := Shorter(hs, rs), Chosen(hs, rs);
    var all := Arrangements(chosen, k);
    assert chosen[..k] in all by {
      assert forall x | x in chosen[..k] :: x in chosen;
      ArrangementIsListed(chosen, k, chosen[..k]);
    }
    ListedAreArrangements(chosen, k);
    best := map[];
    ghost var a := [];
    var bestScore := -1.0;
    for i := 0 to |all|
      invariant i == 0 ==> bestScore == -1.0
      invariant i > 0 ==> Arrangement(a, chosen, k) && best == MappingOf(hs, rs, a, k) && bestScore == ScoreOf(hypothesis, reference, hs, rs, a, k)
      invariant forall j {:trigger all[j]} | 0 <= j < i :: |all[j]| >= k && ScoreOf(hypothesis, reference, hs, rs, all[j], k) <= bestScore
    {
      var b := all[i];
      assert Arrangement(b, chosen, k);
      var score := ScoreOf(hypothesis, reference, hs, rs, b, k);
      if |hs| <= |rs| { ScoreNonNegative(hypothesis, reference, hs, b, k); } else { ScoreNonNegative(hypothesis, reference, b, rs, k); }
      if score > bestScore {
        bestScore, best := score, MappingOf(hs, rs, b, k);
        a := b;
      }
    }
    forall b {:trigger ScoreOf(hypothesis, reference, hs, rs, b, k)} | Arrangement(b, chosen, k)
      ensures ScoreOf(hypothesis, reference, hs, rs, b, k) <= bestScore
    {
      ArrangementIsListed(chosen, k, b);
      var j :| 0 <= j < |all| && all[j] == b;
    }
    assert IsBest(a, hypothesis, reference, hs, rs);
  }

  /** Its score, summed over the pairs. */
  function ScoreOf(hypothesis: seq<Turn>, reference: seq<Turn>, hs: seq<nat>, rs: seq<nat>, a: seq<nat>, k: nat): real
    requires k <= |a| && k <= |hs| && k <= |rs|
  {
    if |hs| <= |rs| then PairScore(hypothesis, reference, hs, a, k) else PairScore(hypothesis, reference, a, rs, k)
  }

  // ---------------------------------------------------------------- the mapping found is optimal

  lemma {:induction false} MoreIsMoreCorrect(samples: seq<Sample>, n: nat, m: Mapping, k: Mapping)
    requires n <= |samples| && Positive(samples)
    requires forall i {:trigger samples[i]} | 0 <= i < |samples| :: Matched(samples[i], m) ==> Matched(samples[i], k)
    ensures Seconds(samples, n, m, Correct) <= Seconds(samples, n, k, Correct)
  {
    if n > 0 {
      MoreIsMoreCorrect(samples, n - 1, m, k);
      assert samples[n - 1].length > 0.0;
    }
  }

  lemma InjectiveSizes(m: Mapping)
    requires Injective(m)
    ensures |m.Values| == |m.Keys|
    decreases |m.Keys|
  {
    if m.Keys == {} {
      assert m.Values == {};
    } else {
      var h :| h in m.Keys;
      var rest := m - {h};
      InjectiveSizes(rest);
      assert m.Keys == rest.Keys + {h};
      forall r ensures r in m.Values <==> r in rest.Values + {m[h]} {
        if r in m.Values {
          var x :| x in m && m[x] == r;
          if x != h { assert x in rest && rest[x] == r; }
        }
      }
      assert m.Values == rest.Values + {m[h]};
      assert m[h] !in rest.Values by {
        forall x | x in rest ensures rest[x] != m[h] { assert x in m && x != h; }
      }
    }
  }

  /** Every such mapping is part of one that leaves no speaker free on both sides. */
  lemma {:induction false} Complete(m: Mapping, hs: set<nat>, rs: set<nat>) returns (full: Mapping)
    requires Between(m, hs, rs)
    ensures Between(full, hs, rs) && (full.Keys == hs || full.Values == rs)
    ensures forall h | h in m :: h in full && full[h] == m[h]
    decreases |hs| - |m.Keys|
  {
    if m.Keys == hs || m.Values == rs {
      full := m;
    } else {
      var h :| h in hs && h !in m.Keys;
      var r :| r in rs && r !in m.Values;
      var more := m[h := r];
      assert more.Keys == m.Keys + {h};
      assert m.Keys + {h} <= hs;
      SubsetSize(m.Keys + {h}, hs);
      forall x | x in more.Values ensures x in rs {
        var y :| y in more && more[y] == x;
        if y != h { assert m[y] in m.Values; }
      }
      forall a, b | a in more && b in more && a != b ensures more[a] != more[b] {
        if a != h { assert m[a] in m.Values; }
        if b != h { assert m[b] in m.Values; }
      }
      full := Complete(more, hs, rs);
    }
  }

  lemma SubsetSize<T>(a: set<T>, b: set<T>)
    requires a <= b
    ensures |a| <= |b| && (|a| == |b| ==> a == b)
    decreases |b|
  {
    if a != {} {
      var x :| x in a;
      SubsetSize(a - {x}, b - {x});
      assert a == (a - {x}) + {x} && b == (b - {x}) + {x};
    }
  }

  /** A complete mapping is the mapping of some arrangement. */
  lemma FullIsArranged(full: Mapping, hs: seq<nat>, rs: seq<nat>) returns (a: seq<nat>)
    requires NoRepeats(hs) && NoRepeats(rs) && Between(full, Elements(hs), Elements(rs))
    requires full.Keys == Elements(hs) || full.Values == Elements(rs)
    ensures Arrangement(a, Chosen(hs, rs), Shorter(hs, rs))
    ensures forall h | h in full :: h in MappingOf(hs, rs, a, Shorter(hs, rs)) && MappingOf(hs, rs, a, Shorter(hs, rs))[h] == full[h]
  {
    ElementsSize(hs);
    ElementsSize(rs);
    InjectiveSizes(full);
    SubsetSize(full.Keys, Elements(hs));
    SubsetSize(full.Values, Elements(rs));
    if |hs| <= |rs| {
      assert full.Keys == Elements(hs);
      a := ForwardArrangement(full, hs, rs);
    } else {
      assert full.Values == Elements(rs);
      a := BackwardArrangement(full, hs, rs);
    }
  }

  lemma ForwardArrangement(full: Mapping, hs: seq<nat>, rs: seq<nat>) returns (a: seq<nat>)
    requires NoRepeats(hs) && Injective(full) && full.Keys == Elements(hs) && full.Values <= Elements(rs)
    ensures Arrangement(a, rs, |hs|)
    ensures forall h | h in full :: h in Paired(hs, a, |hs|) && Paired(hs, a, |hs|)[h] == full[h]
  {
    assert forall i | 0 <= i < |hs| :: hs[i] in Elements(hs);
    a := seq(|hs|, i requires 0 <= i < |hs| => full[hs[i]]);
    forall x | x in a ensures x in rs {
      var i :| 0 <= i < |hs| && a[i] == x;
      assert full[hs[i]] in full.Values;
    }
    forall h | h in full ensures h in Paired(hs, a, |hs|) && Paired(hs, a, |hs|)[h] == full[h] {
      assert h in Elements(hs);
      var i :| 0 <= i < |hs| && hs[i] == h;
      PairedAt(hs, a, |hs|, i);
    }
  }

  lemma {:induction false} Sources(full: Mapping, rs: seq<nat>, n: nat) returns (a: seq<nat>)
    requires n <= |rs| && forall r | r in rs :: r in full.Values
    ensures |a| == n && forall i | 0 <= i < n :: a[i] in full && full[a[i]] == rs[i]
  {
    if n == 0 {
      a := [];
    } else {
      a := Sources(full, rs, n - 1);
      assert rs[n - 1] in full.Values;
      var h :| h in full && full[h] == rs[n - 1];
      a := a + [h];
    }
  }

  lemma BackwardArrangement(full: Mapping, hs: seq<nat>, rs: seq<nat>) returns (a: seq<nat>)
    requires NoRepeats(rs) && Injective(full) && full.Keys <= Elements(hs) && full.Values == Elements(rs)
    ensures Arrangement(a, hs, |rs|)
    ensures forall h | h in full :: h in Paired(a, rs, |rs|) && Paired(a, rs, |rs|)[h] == full[h]
  {
    assert forall r | r in rs :: r in Elements(rs);
    a := Sources(full, rs, |rs|);
    forall x | x in a ensures x in hs { assert x in full.Keys; }
    assert NoRepeats(a);
    forall h | h in full ensures h in Paired(a, rs, |rs|) && Paired(a, rs, |rs|)[h] == full[h] {
      assert full[h] in full.Values && full[h] in Elements(rs);
      var i :| 0 <= i < |rs| && rs[i] == full[h];
      assert a[i] == h;
      PairedAt(a, rs, |rs|, i);
    }
  }

  ghost predicate SampledFrom(samples: seq<Sample>, hs: seq<nat>, rs: seq<nat>) {
    forall i {:trigger samples[i]} | 0 <= i < |samples| ::
      && (samples[i].hypothesis.Some? ==> samples[i].hypothesis.value in hs)
      && (samples[i].reference.Some? ==> samples[i].reference.value in rs)
  }

  /** No injective mapping gets more time right than the best arrangement. */
  lemma BestBeatsEveryMapping(samples: seq<Sample>, hs: seq<nat>, rs: seq<nat>, best: Mapping, m: Mapping)
    requires NoRepeats(hs) && NoRepeats(rs) && Positive(samples) && SampledFrom(samples, hs, rs) && Injective(m)
    requires forall a | Arrangement(a, Chosen(hs, rs), Shorter(hs, rs)) ::
               Seconds(samples, |samples|, MappingOf(hs, rs, a, Shorter(hs, rs)), Correct) <= Seconds(samples, |samples|, best, Correct)
    ensures Seconds(samples, |samples|, m, Correct) <= Seconds(samples, |samples|, best, Correct)
  {
    var known := KnownPart(samples, hs, rs, m);
    var full := Complete(known, Elements(hs), Elements(rs));
    MoreIsMoreCorrect(samples, |samples|, known, full);
    var a := FullIsArranged(full, hs, rs);
    MoreIsMoreCorrect(samples, |samples|, full, MappingOf(hs, rs, a, Shorter(hs, rs)));
  }

  /** More correct time is less error, second for second. */
  lemma ErrorComplementsCorrect(samples: seq<Sample>, m: Mapping, k: Mapping)
    ensures Error(samples, m) + Seconds(samples, |samples|, m, Correct) == Error(samples, k) + Seconds(samples, |samples|, k, Correct)
  {
    MappingMovesConfusionOnly(samples, |samples|, m, k);
  }

  lemma SpeakerIsKnown(x: real, turns: seq<Turn>, s: seq<nat>)
    requires IsSpeakers(s, turns) && SpeakerAt(x, turns).Some?
    ensures SpeakerAt(x, turns).value in s
  {
    var i := SpeakerAtWitness(x, turns);
    assert turns[i] in turns;
  }

  lemma SamplesAreKnown(bs: seq<real>, reference: seq<Turn>, hypothesis: seq<Turn>, hs: seq<nat>, rs: seq<nat>)
    requires IsSpeakers(hs, hypothesis) && IsSpeakers(rs, reference)
    ensures SampledFrom(Samples(bs, reference, hypothesis), hs, rs)
  {
    var samples := Samples(bs, reference, hypothesis);
    forall i {:trigger samples[i]} | 0 <= i < |samples|
      ensures samples[i].hypothesis.Some? ==> samples[i].hypothesis.value in hs
      ensures samples[i].reference.Some? ==> samples[i].reference.value in rs
    {
      var x := Midpoint(bs, i);
      if SpeakerAt(x, hypothesis).Some? { SpeakerIsKnown(x, hypothesis, hs); }
      if SpeakerAt(x, reference).Some? { SpeakerIsKnown(x, reference, rs); }
    }
  }

  /** Boundaries that the scoring may use. */
  ghost predicate Grid(bs: seq<real>, reference: seq<Turn>, hypothesis: seq<Turn>) {
    bs != [] && Ascending(bs) && BoundsTurns(bs, reference) && BoundsTurns(bs, hypothesis)
  }

  /** On every grid the mapping has the least error among all injective partial mappings. */
  ghost predicate IsOptimal(reference: seq<Turn>, hypothesis: seq<Turn>, best: Mapping) {
    forall bs: seq<real>, m: Mapping {:trigger Error(Samples(bs, reference, hypothesis), m)} |
      Grid(bs, reference, hypothesis) && Injective(m) ::
      Error(Samples(bs, reference, hypothesis), best) <= Error(Samples(bs, reference, hypothesis), m)
  }

  lemma ArrangementScore(bs: seq<real>, reference: seq<Turn>, hypothesis: seq<Turn>, hs: seq<nat>, rs: seq<nat>, a: seq<nat>)
    requires Grid(bs, reference, hypothesis) && Disjoint(reference) && Disjoint(hypothesis) && NoRepeats(hs) && NoRepeats(rs)
    requires Arrangement(a, Chosen(hs, rs), Shorter(hs, rs))
    ensures var samples := Samples(bs, reference, hypothesis); var k := Shorter(hs, rs);
            ScoreOf(hypothesis, reference, hs, rs, a, k) == Seconds(samples, |samples|, MappingOf(hs, rs, a, k), Correct)
  {
    if |hs| <= |rs| {
      ScoreIsCorrectTime(bs, reference, hypothesis, hs, a, |hs|);
    } else {
      ScoreIsCorrectTime(bs, reference, hypothesis, a, rs, |rs|);
    }
  }

  lemma BestIsOptimal(reference: seq<Turn>, hypothesis: seq<Turn>, hs: seq<nat>, rs: seq<nat>, a: seq<nat>)
    requires Disjoint(reference) && Disjoint(hypothesis) && IsSpeakers(hs, hypothesis) && IsSpeakers(rs, reference)
    requires IsBest(a, hypothesis, reference, hs, rs)
    ensures IsOptimal(reference, hypothesis, MappingOf(hs, rs, a, Shorter(hs, rs)))
  {
    var k := Shorter(hs, rs);
    var best := MappingOf(hs, rs, a, k);
    forall bs: seq<real>, m: Mapping {:trigger Error(Samples(bs, reference, hypothesis), m)} | Grid(bs, reference, hypothesis) && Injective(m)
      ensures Error(Samples(bs, reference, hypothesis), best) <= Error(Samples(bs, reference, hypothesis), m)
    {
      var samples := Samples(bs, reference, hypothesis);
      SamplesAreKnown(bs, reference, hypothesis, hs, rs);
      ArrangementScore(bs, reference, hypothesis, hs, rs, a);
      forall b | Arrangement(b, Chosen(hs, rs), k)
        ensures Seconds(samples, |samples|, MappingOf(hs, rs, b, k), Correct) <= Seconds(samples, |samples|, best, Correct)
      {
        ArrangementScore(bs, reference, hypothesis, hs, rs, b);
      }
      BestBeatsEveryMapping(samples, hs, rs, best, m);
      ErrorComplementsCorrect(samples, best, m);
    }
  }

  /** There is one list of known speakers. */
  lemma SpeakersAreUnique(s: seq<nat>, t: seq<nat>, turns: seq<Turn>)
    requires IsSpeakers(s, turns) && IsSpeakers(t, turns)
    ensures s == t
  {
    ElementsSize(s);
    ElementsSize(t);
    assert Elements(s) == Elements(t);
    SameAscending(s, t);
  }

  lemma {:induction false} SameAscending(s: seq<nat>, t: seq<nat>)
    requires (forall i, j | 0 <= i < j < |s| :: s[i] < s[j]) && (forall i, j | 0 <= i < j < |t| :: t[i] < t[j])
    requires |s| == |t| && forall x :: x in s <==> x in t
    ensures s == t
  {
    if s != [] {
      assert s[0] in t && t[0] in s;
      forall x ensures x in s[1..] <==> x in t[1..] { assert x in s <==> x in t; }
      SameAscending(s[1..], t[1..]);
      assert s == [s[0]] + s[1..] && t == [t[0]] + t[1..];
    }
  }

  // ---------------------------------------------------------------- many speakers

  function WeightsOf(reference: seq<Turn>, hypothesis: seq<Turn>): (nat, nat) -> real {
    (h: nat, r: nat) => Weight(hypothesis, |hypothesis|, reference, h, r)
  }

  /** On every grid no injective mapping gets more than twice as much time right. */
  ghost predicate HasHalf(reference: seq<Turn>, hypothesis: seq<Turn>, best: Mapping) {
    forall bs: seq<real>, m: Mapping {:trigger Seconds(Samples(bs, reference, hypothesis), |Samples(bs, reference, hypothesis)|, m, Correct)} |
      Grid(bs, reference, hypothesis) && Injective(m) ::
      var samples := Samples(bs, reference, hypothesis);
      Seconds(samples, |samples|, m, Correct) <= 2.0 * Seconds(samples, |samples|, best, Correct)
  }

  /** The weight of a mapping is the time it gets right. */
  lemma {:induction false} TotalIsCorrectTime(bs: seq<real>, reference: seq<Turn>, hypothesis: seq<Turn>, m: Mapping)
    requires Grid(bs, reference, hypothesis) && Disjoint(reference) && Disjoint(hypothesis)
    ensures var samples := Samples(bs, reference, hypothesis);
            Total(m, WeightsOf(reference, hypothesis)) == Seconds(samples, |samples|, m, Correct)
    decreases |m|
  {
    var samples, weight := Samples(bs, reference, hypothesis), WeightsOf(reference, hypothesis);
    if m == map[] {
      EmptyMapping(samples, |samples|);
    } else {
      var h :| h in m;
      var rest := m - {h};
      TotalWithout(m, weight, h);
      TotalIsCorrectTime(bs, reference, hypothesis, rest);
      assert m == rest[h := m[h]];
      OneMorePair(samples, |samples|, rest, h, m[h]);
      WeightIsPairSeconds(bs, reference, hypothesis, h, m[h]);
    }
  }

  /** The part of a mapping that is about known speakers gets as much time right. */
  lemma KnownPart(samples: seq<Sample>, hs: seq<nat>, rs: seq<nat>, m: Mapping) returns (known: Mapping)
    requires Positive(samples) && SampledFrom(samples, hs, rs) && Injective(m)
    ensures Between(known, Elements(hs), Elements(rs))
    ensures Seconds(samples, |samples|, m, Correct) <= Seconds(samples, |samples|, known, Correct)
  {
    known := map h | h in m && h in hs && m[h] in rs :: m[h];
    MoreIsMoreCorrect(samples, |samples|, m, known);
  }

  lemma GreedyGetsHalf(reference: seq<Turn>, hypothesis: seq<Turn>, hs: seq<nat>, rs: seq<nat>, greedy: Mapping)
    requires Disjoint(reference) && Disjoint(hypothesis) && IsSpeakers(hs, hypothesis) && IsSpeakers(rs, reference)
    requires IsGreedy(greedy, Elements(hs), Elements(rs), WeightsOf(reference, hypothesis))
    ensures HasHalf(reference, hypothesis, greedy)
  {
    var weight := WeightsOf(reference, hypothesis);
    forall h, r ensures weight(h, r) >= 0.0 { WeightNonNegative(hypothesis, |hypothesis|, reference, h, r); }
    forall bs: seq<real>, m: Mapping {:trigger Seconds(Samples(bs, reference, hypothesis), |Samples(bs, reference, hypothesis)|, m, Correct)} |
      Grid(bs, reference, hypothesis) && Injective(m)
      ensures var samples := Samples(bs, reference, hypothesis);
              Seconds(samples, |samples|, m, Correct) <= 2.0 * Seconds(samples, |samples|, greedy, Correct)
    {
      var samples := Samples(bs, reference, hypothesis);
      SamplesAreKnown(bs, reference, hypothesis, hs, rs);
      var known := KnownPart(samples, hs, rs, m);
      GreedyHasHalf(greedy, known, Elements(hs), Elements(rs), weight);
      TotalIsCorrectTime(bs, reference, hypothesis, known);
      TotalIsCorrectTime(bs, reference, hypothesis, greedy);
    }
  }

  // ---------------------------------------------------------------- the mapping of two diarizations

  /** At most eight speakers on either side. */
  predicate Few(hs: seq<nat>, rs: seq<nat>) {
    |hs| <= 8 && |rs| <= 8
  }

  /** What the mapping is for these speakers: empty, the best, or the greedy one. */
  ghost predicate MapsAsPromised(reference: seq<Turn>, hypothesis: seq<Turn>, hs: seq<nat>, rs: seq<nat>, m: Mapping) {
    if hs == [] || rs == [] then m == map[]
    else if Few(hs, rs) then exists a :: IsBest(a, hypothesis, reference, hs, rs) && m == MappingOf(hs, rs, a, Shorter(hs, rs))
    else IsGreedy(m, Elements(hs), Elements(rs), WeightsOf(reference, hypothesis))
  }

  /** What that is worth: for disjoint turns with few speakers it has the least error of all
      injective partial mappings, and with many at least half of the time any of them gets right. */
  ghost predicate IsWorth(reference: seq<Turn>, hypothesis: seq<Turn>, hs: seq<nat>, rs: seq<nat>, m: Mapping) {
    && Injective(m)
    && (Disjoint(reference) && Disjoint(hypothesis) ==>
          if hs == [] || rs == [] || Few(hs, rs) then IsOptimal(reference, hypothesis, m) else HasHalf(reference, hypothesis, m))
  }

  /** The exhaustive search for at most eight speakers on either side, and the greedy mapping
      above that. */
  method OptimalSpeakerMapping(reference: seq<Turn>, hypothesis: seq<Turn>) returns (m: Mapping)
    ensures forall hs, rs | IsSpeakers(hs, hypothesis) && IsSpeakers(rs, reference) ::
              MapsAsPromised(reference, hypothesis, hs, rs, m) && IsWorth(reference, hypothesis, hs, rs, m)
  {
    var rs := KnownSpeakers(reference);
    var hs := KnownSpeakers(hypothesis);
    if rs == [] || hs == [] {
      m := map[];
    } else if !Few(hs, rs) {
      m := GreedyMapping(hs, rs, WeightsOf(reference, hypothesis));
    } else {
      m := BestArrangement(hypothesis, reference, hs, rs);
    }
    PromiseIsWorth(reference, hypothesis, hs, rs, m);
    forall hs', rs' | IsSpeakers(hs', hypothesis) && IsSpeakers(rs', reference)
      ensures MapsAsPromised(reference, hypothesis, hs', rs', m) && IsWorth(reference, hypothesis, hs', rs', m)
    {
      SpeakersAreUnique(hs', hs, hypothesis);
      SpeakersAreUnique(rs', rs, reference);
    }
  }

  lemma PromiseIsWorth(reference: seq<Turn>, hypothesis: seq<Turn>, hs: seq<nat>, rs: seq<nat>, m: Mapping)
    requires IsSpeakers(hs, hypothesis) && IsSpeakers(rs, reference) && MapsAsPromised(reference, hypothesis, hs, rs, m)
    ensures IsWorth(reference, hypothesis, hs, rs, m)
  {
    if hs == [] || rs == [] {
      if Disjoint(reference) && Disjoint(hypothesis) { BestIsOptimal(reference, hypothesis, hs, rs, []); }
    } else if Few(hs, rs) {
      var a :| IsBest(a, hypothesis, reference, hs, rs) && m == MappingOf(hs, rs, a, Shorter(hs, rs));
      if Disjoint(reference) && Disjoint(hypothesis) { BestIsOptimal(reference, hypothesis, hs, rs, a); }
      if |hs| <= |rs| { PairedInjective(hs, a, |hs|); } else { PairedInjective(a, rs, |rs|); }
    } else if Disjoint(reference) && Disjoint(hypothesis) {
      GreedyGetsHalf(reference, hypothesis, hs, rs, m);
    }
  }

  // ---------------------------------------------------------------- renaming

  ghost predicate OneToOne(p: nat -> nat) {
    forall a, b | a != b :: p(a) != p(b)
  }

  function Renamed(turns: seq<Turn>, p: nat -> nat): seq<Turn> {
    if turns == [] then []
    else [turns[0].(speaker := if turns[0].speaker.Some? then Some(p(turns[0].speaker.value)) else None)] + Renamed(turns[1..], p)
  }

  lemma {:induction false} RenamedAt(x: real, turns: seq<Turn>, p: nat -> nat)
    ensures SpeakerAt(x, Renamed(turns, p)) == match SpeakerAt(x, turns) case None => None case Some(s) => Some(p(s))
  {
    if turns != [] {
      RenamedAt(x, turns[1..], p);
      assert Renamed(turns, p)[1..] == Renamed(turns[1..], p);
    }
  }

  /** Two mappings agree on a sample and its renamed copy. */
  lemma {:induction false} SameKinds(samples: seq<Sample>, renamed: seq<Sample>, n: nat, m: Mapping, k: Mapping, kind: Kind)
    requires n <= |samples| == |renamed|
    requires forall i {:trigger samples[i]} {:trigger renamed[i]} | 0 <= i < |samples| ::
               samples[i].length == renamed[i].length && KindOf(samples[i], m) == KindOf(renamed[i], k)
    ensures Seconds(samples, n, m, kind) == Seconds(renamed, n, k, kind)
  {
    if n > 0 { SameKinds(samples, renamed, n - 1, m, k, kind); }
  }

  lemma SameError(samples: seq<Sample>, renamed: seq<Sample>, m: Mapping, k: Mapping)
    requires |samples| == |renamed|
    requires forall i {:trigger samples[i]} {:trigger renamed[i]} | 0 <= i < |samples| ::
               samples[i].length == renamed[i].length && KindOf(samples[i], m) == KindOf(renamed[i], k)
    ensures Error(samples, m) == Error(renamed, k)
  {
    SameKinds(samples, renamed, |samples|, m, k, Miss);
    SameKinds(samples, renamed, |samples|, m, k, FalseAlarm);
    SameKinds(samples, renamed, |samples|, m, k, Confusion);
  }

  /** `t` is `s` with the hypothesis speaker renamed. */
  ghost predicate RenamedSample(s: Sample, t: Sample, p: nat -> nat) {
    t == s.(hypothesis := if s.hypothesis.Some? then Some(p(s.hypothesis.value)) else None)
  }

  ghost predicate RenamedSamples(samples: seq<Sample>, renamed: seq<Sample>, p: nat -> nat) {
    |samples| == |renamed|
    && forall i {:trigger samples[i]} {:trigger renamed[i]} | 0 <= i < |samples| :: RenamedSample(samples[i], renamed[i], p)
  }

  lemma RenamingSamples(bs: seq<real>, reference: seq<Turn>, hypothesis: seq<Turn>, p: nat -> nat)
    ensures RenamedSamples(Samples(bs, reference, hypothesis), Samples(bs, reference, Renamed(hypothesis, p)), p)
  {
    var samples, renamed := Samples(bs, reference, hypothesis), Samples(bs, reference, Renamed(hypothesis, p));
    forall i {:trigger samples[i]} {:trigger renamed[i]} | 0 <= i < |samples| ensures RenamedSample(samples[i], renamed[i], p) {
      RenamedAt(Midpoint(bs, i), hypothesis, p);
    }
  }

  /** A mapping carried along the renaming, and one pulled back through it. */
  ghost function Carried(m: Mapping, p: nat -> nat): Mapping
    requires OneToOne(p)
  {
    map h | h in m :: p(h) := m[h]
  }

  ghost function Pulled(m: Mapping, p: nat -> nat, hs: seq<nat>): Mapping {
    map h | h in hs && p(h) in m :: m[p(h)]
  }

  lemma CarriedKeeps(samples: seq<Sample>, renamed: seq<Sample>, m: Mapping, p: nat -> nat)
    requires OneToOne(p) && RenamedSamples(samples, renamed, p) && Injective(m)
    ensures Injective(Carried(m, p)) && Error(samples, m) == Error(renamed, Carried(m, p))
  {
    var k := Carried(m, p);
    forall a, b | a in k && b in k && a != b ensures k[a] != k[b] {
      var x :| x in m && p(x) == a;
      var y :| y in m && p(y) == b;
    }
    forall i {:trigger samples[i]} {:trigger renamed[i]} | 0 <= i < |samples|
      ensures samples[i].length == renamed[i].length && KindOf(samples[i], m) == KindOf(renamed[i], k)
    {
      assert RenamedSample(samples[i], renamed[i], p);
    }
    SameError(samples, renamed, m, k);
  }

  lemma PulledKeeps(samples: seq<Sample>, renamed: seq<Sample>, m: Mapping, p: nat -> nat, hs: seq<nat>)
    requires OneToOne(p) && RenamedSamples(samples, renamed, p) && Injective(m)
    requires forall i {:trigger samples[i]} | 0 <= i < |samples| :: samples[i].hypothesis.Some? ==> samples[i].hypothesis.value in hs
    ensures Injective(Pulled(m, p, hs)) && Error(samples, Pulled(m, p, hs)) == Error(renamed, m)
  {
    var k := Pulled(m, p, hs);
    forall i {:trigger samples[i]} {:trigger renamed[i]} | 0 <= i < |samples|
      ensures samples[i].length == renamed[i].length && KindOf(samples[i], k) == KindOf(renamed[i], m)
    {
      assert RenamedSample(samples[i], renamed[i], p);
    }
    SameError(samples, renamed, k, m);
  }

  /** Renaming the hypothesis speakers one to one does not change the error of the best mapping. */
  lemma RenamingKeepsError(reference: seq<Turn>, hypothesis: seq<Turn>, p: nat -> nat, best: Mapping, bestRenamed: Mapping, bs: seq<real>,
                           hs: seq<nat>, rs: seq<nat>)
    requires OneToOne(p) && Grid(bs, reference, hypothesis) && Grid(bs, reference, Renamed(hypothesis, p))
    requires IsSpeakers(hs, hypothesis) && IsSpeakers(rs, reference)
    requires Injective(best) && IsOptimal(reference, hypothesis, best)
    requires Injective(bestRenamed) && IsOptimal(reference, Renamed(hypothesis, p), bestRenamed)
    ensures Error(Samples(bs, reference, hypothesis), best) == Error(Samples(bs, reference, Renamed(hypothesis, p)), bestRenamed)
  {
    var samples := Samples(bs, reference, hypothesis);
    var renamed := Samples(bs, reference, Renamed(hypothesis, p));
    SamplesAreKnown(bs, reference, hypothesis, hs, rs);
    RenamingSamples(bs, reference, hypothesis, p);
    CarriedKeeps(samples, renamed, best, p);
    PulledKeeps(samples, renamed, bestRenamed, p, hs);
    assert Error(renamed, bestRenamed) <= Error(renamed, Carried(best, p));
    assert Error(samples, best) <= Error(samples, Pulled(bestRenamed, p, hs));
  }
}
