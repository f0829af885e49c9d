/** When the speaker mapping of `src/utteran/diarization_quality.py` is the best one: for every pair
    of diarizations with a given number of speakers, or not for all of them. */
module MappingLimits {
  import opened Basics
  import opened GreedyMatching
  import opened DerScoring

  /** Every mapping that the search may return, for disjoint turns of `p` hypothesis and `q`
      reference speakers, has the least error of all injective partial mappings. */
  ghost predicate AlwaysOptimal(p: nat, q: nat) {
    forall reference: seq<Turn>, hypothesis: seq<Turn>, hs: seq<nat>, rs: seq<nat>, m: Mapping
      {:trigger MapsAsPromised(reference, hypothesis, hs, rs, m)} |
      && Disjoint(reference) && Disjoint(hypothesis)
      && IsSpeakers(hs, hypothesis) && IsSpeakers(rs, reference) && |hs| == p && |rs| == q
      && MapsAsPromised(reference, hypothesis, hs, rs, m) ::
      IsOptimal(reference, hypothesis, m)
  }

  /** The numbers of speakers for which that holds: the exhaustive search runs, or a side has at
      most one speaker. */
  lemma MappingIsOptimalIff(p: nat, q: nat)
    ensures AlwaysOptimal(p, q) <==> (p <= 8 && q <= 8) || p <= 1 || q <= 1
  {
    if (p <= 8 && q <= 8) || p <= 1 || q <= 1 {
      forall reference: seq<Turn>, hypothesis: seq<Turn>, hs: seq<nat>, rs: seq<nat>, m: Mapping
        {:trigger MapsAsPromised(reference, hypothesis, hs, rs, m)} |
        && Disjoint(reference) && Disjoint(hypothesis)
        && IsSpeakers(hs, hypothesis) && IsSpeakers(rs, reference) && |hs| == p && |rs| == q
        && MapsAsPromised(reference, hypothesis, hs, rs, m)
        ensures IsOptimal(reference, hypothesis, m)
      {
        PromiseIsWorth(reference, hypothesis, hs, rs, m);
        if !(hs == [] || rs == [] || Few(hs, rs)) { OneSpeakerIsOptimal(reference, hypothesis, hs, rs, m); }
      }
    } else {
      var m := MissedMapping(p, q);
    }
  }

  // ---------------------------------------------------------------- one speaker

  lemma OneSpeakerIsOptimal(reference: seq<Turn>, hypothesis: seq<Turn>, hs: seq<nat>, rs: seq<nat>, greedy: Mapping)
    requires Disjoint(reference) && Disjoint(hypothesis) && IsSpeakers(hs, hypothesis) && IsSpeakers(rs, reference)
    requires |hs| <= 1 || |rs| <= 1
    requires IsGreedy(greedy, Elements(hs), Elements(rs), WeightsOf(reference, hypothesis))
    ensures IsOptimal(reference, hypothesis, greedy)
  {
    var weight := WeightsOf(reference, hypothesis);
    forall h, r ensures weight(h, r) >= 0.0 { WeightNonNegative(hypothesis, |hypothesis|, reference, h, r); }
    ElementsSize(hs);
    ElementsSize(rs);
    forall bs: seq<real>, m: Mapping {:trigger Error(Samples(bs, reference, hypothesis), m)} | Grid(bs, reference, hypothesis) && Injective(m)
      ensures Error(Samples(bs, reference, hypothesis), greedy) <= Error(Samples(bs, reference, hypothesis), m)
    {
      var samples := Samples(bs, reference, hypothesis);
      SamplesAreKnown(bs, reference, hypothesis, hs, rs);
      var known := KnownPart(samples, hs, rs, m);
      OneSpeakerIsEnough(greedy, known, Elements(hs), Elements(rs), weight);
      TotalIsCorrectTime(bs, reference, hypothesis, known);
      TotalIsCorrectTime(bs, reference, hypothesis, greedy);
      ErrorComplementsCorrect(samples, greedy, m);
    }
  }

  // ---------------------------------------------------------------- two diarizations that are mapped badly

  /** Speaker 0 talks before and after speaker 1; the others follow in the odd seconds. */
  function ReferenceTurn(i: nat): Turn {
    if i == 0 then Turn(0.0, 3.0, Some(0))
    else if i == 1 then Turn(3.0, 5.0, Some(1))
    else if i == 2 then Turn(5.0, 7.0, Some(0))
    else Turn((2 * i + 1) as real, (2 * i + 2) as real, Some(i - 1))
  }

  /** Speaker 0 is heard for five seconds, speaker 1 for two; the others follow in the even ones. */
  function HypothesisTurn(i: nat): Turn {
    if i == 0 then Turn(0.0, 5.0, Some(0))
    else if i == 1 then Turn(5.0, 7.0, Some(1))
    else Turn((2 * i + 4) as real, (2 * i + 5) as real, Some(i))
  }

  function Reference(q: nat): seq<Turn> {
    seq(q + 1, i requires 0 <= i => ReferenceTurn(i))
  }

  function Hypothesis(p: nat): seq<Turn> {
    seq(p, i requires 0 <= i => HypothesisTurn(i))
  }

  function Numbers(n: nat): seq<nat> {
    seq(n, i requires 0 <= i => i)
  }

  lemma TurnsAreDisjoint(p: nat, q: nat)
    ensures Disjoint(Reference(q)) && Disjoint(Hypothesis(p))
  {
    forall i, j {:trigger Apart(Reference(q)[i], Reference(q)[j])} | 0 <= i < j < |Reference(q)|
      ensures Apart(Reference(q)[i], Reference(q)[j])
    {
      assert Reference(q)[i] == ReferenceTurn(i) && Reference(q)[j] == ReferenceTurn(j);
    }
    forall i, j {:trigger Apart(Hypothesis(p)[i], Hypothesis(p)[j])} | 0 <= i < j < |Hypothesis(p)|
      ensures Apart(Hypothesis(p)[i], Hypothesis(p)[j])
    {
      assert Hypothesis(p)[i] == HypothesisTurn(i) && Hypothesis(p)[j] == HypothesisTurn(j);
    }
  }

  lemma SpeakersAreNumbers(p: nat, q: nat)
    requires p >= 2 && q >= 2
    ensures IsSpeakers(Numbers(p), Hypothesis(p)) && IsSpeakers(Numbers(q), Reference(q))
  {
    forall x: nat ensures x in Numbers(p) <==> exists t :: t in Hypothesis(p) && t.speaker == Some(x) {
      if x < p { assert Numbers(p)[x] == x && Hypothesis(p)[x] in Hypothesis(p) && Hypothesis(p)[x].speaker == Some(x); }
    }
    forall x: nat ensures x in Numbers(q) <==> exists t :: t in Reference(q) && t.speaker == Some(x) {
      if x < q {
        var i := if x < 2 then x else x + 1;
        assert Numbers(q)[x] == x && Reference(q)[i] in Reference(q) && Reference(q)[i].speaker == Some(x);
      }
    }
  }

  /** The time that one hypothesis turn shares with a reference speaker. */
  function SharedTime(i: nat, r: nat): real {
    if i == 0 then if r == 0 then 3.0 else if r == 1 then 2.0 else 0.0
    else if i == 1 && r == 0 then 2.0 else 0.0
  }

  lemma TurnsOverlap(i: nat, j: nat)
    ensures Overlap(HypothesisTurn(i), ReferenceTurn(j))
         == if i == 0 && j == 0 then 3.0 else if (i == 0 && j == 1) || (i == 1 && j == 2) then 2.0 else 0.0
  {
    if i < 2 && j < 3 {
    } else if i < 2 {
      ApartDoNotOverlap(HypothesisTurn(i), ReferenceTurn(j));
    } else if j < 3 {
      ApartDoNotOverlap(ReferenceTurn(j), HypothesisTurn(i));
    } else if i + 1 < j {
      ApartDoNotOverlap(HypothesisTurn(i), ReferenceTurn(j));
    } else {
      ApartDoNotOverlap(ReferenceTurn(j), HypothesisTurn(i));
    }
  }

  lemma ApartDoNotOverlap(a: Turn, b: Turn)
    requires a.end <= b.start && a.start <= a.end && b.start <= b.end
    ensures Overlap(a, b) == 0.0 && Overlap(b, a) == 0.0
  {
  }

  lemma {:induction false} TurnShares(q: nat, i: nat, j: nat, r: nat)
    requires 3 <= j <= |Reference(q)|
    ensures TurnOverlap(HypothesisTurn(i), Reference(q), j, r) == SharedTime(i, r)
    decreases j
  {
    if j == 3 {
      FirstTurnsShare(q, i, r);
    } else {
      TurnShares(q, i, j - 1, r);
      TurnsOverlap(i, j - 1);
      TurnOverlapStep(q, i, j, r);
    }
  }

  lemma TurnOverlapStep(q: nat, i: nat, j: nat, r: nat)
    requires 0 < j <= |Reference(q)|
    ensures TurnOverlap(HypothesisTurn(i), Reference(q), j, r)
         == TurnOverlap(HypothesisTurn(i), Reference(q), j - 1, r)
            + if ReferenceTurn(j - 1).speaker == Some(r) then Overlap(HypothesisTurn(i), ReferenceTurn(j - 1)) else 0.0
  {
    assert Reference(q)[j - 1] == ReferenceTurn(j - 1);
  }

  lemma FirstTurnsShare(q: nat, i: nat, r: nat)
    requires 3 <= |Reference(q)|
    ensures TurnOverlap(HypothesisTurn(i), Reference(q), 3, r) == SharedTime(i, r)
  {
    TurnOverlapStep(q, i, 1, r);
    TurnOverlapStep(q, i, 2, r);
    TurnOverlapStep(q, i, 3, r);
    TurnsOverlap(i, 0);
    TurnsOverlap(i, 1);
    TurnsOverlap(i, 2);
    assert TurnOverlap(HypothesisTurn(i), Reference(q), 0, r) == 0.0;
  }

  lemma {:induction false} WeightsShare(p: nat, q: nat, i: nat, h: nat, r: nat)
    requires q >= 2 && i <= p
    ensures Weight(Hypothesis(p), i, Reference(q), h, r) == if h < i then SharedTime(h, r) else 0.0
  {
    if i > 0 {
      WeightsShare(p, q, i - 1, h, r);
      TurnShares(q, i - 1, |Reference(q)|, r);
    }
  }

  lemma TurnsAreSkewed(p: nat, q: nat)
    requires p >= 2 && q >= 2
    ensures Skewed(WeightsOf(Reference(q), Hypothesis(p)))
  {
    forall h: nat, r: nat
      ensures WeightsOf(Reference(q), Hypothesis(p))(h, r) == if h == 0 && r == 0 then 3.0 else if h + r == 1 then 2.0 else 0.0
    {
      WeightsShare(p, q, p, h, r);
    }
  }

  /** Whole seconds bound all turns. */
  lemma SecondsBound(p: nat, q: nat) returns (bs: seq<real>)
    ensures Grid(bs, Reference(q), Hypothesis(p))
  {
    var n := 2 * p + 2 * q + 10;
    bs := seq(n, i => i as real);
    forall i | 0 <= i < |Reference(q)| ensures Reference(q)[i].start in bs && Reference(q)[i].end in bs {
      assert bs[if i == 0 then 0 else if i == 1 then 3 else if i == 2 then 5 else 2 * i + 1] == Reference(q)[i].start;
      assert bs[if i == 0 then 3 else if i == 1 then 5 else if i == 2 then 7 else 2 * i + 2] == Reference(q)[i].end;
    }
    forall i | 0 <= i < |Hypothesis(p)| ensures Hypothesis(p)[i].start in bs && Hypothesis(p)[i].end in bs {
      assert bs[if i == 0 then 0 else if i == 1 then 5 else 2 * i + 4] == Hypothesis(p)[i].start;
      assert bs[if i == 0 then 5 else if i == 1 then 7 else 2 * i + 5] == Hypothesis(p)[i].end;
    }
  }

  /** More than eight speakers on a side and at least two on both: these turns are mapped greedily,
      and crossing the first two speakers would be right for one second more. */
  lemma MissedMapping(p: nat, q: nat) returns (m: Mapping)
    requires p >= 2 && q >= 2 && (p > 8 || q > 8)
    ensures Disjoint(Reference(q)) && Disjoint(Hypothesis(p))
    ensures IsSpeakers(Numbers(p), Hypothesis(p)) && IsSpeakers(Numbers(q), Reference(q))
    ensures MapsAsPromised(Reference(q), Hypothesis(p), Numbers(p), Numbers(q), m)
    ensures !IsOptimal(Reference(q), Hypothesis(p), m)
  {
    var reference, hypothesis, hs, rs := Reference(q), Hypothesis(p), Numbers(p), Numbers(q);
    TurnsAreDisjoint(p, q);
    SpeakersAreNumbers(p, q);
    m := GreedyOf(hs, rs, WeightsOf(reference, hypothesis));
    GreedyOfIsGreedy(hs, rs, WeightsOf(reference, hypothesis));
    NotOptimal(p, q, m);
  }

  lemma NotOptimal(p: nat, q: nat, m: Mapping)
    requires p >= 2 && q >= 2 && IsGreedy(m, Elements(Numbers(p)), Elements(Numbers(q)), WeightsOf(Reference(q), Hypothesis(p)))
    ensures !IsOptimal(Reference(q), Hypothesis(p), m)
  {
    var reference, hypothesis, k: Mapping := Reference(q), Hypothesis(p), map[0 := 1, 1 := 0];
    TurnsAreDisjoint(p, q);
    TurnsAreSkewed(p, q);
    assert Numbers(p)[0] == 0 && Numbers(p)[1] == 1 && Numbers(q)[0] == 0 && Numbers(q)[1] == 1;
    GreedyMissesTheBest(m, Elements(Numbers(p)), Elements(Numbers(q)), WeightsOf(reference, hypothesis));
    var bs := SecondsBound(p, q);
    var samples := Samples(bs, reference, hypothesis);
    TotalIsCorrectTime(bs, reference, hypothesis, m);
    TotalIsCorrectTime(bs, reference, hypothesis, k);
    ErrorComplementsCorrect(samples, m, k);
    assert Error(samples, k) < Error(samples, m);
  }
}
