/** Interval unions and the share of detected speech that output segments cover
    (`_union_intervals` and `_detected_speech_coverage` of `src/utteran/align.py`). */
module SpeechCoverage {
  import opened Basics
  import opened AlignTypes

  datatype Interval = Interval(start: real, end: real)

  ghost predicate Holds(i: Interval, x: real) {
    i.start <= x < i.end
  }

  ghost predicate Covers(intervals: seq<Interval>, x: real) {
    exists i :: i in intervals && Holds(i, x)
  }

  predicate IntervalLeq(a: Interval, b: Interval) {
    a.start < b.start || (a.start == b.start && a.end <= b.end)
  }

  ghost predicate InOrder(s: seq<Interval>) {
    forall i, j | 0 <= i < j < |s| :: IntervalLeq(s[i], s[j])
  }

  function InsertInterval(x: Interval, sorted: seq<Interval>): seq<Interval> {
    if sorted == [] then [x]
    else if IntervalLeq(x, sorted[0]) then [x] + sorted
    else [sorted[0]] + InsertInterval(x, sorted[1..])
  }

  lemma {:induction false} InsertSorts(x: Interval, sorted: seq<Interval>)
    requires InOrder(sorted)
    ensures InOrder(InsertInterval(x, sorted))
    ensures forall y :: y in InsertInterval(x, sorted) <==> y == x || y in sorted
  {
    if sorted != [] && !IntervalLeq(x, sorted[0]) {
      InsertSorts(x, sorted[1..]);
      var rest := InsertInterval(x, sorted[1..]);
      forall k | 0 <= k < |rest| ensures IntervalLeq(sorted[0], rest[k]) {
        assert rest[k] == x || rest[k] in sorted[1..];
      }
    }
  }

  /** The intervals ordered by (start, end). */
  function Sorted(intervals: seq<Interval>): (r: seq<Interval>)
    ensures InOrder(r)
    ensures forall y :: y in r <==> y in intervals
  {
    if intervals == [] then []
    else
      InsertSorts(intervals[0], Sorted(intervals[1..]));
      InsertInterval(intervals[0], Sorted(intervals[1..]))
  }

  // ---------------------------------------------------------------- the union

  /** The union after one more interval in order. */
  function AddInterval(merged: seq<Interval>, i: Interval): seq<Interval> {
    var last := |merged| - 1;
    if i.end <= i.start then merged
    else if merged != [] && i.start <= merged[last].end
    then merged[..last] + [Interval(merged[last].start, Max(merged[last].end, i.end))]
    else merged + [i]
  }

  function UnionOf(sorted: seq<Interval>): seq<Interval> {
    if sorted == [] then []
    else AddInterval(UnionOf(sorted[..|sorted| - 1]), sorted[|sorted| - 1])
  }

  method UnionIntervals(intervals: seq<Interval>) returns (merged: seq<Interval>)
    ensures merged == UnionOf(Sorted(intervals))
  {
    var sorted := Sorted(intervals);
    merged := [];
    for k := 0 to |sorted|
      invariant merged == UnionOf(sorted[..k])
    {
      assert sorted[..k + 1][..k] == sorted[..k];
      var start, end := sorted[k].start, sorted[k].end;
      if end <= start { continue; }
      var last := |merged| - 1;
      if merged != [] && start <= merged[last].end {
        merged := merged[..last] + [Interval(merged[last].start, Max(merged[last].end, end))];
      } else {
        merged := merged + [Interval(start, end)];
      }
    }
    assert sorted[..|sorted|] == sorted;
  }

  /** Non-empty intervals, each ending strictly before the next one starts. */
  ghost predicate Separated(s: seq<Interval>) {
    && (forall i | 0 <= i < |s| :: s[i].start < s[i].end)
    && (forall i, j | 0 <= i < j < |s| :: s[i].end < s[j].start)
  }

  lemma AddKeeps(merged: seq<Interval>, i: Interval)
    requires Separated(merged) && forall m | m in merged :: m.start <= i.start
    ensures Separated(AddInterval(merged, i))
    ensures forall m | m in AddInterval(merged, i) :: m.start <= i.start
    ensures forall x :: Covers(AddInterval(merged, i), x) <==> Covers(merged, x) || Holds(i, x)
  {
    AddCovers(merged, i);
  }

  lemma AddCovers(merged: seq<Interval>, i: Interval)
    requires Separated(merged) && forall m | m in merged :: m.start <= i.start
    ensures forall x :: Covers(AddInterval(merged, i), x) <==> Covers(merged, x) || Holds(i, x)
  {
    var last := |merged| - 1;
    var after := AddInterval(merged, i);
    if i.start < i.end {
      if merged != [] && i.start <= merged[last].end {
        assert merged[last].start <= i.start;
        assert merged == merged[..last] + [merged[last]];
        forall x ensures Covers(after, x) <==> Covers(merged, x) || Holds(i, x) {
          assert Holds(after[last], x) <==> Holds(merged[last], x) || Holds(i, x);
          CoversSplit(merged[..last], merged[last], x);
          CoversSplit(merged[..last], after[last], x);
        }
      } else {
        forall x ensures Covers(after, x) <==> Covers(merged, x) || Holds(i, x) {
          CoversSplit(merged, i, x);
        }
      }
    }
  }

  lemma CoversSplit(head: seq<Interval>, i: Interval, x: real)
    ensures Covers(head + [i], x) <==> Covers(head, x) || Holds(i, x)
  {
    if Covers(head, x) {
      var j :| j in head && Holds(j, x);
      assert j in head + [i];
    }
    if Holds(i, x) { assert i in head + [i]; }
  }

  /** The union is sorted, strictly separated, and covers exactly the points of its inputs. */
  lemma {:induction false} UnionIsExact(sorted: seq<Interval>)
    requires InOrder(sorted)
    ensures Separated(UnionOf(sorted))
    ensures forall m | m in UnionOf(sorted) :: sorted != [] && m.start <= sorted[|sorted| - 1].start
    ensures forall x :: Covers(UnionOf(sorted), x) <==> Covers(sorted, x)
  {
    if sorted != [] {
      var n := |sorted| - 1;
      UnionIsExact(sorted[..n]);
      assert n > 0 ==> IntervalLeq(sorted[n - 1], sorted[n]);
      AddKeeps(UnionOf(sorted[..n]), sorted[n]);
      assert sorted == sorted[..n] + [sorted[n]];
      forall x ensures Covers(UnionOf(sorted), x) <==> Covers(sorted, x) {
        CoversSplit(sorted[..n], sorted[n], x);
      }
    }
  }

  lemma UnionCoversInputs(intervals: seq<Interval>)
    ensures Separated(UnionOf(Sorted(intervals)))
    ensures forall x :: Covers(UnionOf(Sorted(intervals)), x) <==> Covers(intervals, x)
  {
    var sorted := Sorted(intervals);
    UnionIsExact(sorted);
    forall x ensures Covers(sorted, x) <==> Covers(intervals, x) {
      if Covers(sorted, x) { var i :| i in sorted && Holds(i, x); assert i in intervals; }
      if Covers(intervals, x) { var i :| i in intervals && Holds(i, x); assert i in sorted; }
    }
  }

  /** The union is a normal form: separated lists that cover the same points are equal. */
  lemma {:induction false} SeparatedIsCanonical(a: seq<Interval>, b: seq<Interval>)
    requires Separated(a) && Separated(b)
    requires forall x :: Covers(a, x) <==> Covers(b, x)
    ensures a == b
  {
    if a == [] || b == [] {
      if a != [] { assert Holds(a[0], a[0].start); assert Covers(a, a[0].start); }
      if b != [] { assert Holds(b[0], b[0].start); assert Covers(b, b[0].start); }
    } else {
      FirstReaches(a, b);
      FirstReaches(b, a);
      assert a[0] == b[0];
      forall x ensures Covers(a[1..], x) <==> Covers(b[1..], x) {
        TailCovers(a, x);
        TailCovers(b, x);
      }
      SeparatedIsCanonical(a[1..], b[1..]);
      assert a == [a[0]] + a[1..] && b == [b[0]] + b[1..];
    }
  }

  /** If `b` covers what `a` covers, the first interval of `b` starts no later and then ends no earlier. */
  lemma FirstReaches(a: seq<Interval>, b: seq<Interval>)
    requires a != [] && b != [] && Separated(a) && Separated(b)
    requires forall x :: Covers(a, x) ==> Covers(b, x)
    ensures b[0].start <= a[0].start
    ensures b[0].start == a[0].start ==> a[0].end <= b[0].end
  {
    assert Holds(a[0], a[0].start) && Covers(a, a[0].start);
    assert Covers(b, a[0].start);
    var e := b[0].end;
    assert !Covers(b, e);
    assert Holds(a[0], e) ==> Covers(a, e);
  }

  lemma TailCovers(a: seq<Interval>, x: real)
    requires a != [] && Separated(a)
    ensures Covers(a[1..], x) <==> Covers(a, x) && a[0].end <= x
  {
    if Covers(a[1..], x) {
      var i :| i in a[1..] && Holds(i, x);
      assert i in a;
    }
    if Covers(a, x) && a[0].end <= x {
      var i :| i in a && Holds(i, x);
      assert i in a[1..];
    }
  }

  // ---------------------------------------------------------------- coverage

  function TotalLength(s: seq<Interval>): real {
    if s == [] then 0.0 else TotalLength(s[..|s| - 1]) + (s[|s| - 1].end - s[|s| - 1].start)
  }

  /** Overlap of [c, d) with every interval of a list. */
  function OverlapWith(s: seq<Interval>, c: real, d: real): (r: real)
    ensures 0.0 <= r
  {
    if s == [] then 0.0
    else OverlapWith(s[..|s| - 1], c, d) + Overlap(s[|s| - 1].start, s[|s| - 1].end, c, d)
  }

  function CoveredOf(segments: seq<Interval>, speech: seq<Interval>): (r: real)
    ensures 0.0 <= r
  {
    if speech == [] then 0.0
    else CoveredOf(segments, speech[..|speech| - 1])
         + OverlapWith(segments, speech[|speech| - 1].start, speech[|speech| - 1].end)
  }

  lemma {:induction false} OverlapBound(s: seq<Interval>, c: real, d: real)
    requires Separated(s) && c <= d
    ensures OverlapWith(s, c, d) <= if s == [] then 0.0 else Max(0.0, Min(d, s[|s| - 1].end) - c)
  {
    if s != [] { OverlapBound(s[..|s| - 1], c, d); }
  }

  lemma {:induction false} OverlapSplits(s: seq<Interval>, c: real, m: real, d: real)
    requires c <= m <= d && forall i | i in s :: i.start < i.end
    ensures OverlapWith(s, c, d) == OverlapWith(s, c, m) + OverlapWith(s, m, d)
  {
    if s != [] { OverlapSplits(s[..|s| - 1], c, m, d); }
  }

  /** Around an uncovered point there is an uncovered stretch. */
  lemma {:induction false} UncoveredStretch(s: seq<Interval>, x: real, d: real) returns (e: real)
    requires Separated(s) && x < d && !Covers(s, x)
    ensures x < e <= d && OverlapWith(s, x, e) == 0.0
  {
    if s == [] {
      e := d;
    } else {
      var last := s[|s| - 1];
      assert last in s;
      CoversSplit(s[..|s| - 1], last, x);
      assert s == s[..|s| - 1] + [last];
      e := UncoveredStretch(s[..|s| - 1], x, d);
      if last.start > x {
        var f := Min(e, last.start);
        ShorterOverlap(s[..|s| - 1], x, f, e);
        e := f;
      }
    }
  }

  lemma {:induction false} ShorterOverlap(s: seq<Interval>, x: real, f: real, e: real)
    requires x <= f <= e && OverlapWith(s, x, e) == 0.0
    ensures OverlapWith(s, x, f) == 0.0
  {
    if s != [] {
      var head, last := s[..|s| - 1], s[|s| - 1];
      assert OverlapWith(head, x, e) == 0.0 && Overlap(last.start, last.end, x, e) == 0.0;
      ShorterOverlap(head, x, f, e);
    }
  }

  ghost predicate AllCovered(s: seq<Interval>, c: real, d: real) {
    forall x | c <= x < d :: Covers(s, x)
  }

  /** Intervals of a separated list overlap [c, d) by its whole length exactly when they cover it. */
  lemma FullOverlap(s: seq<Interval>, c: real, d: real)
    requires Separated(s) && c < d
    ensures OverlapWith(s, c, d) <= d - c
    ensures OverlapWith(s, c, d) == d - c <==> AllCovered(s, c, d)
  {
    OverlapBound(s, c, d);
    if AllCovered(s, c, d) {
      assert Covers(s, c);
      var i :| i in s && Holds(i, c);
      var k :| 0 <= k < |s| && s[k] == i;
      assert !Covers(s, i.end);
      OneOverlaps(s, k, c, d);
    } else {
      var x :| c <= x < d && !Covers(s, x);
      var e := UncoveredStretch(s, x, d);
      OverlapSplits(s, c, x, d);
      OverlapSplits(s, x, e, d);
      OverlapBound(s, c, x);
      OverlapBound(s, e, d);
    }
  }

  lemma {:induction false} OneOverlaps(s: seq<Interval>, k: nat, c: real, d: real)
    requires k < |s| && c < d && s[k].start <= c && d <= s[k].end
    ensures OverlapWith(s, c, d) >= d - c
  {
    if k < |s| - 1 { OneOverlaps(s[..|s| - 1], k, c, d); }
  }

  /** Every point of speech lies in a segment. */
  ghost predicate SpeechCovered(segments: seq<Interval>, speech: seq<Interval>) {
    forall x :: Covers(speech, x) ==> Covers(segments, x)
  }

  lemma {:induction false} CoveredBound(segments: seq<Interval>, speech: seq<Interval>)
    requires Separated(segments) && forall i | i in speech :: i.start < i.end
    ensures CoveredOf(segments, speech) <= TotalLength(speech)
    ensures CoveredOf(segments, speech) == TotalLength(speech) <==> SpeechCovered(segments, speech)
    ensures speech != [] ==> TotalLength(speech) > 0.0
  {
    if speech != [] {
      var head, last := speech[..|speech| - 1], speech[|speech| - 1];
      CoveredBound(segments, head);
      FullOverlap(segments, last.start, last.end);
      assert speech == head + [last];
      SpeechCoveredSplits(segments, head, last);
    }
  }

  lemma SpeechCoveredSplits(segments: seq<Interval>, head: seq<Interval>, last: Interval)
    ensures SpeechCovered(segments, head + [last])
       <==> SpeechCovered(segments, head) && AllCovered(segments, last.start, last.end)
  {
    forall x ensures Covers(head + [last], x) <==> Covers(head, x) || Holds(last, x) { CoversSplit(head, last, x); }
  }

  /** The double sum, segment by segment, is the sum taken speech interval by speech interval. */
  lemma {:induction false} CoveredGrows(segments: seq<Interval>, speech: seq<Interval>, s: Interval)
    ensures CoveredOf(segments + [s], speech) == CoveredOf(segments, speech) + OverlapWith(speech, s.start, s.end)
  {
    assert (segments + [s])[..|segments|] == segments;
    if speech != [] {
      CoveredGrows(segments, speech[..|speech| - 1], s);
    }
  }

  method CoveredSeconds(segments: seq<Interval>, speech: seq<Interval>) returns (covered: real)
    ensures covered == CoveredOf(segments, speech)
  {
    covered := 0.0;
    NothingCovered(speech);
    for k := 0 to |segments|
      invariant covered == CoveredOf(segments[..k], speech)
    {
      var s := segments[k];
      CoveredGrows(segments[..k], speech, s);
      assert segments[..k + 1] == segments[..k] + [s];
      covered := covered + OverlapWith(speech, s.start, s.end);
    }
    assert segments[..|segments|] == segments;
  }

  lemma NothingCovered(speech: seq<Interval>)
    ensures CoveredOf([], speech) == 0.0
  {
    if speech != [] { NothingCovered(speech[..|speech| - 1]); }
  }

  /** Share of the positive-length turns inside the segments, 1 without speech. */
  method DetectedSpeechCoverage(segments: seq<Interval>, turns: seq<Interval>) returns (r: real)
    ensures r == Coverage(segments, turns)
  {
    var speechIntervals := UnionIntervals(turns);
    var segmentIntervals := UnionIntervals(segments);
    var speechSeconds := TotalLength(speechIntervals);
    if speechSeconds == 0.0 {
      return 1.0;
    }
    var covered := CoveredSeconds(segmentIntervals, speechIntervals);
    r := covered / speechSeconds;
  }

  function Coverage(segments: seq<Interval>, turns: seq<Interval>): real {
    var speech := UnionOf(Sorted(turns));
    if TotalLength(speech) == 0.0 then 1.0 else CoveredOf(UnionOf(Sorted(segments)), speech) / TotalLength(speech)
  }

  /** Coverage lies in [0, 1], and is 1 exactly when every point of speech lies in a segment. */
  lemma CoverageIsAShare(segments: seq<Interval>, turns: seq<Interval>)
    ensures 0.0 <= Coverage(segments, turns) <= 1.0
    ensures Coverage(segments, turns) == 1.0 <==> SpeechCovered(segments, turns)
  {
    var speech, covering := UnionOf(Sorted(turns)), UnionOf(Sorted(segments));
    UnionCoversInputs(turns);
    UnionCoversInputs(segments);
    CoveredBound(covering, speech);
    assert SpeechCovered(covering, speech) <==> SpeechCovered(segments, turns);
    if TotalLength(speech) != 0.0 {
      RatioInUnit(CoveredOf(covering, speech), TotalLength(speech));
    }
  }

  lemma {:induction false} OverlapAdds(a: seq<Interval>, b: seq<Interval>, c: real, d: real)
    ensures OverlapWith(a + b, c, d) == OverlapWith(a, c, d) + OverlapWith(b, c, d)
  {
    if b == [] {
      assert a + b == a;
    } else {
      var last := |b| - 1;
      OverlapAdds(a, b[..last], c, d);
      assert (a + b)[..|a + b| - 1] == a + b[..last];
    }
  }

  /** What is covered adds up over the segments and over the speech; of one segment and one
      stretch of speech it is the length of what they share. */
  lemma {:induction false} CoveredAdds(a: seq<Interval>, b: seq<Interval>, speech: seq<Interval>, more: seq<Interval>)
    ensures CoveredOf(a + b, speech) == CoveredOf(a, speech) + CoveredOf(b, speech)
    ensures CoveredOf(a, speech + more) == CoveredOf(a, speech) + CoveredOf(a, more)
    decreases |speech| + |more|
  {
    if more == [] {
      assert speech + more == speech;
    } else {
      var last := |more| - 1;
      CoveredAdds(a, b, speech, more[..last]);
      assert (speech + more)[..|speech + more| - 1] == speech + more[..last];
    }
    if speech != [] {
      var last := |speech| - 1;
      CoveredAdds(a, b, speech[..last], []);
      OverlapAdds(a, b, speech[last].start, speech[last].end);
    }
  }

  lemma CoveredOne(x: Interval, y: Interval)
    ensures CoveredOf([x], [y]) == Max(0.0, Min(x.end, y.end) - Max(x.start, y.start))
  {
    assert [x][..0] == [] && [y][..0] == [];
    assert CoveredOf([x], []) == 0.0 && OverlapWith([], y.start, y.end) == 0.0;
  }

  lemma {:induction false} LengthAdds(a: seq<Interval>, b: seq<Interval>)
    ensures TotalLength(a + b) == TotalLength(a) + TotalLength(b)
  {
    if b == [] {
      assert a + b == a;
    } else {
      var last := |b| - 1;
      LengthAdds(a, b[..last]);
      assert (a + b)[..|a + b| - 1] == a + b[..last];
    }
  }

  lemma LengthOne(x: Interval)
    ensures TotalLength([x]) == x.end - x.start
  {
    assert [x][..0] == [];
    assert TotalLength([]) == 0.0;
  }

  /** Coverage times the length of all speech is what the segments cover of it. */
  lemma CoverageScales(segments: seq<Interval>, turns: seq<Interval>)
    requires TotalLength(UnionOf(Sorted(turns))) != 0.0
    ensures Scaled(Coverage(segments, turns), TotalLength(UnionOf(Sorted(turns))))
         == CoveredOf(UnionOf(Sorted(segments)), UnionOf(Sorted(turns)))
  {
    var covered, length := CoveredOf(UnionOf(Sorted(segments)), UnionOf(Sorted(turns))), TotalLength(UnionOf(Sorted(turns)));
    assert Coverage(segments, turns) == covered / length;
    QuotientTimes(covered, length);
  }

  ghost function Scaled(share: real, length: real): real {
    share * length
  }

  lemma QuotientTimes(a: real, b: real)
    requires b != 0.0
    ensures Scaled(a / b, b) == a
  {
    var q := a / b;
    assert q * b == a;
  }

  lemma RatioInUnit(a: real, b: real)
    requires 0.0 <= a <= b && 0.0 < b
    ensures 0.0 <= a / b <= 1.0
    ensures a / b == 1.0 <==> a == b
  {
    var q := a / b;
    assert q * b == a;
  }
}
