/** Best path through a chain by forward recurrence and back-pointers, the dynamic program of
    `_assign_word_speaker_sequence` (`src/utteran/align.py`). */
module Viterbi {
  /** A chain of `size` positions over some states: the score of a state at a position, the
      penalty of a change, and the order that breaks ties between states. */
  datatype Chain<!T> = Chain(
    size: nat,
    states: set<T>,
    emit: (nat, T) -> real,
    switch: (nat, T, T) -> real,
    leq: (T, T) -> bool)

  ghost predicate TotalOrder<T(!new)>(leq: (T, T) -> bool) {
    && (forall a, b :: leq(a, b) || leq(b, a))
    && (forall a, b :: leq(a, b) && leq(b, a) ==> a == b)
    && (forall a, b, c :: leq(a, b) && leq(b, c) ==> leq(a, c))
  }

  ghost predicate IsPath<T(!new)>(c: Chain<T>, path: seq<T>) {
    forall k | 0 <= k < |path| :: path[k] in c.states
  }

  /** Emissions minus transition penalties of a path from the first position. */
  ghost function Total<T(!new)>(c: Chain<T>, path: seq<T>): real
    requires path != []
  {
    var k := |path| - 1;
    if k == 0 then c.emit(0, path[0])
    else Total(c, path[..k]) - c.switch(k, path[k - 1], path[k]) + c.emit(k, path[k])
  }

  ghost predicate BackwardLeq<T(!new)>(leq: (T, T) -> bool, a: seq<T>, b: seq<T>)
    requires |a| == |b|
  {
    var k := |a| - 1;
    k < 0 || (if a[k] == b[k] then BackwardLeq(leq, a[..k], b[..k]) else leq(a[k], b[k]))
  }

  /** `a` is at least as good as `b`: a higher total or, on a tie, the greater state at the
      last position where they differ. */
  ghost predicate Beats<T(!new)>(c: Chain<T>, a: seq<T>, b: seq<T>)
    requires |a| == |b| && a != []
  {
    Total(c, b) < Total(c, a) || (Total(c, b) == Total(c, a) && BackwardLeq(c.leq, b, a))
  }

  /** `best` beats every path of its length that ends in the same state. */
  ghost predicate BestEnding<T(!new)>(c: Chain<T>, best: seq<T>)
  {
    && best != [] && IsPath(c, best)
    && forall q: seq<T> {:trigger IsPath(c, q)} ::
         IsPath(c, q) && |q| == |best| && q[|q| - 1] == best[|q| - 1] ==> Beats(c, best, q)
  }

  ghost predicate Optimal<T(!new)>(c: Chain<T>, best: seq<T>) {
    && |best| == c.size >= 1 && IsPath(c, best)
    && forall q: seq<T> {:trigger IsPath(c, q)} ::
         IsPath(c, q) && |q| == |best| ==> Beats(c, best, q)
  }

  lemma BackwardLeqReflexive<T(!new)>(leq: (T, T) -> bool, a: seq<T>)
    ensures BackwardLeq(leq, a, a)
  {
    if a != [] { BackwardLeqReflexive(leq, a[..|a| - 1]); }
  }

  lemma BackwardLeqAntisymmetric<T(!new)>(leq: (T, T) -> bool, a: seq<T>, b: seq<T>)
    requires TotalOrder(leq)
    requires |a| == |b| && BackwardLeq(leq, a, b) && BackwardLeq(leq, b, a)
    ensures a == b
  {
    var k := |a| - 1;
    if k >= 0 {
      BackwardLeqAntisymmetric(leq, a[..k], b[..k]);
      assert a == a[..k] + [a[k]] && b == b[..k] + [b[k]];
    }
  }

  /** The optimality condition, tie-break included, leaves exactly one path. */
  lemma OptimalIsUnique<T(!new)>(c: Chain<T>, a: seq<T>, b: seq<T>)
    requires TotalOrder(c.leq) && Optimal(c, a) && Optimal(c, b)
    ensures a == b
  {
    assert IsPath(c, a) && IsPath(c, b);
    BackwardLeqAntisymmetric(c.leq, a, b);
  }

  // ---------------------------------------------------------------- one step

  function Candidate<T(!new)>(c: Chain<T>, k: nat, score: real, previous: T, state: T): real {
    score - c.switch(k, previous, state) + c.emit(k, state)
  }

  /** (score, state) pairs in the order of Python tuples. */
  predicate PairLeq<T(!new)>(leq: (T, T) -> bool, a: real, la: T, b: real, lb: T) {
    a < b || (a == b && leq(la, lb))
  }

  /** The scores and, for the proof, the best paths after some position. */
  ghost predicate Solved<T(!new)>(c: Chain<T>, i: nat, scores: map<T, real>, paths: map<T, seq<T>>) {
    forall s {:trigger SolvedAt(c, i, scores, paths, s)} | s in c.states :: SolvedAt(c, i, scores, paths, s)
  }

  ghost predicate SolvedAt<T(!new)>(c: Chain<T>, i: nat, scores: map<T, real>, paths: map<T, seq<T>>, s: T) {
    && s in scores && s in paths
    && |paths[s]| == i + 1 && paths[s][i] == s
    && BestEnding(c, paths[s])
    && Total(c, paths[s]) == scores[s]
  }

  ghost predicate BestPreviousFor<T(!new)>(c: Chain<T>, k: nat, scores: map<T, real>, state: T, best: T)
    requires c.states <= scores.Keys
  {
    && best in c.states
    && forall o | o in c.states ::
         PairLeq(c.leq, Candidate(c, k, scores[o], o, state), o, Candidate(c, k, scores[best], best, state), best)
  }

  lemma Extend<T(!new)>(c: Chain<T>, i: nat, scores: map<T, real>, paths: map<T, seq<T>>, s: T, best: T)
    requires TotalOrder(c.leq) && Solved(c, i, scores, paths) && s in c.states
    requires c.states <= scores.Keys && BestPreviousFor(c, i + 1, scores, s, best)
    ensures SolvedAt(c, i, scores, paths, best)
    ensures var t := paths[best] + [s];
            Total(c, t) == Candidate(c, i + 1, scores[best], best, s) && BestEnding(c, t)
  {
    assert SolvedAt(c, i, scores, paths, best);
    var t := paths[best] + [s];
    assert t[..i + 1] == paths[best];
    forall q | IsPath(c, q) && |q| == |t| && q[i + 1] == s
      ensures Beats(c, t, q)
    {
      ExtendBeats(c, i, scores, paths, s, best, q);
    }
  }

  lemma ExtendBeats<T(!new)>(c: Chain<T>, i: nat, scores: map<T, real>, paths: map<T, seq<T>>, s: T, best: T, q: seq<T>)
    requires TotalOrder(c.leq) && Solved(c, i, scores, paths)
    requires c.states <= scores.Keys && BestPreviousFor(c, i + 1, scores, s, best)
    requires IsPath(c, q) && |q| == i + 2 && q[i + 1] == s
    requires SolvedAt(c, i, scores, paths, best)
    ensures Beats(c, paths[best] + [s], q)
  {
    var before := q[i];
    assert SolvedAt(c, i, scores, paths, before);
    var t := paths[best] + [s];
    assert t[..i + 1] == paths[best];
    var head := q[..i + 1];
    assert IsPath(c, head);
    assert Beats(c, paths[before], head);
    assert Total(c, q) == Candidate(c, i + 1, Total(c, head), before, s);
    assert Total(c, t) == Candidate(c, i + 1, scores[best], best, s);
    assert PairLeq(c.leq, Candidate(c, i + 1, scores[before], before, s), before, Total(c, t), best);
  }

  method BestPrevious<T(!new)>(c: Chain<T>, k: nat, order: seq<T>, scores: map<T, real>, state: T)
    returns (bestScore: real, best: T)
    requires TotalOrder(c.leq) && c.states <= scores.Keys
    requires order != [] && forall s :: s in order <==> s in c.states
    ensures BestPreviousFor(c, k, scores, state, best)
    ensures bestScore == Candidate(c, k, scores[best], best, state)
  {
    best := order[0];
    assert best in c.states;
    bestScore := Candidate(c, k, scores[best], best, state);
    for j := 1 to |order|
      invariant best in c.states && bestScore == Candidate(c, k, scores[best], best, state)
      invariant forall o | o in order[..j] ::
                  o in c.states && PairLeq(c.leq, Candidate(c, k, scores[o], o, state), o, bestScore, best)
    {
      var o := order[j];
      assert o in c.states;
      var score := Candidate(c, k, scores[o], o, state);
      if PairLeq(c.leq, bestScore, best, score, o) {
        best, bestScore := o, score;
      }
      assert order[..j + 1] == order[..j] + [order[j]];
    }
    assert order[..|order|] == order;
  }

  method BestFinal<T(!new)>(c: Chain<T>, order: seq<T>, scores: map<T, real>) returns (best: T)
    requires TotalOrder(c.leq) && c.states <= scores.Keys
    requires order != [] && forall s :: s in order <==> s in c.states
    ensures best in c.states
    ensures forall s | s in c.states :: PairLeq(c.leq, scores[s], s, scores[best], best)
  {
    best := order[0];
    assert best in c.states;
    for j := 1 to |order|
      invariant best in c.states
      invariant forall o | o in order[..j] :: o in c.states && PairLeq(c.leq, scores[o], o, scores[best], best)
    {
      assert order[j] in c.states;
      if PairLeq(c.leq, scores[best], best, scores[order[j]], order[j]) {
        best := order[j];
      }
      assert order[..j + 1] == order[..j] + [order[j]];
    }
    assert order[..|order|] == order;
  }

  // ---------------------------------------------------------------- back-pointers

  type Pointers<T> = map<T, T>

  /** The ghost paths of every position agree with the back-pointers between them. */
  ghost predicate Linked<T(!new)>(c: Chain<T>, pointers: seq<Pointers<T>>, paths: seq<map<T, seq<T>>>) {
    && |paths| == |pointers| + 1
    && (forall s | s in c.states :: s in paths[0] && paths[0][s] == [s])
    && forall k | 0 <= k < |pointers| :: LinkedAt(c, pointers[k], paths[k], paths[k + 1])
  }

  ghost predicate LinkedAt<T(!new)>(c: Chain<T>, pointers: Pointers<T>, before: map<T, seq<T>>, after: map<T, seq<T>>) {
    forall s {:trigger LinkedTo(c, pointers, before, after, s)} | s in c.states ::
      LinkedTo(c, pointers, before, after, s)
  }

  ghost predicate LinkedTo<T(!new)>(c: Chain<T>, pointers: Pointers<T>, before: map<T, seq<T>>,
                                    after: map<T, seq<T>>, s: T) {
    && s in after && s in pointers && pointers[s] in c.states && pointers[s] in before
    && after[s] == before[pointers[s]] + [s]
  }

  function Reversed<T(!new)>(s: seq<T>): (r: seq<T>)
    ensures |r| == |s|
  {
    if s == [] then [] else Reversed(s[1..]) + [s[0]]
  }

  lemma ReversedSnoc<T(!new)>(s: seq<T>, x: T)
    ensures Reversed(s + [x]) == [x] + Reversed(s)
  {
    if s == [] {
      assert s + [x] == [x];
    } else {
      ReversedSnoc(s[1..], x);
      assert (s + [x])[1..] == s[1..] + [x];
    }
  }

  /** Follow the back-pointers from the last position to the first, then reverse. */
  method FollowPointers<T(!new)>(c: Chain<T>, pointers: seq<Pointers<T>>, ghost paths: seq<map<T, seq<T>>>, last: T)
    returns (sequence: seq<T>)
    requires Linked(c, pointers, paths) && last in c.states && last in paths[|pointers|]
    ensures sequence == paths[|pointers|][last]
  {
    var selected := last;
    sequence := [selected];
    var k := |pointers|;
    ghost var rest := [];
    while k > 0
      invariant 0 <= k <= |pointers| && selected in c.states && selected in paths[k]
      invariant Reversed(sequence) == [selected] + rest
      invariant paths[|pointers|][last] == paths[k][selected] + rest
    {
      assert LinkedAt(c, pointers[k - 1], paths[k - 1], paths[k]);
      assert LinkedTo(c, pointers[k - 1], paths[k - 1], paths[k], selected);
      rest := [selected] + rest;
      selected := pointers[k - 1][selected];
      ReversedSnoc(sequence, selected);
      sequence := sequence + [selected];
      k := k - 1;
    }
    sequence := Reversed(sequence);
  }

  /** One position forward: a best predecessor and a score for every state. */
  method Advance<T(!new)>(c: Chain<T>, index: nat, order: seq<T>, scores: map<T, real>, ghost before: map<T, seq<T>>)
    returns (nextScores: map<T, real>, previousForState: Pointers<T>, ghost after: map<T, seq<T>>)
    requires TotalOrder(c.leq) && 1 <= index
    requires order != [] && forall s :: s in order <==> s in c.states
    requires c.states <= scores.Keys && Solved(c, index - 1, scores, before)
    ensures c.states <= nextScores.Keys && Solved(c, index, nextScores, after)
    ensures LinkedAt(c, previousForState, before, after)
  {
    nextScores, previousForState, after := map[], map[], map[];
    for j := 0 to |order|
      invariant forall s {:trigger SolvedAt(c, index, nextScores, after, s)} | s in order[..j] ::
                  SolvedAt(c, index, nextScores, after, s)
      invariant forall s {:trigger LinkedTo(c, previousForState, before, after, s)} | s in order[..j] ::
                  LinkedTo(c, previousForState, before, after, s)
    {
      var state := order[j];
      var score, best := BestPrevious(c, index, order, scores, state);
      Extend(c, index - 1, scores, before, state, best);
      ghost var scores', pointers', after' := nextScores, previousForState, after;
      nextScores := nextScores[state := score];
      previousForState := previousForState[state := best];
      after := after[state := before[best] + [state]];
      forall s | s in order[..j + 1]
        ensures SolvedAt(c, index, nextScores, after, s) && LinkedTo(c, previousForState, before, after, s)
      {
        if s != state {
          assert s in order[..j];
          assert SolvedAt(c, index, scores', after', s) && LinkedTo(c, pointers', before, after', s);
        }
      }
    }
    assert order[..|order|] == order;
    forall s | s in c.states ensures SolvedAt(c, index, nextScores, after, s) && LinkedTo(c, previousForState, before, after, s) {
      assert s in order;
    }
  }

  /** The best path of a chain: forward recurrence over `order`, then the back-pointers. */
  method BestSequence<T(!new)>(c: Chain<T>, order: seq<T>) returns (sequence: seq<T>)
    requires TotalOrder(c.leq) && 1 <= c.size
    requires order != [] && forall s :: s in order <==> s in c.states
    ensures Optimal(c, sequence)
  {
    var scores: map<T, real> := map s | s in order :: c.emit(0, s);
    var backpointers: seq<Pointers<T>> := [];
    ghost var paths: seq<map<T, seq<T>>> := [map s | s in c.states :: [s]];
    FirstSolved(c, scores, paths[0]);
    for index := 1 to c.size
      invariant |backpointers| == index - 1 && Linked(c, backpointers, paths)
      invariant c.states <= scores.Keys && Solved(c, index - 1, scores, paths[index - 1])
    {
      ghost var before := paths[index - 1];
      var nextScores, previousForState, after := Advance(c, index, order, scores, before);
      scores := nextScores;
      backpointers := backpointers + [previousForState];
      paths := paths + [after];
    }
    var selected := BestFinal(c, order, scores);
    assert SolvedAt(c, c.size - 1, scores, paths[c.size - 1], selected);
    sequence := FollowPointers(c, backpointers, paths, selected);
    FinalIsOptimal(c, scores, paths[c.size - 1], selected);
  }

  lemma FirstSolved<T(!new)>(c: Chain<T>, scores: map<T, real>, paths: map<T, seq<T>>)
    requires forall s | s in c.states :: s in scores && scores[s] == c.emit(0, s)
    requires forall s | s in c.states :: s in paths && paths[s] == [s]
    ensures Solved(c, 0, scores, paths)
  {
    forall s | s in c.states ensures BestEnding(c, paths[s]) {
      forall q | IsPath(c, q) && |q| == 1 && q[0] == s ensures Beats(c, paths[s], q) {
        assert q == [s];
        BackwardLeqReflexive(c.leq, q);
      }
    }
  }

  lemma FinalIsOptimal<T(!new)>(c: Chain<T>, scores: map<T, real>, paths: map<T, seq<T>>, best: T)
    requires TotalOrder(c.leq) && 1 <= c.size && c.states <= scores.Keys
    requires Solved(c, c.size - 1, scores, paths) && best in c.states
    requires forall s | s in c.states :: PairLeq(c.leq, scores[s], s, scores[best], best)
    ensures best in paths && Optimal(c, paths[best])
  {
    assert SolvedAt(c, c.size - 1, scores, paths, best);
    forall q | IsPath(c, q) && |q| == c.size ensures Beats(c, paths[best], q) {
      var last := q[c.size - 1];
      assert SolvedAt(c, c.size - 1, scores, paths, last);
      assert Beats(c, paths[last], q);
      assert PairLeq(c.leq, scores[last], last, scores[best], best);
    }
  }

  // ---------------------------------------------------------------- parts of a path

  /** Total of a stretch of states that starts at position `k`, without the change into it. */
  ghost function StretchTotal<T(!new)>(c: Chain<T>, k: nat, part: seq<T>): real
    requires part != []
  {
    var j := |part| - 1;
    if j == 0 then c.emit(k, part[0])
    else StretchTotal(c, k, part[..j]) - c.switch(k + j, part[j - 1], part[j]) + c.emit(k + j, part[j])
  }

  lemma {:induction false} WholeStretch<T(!new)>(c: Chain<T>, path: seq<T>)
    requires path != []
    ensures Total(c, path) == StretchTotal(c, 0, path)
  {
    if |path| > 1 { WholeStretch(c, path[..|path| - 1]); }
  }

  lemma {:induction false} JoinedStretch<T(!new)>(c: Chain<T>, k: nat, a: seq<T>, b: seq<T>)
    requires a != [] && b != []
    ensures StretchTotal(c, k, a + b)
         == StretchTotal(c, k, a) - c.switch(k + |a|, a[|a| - 1], b[0]) + StretchTotal(c, k + |a|, b)
  {
    var j := |b| - 1;
    if j == 0 {
      assert (a + b)[..|a|] == a;
    } else {
      JoinedStretch(c, k, a, b[..j]);
      assert (a + b)[..|a| + j] == a + b[..j];
    }
  }

  /** No other end of the path, from any position on, is better once its first change is paid. */
  lemma OptimalTail<T(!new)>(c: Chain<T>, best: seq<T>, k: nat, tail: seq<T>)
    requires Optimal(c, best) && 0 < k < c.size
    requires |tail| == c.size - k && forall s | s in tail :: s in c.states
    ensures StretchTotal(c, k, tail) - c.switch(k, best[k - 1], tail[0])
         <= StretchTotal(c, k, best[k..]) - c.switch(k, best[k - 1], best[k])
  {
    var head, other := best[..k], best[..k] + tail;
    assert IsPath(c, other) by {
      forall j | 0 <= j < |other| ensures other[j] in c.states {
        if j >= k { assert other[j] in tail; }
      }
    }
    assert best == head + best[k..];
    WholeStretch(c, best);
    WholeStretch(c, other);
    JoinedStretch(c, 0, head, best[k..]);
    JoinedStretch(c, 0, head, tail);
  }

  /** Scores of one state at the positions from `k` up to `n`. */
  ghost function StateTotal<T(!new)>(c: Chain<T>, k: nat, n: nat, s: T): real
    requires k <= n
  {
    if k == n then 0.0 else StateTotal(c, k, n - 1, s) + c.emit(n - 1, s)
  }

  lemma {:induction false} SteadyStretch<T(!new)>(c: Chain<T>, k: nat, n: nat, part: seq<T>, s: T)
    requires part != [] && k + |part| == n && forall j | 0 <= j < |part| :: part[j] == s
    requires forall j: nat :: c.switch(j, s, s) == 0.0
    ensures StretchTotal(c, k, part) == StateTotal(c, k, n, s)
  {
    var j := |part| - 1;
    if j > 0 {
      SteadyStretch(c, k, n - 1, part[..j], s);
    } else {
      assert StateTotal(c, k, k, s) == 0.0;
    }
  }

  /** Where staying is free, the states of the last run score at least as much more than the state
      before them as the change into the run costs. */
  lemma OptimalRun<T(!new)>(c: Chain<T>, best: seq<T>, k: nat)
    requires Optimal(c, best) && 0 < k < c.size && forall j | k <= j < c.size :: best[j] == best[k]
    requires forall j: nat, s: T :: c.switch(j, s, s) == 0.0
    ensures StateTotal(c, k, c.size, best[k]) >= StateTotal(c, k, c.size, best[k - 1]) + c.switch(k, best[k - 1], best[k])
  {
    var stay := seq(c.size - k, _ => best[k - 1]);
    OptimalTail(c, best, k, stay);
    SteadyStretch(c, k, c.size, stay, best[k - 1]);
    SteadyStretch(c, k, c.size, best[k..], best[k]);
  }

  /** No other state serves one position of the path better, its two changes included. */
  lemma OptimalPlace<T(!new)>(c: Chain<T>, best: seq<T>, k: nat, s: T)
    requires Optimal(c, best) && k < c.size && s in c.states
    ensures Served(c, best, k, s) <= Served(c, best, k, best[k])
  {
    ServedWithin(c, best, k, s);
    ServedWithin(c, best, k, best[k]);
    assert best[k := best[k]] == best;
    assert IsPath(c, best[k := s]);
  }

  /** Score of a state at one position of a path, less the changes into and out of it. */
  ghost function Served<T(!new)>(c: Chain<T>, path: seq<T>, k: nat, s: T): real
    requires k < |path|
  {
    c.emit(k, s)
    - (if k > 0 then c.switch(k, path[k - 1], s) else 0.0)
    - (if k + 1 < |path| then c.switch(k + 1, s, path[k + 1]) else 0.0)
  }

  /** The rest of the total does not depend on the state at one position. */
  ghost function Besides<T(!new)>(c: Chain<T>, path: seq<T>, k: nat): real
    requires k < |path|
  {
    (if k > 0 then StretchTotal(c, 0, path[..k]) else 0.0)
    + (if k + 1 < |path| then StretchTotal(c, k + 1, path[k + 1..]) else 0.0)
  }

  lemma ServedWithin<T(!new)>(c: Chain<T>, path: seq<T>, k: nat, s: T)
    requires k < |path|
    ensures Total(c, path[k := s]) == Besides(c, path, k) + Served(c, path, k, s)
  {
    var p := path[k := s];
    var tail := [s] + path[k + 1..];
    WholeStretch(c, p);
    if k + 1 < |path| { JoinedStretch(c, k, [s], path[k + 1..]); } else { assert tail == [s]; }
    if k > 0 {
      JoinedStretch(c, 0, path[..k], tail);
      assert p == path[..k] + tail;
    } else {
      assert p == tail;
    }
  }

  // ---------------------------------------------------------------- scaling the penalties

  ghost function EmissionTotal<T(!new)>(c: Chain<T>, path: seq<T>): real {
    if path == [] then 0.0
    else EmissionTotal(c, path[..|path| - 1]) + c.emit(|path| - 1, path[|path| - 1])
  }

  /** Total penalty of the changes of a path. */
  ghost function SwitchTotal<T(!new)>(c: Chain<T>, path: seq<T>): real {
    var k := |path| - 1;
    if k <= 0 then 0.0
    else SwitchTotal(c, path[..k]) + c.switch(k, path[k - 1], path[k])
  }

  /** `c` charges `factor` times the penalties of `unit` and scores states alike. */
  ghost predicate Scales<T(!new)>(c: Chain<T>, unit: Chain<T>, factor: real) {
    && c.size == unit.size && c.states == unit.states
    && (forall k, s :: c.emit(k, s) == unit.emit(k, s))
    && (forall k, a, b :: c.switch(k, a, b) == factor * unit.switch(k, a, b))
  }

  lemma {:induction false} TotalSplits<T(!new)>(c: Chain<T>, unit: Chain<T>, factor: real, path: seq<T>)
    requires Scales(c, unit, factor) && path != []
    ensures Total(c, path) == EmissionTotal(unit, path) - factor * SwitchTotal(unit, path)
  {
    var k := |path| - 1;
    if k == 0 {
      assert path[..0] == [];
    } else {
      TotalSplits(c, unit, factor, path[..k]);
      var w, d := SwitchTotal(unit, path[..k]), unit.switch(k, path[k - 1], path[k]);
      assert factor * (w + d) == factor * w + factor * d;
    }
  }

  lemma OptimalBalance<T(!new)>(c: Chain<T>, unit: Chain<T>, factor: real, best: seq<T>, other: seq<T>)
    requires Scales(c, unit, factor) && Optimal(c, best) && |other| == |best|
    requires forall k | 0 <= k < |other| :: other[k] in unit.states
    ensures EmissionTotal(unit, other) - factor * SwitchTotal(unit, other)
         <= EmissionTotal(unit, best) - factor * SwitchTotal(unit, best)
  {
    assert IsPath(c, other);
    TotalSplits(c, unit, factor, best);
    TotalSplits(c, unit, factor, other);
  }

  lemma Tradeoff(el: real, eh: real, wl: real, wh: real, low: real, high: real)
    requires low < high
    requires eh - low * wh <= el - low * wl
    requires el - high * wl <= eh - high * wh
    ensures wh <= wl
    ensures low >= 0.0 ==> eh <= el
  {
    assert (high - low) * (wl - wh) == high * wl - high * wh - (low * wl - low * wh) >= 0.0;
    if wl < wh {
      assert false;
    }
    if low >= 0.0 {
      assert low * (wl - wh) >= 0.0;
      assert low * wl - low * wh == low * (wl - wh);
    }
  }

  /** A larger factor never increases the switching weight of the chosen path and, when the
      smaller factor is not negative, never increases its emission total. */
  lemma LargerFactorSwitchesLess<T(!new)>(unit: Chain<T>, c: Chain<T>, d: Chain<T>, low: real, high: real,
                                          pathLow: seq<T>, pathHigh: seq<T>)
    requires low < high && Scales(c, unit, low) && Scales(d, unit, high)
    requires Optimal(c, pathLow) && Optimal(d, pathHigh)
    ensures SwitchTotal(unit, pathHigh) <= SwitchTotal(unit, pathLow)
    ensures low >= 0.0 ==> EmissionTotal(unit, pathHigh) <= EmissionTotal(unit, pathLow)
  {
    OptimalBalance(c, unit, low, pathLow, pathHigh);
    OptimalBalance(d, unit, high, pathHigh, pathLow);
    Tradeoff(EmissionTotal(unit, pathLow), EmissionTotal(unit, pathHigh),
             SwitchTotal(unit, pathLow), SwitchTotal(unit, pathHigh), low, high);
  }
}
