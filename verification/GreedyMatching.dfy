/** Matching hypothesis speakers with reference speakers by descending weight
    (`_greedy_mapping` of `src/utteran/diarization_quality.py`): which matching that is, and how
    far from the best it can be. */
module GreedyMatching {
  import opened Basics

  type Mapping = map<nat, nat>

  ghost predicate Injective(m: Mapping) {
    forall a, b | a in m && b in m && a != b :: m[a] != m[b]
  }

  /** An injective mapping between two sets of speakers. */
  ghost predicate Between(m: Mapping, hs: set<nat>, rs: set<nat>) {
    Injective(m) && m.Keys <= hs && m.Values <= rs
  }

  // ---------------------------------------------------------------- pairs in order

  datatype Pair = Pair(weight: real, h: nat, r: nat)

  /** Order of tuples. */
  predicate PairLeq(a: Pair, b: Pair) {
    a.weight < b.weight || (a.weight == b.weight && (a.h < b.h || (a.h == b.h && a.r <= b.r)))
  }

  ghost predicate Descending(s: seq<Pair>) {
    forall i, j | 0 <= i < j < |s| :: PairLeq(s[j], s[i])
  }

  function PairOf(weight: (nat, nat) -> real, h: nat, r: nat): Pair {
    Pair(weight(h, r), h, r)
  }

  function PairsOf(h: nat, rs: seq<nat>, weight: (nat, nat) -> real): (pairs: seq<Pair>)
    ensures forall p :: p in pairs <==> p.r in rs && p == PairOf(weight, h, p.r)
  {
    if rs == [] then [] else [PairOf(weight, h, rs[0])] + PairsOf(h, rs[1..], weight)
  }

  function AllPairs(hs: seq<nat>, rs: seq<nat>, weight: (nat, nat) -> real): (pairs: seq<Pair>)
    ensures forall p :: p in pairs <==> p.h in hs && p.r in rs && p == PairOf(weight, p.h, p.r)
  {
    if hs == [] then [] else PairsOf(hs[0], rs, weight) + AllPairs(hs[1..], rs, weight)
  }

  function InsertPair(p: Pair, sorted: seq<Pair>): (r: seq<Pair>)
    ensures forall x :: x in r <==> x == p || x in sorted
  {
    if sorted == [] || PairLeq(sorted[0], p) then [p] + sorted else [sorted[0]] + InsertPair(p, sorted[1..])
  }

  lemma {:induction false} InsertPairSorts(p: Pair, sorted: seq<Pair>)
    requires Descending(sorted)
    ensures Descending(InsertPair(p, sorted))
  {
    if sorted != [] && !PairLeq(sorted[0], p) {
      InsertPairSorts(p, sorted[1..]);
      var rest := InsertPair(p, sorted[1..]);
      forall k | 0 <= k < |rest| ensures PairLeq(rest[k], sorted[0]) { assert rest[k] in rest; }
    }
  }

  function SortPairs(pairs: seq<Pair>): (r: seq<Pair>)
    ensures Descending(r) && forall p :: p in r <==> p in pairs
  {
    if pairs == [] then []
    else
      InsertPairSorts(pairs[0], SortPairs(pairs[1..]));
      InsertPair(pairs[0], SortPairs(pairs[1..]))
  }

  // ---------------------------------------------------------------- the greedy mapping

  /** The mapping has a pair with this hypothesis or this reference speaker that comes no later. */
  ghost predicate Settled(m: Mapping, weight: (nat, nat) -> real, h: nat, r: nat) {
    || (h in m && PairLeq(PairOf(weight, h, r), PairOf(weight, h, m[h])))
    || exists x {:trigger m[x]} :: x in m && m[x] == r && PairLeq(PairOf(weight, h, r), PairOf(weight, x, r))
  }

  ghost predicate IsGreedy(m: Mapping, hs: set<nat>, rs: set<nat>, weight: (nat, nat) -> real) {
    Between(m, hs, rs) && forall h, r | h in hs && r in rs :: Settled(m, weight, h, r)
  }

  /** The mapping after the first `i` pairs: each is taken whose two speakers are still free. */
  ghost function TakenUpTo(pairs: seq<Pair>, i: nat): Mapping
    requires i <= |pairs|
  {
    if i == 0 then map[] else Took(TakenUpTo(pairs, i - 1), pairs[i - 1])
  }

  ghost function Took(m: Mapping, p: Pair): Mapping {
    if p.h !in m && p.r !in m.Values then m[p.h := p.r] else m
  }

  ghost function GreedyOf(hs: seq<nat>, rs: seq<nat>, weight: (nat, nat) -> real): Mapping {
    var pairs := SortPairs(AllPairs(hs, rs, weight));
    TakenUpTo(pairs, |pairs|)
  }

  /** Takes the pairs in descending order, each whose two speakers are still free. */
  method GreedyMapping(hs: seq<nat>, rs: seq<nat>, weight: (nat, nat) -> real) returns (m: Mapping)
    ensures m == GreedyOf(hs, rs, weight) && IsGreedy(m, Elements(hs), Elements(rs), weight)
  {
    var pairs := SortPairs(AllPairs(hs, rs, weight));
    m := map[];
    var used: set<nat> := {};
    for i := 0 to |pairs|
      invariant m == TakenUpTo(pairs, i) && used == m.Values
    {
      var p := pairs[i];
      if p.h !in m && p.r !in used {
        ValuesWith(m, p.h, p.r);
        m, used := m[p.h := p.r], used + {p.r};
      }
    }
    GreedyOfIsGreedy(hs, rs, weight);
  }

  /** In every sorted list of pairs, the taken ones settle all. */
  lemma GreedyOfIsGreedy(hs: seq<nat>, rs: seq<nat>, weight: (nat, nat) -> real)
    ensures IsGreedy(GreedyOf(hs, rs, weight), Elements(hs), Elements(rs), weight)
  {
    var pairs := SortPairs(AllPairs(hs, rs, weight));
    TakenSettles(pairs, |pairs|, Elements(hs), Elements(rs), weight);
    forall h, r | h in Elements(hs) && r in Elements(rs) ensures Settled(GreedyOf(hs, rs, weight), weight, h, r) {
      assert PairOf(weight, h, r) in pairs;
    }
  }

  /** The first `i` pairs are settled, by pairs among them. */
  ghost predicate SettledUpTo(m: Mapping, pairs: seq<Pair>, i: nat, hs: set<nat>, rs: set<nat>, weight: (nat, nat) -> real)
    requires i <= |pairs|
  {
    && Between(m, hs, rs)
    && (forall h | h in m :: PairOf(weight, h, m[h]) in pairs[..i])
    && forall k | 0 <= k < i :: Settled(m, weight, pairs[k].h, pairs[k].r)
  }

  ghost predicate PairsBetween(pairs: seq<Pair>, hs: set<nat>, rs: set<nat>, weight: (nat, nat) -> real) {
    forall p | p in pairs :: p.h in hs && p.r in rs && p == PairOf(weight, p.h, p.r)
  }

  lemma {:induction false} TakenSettles(pairs: seq<Pair>, i: nat, hs: set<nat>, rs: set<nat>, weight: (nat, nat) -> real)
    requires i <= |pairs| && Descending(pairs) && PairsBetween(pairs, hs, rs, weight)
    ensures SettledUpTo(TakenUpTo(pairs, i), pairs, i, hs, rs, weight)
  {
    if i == 0 {
      NothingTaken(pairs, hs, rs, weight);
    } else {
      TakenSettles(pairs, i - 1, hs, rs, weight);
      var m := TakenUpTo(pairs, i - 1);
      assert pairs[i - 1] in pairs;
      SettlesOneMore(m, pairs, i - 1, hs, rs, weight);
      assert TakenUpTo(pairs, i) == Took(m, pairs[i - 1]);
    }
  }

  lemma NothingTaken(pairs: seq<Pair>, hs: set<nat>, rs: set<nat>, weight: (nat, nat) -> real)
    ensures SettledUpTo(map[], pairs, 0, hs, rs, weight)
  {
  }

  lemma SettlesOneMore(m: Mapping, pairs: seq<Pair>, i: nat, hs: set<nat>, rs: set<nat>, weight: (nat, nat) -> real)
    requires i < |pairs| && Descending(pairs) && SettledUpTo(m, pairs, i, hs, rs, weight)
    requires pairs[i].h in hs && pairs[i].r in rs && pairs[i] == PairOf(weight, pairs[i].h, pairs[i].r)
    ensures SettledUpTo(Took(m, pairs[i]), pairs, i + 1, hs, rs, weight)
  {
    if pairs[i].h !in m && pairs[i].r !in m.Values {
      TakesOne(m, pairs, i, hs, rs, weight);
    } else {
      SkipsOne(m, pairs, i, hs, rs, weight);
    }
  }

  lemma TakesOne(m: Mapping, pairs: seq<Pair>, i: nat, hs: set<nat>, rs: set<nat>, weight: (nat, nat) -> real)
    requires i < |pairs| && SettledUpTo(m, pairs, i, hs, rs, weight)
    requires pairs[i].h in hs && pairs[i].r in rs && pairs[i] == PairOf(weight, pairs[i].h, pairs[i].r)
    requires pairs[i].h !in m && pairs[i].r !in m.Values
    ensures SettledUpTo(m[pairs[i].h := pairs[i].r], pairs, i + 1, hs, rs, weight)
  {
    var p := pairs[i];
    assert pairs[..i + 1] == pairs[..i] + [p];
    TakenPair(m, p.h, p.r);
    forall k | 0 <= k < i ensures Settled(m[p.h := p.r], weight, pairs[k].h, pairs[k].r) {
      StaysSettled(m, weight, p.h, p.r, pairs[k].h, pairs[k].r);
    }
  }

  lemma SkipsOne(m: Mapping, pairs: seq<Pair>, i: nat, hs: set<nat>, rs: set<nat>, weight: (nat, nat) -> real)
    requires i < |pairs| && Descending(pairs) && SettledUpTo(m, pairs, i, hs, rs, weight)
    requires pairs[i] == PairOf(weight, pairs[i].h, pairs[i].r)
    requires pairs[i].h in m || pairs[i].r in m.Values
    ensures SettledUpTo(m, pairs, i + 1, hs, rs, weight)
  {
    var p := pairs[i];
    assert pairs[..i + 1] == pairs[..i] + [p];
    var x := p.h;
    if p.h !in m { x :| x in m && m[x] == p.r; }
    var k :| 0 <= k < i && pairs[k] == PairOf(weight, x, m[x]);
    assert PairLeq(p, pairs[k]);
    assert Settled(m, weight, p.h, p.r);
  }

  lemma StaysSettled(m: Mapping, weight: (nat, nat) -> real, newH: nat, newR: nat, h: nat, r: nat)
    requires newH !in m && Settled(m, weight, h, r)
    ensures Settled(m[newH := newR], weight, h, r)
  {
    var more := m[newH := newR];
    if !(h in m && PairLeq(PairOf(weight, h, r), PairOf(weight, h, m[h]))) {
      var x :| x in m && m[x] == r && PairLeq(PairOf(weight, h, r), PairOf(weight, x, r));
      assert more[x] == r;
    }
  }

  lemma ValuesWith(m: Mapping, h: nat, r: nat)
    requires h !in m
    ensures m[h := r].Values == m.Values + {r}
  {
    var more := m[h := r];
    forall x ensures x in more.Values <==> x in m.Values + {r} {
      if x in m.Values { var y :| y in m && m[y] == x; assert more[y] == x; }
      assert more[h] == r;
    }
  }

  lemma TakenPair(m: Mapping, h: nat, r: nat)
    requires Injective(m) && h !in m && r !in m.Values
    ensures Injective(m[h := r]) && m[h := r].Keys == m.Keys + {h} && m[h := r].Values == m.Values + {r}
  {
    var more := m[h := r];
    forall a, b | a in more && b in more && a != b ensures more[a] != more[b] {
      if a != h { assert m[a] in m.Values; }
      if b != h { assert m[b] in m.Values; }
    }
    ValuesWith(m, h, r);
  }

  /** Every pair of speakers comes, by weight and then by label, no earlier than the pair that one
      of the two was taken in: the mapping has `h` in a pair of greater weight, or of equal weight
      and no smaller `r`, or has `r` in such a pair by `h`. */
  lemma LaterPairsAreLeftOut(m: Mapping, hs: set<nat>, rs: set<nat>, weight: (nat, nat) -> real, h: nat, r: nat)
    requires IsGreedy(m, hs, rs, weight) && h in hs && r in rs
    ensures || (h in m && (weight(h, m[h]) > weight(h, r) || (weight(h, m[h]) == weight(h, r) && m[h] >= r)))
            || exists x :: x in m && m[x] == r && (weight(x, r) > weight(h, r) || (weight(x, r) == weight(h, r) && x >= h))
  {
    assert Settled(m, weight, h, r);
  }

  // ---------------------------------------------------------------- it is one mapping

  ghost function Above(hs: set<nat>, rs: set<nat>, weight: (nat, nat) -> real, p: Pair): set<(nat, nat)> {
    set h, r | h in hs && r in rs && PairLeq(p, PairOf(weight, h, r)) && p != PairOf(weight, h, r) :: (h, r)
  }

  /** The order of the pairs decides: no other mapping settles every pair. */
  lemma GreedyIsUnique(m: Mapping, k: Mapping, hs: set<nat>, rs: set<nat>, weight: (nat, nat) -> real)
    requires IsGreedy(m, hs, rs, weight) && IsGreedy(k, hs, rs, weight)
    ensures m == k
  {
    forall h | h in m ensures h in k && k[h] == m[h] {
      if !(h in k && k[h] == m[h]) { NoDifference(m, k, hs, rs, weight, h); }
    }
    forall h | h in k ensures h in m {
      if h !in m { NoDifference(k, m, hs, rs, weight, h); }
    }
  }

  lemma {:induction false} NoDifference(m: Mapping, k: Mapping, hs: set<nat>, rs: set<nat>, weight: (nat, nat) -> real, h: nat)
    requires IsGreedy(m, hs, rs, weight) && IsGreedy(k, hs, rs, weight)
    requires h in m && !(h in k && k[h] == m[h])
    ensures false
    decreases |Above(hs, rs, weight, PairOf(weight, h, m[h]))|
  {
    assert m[h] in m.Values;
    assert Settled(k, weight, h, m[h]);
    var x := h;
    if !(h in k && PairLeq(PairOf(weight, h, m[h]), PairOf(weight, h, k[h]))) {
      x :| x in k && k[x] == m[h] && PairLeq(PairOf(weight, h, m[h]), PairOf(weight, x, m[h]));
    }
    assert k[x] in k.Values;
    FewerAbove(hs, rs, weight, PairOf(weight, h, m[h]), x, k[x]);
    NoDifference(k, m, hs, rs, weight, x);
  }

  lemma FewerAbove(hs: set<nat>, rs: set<nat>, weight: (nat, nat) -> real, p: Pair, h: nat, r: nat)
    requires h in hs && r in rs && PairLeq(p, PairOf(weight, h, r)) && p != PairOf(weight, h, r)
    ensures |Above(hs, rs, weight, PairOf(weight, h, r))| < |Above(hs, rs, weight, p)|
  {
    var few, many := Above(hs, rs, weight, PairOf(weight, h, r)), Above(hs, rs, weight, p);
    assert (h, r) in many && (h, r) !in few;
    assert few <= many;
    SmallerSet(few + {(h, r)}, many);
  }

  lemma SmallerSet<T>(a: set<T>, b: set<T>)
    requires a <= b
    ensures |a| <= |b|
  {
    assert b == a + (b - a);
  }

  // ---------------------------------------------------------------- it has half the best weight

  /** The weights of all pairs of a mapping. */
  ghost function Total(m: Mapping, weight: (nat, nat) -> real): real
    decreases |m|
  {
    if m == map[] then 0.0
    else
      var h :| h in m;
      assert |m - {h}| < |m| by { assert m.Keys == (m - {h}).Keys + {h}; }
      Total(m - {h}, weight) + weight(h, m[h])
  }

  /** Which pair is taken out first does not matter. */
  lemma {:induction false} TotalWithout(m: Mapping, weight: (nat, nat) -> real, h: nat)
    requires h in m
    ensures |m - {h}| < |m| && Total(m, weight) == Total(m - {h}, weight) + weight(h, m[h])
    decreases |m|
  {
    assert m.Keys == (m - {h}).Keys + {h};
    var x :| x in m && Total(m, weight) == Total(m - {x}, weight) + weight(x, m[x]);
    if x != h {
      assert m.Keys == (m - {x}).Keys + {x};
      TotalWithout(m - {x}, weight, h);
      TotalWithout(m - {h}, weight, x);
      assert m - {x} - {h} == m - {h} - {x};
    }
  }

  ghost predicate NonNegative(weight: (nat, nat) -> real) {
    forall h, r :: weight(h, r) >= 0.0
  }

  ghost predicate PartOf(part: Mapping, m: Mapping) {
    forall h | h in part :: h in m && m[h] == part[h]
  }

  lemma PartWithout(part: Mapping, m: Mapping, h: nat)
    requires PartOf(part, m)
    ensures PartOf(part - {h}, m - {h})
    ensures h !in part ==> part - {h} == part
  {
  }

  /** A part of a mapping weighs no more. */
  lemma {:induction false} PartWeighsLess(part: Mapping, m: Mapping, weight: (nat, nat) -> real)
    requires NonNegative(weight) && PartOf(part, m)
    ensures 0.0 <= Total(part, weight) <= Total(m, weight)
    decreases |m|
  {
    if m == map[] {
      assert part == map[];
    } else {
      var h :| h in m;
      TotalWithout(m, weight, h);
      assert weight(h, m[h]) >= 0.0;
      PartWithout(part, m, h);
      PartWeighsLess(part - {h}, m - {h}, weight);
      if h in part { TotalWithout(part, weight, h); }
    }
  }

  /** The pairs of these hypothesis speakers, and those of these reference speakers. */
  ghost function On(m: Mapping, hs: set<nat>): Mapping {
    map h | h in m && h in hs :: m[h]
  }

  ghost function Onto(m: Mapping, rs: set<nat>): Mapping {
    map h | h in m && m[h] in rs :: m[h]
  }

  /** What the mapping has for one hypothesis speaker, and for one reference speaker. */
  ghost function Gain(m: Mapping, weight: (nat, nat) -> real, h: nat): real {
    if h in m then weight(h, m[h]) else 0.0
  }

  ghost function Earned(m: Mapping, weight: (nat, nat) -> real, r: nat): real {
    if exists x :: x in m && m[x] == r then
      var x :| x in m && m[x] == r;
      weight(x, r)
    else 0.0
  }

  /** A settled pair weighs no more than what the mapping has for its two speakers. */
  lemma PaidFor(m: Mapping, weight: (nat, nat) -> real, h: nat, r: nat)
    requires Injective(m) && NonNegative(weight) && Settled(m, weight, h, r)
    ensures weight(h, r) <= Gain(m, weight, h) + Earned(m, weight, r)
  {
    assert weight(h, r) >= 0.0;
    if !(h in m && PairLeq(PairOf(weight, h, r), PairOf(weight, h, m[h]))) {
      var x :| x in m && m[x] == r && PairLeq(PairOf(weight, h, r), PairOf(weight, x, r));
      assert Earned(m, weight, r) == weight(x, r);
    }
  }

  /** Every pair of another mapping is paid for by a greedy pair that shares a speaker with it. */
  lemma {:induction false} Charged(m: Mapping, k: Mapping, hs: set<nat>, rs: set<nat>, weight: (nat, nat) -> real)
    requires IsGreedy(m, hs, rs, weight) && Between(k, hs, rs) && NonNegative(weight)
    ensures Total(k, weight) <= Total(On(m, k.Keys), weight) + Total(Onto(m, k.Values), weight)
    decreases |k|
  {
    if k == map[] {
      PartWeighsLess(On(m, {}), m, weight);
      PartWeighsLess(Onto(m, {}), m, weight);
    } else {
      var h :| h in k;
      var r, rest := k[h], k - {h};
      TotalWithout(k, weight, h);
      ValuesWithout(k, h);
      assert k.Keys == rest.Keys + {h};
      Charged(m, rest, hs, rs, weight);
      PaidFor(m, weight, h, r) by { assert h in k.Keys && r in k.Values; }
      OneMoreOn(m, rest.Keys, weight, h);
      OneMoreOnto(m, rest.Values, weight, r);
    }
  }

  lemma ValuesWithout(k: Mapping, h: nat)
    requires Injective(k) && h in k
    ensures k.Values == (k - {h}).Values + {k[h]} && k[h] !in (k - {h}).Values
  {
    var rest := k - {h};
    forall x ensures x in k.Values <==> x in rest.Values + {k[h]} {
      if x in k.Values { var y :| y in k && k[y] == x; assert y != h ==> rest[y] == x; }
    }
  }

  lemma OneMoreOn(m: Mapping, hs: set<nat>, weight: (nat, nat) -> real, h: nat)
    requires h !in hs
    ensures Total(On(m, hs + {h}), weight) == Total(On(m, hs), weight) + Gain(m, weight, h)
  {
    if h in m {
      TotalWithout(On(m, hs + {h}), weight, h);
      assert On(m, hs + {h}) - {h} == On(m, hs);
    } else {
      assert On(m, hs + {h}) == On(m, hs);
    }
  }

  lemma OneMoreOnto(m: Mapping, rs: set<nat>, weight: (nat, nat) -> real, r: nat)
    requires r !in rs && Injective(m)
    ensures Total(Onto(m, rs + {r}), weight) == Total(Onto(m, rs), weight) + Earned(m, weight, r)
  {
    if x: nat :| x in m && m[x] == r {
      OntoWithout(m, rs, r, x);
      TotalWithout(Onto(m, rs + {r}), weight, x);
      EarnedIs(m, weight, r, x);
    } else {
      OntoUnmapped(m, rs, r);
    }
  }

  lemma EarnedIs(m: Mapping, weight: (nat, nat) -> real, r: nat, x: nat)
    requires Injective(m) && x in m && m[x] == r
    ensures Earned(m, weight, r) == weight(x, r)
  {
  }

  lemma OntoUnmapped(m: Mapping, rs: set<nat>, r: nat)
    requires forall x | x in m :: m[x] != r
    ensures Onto(m, rs + {r}) == Onto(m, rs)
  {
  }

  lemma OntoWithout(m: Mapping, rs: set<nat>, r: nat, x: nat)
    requires r !in rs && Injective(m) && x in m && m[x] == r
    ensures x in Onto(m, rs + {r}) && Onto(m, rs + {r}) - {x} == Onto(m, rs)
  {
  }

  /** No mapping weighs more than twice the greedy one. */
  lemma GreedyHasHalf(m: Mapping, k: Mapping, hs: set<nat>, rs: set<nat>, weight: (nat, nat) -> real)
    requires IsGreedy(m, hs, rs, weight) && Between(k, hs, rs) && NonNegative(weight)
    ensures Total(k, weight) <= 2.0 * Total(m, weight)
  {
    Charged(m, k, hs, rs, weight);
    PartWeighsLess(On(m, k.Keys), m, weight);
    PartWeighsLess(Onto(m, k.Values), m, weight);
  }

  // ---------------------------------------------------------------- when it has the best weight

  /** No pair between the two sides weighs more than the greedy mapping. */
  lemma CoversOnePair(m: Mapping, hs: set<nat>, rs: set<nat>, weight: (nat, nat) -> real, h: nat, r: nat)
    requires IsGreedy(m, hs, rs, weight) && NonNegative(weight) && h in hs && r in rs
    ensures weight(h, r) <= Total(m, weight)
  {
    assert Settled(m, weight, h, r);
    var x := h;
    if !(h in m && PairLeq(PairOf(weight, h, r), PairOf(weight, h, m[h]))) {
      x :| x in m && m[x] == r && PairLeq(PairOf(weight, h, r), PairOf(weight, x, r));
    }
    TotalWithout(m, weight, x);
    PartWeighsLess(m - {x}, m, weight);
  }

  /** With at most one speaker on a side, no mapping weighs more than the greedy one. */
  lemma OneSpeakerIsEnough(m: Mapping, k: Mapping, hs: set<nat>, rs: set<nat>, weight: (nat, nat) -> real)
    requires IsGreedy(m, hs, rs, weight) && Between(k, hs, rs) && NonNegative(weight)
    requires |hs| <= 1 || |rs| <= 1
    ensures Total(k, weight) <= Total(m, weight)
  {
    if k == map[] {
      PartWeighsLess(k, m, weight);
    } else {
      var h :| h in k;
      assert h in k.Keys && k[h] in k.Values;
      AtMostOnePair(k, hs, rs, h);
      TotalWithout(k, weight, h);
      CoversOnePair(m, hs, rs, weight, h, k[h]);
    }
  }

  lemma AtMostOnePair(k: Mapping, hs: set<nat>, rs: set<nat>, h: nat)
    requires Between(k, hs, rs) && h in k && (|hs| <= 1 || |rs| <= 1)
    ensures k - {h} == map[]
  {
    if x: nat :| x in k && x != h {
      assert k[x] != k[h] && {x, h} <= k.Keys && {k[x], k[h]} <= k.Values;
      SmallerSet({x, h}, hs);
      SmallerSet({k[x], k[h]}, rs);
    }
  }

  /** The greatest weight is in the way of two others, which together weigh more. */
  ghost predicate Skewed(weight: (nat, nat) -> real) {
    forall h, r :: weight(h, r) == if h == 0 && r == 0 then 3.0 else if h + r == 1 then 2.0 else 0.0
  }

  /** Whoever else there is, the greedy mapping then misses the better one. */
  lemma GreedyMissesTheBest(m: Mapping, hs: set<nat>, rs: set<nat>, weight: (nat, nat) -> real)
    requires Skewed(weight) && 0 in hs && 1 in hs && 0 in rs && 1 in rs && IsGreedy(m, hs, rs, weight)
    ensures Between(map[0 := 1, 1 := 0], hs, rs)
    ensures Total(m, weight) == 3.0 && Total(map[0 := 1, 1 := 0], weight) == 4.0
  {
    assert Settled(m, weight, 0, 0);
    TakesTheGreatest(m, weight);
    CrossedTotal(weight);
  }

  lemma TakesTheGreatest(m: Mapping, weight: (nat, nat) -> real)
    requires Skewed(weight) && Injective(m) && Settled(m, weight, 0, 0)
    ensures Total(m, weight) == 3.0
  {
    assert 0 in m && m[0] == 0;
    TotalWithout(m, weight, 0);
    NothingWeighs(m - {0}, weight);
  }

  lemma CrossedTotal(weight: (nat, nat) -> real)
    requires Skewed(weight)
    ensures Total(map[0 := 1, 1 := 0], weight) == 4.0
  {
    var k, one: Mapping := map[0 := 1, 1 := 0], map[1 := 0];
    TotalWithout(k, weight, 0);
    assert k - {0} == one;
    TotalWithout(one, weight, 1);
    assert one - {1} == map[];
  }

  lemma {:induction false} NothingWeighs(m: Mapping, weight: (nat, nat) -> real)
    requires forall h | h in m :: weight(h, m[h]) == 0.0
    ensures Total(m, weight) == 0.0
    decreases |m|
  {
    if m != map[] {
      var h :| h in m;
      TotalWithout(m, weight, h);
      NothingWeighs(m - {h}, weight);
    }
  }
}
