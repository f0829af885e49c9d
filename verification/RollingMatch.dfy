/** Counting private patterns in a text by rolling hash
    (`tools/private_history_match.py`). Characters are code points, and a digest is a term
    that holds the text it digests. */
module RollingMatch {
  import opened Basics

  const BASE: nat := 257
  const MODULUS: nat := 0x1_0000_0000_0000_0000

  datatype Category = OrganizationDomain | EmailLocalPart | OrganizationName | InputFilename | WindowsUsername

  datatype Digest = Sha256(text: seq<nat>)

  datatype HashedPattern = HashedPattern(category: Category, digest: Digest, length: nat, rolling: nat)

  // ---------------------------------------------------------------- the polynomial hash

  /** The hash of text[lo..hi]. */
  ghost function RollingHash(text: seq<nat>, lo: nat, hi: nat): nat
    requires lo <= hi <= |text|
    decreases hi - lo
  {
    if lo == hi then 0 else (RollingHash(text, lo, hi - 1) * BASE + text[hi - 1] + 1) % MODULUS
  }

  method HashOf(value: seq<nat>, length: nat) returns (result: nat)
    requires length <= |value|
    ensures result == RollingHash(value, 0, length)
  {
    result := 0;
    for k := 0 to length
      invariant result == RollingHash(value, 0, k)
    {
      result := (result * BASE + value[k] + 1) % MODULUS;
    }
  }

  ghost function Power(e: nat): nat {
    if e == 0 then 1 else Power(e - 1) * BASE
  }

  method PowerOf(e: nat) returns (power: nat)
    ensures power == Power(e) % MODULUS
  {
    power := 1;
    ghost var exact := 1;
    for k := 0 to e
      invariant exact == Power(k) && power == exact % MODULUS
    {
      ModTimesBase(exact);
      power := power * BASE % MODULUS;
      exact := exact * BASE;
    }
  }

  /** The same hash without the mask. */
  ghost function Polynomial(text: seq<nat>, lo: nat, hi: nat): nat
    requires lo <= hi <= |text|
    decreases hi - lo
  {
    if lo == hi then 0 else Polynomial(text, lo, hi - 1) * BASE + text[hi - 1] + 1
  }

  lemma ModShift(x: int, k: int)
    ensures (x + k * MODULUS) % MODULUS == x % MODULUS
  {
    var q, r := x / MODULUS, x % MODULUS;
    var y := x + k * MODULUS;
    assert y == (q + k) * MODULUS + r;
    assert y / MODULUS == q + k by {
      assert y / MODULUS * MODULUS + y % MODULUS == y;
    }
  }

  lemma ModTimesBase(x: nat)
    ensures x % MODULUS * BASE % MODULUS == x * BASE % MODULUS
  {
    ModShift(x % MODULUS * BASE, x / MODULUS * BASE);
  }

  lemma MaskStep(x: nat, c: nat)
    ensures (x % MODULUS * BASE + c) % MODULUS == (x * BASE + c) % MODULUS
  {
    ModShift(x % MODULUS * BASE + c, x / MODULUS * BASE);
  }

  lemma {:induction false} MaskedPolynomial(text: seq<nat>, lo: nat, hi: nat)
    requires lo <= hi <= |text|
    ensures RollingHash(text, lo, hi) == Polynomial(text, lo, hi) % MODULUS
    decreases hi - lo
  {
    if lo < hi {
      MaskedPolynomial(text, lo, hi - 1);
      MaskStep(Polynomial(text, lo, hi - 1), text[hi - 1] + 1);
    }
  }

  lemma {:induction false} LeadingTerm(text: seq<nat>, lo: nat, hi: nat)
    requires lo < hi <= |text|
    ensures Polynomial(text, lo, hi) == (text[lo] + 1) * Power(hi - lo - 1) + Polynomial(text, lo + 1, hi)
    decreases hi - lo
  {
    if lo + 1 < hi {
      LeadingTerm(text, lo, hi - 1);
      Distribute(text[lo] + 1, Power(hi - lo - 2), Polynomial(text, lo + 1, hi - 1));
    } else {
      assert Polynomial(text, lo, lo) == 0 && Polynomial(text, hi, hi) == 0;
    }
  }

  lemma Distribute(a: nat, p: nat, q: nat)
    ensures (a * p + q) * BASE == a * (p * BASE) + q * BASE
  {
  }

  lemma SlideArithmetic(rolling: int, exact: int, power: int, exactPower: int, k: int, l: int, outgoing: int, incoming: int)
    requires rolling == exact - k * MODULUS && power == exactPower - l * MODULUS
    ensures ((rolling - outgoing * power) * BASE + incoming) % MODULUS
         == ((exact - outgoing * exactPower) * BASE + incoming) % MODULUS
  {
    var m := outgoing * l;
    assert outgoing * power == outgoing * exactPower - m * MODULUS by {
      assert outgoing * (l * MODULUS) == m * MODULUS;
    }
    ModShift((exact - outgoing * exactPower) * BASE + incoming, (m - k) * BASE);
  }

  /** Dropping the outgoing character and taking in the next one moves the hash by one. The
      difference may be negative; masking it takes the residue that is not. */
  lemma Slide(text: seq<nat>, i: nat, length: nat)
    requires 0 < length && i + length < |text|
    ensures ((RollingHash(text, i, i + length) - (text[i] + 1) * (Power(length - 1) % MODULUS)) * BASE + text[i + length] + 1) % MODULUS
         == RollingHash(text, i + 1, i + length + 1)
  {
    var exact, exactPower := Polynomial(text, i, i + length), Power(length - 1);
    MaskedPolynomial(text, i, i + length);
    MaskedPolynomial(text, i + 1, i + length + 1);
    LeadingTerm(text, i, i + length);
    SlideArithmetic(exact % MODULUS, exact, exactPower % MODULUS, exactPower,
                    exact / MODULUS, exactPower / MODULUS, text[i] + 1, text[i + length] + 1);
  }

  // ---------------------------------------------------------------- patterns

  /** `value` is stripped and normalised; an empty one makes no pattern. */
  method Hashed(category: Category, value: seq<nat>) returns (p: Option<HashedPattern>)
    ensures p.None? <==> value == []
    ensures p.Some? ==> BuiltFrom(p.value, value) && p.value.category == category
  {
    if value == [] { return None; }
    var rolling := HashOf(value, |value|);
    p := Some(HashedPattern(category, Sha256(value), |value|, rolling));
  }

  ghost predicate BuiltFrom(p: HashedPattern, value: seq<nat>) {
    value != [] && p.digest == Sha256(value) && p.length == |value| && p.rolling == RollingHash(value, 0, |value|)
  }

  ghost function WindowCount(text: seq<nat>, length: nat): nat {
    if length > |text| then 0 else |text| - length + 1
  }

  /** The window at `i` has the pattern's hash and digest. */
  ghost predicate Hit(p: HashedPattern, text: seq<nat>, i: nat)
    requires i + p.length <= |text|
  {
    RollingHash(text, i, i + p.length) == p.rolling && Sha256(text[i..i + p.length]) == p.digest
  }

  /** Hits of one pattern in the first `n` windows. */
  ghost function Hits(p: HashedPattern, text: seq<nat>, n: nat): nat
    requires n <= WindowCount(text, p.length)
  {
    if n == 0 then 0 else Hits(p, text, n - 1) + if Hit(p, text, n - 1) then 1 else 0
  }

  /** Windows that equal `value`, the plain scan. */
  ghost function Occurrences(value: seq<nat>, text: seq<nat>, n: nat): nat
    requires n <= WindowCount(text, |value|)
  {
    if n == 0 then 0 else Occurrences(value, text, n - 1) + if text[n - 1..n - 1 + |value|] == value then 1 else 0
  }

  ghost predicate StandsAt(value: seq<nat>, text: seq<nat>, i: nat) {
    i + |value| <= |text| && text[i..i + |value|] == value
  }

  /** Where the value occurs in the text, among the first `n` positions. */
  ghost function Positions(value: seq<nat>, text: seq<nat>, n: nat): set<nat> {
    set i: nat | i < n && StandsAt(value, text, i)
  }

  lemma {:induction false} OccurrencesArePositions(value: seq<nat>, text: seq<nat>, n: nat)
    requires n <= WindowCount(text, |value|)
    ensures Occurrences(value, text, n) == |Positions(value, text, n)|
  {
    if n == 0 {
      assert Positions(value, text, 0) == {};
    } else {
      OccurrencesArePositions(value, text, n - 1);
      assert Positions(value, text, n)
          == Positions(value, text, n - 1) + if StandsAt(value, text, n - 1) then {n - 1} else {};
    }
  }

  /** Over all windows the occurrences are all positions of the text at which the value stands. */
  lemma NoWindowIsMissed(value: seq<nat>, text: seq<nat>)
    ensures Occurrences(value, text, WindowCount(text, |value|)) == |Positions(value, text, |text| + 1)|
  {
    OccurrencesArePositions(value, text, WindowCount(text, |value|));
    assert Positions(value, text, WindowCount(text, |value|)) == Positions(value, text, |text| + 1);
  }

  /** Hits of category `c`, pattern by pattern over the first `k`. */
  ghost function CategoryHits(patterns: seq<HashedPattern>, k: nat, text: seq<nat>, c: Category): nat
    requires k <= |patterns|
  {
    if k == 0 then 0
    else CategoryHits(patterns, k - 1, text, c) + PatternHits(patterns[k - 1], text, c)
  }

  ghost function PatternHits(p: HashedPattern, text: seq<nat>, c: Category): nat {
    if p.category == c then Hits(p, text, WindowCount(text, p.length)) else 0
  }

  lemma {:induction false} HashDependsOnWindow(text: seq<nat>, lo: nat, hi: nat, value: seq<nat>, n: nat)
    requires lo + n <= hi <= |text| && n <= |value| && text[lo..hi] == value
    ensures RollingHash(text, lo, lo + n) == RollingHash(value, 0, n)
  {
    if n > 0 {
      assert value[n - 1] == text[lo..hi][n - 1];
      HashDependsOnWindow(text, lo, hi, value, n - 1);
    }
  }

  /** For a pattern built from a value, its hits are exactly the occurrences of that value:
      the rolling hash filters out no true match, and the digest lets no false one in. */
  lemma {:induction false} HitsAreOccurrences(p: HashedPattern, value: seq<nat>, text: seq<nat>, n: nat)
    requires BuiltFrom(p, value) && n <= WindowCount(text, |value|)
    ensures Hits(p, text, n) == Occurrences(value, text, n)
  {
    if n > 0 {
      HitsAreOccurrences(p, value, text, n - 1);
      if text[n - 1..n - 1 + |value|] == value {
        HashDependsOnWindow(text, n - 1, n - 1 + |value|, value, |value|);
      }
    }
  }

  ghost predicate AllBuilt(patterns: seq<HashedPattern>) {
    forall k | 0 <= k < |patterns| :: BuiltFrom(patterns[k], patterns[k].digest.text)
  }

  ghost function NaiveCount(patterns: seq<HashedPattern>, k: nat, text: seq<nat>, c: Category): nat
    requires k <= |patterns|
  {
    if k == 0 then 0
    else
      var value := patterns[k - 1].digest.text;
      NaiveCount(patterns, k - 1, text, c)
      + if patterns[k - 1].category == c then Occurrences(value, text, WindowCount(text, |value|)) else 0
  }

  lemma {:induction false} CountsAreNaive(patterns: seq<HashedPattern>, k: nat, text: seq<nat>, c: Category)
    requires k <= |patterns| && AllBuilt(patterns)
    ensures CategoryHits(patterns, k, text, c) == NaiveCount(patterns, k, text, c)
  {
    if k > 0 {
      CountsAreNaive(patterns, k - 1, text, c);
      var p := patterns[k - 1];
      HitsAreOccurrences(p, p.digest.text, text, WindowCount(text, p.length));
    }
  }

  // ---------------------------------------------------------------- grouping

  /** The first `k` patterns with this length and hash, in their order. */
  ghost function Selected(patterns: seq<HashedPattern>, k: nat, length: nat, rolling: nat): seq<HashedPattern>
    requires k <= |patterns|
  {
    if k == 0 then []
    else
      Selected(patterns, k - 1, length, rolling)
      + if patterns[k - 1].length == length && patterns[k - 1].rolling == rolling then [patterns[k - 1]] else []
  }

  type Group = map<nat, seq<HashedPattern>>

  function Candidates(g: Group, rolling: nat): seq<HashedPattern> {
    if rolling in g then g[rolling] else []
  }

  function GroupOf(groups: map<nat, Group>, length: nat): Group {
    if length in groups then groups[length] else map[]
  }

  ghost predicate Collects(groups: map<nat, Group>, patterns: seq<HashedPattern>, k: nat, length: nat, rolling: nat)
    requires k <= |patterns|
  {
    Candidates(GroupOf(groups, length), rolling) == Selected(patterns, k, length, rolling)
  }

  /** `lengths` lists the keys of `groups` in insertion order, once each. */
  ghost predicate Grouped(groups: map<nat, Group>, lengths: seq<nat>, patterns: seq<HashedPattern>, k: nat)
    requires k <= |patterns|
  {
    && (forall length, rolling {:trigger Collects(groups, patterns, k, length, rolling)} :: Collects(groups, patterns, k, length, rolling))
    && (forall i, j | 0 <= i < j < |lengths| :: lengths[i] != lengths[j])
    && (forall length :: length in lengths <==> length in groups)
    && (forall q | 0 <= q < k :: patterns[q].length in lengths)
    && (forall q | 0 <= q < |lengths| :: lengths[q] > 0)
  }

  method GroupByLength(patterns: seq<HashedPattern>) returns (groups: map<nat, Group>, lengths: seq<nat>)
    requires forall k | 0 <= k < |patterns| :: patterns[k].length > 0
    ensures Grouped(groups, lengths, patterns, |patterns|)
  {
    groups, lengths := map[], [];
    for k := 0 to |patterns|
      invariant Grouped(groups, lengths, patterns, k)
    {
      var p := patterns[k];
      ghost var before := groups;
      if p.length !in groups { lengths := lengths + [p.length]; }
      var g := GroupOf(groups, p.length);
      groups := groups[p.length := g[p.rolling := Candidates(g, p.rolling) + [p]]];
      forall length, rolling {:trigger Collects(groups, patterns, k + 1, length, rolling)}
        ensures Collects(groups, patterns, k + 1, length, rolling) {
        assert Collects(before, patterns, k, length, rolling);
      }
    }
  }

  // ---------------------------------------------------------------- the scan

  /** Patterns of `length` and category `c`, among the first `k`, that hit window `i`. */
  ghost function WindowHits(patterns: seq<HashedPattern>, k: nat, text: seq<nat>, length: nat, i: nat, c: Category): nat
    requires k <= |patterns| && i + length <= |text|
  {
    if k == 0 then 0
    else
      WindowHits(patterns, k - 1, text, length, i, c)
      + if patterns[k - 1].length == length && patterns[k - 1].category == c && Hit(patterns[k - 1], text, i) then 1 else 0
  }

  ghost function LengthHits(patterns: seq<HashedPattern>, k: nat, text: seq<nat>, length: nat, n: nat, c: Category): nat
    requires k <= |patterns| && n <= WindowCount(text, length)
  {
    if n == 0 then 0
    else LengthHits(patterns, k, text, length, n - 1, c) + WindowHits(patterns, k, text, length, n - 1, c)
  }

  ghost function GroupHits(patterns: seq<HashedPattern>, k: nat, text: seq<nat>, lengths: seq<nat>, m: nat, c: Category): nat
    requires k <= |patterns| && m <= |lengths|
  {
    if m == 0 then 0
    else
      GroupHits(patterns, k, text, lengths, m - 1, c)
      + LengthHits(patterns, k, text, lengths[m - 1], WindowCount(text, lengths[m - 1]), c)
  }

  lemma {:induction false} OneMoreInLength(patterns: seq<HashedPattern>, k: nat, text: seq<nat>, length: nat, n: nat, c: Category)
    requires k < |patterns| && n <= WindowCount(text, length)
    ensures LengthHits(patterns, k + 1, text, length, n, c)
         == LengthHits(patterns, k, text, length, n, c)
            + if patterns[k].length == length && patterns[k].category == c then Hits(patterns[k], text, n) else 0
  {
    if n > 0 { OneMoreInLength(patterns, k, text, length, n - 1, c); }
  }

  lemma {:induction false} OneMoreInGroups(patterns: seq<HashedPattern>, k: nat, text: seq<nat>, lengths: seq<nat>, m: nat, c: Category)
    requires k < |patterns| && m <= |lengths|
    requires forall i, j | 0 <= i < j < |lengths| :: lengths[i] != lengths[j]
    ensures GroupHits(patterns, k + 1, text, lengths, m, c)
         == GroupHits(patterns, k, text, lengths, m, c)
            + if patterns[k].length in lengths[..m] then PatternHits(patterns[k], text, c) else 0
  {
    if m > 0 {
      OneMoreInGroups(patterns, k, text, lengths, m - 1, c);
      OneMoreInLength(patterns, k, text, lengths[m - 1], WindowCount(text, lengths[m - 1]), c);
      assert lengths[..m] == lengths[..m - 1] + [lengths[m - 1]];
      assert lengths[m - 1] !in lengths[..m - 1];
    }
  }

  lemma {:induction false} NoPatternsNoHits(patterns: seq<HashedPattern>, text: seq<nat>, length: nat, n: nat, c: Category)
    requires n <= WindowCount(text, length)
    ensures LengthHits(patterns, 0, text, length, n, c) == 0
  {
    if n > 0 { NoPatternsNoHits(patterns, text, length, n - 1, c); }
  }

  lemma {:induction false} NoPatternsNoGroupHits(patterns: seq<HashedPattern>, text: seq<nat>, lengths: seq<nat>, m: nat, c: Category)
    requires m <= |lengths|
    ensures GroupHits(patterns, 0, text, lengths, m, c) == 0
  {
    if m > 0 {
      NoPatternsNoGroupHits(patterns, text, lengths, m - 1, c);
      NoPatternsNoHits(patterns, text, lengths[m - 1], WindowCount(text, lengths[m - 1]), c);
    }
  }

  /** Summing length by length and window by window counts the same hits as pattern by pattern. */
  lemma {:induction false} GroupingLosesNothing(patterns: seq<HashedPattern>, k: nat, text: seq<nat>, lengths: seq<nat>, c: Category)
    requires k <= |patterns|
    requires forall i, j | 0 <= i < j < |lengths| :: lengths[i] != lengths[j]
    requires forall q | 0 <= q < k :: patterns[q].length in lengths
    ensures GroupHits(patterns, k, text, lengths, |lengths|, c) == CategoryHits(patterns, k, text, c)
  {
    if k == 0 {
      NoPatternsNoGroupHits(patterns, text, lengths, |lengths|, c);
    } else {
      GroupingLosesNothing(patterns, k - 1, text, lengths, c);
      OneMoreInGroups(patterns, k - 1, text, lengths, |lengths|, c);
      assert lengths[..|lengths|] == lengths;
    }
  }

  function CountOf(counts: map<Category, nat>, c: Category): nat {
    if c in counts then counts[c] else 0
  }

  ghost function DigestHits(candidates: seq<HashedPattern>, k: nat, digest: Digest, c: Category): nat
    requires k <= |candidates|
  {
    if k == 0 then 0
    else DigestHits(candidates, k - 1, digest, c) + if candidates[k - 1].digest == digest && candidates[k - 1].category == c then 1 else 0
  }

  lemma {:induction false} DigestHitsAppend(s: seq<HashedPattern>, t: seq<HashedPattern>, k: nat, digest: Digest, c: Category)
    requires k <= |s|
    ensures DigestHits(s + t, k, digest, c) == DigestHits(s, k, digest, c)
  {
    if k > 0 { DigestHitsAppend(s, t, k - 1, digest, c); }
  }

  lemma {:induction false} CandidatesAreWindowHits(patterns: seq<HashedPattern>, k: nat, text: seq<nat>, length: nat, i: nat, c: Category)
    requires k <= |patterns| && i + length <= |text|
    ensures var s := Selected(patterns, k, length, RollingHash(text, i, i + length));
            DigestHits(s, |s|, Sha256(text[i..i + length]), c) == WindowHits(patterns, k, text, length, i, c)
  {
    if k > 0 {
      CandidatesAreWindowHits(patterns, k - 1, text, length, i, c);
      var rolling, digest, p := RollingHash(text, i, i + length), Sha256(text[i..i + length]), patterns[k - 1];
      var s := Selected(patterns, k - 1, length, rolling);
      if p.length == length && p.rolling == rolling {
        DigestHitsAppend(s, [p], |s|, digest, c);
        assert (s + [p])[|s|] == p;
      } else {
        assert Selected(patterns, k, length, rolling) == s;
      }
    }
  }

  /** Every entry is positive, and each category has grown by `more`. */
  ghost predicate Grown(counts: map<Category, nat>, start: map<Category, nat>, more: Category -> nat) {
    && (forall c :: CountOf(counts, c) == CountOf(start, c) + more(c))
    && ((forall c | c in start :: start[c] > 0) ==> forall c | c in counts :: counts[c] > 0)
  }

  method CountCandidates(start: map<Category, nat>, candidates: seq<HashedPattern>, digest: Digest) returns (counts: map<Category, nat>)
    ensures Grown(counts, start, c => DigestHits(candidates, |candidates|, digest, c))
  {
    counts := start;
    for k := 0 to |candidates|
      invariant Grown(counts, start, c => DigestHits(candidates, k, digest, c))
    {
      var p := candidates[k];
      if digest == p.digest { counts := counts[p.category := CountOf(counts, p.category) + 1]; }
    }
  }

  method CountWindow(start: map<Category, nat>, candidates: seq<HashedPattern>, text: seq<nat>, length: nat, index: nat,
                     ghost patterns: seq<HashedPattern>) returns (counts: map<Category, nat>)
    requires index + length <= |text|
    requires candidates == Selected(patterns, |patterns|, length, RollingHash(text, index, index + length))
    ensures Grown(counts, start, c => WindowHits(patterns, |patterns|, text, length, index, c))
  {
    counts := start;
    if candidates != [] {
      counts := CountCandidates(counts, candidates, Sha256(text[index..index + length]));
    }
    forall c ensures CountOf(counts, c) == CountOf(start, c) + WindowHits(patterns, |patterns|, text, length, index, c) {
      CandidatesAreWindowHits(patterns, |patterns|, text, length, index, c);
    }
  }

  method ScanLength(start: map<Category, nat>, group: Group, text: seq<nat>, length: nat, ghost patterns: seq<HashedPattern>)
    returns (counts: map<Category, nat>)
    requires 0 < length <= |text|
    requires forall rolling {:trigger Candidates(group, rolling)} ::
               Candidates(group, rolling) == Selected(patterns, |patterns|, length, rolling)
    ensures Grown(counts, start, c => LengthHits(patterns, |patterns|, text, length, WindowCount(text, length), c))
  {
    counts := start;
    var power := PowerOf(length - 1);
    var rolling := HashOf(text, length);
    for index := 0 to |text| - length + 1
      invariant index + length <= |text| ==> rolling == RollingHash(text, index, index + length)
      invariant Grown(counts, start, c => LengthHits(patterns, |patterns|, text, length, index, c))
    {
      counts := CountWindow(counts, Candidates(group, rolling), text, length, index, patterns);
      if index + length < |text| {
        Slide(text, index, length);
        var outgoing := (text[index] + 1) * power;
        var incoming := text[index + length] + 1;
        rolling := ((rolling - outgoing) * BASE + incoming) % MODULUS;
      }
    }
  }

  /** Counts per category; a category without a hit has no entry. Loaded patterns have a
      positive length; nothing else about them is needed here. */
  method Match(text: seq<nat>, patterns: seq<HashedPattern>) returns (counts: map<Category, nat>)
    requires forall k | 0 <= k < |patterns| :: patterns[k].length > 0
    ensures forall c :: CountOf(counts, c) == CategoryHits(patterns, |patterns|, text, c)
    ensures forall c | c in counts :: counts[c] > 0
    ensures AllBuilt(patterns) ==> forall c :: CountOf(counts, c) == NaiveCount(patterns, |patterns|, text, c)
  {
    var groups, lengths := GroupByLength(patterns);
    counts := map[];
    for m := 0 to |lengths|
      invariant Grown(counts, map[], c => GroupHits(patterns, |patterns|, text, lengths, m, c))
    {
      var length := lengths[m];
      if length <= |text| {
        forall rolling ensures Candidates(groups[length], rolling) == Selected(patterns, |patterns|, length, rolling) {
          assert Collects(groups, patterns, |patterns|, length, rolling);
        }
        counts := ScanLength(counts, groups[length], text, length, patterns);
      }
    }
    forall c ensures CountOf(counts, c) == CategoryHits(patterns, |patterns|, text, c) {
      GroupingLosesNothing(patterns, |patterns|, text, lengths, c);
    }
    if AllBuilt(patterns) {
      forall c ensures CountOf(counts, c) == NaiveCount(patterns, |patterns|, text, c) {
        CountsAreNaive(patterns, |patterns|, text, c);
      }
    }
  }
}
