/** How filling a range of labels affects the number of adjacent changes. */
module SpeakerChanges {
  ghost function Differ<T>(a: T, b: T): nat {
    if a == b then 0 else 1
  }

  /** Number of positions in lo+1..hi whose label differs from the previous one. */
  ghost function ChangesIn<T>(s: seq<T>, lo: nat, hi: nat): nat
    requires lo <= hi <= |s|
    decreases hi
  {
    if hi < lo + 2 then 0 else ChangesIn(s, lo, hi - 1) + Differ(s[hi - 2], s[hi - 1])
  }

  ghost function Changes<T>(s: seq<T>): nat {
    ChangesIn(s, 0, |s|)
  }

  ghost predicate IsFill<T>(before: seq<T>, now: seq<T>, lo: nat, hi: nat, x: T) {
    && |now| == |before| && lo <= hi <= |before|
    && forall k | 0 <= k < |before| :: now[k] == if lo <= k < hi then x else before[k]
  }

  lemma {:induction false} ChangesSplit<T>(s: seq<T>, a: nat, b: nat, c: nat)
    requires a < b <= c <= |s|
    ensures ChangesIn(s, a, c) == ChangesIn(s, a, b) + ChangesIn(s, b - 1, c)
    decreases c
  {
    if b < c { ChangesSplit(s, a, b, c - 1); }
  }

  lemma {:induction false} ChangesAgree<T>(s: seq<T>, t: seq<T>, a: nat, b: nat)
    requires a <= b <= |s| == |t| && forall k | a <= k < b :: s[k] == t[k]
    ensures ChangesIn(s, a, b) == ChangesIn(t, a, b)
    decreases b
  {
    if a + 2 <= b { ChangesAgree(s, t, a, b - 1); }
  }

  /** Two positions with different labels have a change between them. */
  lemma {:induction false} DifferentEndsChange<T>(s: seq<T>, a: nat, b: nat)
    requires a < b <= |s|
    ensures ChangesIn(s, a, b) >= Differ(s[a], s[b - 1])
    decreases b
  {
    if a + 2 <= b { DifferentEndsChange(s, a, b - 1); }
  }

  lemma {:induction false} ConstantHasNoChange<T>(s: seq<T>, a: nat, b: nat, x: T)
    requires a <= b <= |s| && forall k | a <= k < b :: s[k] == x
    ensures ChangesIn(s, a, b) == 0
    decreases b
  {
    if a + 2 <= b { ConstantHasNoChange(s, a, b - 1, x); }
  }

  /** Going from one end of a range to `at` and on to the other end takes changes. */
  lemma DetourChanges<T>(s: seq<T>, a: nat, at: nat, b: nat)
    requires a <= at < b <= |s|
    ensures ChangesIn(s, a, b) >= Differ(s[a], s[at]) + Differ(s[at], s[b - 1])
  {
    ChangesSplit(s, a, at + 1, b);
    DifferentEndsChange(s, a, at + 1);
    DifferentEndsChange(s, at, b);
  }

  /** A constant core takes only the changes at its two sides. */
  lemma CoreChanges<T>(s: seq<T>, a: nat, lo: nat, hi: nat, b: nat, x: T)
    requires a <= lo <= a + 1 && lo < hi && hi <= b <= hi + 1 && b <= |s|
    requires forall k | lo <= k < hi :: s[k] == x
    ensures ChangesIn(s, a, b) == Differ(s[a], x) + Differ(x, s[b - 1])
  {
    ChangesSplit(s, a, lo + 1, b);
    ChangesSplit(s, lo, hi, b);
    ConstantHasNoChange(s, lo, hi, x);
  }

  /** Filling a range with a label that occurs in it never adds a change. */
  lemma FillNeverAddsChanges<T>(before: seq<T>, now: seq<T>, lo: nat, hi: nat, at: nat)
    requires lo <= at < hi <= |before| && IsFill(before, now, lo, hi, before[at])
    ensures Changes(now) <= Changes(before)
  {
    var a, b := if lo == 0 then 0 else lo - 1, if hi == |before| then hi else hi + 1;
    Outside(before, now, a, b);
    DetourChanges(before, a, at, b);
    CoreChanges(now, a, lo, hi, b, before[at]);
  }

  /** Sequences that agree up to `a` and from `b - 1` differ only in the changes between. */
  lemma Outside<T>(s: seq<T>, t: seq<T>, a: nat, b: nat)
    requires a < b <= |s| == |t|
    requires a == 0 || forall k | 0 <= k <= a :: s[k] == t[k]
    requires b == |s| || forall k | b - 1 <= k < |s| :: s[k] == t[k]
    ensures Changes(s) - ChangesIn(s, a, b) == Changes(t) - ChangesIn(t, a, b)
  {
    ChangesSplit(s, 0, a + 1, |s|);
    ChangesSplit(t, 0, a + 1, |s|);
    ChangesSplit(s, a, b, |s|);
    ChangesSplit(t, a, b, |s|);
    if a > 0 { ChangesAgree(s, t, 0, a + 1); }
    if b < |s| { ChangesAgree(s, t, b - 1, |s|); }
  }

  /** Filling a tail adds at most the one change at its start. */
  lemma FillTailAddsAtMostOne<T>(before: seq<T>, now: seq<T>, lo: nat, x: T)
    requires lo < |before| && IsFill(before, now, lo, |before|, x)
    ensures Changes(now) <= Changes(before) + 1
  {
    var a := if lo == 0 then 0 else lo - 1;
    Outside(before, now, a, |before|);
    CoreChanges(now, a, lo, |before|, |before|, x);
  }
}
