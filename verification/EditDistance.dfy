/** Character error rate by two-row dynamic programming (`character_error_rate` of
    `src/utteran/benchmark.py`), related to edit scripts. */
module EditDistance {
  /** One step of a script, read from left to right. Replacing a character by itself keeps it. */
  datatype Edit<T> = Insert(c: T) | Delete(c: T) | Replace(before: T, after: T)

  ghost function Reads<T>(e: Edit<T>): seq<T> {
    match e case Insert(_) => [] case Delete(c) => [c] case Replace(c, _) => [c]
  }

  ghost function Writes<T>(e: Edit<T>): seq<T> {
    match e case Insert(c) => [c] case Delete(_) => [] case Replace(_, c) => [c]
  }

  ghost function Source<T>(script: seq<Edit<T>>): seq<T> {
    if script == [] then [] else Source(script[..|script| - 1]) + Reads(script[|script| - 1])
  }

  ghost function Target<T>(script: seq<Edit<T>>): seq<T> {
    if script == [] then [] else Target(script[..|script| - 1]) + Writes(script[|script| - 1])
  }

  ghost function StepCost<T>(e: Edit<T>): nat {
    if e.Replace? && e.before == e.after then 0 else 1
  }

  ghost function Cost<T>(script: seq<Edit<T>>): nat {
    if script == [] then 0 else Cost(script[..|script| - 1]) + StepCost(script[|script| - 1])
  }

  /** `script` turns `a` into `b`. */
  ghost predicate Edits<T>(script: seq<Edit<T>>, a: seq<T>, b: seq<T>) {
    Source(script) == a && Target(script) == b
  }

  lemma Snoc<T>(script: seq<Edit<T>>, e: Edit<T>)
    ensures Source(script + [e]) == Source(script) + Reads(e) && Target(script + [e]) == Target(script) + Writes(e)
    ensures Cost(script + [e]) == Cost(script) + StepCost(e)
  {
    assert (script + [e])[..|script|] == script;
  }

  // ---------------------------------------------------------------- the recurrence

  function Min(a: nat, b: nat): nat {
    if a <= b then a else b
  }

  /** The three ways into a cell: from the left, from above, and along the diagonal. */
  function Cheapest(left: nat, above: nat, diagonal: nat, differs: bool): nat {
    Min(Min(left + 1, above + 1), diagonal + if differs then 1 else 0)
  }

  /** Cell (i, j) of the table: the first `i` characters of `a` against the first `j` of `b`. */
  function Cell<T(==)>(a: seq<T>, i: nat, b: seq<T>, j: nat): nat
    requires i <= |a| && j <= |b|
    decreases i + j
  {
    if i == 0 then j
    else if j == 0 then i
    else Cheapest(Cell(a, i, b, j - 1), Cell(a, i - 1, b, j), Cell(a, i - 1, b, j - 1), a[i - 1] != b[j - 1])
  }

  lemma CellStep<T>(a: seq<T>, i: nat, b: seq<T>, j: nat) returns (left: nat, above: nat, diagonal: nat, differs: bool)
    requires 0 < i <= |a| && 0 < j <= |b|
    ensures left == Cell(a, i, b, j - 1) && above == Cell(a, i - 1, b, j) && diagonal == Cell(a, i - 1, b, j - 1)
    ensures differs == (a[i - 1] != b[j - 1])
    ensures Cell(a, i, b, j) == Cheapest(left, above, diagonal, differs)
  {
    left, above, diagonal := Cell(a, i, b, j - 1), Cell(a, i - 1, b, j), Cell(a, i - 1, b, j - 1);
    differs := a[i - 1] != b[j - 1];
  }

  function Distance<T(==)>(a: seq<T>, b: seq<T>): nat {
    Cell(a, |a|, b, |b|)
  }

  /** `row` holds the first |row| cells of row `i` of the table. */
  ghost predicate IsRow<T>(row: seq<nat>, a: seq<T>, i: nat, b: seq<T>)
    requires i <= |a| && |row| <= |b| + 1
  {
    forall j: nat {:trigger row[j]} | j < |row| :: row[j] == Cell(a, i, b, j)
  }

  lemma RowGrows<T>(previous: seq<nat>, current: seq<nat>, a: seq<T>, i: nat, b: seq<T>)
    requires 0 < i <= |a| && |previous| == |b| + 1 && 0 < |current| <= |b|
    requires IsRow(previous, a, i - 1, b) && IsRow(current, a, i, b)
    ensures IsRow(current + [Cheapest(current[|current| - 1], previous[|current|], previous[|current| - 1],
                                      a[i - 1] != b[|current| - 1])], a, i, b)
  {
    var left, above, diagonal, differs := CellStep(a, i, b, |current|);
  }

  /** The two rows that the loops keep. */
  method TwoRows<T(==)>(expected: seq<T>, actual: seq<T>) returns (distance: nat)
    ensures distance == Distance(expected, actual)
  {
    var previous: seq<nat> := seq(|actual| + 1, j requires 0 <= j => j);
    for row := 1 to |expected| + 1
      invariant |previous| == |actual| + 1
      invariant IsRow(previous, expected, row - 1, actual)
    {
      var left := expected[row - 1];
      var current: seq<nat> := [row];
      for column := 1 to |actual| + 1
        invariant |current| == column
        invariant IsRow(current, expected, row, actual)
      {
        var right := actual[column - 1];
        RowGrows(previous, current, expected, row, actual);
        current := current + [Cheapest(current[column - 1], previous[column], previous[column - 1], left != right)];
      }
      previous := current;
    }
    distance := previous[|previous| - 1];
  }

  datatype Rate = Rate(value: real) | EmptyReference

  /** Edits per reference character of the normalised texts; an empty reference is an error. */
  method CharacterErrorRate(reference: string, hypothesis: string, normalize: string -> string) returns (r: Rate)
    ensures r.EmptyReference? <==> normalize(reference) == ""
    ensures r.Rate? ==>
      r.value * |normalize(reference)| as real == Distance(normalize(reference), normalize(hypothesis)) as real
  {
    var expected, actual := normalize(reference), normalize(hypothesis);
    if expected == "" { return EmptyReference; }
    var distance := TwoRows(expected, actual);
    r := Rate(distance as real / |expected| as real);
  }

  // ---------------------------------------------------------------- the minimum over scripts

  /** `e` leads from cell (p, q) to cell (i, j): it reads the next character of `a`, or writes the
      next one of `b`, or both. */
  ghost predicate Leads<T>(e: Edit<T>, a: seq<T>, p: nat, i: nat, b: seq<T>, q: nat, j: nat)
    requires i <= |a| && j <= |b|
  {
    match e
    case Insert(c) => p == i && q + 1 == j && c == b[q]
    case Delete(c) => p + 1 == i && q == j && c == a[p]
    case Replace(c, d) => p + 1 == i && q + 1 == j && c == a[p] && d == b[q]
  }

  lemma LeadingSlices<T>(e: Edit<T>, a: seq<T>, p: nat, i: nat, b: seq<T>, q: nat, j: nat)
    requires i <= |a| && j <= |b| && Leads(e, a, p, i, b, q, j)
    ensures a[..i] == a[..p] + Reads(e) && b[..j] == b[..q] + Writes(e)
  {
  }

  lemma CellEdge<T>(a: seq<T>, i: nat, b: seq<T>, j: nat)
    requires i <= |a| && j <= |b| && (i == 0 || j == 0)
    ensures Cell(a, i, b, j) == i + j
  {
  }

  /** No step into a cell gives less than its value, and one gives it. */
  lemma CellIsLeast<T>(a: seq<T>, i: nat, b: seq<T>, j: nat, e: Edit<T>, p: nat, q: nat)
    requires i <= |a| && j <= |b| && Leads(e, a, p, i, b, q, j)
    ensures Cell(a, i, b, j) <= Cell(a, p, b, q) + StepCost(e)
  {
    if i == 0 || j == 0 {
      CellEdge(a, i, b, j);
      CellEdge(a, p, b, q);
    } else {
      var left, above, diagonal, differs := CellStep(a, i, b, j);
      var from := Cell(a, p, b, q);
      match e
      case Insert(_) => assert from == left;
      case Delete(_) => assert from == above;
      case Replace(_, _) => assert from == diagonal;
    }
  }

  lemma CellIsReached<T>(a: seq<T>, i: nat, b: seq<T>, j: nat) returns (e: Edit<T>, p: nat, q: nat)
    requires i <= |a| && j <= |b| && i + j > 0
    ensures Leads(e, a, p, i, b, q, j) && Cell(a, i, b, j) == Cell(a, p, b, q) + StepCost(e)
  {
    if i == 0 {
      e, p, q := Insert(b[j - 1]), i, j - 1;
    } else if j == 0 {
      e, p, q := Delete(a[i - 1]), i - 1, j;
    } else {
      var left, above, diagonal, differs := CellStep(a, i, b, j);
      if Cheapest(left, above, diagonal, differs) == left + 1 {
        e, p, q := Insert(b[j - 1]), i, j - 1;
      } else if Cheapest(left, above, diagonal, differs) == above + 1 {
        e, p, q := Delete(a[i - 1]), i - 1, j;
      } else {
        e, p, q := Replace(a[i - 1], b[j - 1]), i - 1, j - 1;
      }
    }
  }

  lemma {:induction false} BestScript<T>(a: seq<T>, i: nat, b: seq<T>, j: nat) returns (script: seq<Edit<T>>)
    requires i <= |a| && j <= |b|
    ensures Edits(script, a[..i], b[..j]) && Cost(script) == Cell(a, i, b, j)
    decreases i + j
  {
    if i + j == 0 {
      script := [];
    } else {
      var e, p, q := CellIsReached(a, i, b, j);
      LeadingSlices(e, a, p, i, b, q, j);
      var rest := BestScript(a, p, b, q);
      Snoc(rest, e);
      script := rest + [e];
    }
  }

  /** The last step of a script that edits two prefixes leads to them from shorter ones. */
  lemma LastLeads<T>(a: seq<T>, i: nat, b: seq<T>, j: nat, rest: seq<Edit<T>>, e: Edit<T>) returns (p: nat, q: nat)
    requires i <= |a| && j <= |b| && a[..i] == Source(rest) + Reads(e) && b[..j] == Target(rest) + Writes(e)
    ensures Leads(e, a, p, i, b, q, j) && Edits(rest, a[..p], b[..q])
  {
    p, q := |Source(rest)|, |Target(rest)|;
    assert a[..p] == a[..i][..p] && b[..q] == b[..j][..q];
    assert p < i ==> a[..i][p] == a[p];
    assert q < j ==> b[..j][q] == b[q];
  }

  lemma {:induction false} NoCheaperScript<T>(a: seq<T>, i: nat, b: seq<T>, j: nat, script: seq<Edit<T>>)
    requires i <= |a| && j <= |b| && Edits(script, a[..i], b[..j])
    ensures Cell(a, i, b, j) <= Cost(script)
    decreases |script|
  {
    if script == [] {
      assert i == 0 && j == 0;
    } else {
      var rest, e := script[..|script| - 1], script[|script| - 1];
      var p, q := LastLeads(a, i, b, j, rest, e);
      NoCheaperScript(a, p, b, q, rest);
      CellIsLeast(a, i, b, j, e, p, q);
    }
  }

  /** The distance is the cost of the cheapest insert / delete / substitute script. */
  lemma DistanceIsMinimum<T>(a: seq<T>, b: seq<T>)
    ensures exists script :: Edits(script, a, b) && Cost(script) == Distance(a, b)
    ensures forall script :: Edits(script, a, b) ==> Distance(a, b) <= Cost(script)
  {
    assert a[..|a|] == a && b[..|b|] == b;
    var best := BestScript(a, |a|, b, |b|);
    forall script | Edits(script, a, b) ensures Distance(a, b) <= Cost(script) {
      NoCheaperScript(a, |a|, b, |b|, script);
    }
  }

  // ---------------------------------------------------------------- a metric

  ghost function Inverse<T>(e: Edit<T>): Edit<T> {
    match e
    case Insert(c) => Delete(c)
    case Delete(c) => Insert(c)
    case Replace(b, a) => Replace(a, b)
  }

  ghost function Undo<T>(script: seq<Edit<T>>): seq<Edit<T>> {
    if script == [] then [] else Undo(script[..|script| - 1]) + [Inverse(script[|script| - 1])]
  }

  lemma InverseReverses<T>(e: Edit<T>)
    ensures Reads(Inverse(e)) == Writes(e) && Writes(Inverse(e)) == Reads(e) && StepCost(Inverse(e)) == StepCost(e)
  {
  }

  lemma {:induction false} UndoReverses<T>(script: seq<Edit<T>>)
    ensures Source(Undo(script)) == Target(script) && Target(Undo(script)) == Source(script)
    ensures Cost(Undo(script)) == Cost(script)
  {
    if script != [] {
      var rest, e := script[..|script| - 1], script[|script| - 1];
      UndoReverses(rest);
      InverseReverses(e);
      Snoc(Undo(rest), Inverse(e));
    }
  }

  lemma DistanceIsSymmetric<T>(a: seq<T>, b: seq<T>)
    ensures Distance(a, b) == Distance(b, a)
  {
    DistanceIsMinimum(a, b);
    DistanceIsMinimum(b, a);
    var there :| Edits(there, a, b) && Cost(there) == Distance(a, b);
    var back :| Edits(back, b, a) && Cost(back) == Distance(b, a);
    UndoReverses(there);
    UndoReverses(back);
    assert Edits(Undo(there), b, a) && Edits(Undo(back), a, b);
  }

  /** A script that does the work of two, at no more than their cost. */
  lemma {:induction false} Compose<T>(s: seq<Edit<T>>, t: seq<Edit<T>>) returns (u: seq<Edit<T>>)
    requires Target(s) == Source(t)
    ensures Edits(u, Source(s), Target(t)) && Cost(u) <= Cost(s) + Cost(t)
    decreases |s| + |t|
  {
    if s == [] && t == [] {
      u := [];
    } else if s != [] && s[|s| - 1].Delete? {
      u := Compose(s[..|s| - 1], t);
      Snoc(u, s[|s| - 1]);
      u := u + [s[|s| - 1]];
    } else if t != [] && t[|t| - 1].Insert? {
      u := Compose(s, t[..|t| - 1]);
      Snoc(u, t[|t| - 1]);
      u := u + [t[|t| - 1]];
    } else {
      u := ComposeBoth(s, t);
    }
  }

  lemma {:induction false} ComposeBoth<T>(s: seq<Edit<T>>, t: seq<Edit<T>>) returns (u: seq<Edit<T>>)
    requires Target(s) == Source(t) && (s != [] || t != [])
    requires s == [] || !s[|s| - 1].Delete?
    requires t == [] || !t[|t| - 1].Insert?
    ensures Edits(u, Source(s), Target(t)) && Cost(u) <= Cost(s) + Cost(t)
    decreases |s| + |t|, 0
  {
    EndsMeet(s, t);
    u := Compose(s[..|s| - 1], t[..|t| - 1]);
    u := Joined(u, s[|s| - 1], t[|t| - 1]);
  }

  /** One step does the work of a step that writes and one that reads what it wrote. */
  lemma Joined<T>(before: seq<Edit<T>>, x: Edit<T>, y: Edit<T>) returns (u: seq<Edit<T>>)
    requires !x.Delete? && !y.Insert? && Writes(x) == Reads(y)
    ensures Edits(u, Source(before) + Reads(x), Target(before) + Writes(y))
    ensures Cost(u) <= Cost(before) + StepCost(x) + StepCost(y)
  {
    u := before;
    assert Writes(x)[0] == Reads(y)[0];
    var e :=
      if x.Insert? && y.Delete? then []
      else if x.Insert? then [Insert(y.after)]
      else if y.Delete? then [Delete(x.before)]
      else [Replace(x.before, y.after)];
    if e != [] {
      Snoc(u, e[0]);
      u := u + [e[0]];
    }
  }

  /** What the one script writes last, the other reads last. */
  lemma EndsMeet<T>(s: seq<Edit<T>>, t: seq<Edit<T>>)
    requires Target(s) == Source(t) && (s != [] || t != [])
    requires s == [] || !s[|s| - 1].Delete?
    requires t == [] || !t[|t| - 1].Insert?
    ensures s != [] && t != [] && Target(s[..|s| - 1]) == Source(t[..|t| - 1])
    ensures Writes(s[|s| - 1]) == Reads(t[|t| - 1])
  {
    assert s != [] ==> Target(s) != [];
    assert t != [] ==> Source(t) != [];
    var x, y := s[|s| - 1], t[|t| - 1];
    assert Target(s) == Target(s[..|s| - 1]) + [if x.Insert? then x.c else x.after];
    assert Source(t) == Source(t[..|t| - 1]) + [if y.Delete? then y.c else y.before];
    SameEnds(Target(s[..|s| - 1]), if x.Insert? then x.c else x.after, Source(t[..|t| - 1]), if y.Delete? then y.c else y.before);
  }

  lemma SameEnds<T>(a: seq<T>, x: T, b: seq<T>, y: T)
    requires a + [x] == b + [y]
    ensures a == b && x == y
  {
    assert |a + [x]| == |b + [y]|;
    assert (a + [x])[|a|] == x && (b + [y])[|b|] == y;
    assert a == (a + [x])[..|a|] && b == (b + [y])[..|b|];
  }

  lemma TriangleInequality<T>(a: seq<T>, b: seq<T>, c: seq<T>)
    ensures Distance(a, c) <= Distance(a, b) + Distance(b, c)
  {
    DistanceIsMinimum(a, b);
    DistanceIsMinimum(b, c);
    DistanceIsMinimum(a, c);
    var s :| Edits(s, a, b) && Cost(s) == Distance(a, b);
    var t :| Edits(t, b, c) && Cost(t) == Distance(b, c);
    var u := Compose(s, t);
  }

  ghost predicate WithinLengths(i: nat, j: nat, cost: nat) {
    (if i <= j then j - i else i - j) <= cost <= (if i <= j then j else i)
  }

  lemma BoundsStep(i: nat, j: nat, left: nat, above: nat, diagonal: nat, differs: bool)
    requires i > 0 && j > 0 && WithinLengths(i, j - 1, left) && WithinLengths(i - 1, j, above) && WithinLengths(i - 1, j - 1, diagonal)
    ensures WithinLengths(i, j, Cheapest(left, above, diagonal, differs))
  {
  }

  lemma {:induction false} CellBounds<T>(a: seq<T>, i: nat, b: seq<T>, j: nat)
    requires i <= |a| && j <= |b|
    ensures WithinLengths(i, j, Cell(a, i, b, j))
    decreases i + j
  {
    if i > 0 && j > 0 {
      var left, above, diagonal, differs := CellStep(a, i, b, j);
      CellBounds(a, i, b, j - 1);
      CellBounds(a, i - 1, b, j);
      CellBounds(a, i - 1, b, j - 1);
      BoundsStep(i, j, left, above, diagonal, differs);
    }
  }

  lemma {:induction false} FreeScriptKeeps<T>(script: seq<Edit<T>>)
    requires Cost(script) == 0
    ensures Source(script) == Target(script)
  {
    if script != [] { FreeScriptKeeps(script[..|script| - 1]); }
  }

  lemma {:induction false} DiagonalIsFree<T>(a: seq<T>, i: nat)
    requires i <= |a|
    ensures Cell(a, i, a, i) == 0
  {
    if i > 0 { DiagonalIsFree(a, i - 1); }
  }

  /** The distance is zero exactly for equal texts, and lies between the difference of the
      lengths and the longer length. */
  lemma DistanceRange<T>(a: seq<T>, b: seq<T>)
    ensures Distance(a, b) == 0 <==> a == b
    ensures (if |a| <= |b| then |b| - |a| else |a| - |b|) <= Distance(a, b) <= (if |a| <= |b| then |b| else |a|)
  {
    CellBounds(a, |a|, b, |b|);
    DiagonalIsFree(a, |a|);
    if Distance(a, b) == 0 {
      DistanceIsMinimum(a, b);
      var script :| Edits(script, a, b) && Cost(script) == 0;
      FreeScriptKeeps(script);
    }
  }
}
