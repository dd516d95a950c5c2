/** The optimal-string-alignment distance: the recurrence, the three-row computation, and the
    edit scripts it is the minimum over. */
module EditDistance {
  function Min(a: nat, b: nat): nat { if a < b then a else b }

  function Max(a: nat, b: nat): nat { if a < b then b else a }

  function Cost<T(==)>(x: T, y: T): nat { if x == y then 0 else 1 }

  // The last two elements of both prefixes are each other's swap.
  predicate Swapped(a: string, b: string, i: nat, j: nat)
    requires i <= |a| && j <= |b|
  {
    i > 1 && j > 1 && a[i - 1] == b[j - 2] && a[i - 2] == b[j - 1]
  }

  /** The full table: D(i, j) over the first i characters of a and the first j of b. */
  function D(a: string, b: string, i: nat, j: nat): nat
    requires i <= |a| && j <= |b|
    decreases i + j
  {
    if i == 0 then j
    else if j == 0 then i
    else if Swapped(a, b, i, j) then Min(Plain(a, b, i, j), D(a, b, i - 2, j - 2) + 1)
    else Plain(a, b, i, j)
  }

  // The recurrence without its swap.
  function Plain(a: string, b: string, i: nat, j: nat): nat
    requires 0 < i <= |a| && 0 < j <= |b|
    decreases i + j, 0
  {
    Cell(D(a, b, i - 1, j), D(a, b, i, j - 1), D(a, b, i - 1, j - 1) + Cost(a[i - 1], b[j - 1]))
  }

  function Cell(above: nat, left: nat, diagonal: nat): nat {
    Min(Min(above + 1, left + 1), diagonal)
  }

  // The recurrence at one cell, in terms of its neighbours' values.
  lemma CellOf(a: string, b: string, i: nat, j: nat)
    requires 0 < i <= |a| && 0 < j <= |b|
    ensures D(a, b, i, j) ==
      var plain := Cell(D(a, b, i - 1, j), D(a, b, i, j - 1), D(a, b, i - 1, j - 1) + Cost(a[i - 1], b[j - 1]));
      if Swapped(a, b, i, j) then Min(plain, D(a, b, i - 2, j - 2) + 1) else plain
  {}

  // Row i of the table, up to column n.
  ghost predicate IsRow(row: array<nat>, a: string, b: string, i: nat, n: nat)
    reads row
  {
    && row.Length == |b| + 1 && i <= |a| && n <= row.Length
    && forall j | 0 <= j < n :: row[j] == D(a, b, i, j)
  }

  // One cell from its neighbours' values; `skip` is read only when the swap applies.
  lemma CellFrom(a: string, b: string, i: nat, j: nat, above: nat, left: nat, diagonal: nat, skip: nat)
    requires 0 < i <= |a| && 0 < j <= |b|
    requires above == D(a, b, i - 1, j) && left == D(a, b, i, j - 1) && diagonal == D(a, b, i - 1, j - 1)
    requires i > 1 && j > 1 ==> skip == D(a, b, i - 2, j - 2)
    ensures D(a, b, i, j) ==
      var plain := Min(Min(above + 1, left + 1), diagonal + Cost(a[i - 1], b[j - 1]));
      if Swapped(a, b, i, j) then Min(plain, skip + 1) else plain
  {
    CellOf(a, b, i, j);
  }

  // One row from the two above it.
  method FillRow(a: string, b: string, i: nat, prevPrev: array<nat>, prev: array<nat>, curr: array<nat>)
    requires 1 <= i <= |a| && prevPrev != prev && prev != curr && prevPrev != curr
    requires IsRow(prev, a, b, i - 1, |b| + 1)
    requires i > 1 ==> IsRow(prevPrev, a, b, i - 2, |b| + 1)
    requires prevPrev.Length == |b| + 1 && curr.Length == |b| + 1
    modifies curr
    ensures IsRow(curr, a, b, i, |b| + 1)
  {
    curr[0] := i;
    var j := 1;
    while j < |b| + 1
      invariant 1 <= j <= |b| + 1
      invariant IsRow(curr, a, b, i, j)
    {
      CellFrom(a, b, i, j, prev[j], curr[j - 1], prev[j - 1], if i > 1 && j > 1 then prevPrev[j - 2] else 0);
      var cost := if a[i - 1] == b[j - 1] then 0 else 1;
      var best := Min(Min(prev[j] + 1, curr[j - 1] + 1), prev[j - 1] + cost);
      if i > 1 && j > 1 && a[i - 1] == b[j - 2] && a[i - 2] == b[j - 1] {
        best := Min(best, prevPrev[j - 2] + 1);
      }
      curr[j] := best;
      j := j + 1;
    }
  }

  /** Three rotated rows refine the full table: no row is ever read after it has been overwritten. */
  method Distance(a: string, b: string) returns (d: nat)
    ensures d == D(a, b, |a|, |b|)
  {
    var cols := |b| + 1;
    var prevPrev, prev, curr := new nat[cols](_ => 0), new nat[cols](_ => 0), new nat[cols](_ => 0);
    for j := 0 to cols
      invariant IsRow(prev, a, b, 0, j)
    {
      prev[j] := j;
    }
    for i := 1 to |a| + 1
      invariant prevPrev != prev && prev != curr && prevPrev != curr
      invariant fresh(prevPrev) && fresh(prev) && fresh(curr)
      invariant prevPrev.Length == cols && curr.Length == cols
      invariant IsRow(prev, a, b, i - 1, cols)
      invariant i > 1 ==> IsRow(prevPrev, a, b, i - 2, cols)
    {
      FillRow(a, b, i, prevPrev, prev, curr);
      prevPrev, prev, curr := prev, curr, prevPrev;
    }
    return prev[|b|];
  }

  /** An edit script, read left to right. */
  datatype Edit =
    | Keep(c: char)
    | Substitute(c: char, d: char)
    | Insert(c: char)
    | Delete(c: char)
    | Swap(c: char, d: char)

  function Before(e: Edit): string {
    match e
    case Keep(c) => [c]
    case Substitute(c, _) => [c]
    case Insert(_) => []
    case Delete(c) => [c]
    case Swap(c, d) => [c, d]
  }

  function After(e: Edit): string {
    match e
    case Keep(c) => [c]
    case Substitute(_, d) => [d]
    case Insert(c) => [c]
    case Delete(_) => []
    case Swap(c, d) => [d, c]
  }

  function Price(e: Edit): nat { if e.Keep? then 0 else 1 }

  function Source(s: seq<Edit>): string {
    if s == [] then "" else Source(s[..|s| - 1]) + Before(s[|s| - 1])
  }

  function Target(s: seq<Edit>): string {
    if s == [] then "" else Target(s[..|s| - 1]) + After(s[|s| - 1])
  }

  function Total(s: seq<Edit>): nat {
    if s == [] then 0 else Total(s[..|s| - 1]) + Price(s[|s| - 1])
  }

  // A script that turns the first i characters of a into the first j of b.
  predicate Edits(s: seq<Edit>, a: string, b: string, i: nat, j: nat)
    requires i <= |a| && j <= |b|
  {
    Source(s) == a[..i] && Target(s) == b[..j]
  }

  // An edit at the ends of both prefixes.
  predicate Fits(e: Edit, a: string, b: string, i: nat, j: nat)
    requires i <= |a| && j <= |b|
  {
    match e
    case Keep(c) => i > 0 && j > 0 && a[i - 1] == b[j - 1] == c
    case Substitute(c, d) => i > 0 && j > 0 && a[i - 1] == c && b[j - 1] == d
    case Insert(c) => j > 0 && b[j - 1] == c
    case Delete(c) => i > 0 && a[i - 1] == c
    case Swap(c, d) => Swapped(a, b, i, j) && a[i - 2] == c && a[i - 1] == d
  }

  // The edit the recurrence's own branch stands for.
  function LastEdit(a: string, b: string, i: nat, j: nat): (e: Edit)
    requires i <= |a| && j <= |b| && i + j > 0
    ensures Fits(e, a, b, i, j)
  {
    if i == 0 then Insert(b[j - 1])
    else if j == 0 then Delete(a[i - 1])
    else if Swapped(a, b, i, j) && D(a, b, i, j) == D(a, b, i - 2, j - 2) + 1 then Swap(a[i - 2], a[i - 1])
    else if D(a, b, i, j) == D(a, b, i - 1, j) + 1 then Delete(a[i - 1])
    else if D(a, b, i, j) == D(a, b, i, j - 1) + 1 then Insert(b[j - 1])
    else if a[i - 1] == b[j - 1] then Keep(a[i - 1])
    else Substitute(a[i - 1], b[j - 1])
  }

  // What it reads and writes stands at the ends of the prefixes…
  lemma FitsWithin(e: Edit, a: string, b: string, i: nat, j: nat)
    requires i <= |a| && j <= |b| && Fits(e, a, b, i, j)
    ensures |Before(e)| <= i && |After(e)| <= j && |Before(e)| + |After(e)| > 0
  {
    match e
    case Keep(_) =>
    case Substitute(_, _) =>
    case Insert(_) =>
    case Delete(_) =>
    case Swap(_, _) =>
  }

  lemma GrowOne(a: string, i: nat)
    requires 1 <= i <= |a|
    ensures a[..i] == a[..i - 1] + [a[i - 1]]
  {}

  lemma GrowTwo(a: string, i: nat)
    requires 2 <= i <= |a|
    ensures a[..i] == a[..i - 2] + [a[i - 2], a[i - 1]]
  {}

  lemma GrowNone(a: string, i: nat)
    requires i <= |a|
    ensures a[..i] == a[..i] + []
  {}

  lemma LastEditSteps(a: string, b: string, i: nat, j: nat)
    requires 0 < i <= |a| && 0 < j <= |b|
    ensures var e, d := LastEdit(a, b, i, j), D(a, b, i, j);
      && (e.Insert? ==> d == D(a, b, i, j - 1) + 1)
      && (e.Delete? ==> d == D(a, b, i - 1, j) + 1)
      && (e.Keep? ==> d == D(a, b, i - 1, j - 1))
      && (e.Substitute? ==> d == D(a, b, i - 1, j - 1) + 1)
      && (e.Swap? ==> d == D(a, b, i - 2, j - 2) + 1)
  {
    PlainPays(a, b, i, j);
  }

  // …and it pays for the step in the distance.
  lemma LastEditPays(a: string, b: string, i: nat, j: nat)
    requires i <= |a| && j <= |b| && i + j > 0
    ensures var e := LastEdit(a, b, i, j);
      && |Before(e)| <= i && |After(e)| <= j
      && D(a, b, i, j) == D(a, b, i - |Before(e)|, j - |After(e)|) + Price(e)
  {
    if i > 0 && j > 0 {
      LastEditSteps(a, b, i, j);
      match LastEdit(a, b, i, j) {
        case Keep(_) =>
        case Substitute(_, _) =>
        case Insert(_) =>
        case Delete(_) =>
        case Swap(_, _) =>
      }
    }
  }

  lemma PlainPays(a: string, b: string, i: nat, j: nat)
    requires 0 < i <= |a| && 0 < j <= |b|
    ensures Plain(a, b, i, j) in
      {D(a, b, i - 1, j) + 1, D(a, b, i, j - 1) + 1, D(a, b, i - 1, j - 1) + Cost(a[i - 1], b[j - 1])}
    ensures D(a, b, i, j) ==
      if Swapped(a, b, i, j) then Min(Plain(a, b, i, j), D(a, b, i - 2, j - 2) + 1) else Plain(a, b, i, j)
  {}

  // At every cell but the first some edit at the ends pays for the step in the distance.
  lemma LastStep(a: string, b: string, i: nat, j: nat) returns (e: Edit)
    requires i <= |a| && j <= |b| && i + j > 0
    ensures Fits(e, a, b, i, j)
    ensures |Before(e)| <= i && |After(e)| <= j && |Before(e)| + |After(e)| > 0
    ensures D(a, b, i, j) == D(a, b, i - |Before(e)|, j - |After(e)|) + Price(e)
  {
    e := LastEdit(a, b, i, j);
    FitsWithin(e, a, b, i, j);
    LastEditPays(a, b, i, j);
  }

  lemma AddEdit(s: seq<Edit>, e: Edit)
    ensures Source(s + [e]) == Source(s) + Before(e)
    ensures Target(s + [e]) == Target(s) + After(e)
    ensures Total(s + [e]) == Total(s) + Price(e)
  {
    assert (s + [e])[..|s|] == s;
  }

  // The prefixes end in what the edit reads and writes.
  lemma FitsGrows(e: Edit, a: string, b: string, i: nat, j: nat)
    requires i <= |a| && j <= |b| && Fits(e, a, b, i, j)
    requires |Before(e)| <= i && |After(e)| <= j
    ensures a[..i] == a[..i - |Before(e)|] + Before(e)
    ensures b[..j] == b[..j - |After(e)|] + After(e)
  {
    match e
    case Keep(_) => GrowOne(a, i); GrowOne(b, j);
    case Substitute(_, _) => GrowOne(a, i); GrowOne(b, j);
    case Insert(_) => GrowNone(a, i); GrowOne(b, j);
    case Delete(_) => GrowOne(a, i); GrowNone(b, j);
    case Swap(_, _) => GrowTwo(a, i); GrowTwo(b, j);
  }

  // An edit at the ends of both prefixes extends a script for the rest.
  lemma Extend(s: seq<Edit>, e: Edit, a: string, b: string, i: nat, j: nat)
    requires i <= |a| && j <= |b| && Fits(e, a, b, i, j)
    requires |Before(e)| <= i && |After(e)| <= j && Edits(s, a, b, i - |Before(e)|, j - |After(e)|)
    ensures Edits(s + [e], a, b, i, j) && Total(s + [e]) == Total(s) + Price(e)
  {
    AddEdit(s, e);
    FitsGrows(e, a, b, i, j);
  }

  lemma EmptyScript(a: string, b: string)
    ensures Edits([], a, b, 0, 0)
  {
    assert a[..0] == "" && b[..0] == "";
  }

  // A cheapest script for the rest, one edit longer.
  lemma OneEditMore(rest: seq<Edit>, e: Edit, a: string, b: string, i: nat, j: nat) returns (s: seq<Edit>)
    requires i <= |a| && j <= |b| && Fits(e, a, b, i, j) && |Before(e)| <= i && |After(e)| <= j
    requires Edits(rest, a, b, i - |Before(e)|, j - |After(e)|)
    ensures Edits(s, a, b, i, j) && Total(s) == Total(rest) + Price(e)
  {
    s := rest + [e];
    Extend(rest, e, a, b, i, j);
  }

  /** The distance is reached: a script of that cost exists. */
  lemma {:induction false} ScriptReaches(a: string, b: string, i: nat, j: nat) returns (s: seq<Edit>)
    requires i <= |a| && j <= |b|
    ensures Edits(s, a, b, i, j) && Total(s) == D(a, b, i, j)
    decreases i + j
  {
    if i + j == 0 {
      EmptyScript(a, b);
      s := [];
    } else {
      var e := LastStep(a, b, i, j);
      var rest := ScriptReaches(a, b, i - |Before(e)|, j - |After(e)|);
      s := OneEditMore(rest, e, a, b, i, j);
    }
  }

  // Undoing the last edit of a script leaves a script for the prefixes without what it read and wrote.
  lemma Undo(s: seq<Edit>, a: string, b: string, i: nat, j: nat)
    requires i <= |a| && j <= |b| && s != [] && Edits(s, a, b, i, j)
    ensures var e := s[|s| - 1];
      && |Before(e)| <= i && |After(e)| <= j && Fits(e, a, b, i, j)
      && Edits(s[..|s| - 1], a, b, i - |Before(e)|, j - |After(e)|)
  {
    var init, e := s[..|s| - 1], s[|s| - 1];
    Cut(a, i, Source(init), Before(e));
    Cut(b, j, Target(init), After(e));
    EndsFit(e, a, b, i, j);
  }

  lemma Cut(a: string, i: nat, head: string, last: string)
    requires i <= |a| && a[..i] == head + last
    ensures |last| <= i && a[..i - |last|] == head && EndsIn(a, i, last)
  {
    assert |a[..i]| == |head| + |last|;
    assert a[..i][..|head|] == a[..|head|] && (head + last)[..|head|] == head;
    forall k | 0 <= k < |last| ensures a[i - |last| + k] == last[k] {
      assert a[..i][|head| + k] == (head + last)[|head| + k];
    }
  }

  // A prefix's last characters, one by one.
  predicate EndsIn(a: string, i: nat, last: string)
    requires |last| <= i <= |a|
  {
    forall k | 0 <= k < |last| :: a[i - |last| + k] == last[k]
  }

  lemma EndsFit(e: Edit, a: string, b: string, i: nat, j: nat)
    requires |Before(e)| <= i <= |a| && |After(e)| <= j <= |b|
    requires EndsIn(a, i, Before(e)) && EndsIn(b, j, After(e))
    ensures Fits(e, a, b, i, j)
  {
    match e
    case Keep(c) => assert Before(e)[0] == c && After(e)[0] == c;
    case Substitute(c, d) => assert Before(e)[0] == c && After(e)[0] == d;
    case Insert(c) => assert After(e)[0] == c;
    case Delete(c) => assert Before(e)[0] == c;
    case Swap(c, d) => assert Before(e)[0] == After(e)[1] == c && Before(e)[1] == After(e)[0] == d;
  }

  lemma StepStraight(a: string, b: string, i: nat, j: nat)
    requires i <= |a| && j <= |b|
    ensures i > 0 ==> D(a, b, i, j) <= D(a, b, i - 1, j) + 1
    ensures j > 0 ==> D(a, b, i, j) <= D(a, b, i, j - 1) + 1
  {
    if i > 0 && j > 0 { CellOf(a, b, i, j); }
  }

  lemma StepDiagonal(a: string, b: string, i: nat, j: nat)
    requires 0 < i <= |a| && 0 < j <= |b|
    ensures D(a, b, i, j) <= D(a, b, i - 1, j - 1) + Cost(a[i - 1], b[j - 1])
    ensures Swapped(a, b, i, j) ==> D(a, b, i, j) <= D(a, b, i - 2, j - 2) + 1
  {
    CellOf(a, b, i, j);
  }

  // No edit lowers the recurrence by more than it costs.
  lemma OneEditStep(e: Edit, a: string, b: string, i: nat, j: nat)
    requires i <= |a| && j <= |b| && Fits(e, a, b, i, j)
    requires |Before(e)| <= i && |After(e)| <= j
    ensures D(a, b, i, j) <= D(a, b, i - |Before(e)|, j - |After(e)|) + Price(e)
  {
    match e
    case Insert(_) => StepStraight(a, b, i, j);
    case Delete(_) => StepStraight(a, b, i, j);
    case Keep(_) => StepDiagonal(a, b, i, j);
    case Substitute(_, _) => StepDiagonal(a, b, i, j);
    case Swap(_, _) => StepDiagonal(a, b, i, j);
  }

  /** The distance is least: no script costs less. */
  lemma {:induction false} NoScriptIsCheaper(s: seq<Edit>, a: string, b: string, i: nat, j: nat)
    requires i <= |a| && j <= |b| && Edits(s, a, b, i, j)
    ensures D(a, b, i, j) <= Total(s)
  {
    if s == [] {
      assert |a[..i]| == 0 && |b[..j]| == 0;
    } else {
      Undo(s, a, b, i, j);
      var e := s[|s| - 1];
      NoScriptIsCheaper(s[..|s| - 1], a, b, i - |Before(e)|, j - |After(e)|);
      OneEditStep(e, a, b, i, j);
    }
  }

  /** The returned number is the minimum cost over all scripts that turn a into b. */
  lemma DistanceIsMinimum(a: string, b: string)
    ensures exists s :: Edits(s, a, b, |a|, |b|) && Total(s) == D(a, b, |a|, |b|)
    ensures forall s :: Edits(s, a, b, |a|, |b|) ==> D(a, b, |a|, |b|) <= Total(s)
  {
    var least := ScriptReaches(a, b, |a|, |b|);
    assert Edits(least, a, b, |a|, |b|);
    forall s | Edits(s, a, b, |a|, |b|) ensures D(a, b, |a|, |b|) <= Total(s) {
      NoScriptIsCheaper(s, a, b, |a|, |b|);
    }
  }

  lemma SymmetricCell(a: string, b: string, i: nat, j: nat)
    requires 0 < i <= |a| && 0 < j <= |b|
    requires D(a, b, i - 1, j) == D(b, a, j, i - 1)
    requires D(a, b, i, j - 1) == D(b, a, j - 1, i)
    requires D(a, b, i - 1, j - 1) == D(b, a, j - 1, i - 1)
    requires i > 1 && j > 1 ==> D(a, b, i - 2, j - 2) == D(b, a, j - 2, i - 2)
    ensures D(a, b, i, j) == D(b, a, j, i)
  {
    assert Swapped(a, b, i, j) == Swapped(b, a, j, i);
    assert Cost(a[i - 1], b[j - 1]) == Cost(b[j - 1], a[i - 1]);
    CellOf(a, b, i, j);
    CellOf(b, a, j, i);
  }

  lemma {:induction false} Symmetric(a: string, b: string, i: nat, j: nat)
    requires i <= |a| && j <= |b|
    ensures D(a, b, i, j) == D(b, a, j, i)
    decreases i + j
  {
    if i > 0 && j > 0 {
      Symmetric(a, b, i - 1, j);
      Symmetric(a, b, i, j - 1);
      Symmetric(a, b, i - 1, j - 1);
      if i > 1 && j > 1 { Symmetric(a, b, i - 2, j - 2); }
      SymmetricCell(a, b, i, j);
    }
  }

  ghost predicate Within(d: nat, i: nat, j: nat) {
    i <= d + j && j <= d + i && d <= Max(i, j)
  }

  lemma CellWithin(i: nat, j: nat, above: nat, left: nat, diagonal: nat, cost: nat)
    requires i > 0 && j > 0 && cost <= 1
    requires Within(above, i - 1, j) && Within(left, i, j - 1) && Within(diagonal, i - 1, j - 1)
    ensures Within(Cell(above, left, diagonal + cost), i, j)
  {}

  lemma SwapWithin(i: nat, j: nat, plain: nat, skip: nat)
    requires i > 1 && j > 1 && Within(plain, i, j) && Within(skip, i - 2, j - 2)
    ensures Within(Min(plain, skip + 1), i, j)
  {}

  lemma {:induction false} Bounds(a: string, b: string, i: nat, j: nat)
    requires i <= |a| && j <= |b|
    ensures Within(D(a, b, i, j), i, j)
    decreases i + j
  {
    if i > 0 && j > 0 {
      PlainBounds(a, b, i, j);
      if Swapped(a, b, i, j) {
        Bounds(a, b, i - 2, j - 2);
        SwapWithin(i, j, Plain(a, b, i, j), D(a, b, i - 2, j - 2));
      }
    }
  }

  lemma {:induction false} PlainBounds(a: string, b: string, i: nat, j: nat)
    requires 0 < i <= |a| && 0 < j <= |b|
    ensures Within(Plain(a, b, i, j), i, j)
    decreases i + j, 0
  {
    Bounds(a, b, i - 1, j);
    Bounds(a, b, i, j - 1);
    Bounds(a, b, i - 1, j - 1);
    CellWithin(i, j, D(a, b, i - 1, j), D(a, b, i, j - 1), D(a, b, i - 1, j - 1), Cost(a[i - 1], b[j - 1]));
  }

  lemma {:induction false} ZeroIsEqual(a: string, b: string, i: nat, j: nat)
    requires i <= |a| && j <= |b|
    ensures D(a, b, i, j) == 0 <==> a[..i] == b[..j]
    decreases i + j
  {
    if i > 0 && j > 0 {
      ZeroIsEqual(a, b, i - 1, j - 1);
      assert a[..i] == a[..i - 1] + [a[i - 1]] && b[..j] == b[..j - 1] + [b[j - 1]];
    }
  }

  /** Symmetric, zero exactly on equal strings, at least the difference of the lengths and at most the longer. */
  lemma DistanceProperties(a: string, b: string)
    ensures D(a, b, |a|, |b|) == D(b, a, |b|, |a|)
    ensures D(a, b, |a|, |b|) == 0 <==> a == b
    ensures |a| - |b| <= D(a, b, |a|, |b|) && |b| - |a| <= D(a, b, |a|, |b|)
    ensures D(a, b, |a|, |b|) <= Max(|a|, |b|)
  {
    Symmetric(a, b, |a|, |b|);
    Bounds(a, b, |a|, |b|);
    ZeroIsEqual(a, b, |a|, |b|);
    assert a[..|a|] == a && b[..|b|] == b;
  }
}
