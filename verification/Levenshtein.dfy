/** The bounded edit distance behind fuzzy stop names: two rows, two early exits. */
module Levenshtein {
  // ---- the reference: sequences of single-character edits ------------------------------------------

  datatype Edit = Insert(at: nat, c: char) | Delete(at: nat) | Replace(at: nat, c: char)

  predicate Applies(e: Edit, s: string) {
    match e
    case Insert(at, _) => at <= |s|
    case Delete(at) => at < |s|
    case Replace(at, _) => at < |s|
  }

  function Apply(e: Edit, s: string): string
    requires Applies(e, s)
  {
    match e
    case Insert(at, c) => s[..at] + [c] + s[at..]
    case Delete(at) => s[..at] + s[at + 1..]
    case Replace(at, c) => s[at := c]
  }

  /** The edits, one after the other, turn `a` into `b`. */
  predicate Leads(a: string, edits: seq<Edit>, b: string)
    decreases |edits|
  {
    if edits == [] then a == b
    else Applies(edits[0], a) && Leads(Apply(edits[0], a), edits[1..], b)
  }

  ghost predicate Within(a: string, b: string, distance: int) {
    exists edits: seq<Edit> :: |edits| <= distance && Leads(a, edits, b)
  }

  // ---- the recurrence -------------------------------------------------------------------------------

  function Min3(x: int, y: int, z: int): int {
    if x <= y && x <= z then x else if y <= z then y else z
  }

  function Cost(x: char, y: char): int {
    if x != y then 1 else 0
  }

  function Front(s: string): string
    requires s != []
  {
    s[..|s| - 1]
  }

  function Last(s: string): char
    requires s != []
  {
    s[|s| - 1]
  }

  function Dist(a: string, b: string): nat
    decreases |a| + |b|
  {
    if a == [] then |b|
    else if b == [] then |a|
    else Min3(Dist(a, Front(b)) + 1, Dist(Front(a), b) + 1, Dist(Front(a), Front(b)) + Cost(Last(a), Last(b)))
  }

  /** One more last character raises the distance by at most one. */
  lemma {:induction false} LastCharacter(a: string, b: string)
    ensures a != [] ==> Dist(a, b) <= Dist(Front(a), b) + 1
    ensures b != [] ==> Dist(a, b) <= Dist(a, Front(b)) + 1
  {
  }

  /** An edit before the last character leaves it in place. */
  predicate Inner(e: Edit, s: string)
    requires Applies(e, s)
  {
    s != [] && Applies(e, Front(s)) && (e.Insert? ==> e.at < |s|)
  }

  lemma InnerEdit(e: Edit, s: string)
    requires Applies(e, s) && Inner(e, s)
    ensures Apply(e, s) != [] && Front(Apply(e, s)) == Apply(e, Front(s)) && Last(Apply(e, s)) == Last(s)
  {
    assert s == Front(s) + [Last(s)];
  }

  lemma OuterEdit(e: Edit, s: string)
    requires Applies(e, s) && !Inner(e, s)
    ensures e.Insert? ==> Apply(e, s) == s + [e.c]
    ensures e.Delete? ==> s != [] && Apply(e, s) == Front(s)
    ensures e.Replace? ==> s != [] && Apply(e, s) == Front(s) + [e.c]
  {
  }

  lemma OuterEditMovesByOne(a: string, e: Edit, b: string)
    requires Applies(e, a) && !Inner(e, a) && b != [] && Apply(e, a) != []
    requires Dist(a, Front(b)) <= Dist(Apply(e, a), Front(b)) + 1
    ensures Dist(a, b) <= Dist(Apply(e, a), b) + 1
  {
    OuterEdit(e, a);
    LastCharacter(a, b);
    if e.Insert? {
      assert Front(a + [e.c]) == a;
    } else if e.Replace? {
      assert Front(Front(a) + [e.c]) == Front(a);
    }
  }

  /** An edit moves the distance to any target by at most one. */
  lemma {:induction false} EditMovesByOne(a: string, e: Edit, b: string)
    requires Applies(e, a)
    ensures Dist(a, b) <= Dist(Apply(e, a), b) + 1
    decreases |a| + |b|
  {
    var a' := Apply(e, a);
    if b == [] {
    } else if a' == [] {
      LastCharacter(a, b);
      OuterEdit(e, a);
    } else {
      EditMovesByOne(a, e, Front(b));
      LastCharacter(a, b);
      if Inner(e, a) {
        InnerEdit(e, a);
        EditMovesByOne(Front(a), e, b);
        EditMovesByOne(Front(a), e, Front(b));
      } else {
        OuterEdit(e, a);
        OuterEditMovesByOne(a, e, b);
      }
    }
  }

  lemma {:induction false} DistToItself(a: string)
    ensures Dist(a, a) == 0
  {
    if a != [] {
      DistToItself(Front(a));
    }
  }

  /** No sequence of edits is shorter than the recurrence says. */
  lemma {:induction false} NoShorter(a: string, edits: seq<Edit>, b: string)
    requires Leads(a, edits, b)
    ensures Dist(a, b) <= |edits|
    decreases |edits|
  {
    if edits == [] {
      DistToItself(a);
    } else {
      NoShorter(Apply(edits[0], a), edits[1..], b);
      EditMovesByOne(a, edits[0], b);
    }
  }

  lemma {:induction false} LeadsThenOne(a: string, edits: seq<Edit>, b: string, e: Edit)
    requires Leads(a, edits, b) && Applies(e, b)
    ensures Leads(a, edits + [e], Apply(e, b))
    decreases |edits|
  {
    var all := edits + [e];
    if edits != [] {
      LeadsThenOne(Apply(edits[0], a), edits[1..], b, e);
      assert all[1..] == edits[1..] + [e];
    }
  }

  /** The same edits work with a common last character appended. */
  lemma {:induction false} LeadsLifted(a: string, edits: seq<Edit>, b: string, c: char)
    requires Leads(a, edits, b)
    ensures Leads(a + [c], edits, b + [c])
    decreases |edits|
  {
    if edits != [] {
      var e := edits[0];
      LeadsLifted(Apply(e, a), edits[1..], b, c);
      assert Applies(e, a + [c]) && Apply(e, a + [c]) == Apply(e, a) + [c];
    }
  }

  lemma InsertLast(a: string, edits: seq<Edit>, b: string) returns (more: seq<Edit>)
    requires b != [] && Leads(a, edits, Front(b))
    ensures |more| == |edits| + 1 && Leads(a, more, b)
  {
    var e := Insert(|b| - 1, Last(b));
    assert Apply(e, Front(b)) == b;
    LeadsThenOne(a, edits, Front(b), e);
    more := edits + [e];
  }

  lemma DeleteLast(a: string, edits: seq<Edit>, b: string) returns (more: seq<Edit>)
    requires a != [] && Leads(Front(a), edits, b)
    ensures |more| == |edits| + 1 && Leads(a, more, b)
  {
    var e := Delete(|a| - 1);
    assert Apply(e, a) == Front(a);
    more := [e] + edits;
    assert more[1..] == edits;
  }

  lemma KeepOrReplaceLast(a: string, edits: seq<Edit>, b: string) returns (more: seq<Edit>)
    requires a != [] && b != [] && Leads(Front(a), edits, Front(b))
    ensures |more| == |edits| + Cost(Last(a), Last(b)) && Leads(a, more, b)
  {
    LeadsLifted(Front(a), edits, Front(b), Last(a));
    assert a == Front(a) + [Last(a)] && b == Front(b) + [Last(b)];
    if Last(a) == Last(b) {
      more := edits;
    } else {
      var reached, e := Front(b) + [Last(a)], Replace(|b| - 1, Last(b));
      assert Apply(e, reached) == b;
      LeadsThenOne(a, edits, reached, e);
      more := edits + [e];
    }
  }

  /** Some sequence of edits is as short as the recurrence says. */
  lemma {:induction false} SomeShortest(a: string, b: string) returns (edits: seq<Edit>)
    ensures |edits| == Dist(a, b) && Leads(a, edits, b)
    decreases |a| + |b|
  {
    if a == [] && b == [] {
      edits := [];
    } else if a == [] || (b != [] && Dist(a, b) == Dist(a, Front(b)) + 1) {
      edits := SomeShortest(a, Front(b));
      edits := InsertLast(a, edits, b);
    } else if b == [] || Dist(a, b) == Dist(Front(a), b) + 1 {
      edits := SomeShortest(Front(a), b);
      edits := DeleteLast(a, edits, b);
    } else {
      edits := SomeShortest(Front(a), Front(b));
      edits := KeepOrReplaceLast(a, edits, b);
    }
  }

  /** The recurrence computes the least number of edits. */
  lemma DistIsLeast(a: string, b: string, distance: int)
    ensures Within(a, b, distance) <==> Dist(a, b) <= distance
  {
    var shortest := SomeShortest(a, b);
    if Within(a, b, distance) {
      var edits :| |edits| <= distance && Leads(a, edits, b);
      NoShorter(a, edits, b);
    }
  }

  // ---- the two early exits ---------------------------------------------------------------------------

  lemma {:induction false} LengthsBound(a: string, b: string)
    ensures |a| - |b| <= Dist(a, b) && |b| - |a| <= Dist(a, b)
    decreases |a| + |b|
  {
    if a != [] && b != [] {
      LengthsBound(a, Front(b));
      LengthsBound(Front(a), b);
      LengthsBound(Front(a), Front(b));
    }
  }

  /** Every entry of the row of `a` against the first `n` prefixes of `b` exceeds the bound. */
  predicate RowAbove(a: string, b: string, n: nat, bound: int)
    requires n <= |b| + 1
  {
    forall j :: 0 <= j < n ==> Dist(a, b[..j]) > bound
  }

  /** Row minima never decrease. */
  lemma {:induction false} NextRowAbove(a: string, c: char, b: string, bound: int, n: nat)
    requires n <= |b| + 1 && RowAbove(a, b, |b| + 1, bound)
    ensures RowAbove(a + [c], b, n, bound)
  {
    if n > 0 {
      NextRowAbove(a, c, b, bound, n - 1);
      var j := n - 1;
      assert Front(a + [c]) == a && Dist(a, b[..j]) > bound && Dist(a, b[..0]) > bound;
      if j > 0 {
        assert Front(b[..j]) == b[..j - 1];
        assert Dist(a + [c], b[..j - 1]) > bound && Dist(a, b[..j - 1]) > bound;
      }
    }
  }

  lemma {:induction false} FinalAbove(a: string, rest: string, b: string, bound: int)
    requires RowAbove(a, b, |b| + 1, bound)
    ensures Dist(a + rest, b) > bound
    decreases |rest|
  {
    if rest == [] {
      assert a + rest == a && b[..|b|] == b;
    } else {
      NextRowAbove(a, rest[0], b, bound, |b| + 1);
      FinalAbove(a + [rest[0]], rest[1..], b, bound);
      assert a + [rest[0]] + rest[1..] == a + rest;
    }
  }

  // ---- the routine -----------------------------------------------------------------------------------

  method MinInt(first: int, rest: seq<int>) returns (out: int)
    ensures (out == first || out in rest) && out <= first && forall k :: 0 <= k < |rest| ==> out <= rest[k]
  {
    out := first;
    for k := 0 to |rest|
      invariant (out == first || out in rest) && out <= first
      invariant forall j :: 0 <= j < k ==> out <= rest[j]
    {
      if rest[k] < out {
        out := rest[k];
      }
    }
  }

  /** The table entry of the first `i` and `j` characters. */
  function Cell(a: string, b: string, i: nat, j: nat): nat
    requires i <= |a| && j <= |b|
  {
    Dist(a[..i], b[..j])
  }

  lemma CellStep(a: string, b: string, i: nat, j: nat)
    requires i < |a| && j < |b|
    ensures Cell(a, b, i + 1, j + 1) ==
            Min3(Cell(a, b, i + 1, j) + 1, Cell(a, b, i, j + 1) + 1, Cell(a, b, i, j) + Cost(a[i], b[j]))
  {
    assert Front(a[..i + 1]) == a[..i] && Front(b[..j + 1]) == b[..j];
  }

  method Entry(left: int, above: int, corner: int, cost: int) returns (entry: int)
    ensures entry == Min3(left + 1, above + 1, corner + cost)
  {
    var rest := [above + 1, corner + cost];
    entry := MinInt(left + 1, rest);
    assert entry <= rest[0] && entry <= rest[1];
  }

  /** `row` holds the first `n` table entries of row `i`. */
  predicate RowIs(a: string, b: string, i: nat, row: seq<int>, n: nat)
    requires i <= |a| && n <= |b| + 1
  {
    n <= |row| && forall j :: 0 <= j < n ==> row[j] == Cell(a, b, i, j)
  }

  predicate IsLeast(least: int, row: seq<int>) {
    least in row && forall j :: 0 <= j < |row| ==> least <= row[j]
  }

  lemma Extend(a: string, b: string, i: nat, done: seq<int>, entry: int, least: int)
    requires i <= |a| && 0 < |done| <= |b| && RowIs(a, b, i, done, |done|) && entry == Cell(a, b, i, |done|)
    requires IsLeast(least, done)
    ensures RowIs(a, b, i, done + [entry], |done| + 1)
    ensures IsLeast(if entry < least then entry else least, done + [entry])
  {
    assert (done + [entry])[|done|] == entry;
    assert forall x :: x in done ==> x in done + [entry];
  }

  /** One row from the previous one, with its least entry. */
  method NextRow(a: string, i: nat, b: string, prev: array<int>) returns (curr: array<int>, rowMin: int)
    requires i < |a| && prev.Length == |b| + 1 && RowIs(a, b, i, prev[..], |b| + 1)
    ensures fresh(curr) && curr.Length == |b| + 1 && RowIs(a, b, i + 1, curr[..], |b| + 1)
    ensures IsLeast(rowMin, curr[..])
  {
    curr := new int[|b| + 1];
    curr[0] := i + 1;
    rowMin := curr[0];
    assert Cell(a, b, i + 1, 0) == i + 1;
    ghost var done := [i + 1];
    for k := 0 to |b|
      invariant curr[..k + 1] == done && RowIs(a, b, i + 1, done, k + 1)
      invariant IsLeast(rowMin, done)
    {
      CellStep(a, b, i, k);
      var cost := if a[i] != b[k] then 1 else 0;
      assert prev[..][k] == Cell(a, b, i, k) && prev[..][k + 1] == Cell(a, b, i, k + 1) && done[k] == Cell(a, b, i + 1, k);
      curr[k + 1] := Entry(curr[k], prev[k + 1], prev[k], cost);
      Extend(a, b, i + 1, done, curr[k + 1], rowMin);
      done := done + [curr[k + 1]];
      if curr[k + 1] < rowMin {
        rowMin := curr[k + 1];
      }
    }
    assert curr[..] == curr[..|b| + 1];
  }

  lemma LowRow(a: string, b: string, i: nat, row: seq<int>, rowMin: int, bound: int)
    requires i <= |a| && |row| == |b| + 1 && RowIs(a, b, i, row, |b| + 1) && IsLeast(rowMin, row) && rowMin > bound
    ensures RowAbove(a[..i], b, |b| + 1, bound)
  {
    forall j: nat | j < |b| + 1
      ensures Dist(a[..i], b[..j]) > bound
    {
      assert rowMin <= row[j] == Cell(a, b, i, j);
    }
  }

  lemma Hopeless(a: string, b: string, i: nat, bound: int)
    requires i <= |a| && RowAbove(a[..i], b, |b| + 1, bound)
    ensures Dist(a, b) > bound
  {
    assert a[..i] + a[i..] == a;
    FinalAbove(a[..i], a[i..], b, bound);
  }

  lemma FirstRow(a: string, b: string, j: nat)
    requires j <= |b|
    ensures Cell(a, b, 0, j) == j
  {
  }

  lemma LastCell(a: string, b: string)
    ensures Cell(a, b, |a|, |b|) == Dist(a, b)
  {
    assert a[..|a|] == a && b[..|b|] == b;
  }

  /** True exactly when at most `maxDistance` single-character edits turn `a` into `b`, for any bound. */
  method LevenshteinWithin(a: string, b: string, maxDistance: int) returns (within: bool)
    ensures within <==> Within(a, b, maxDistance)
  {
    DistIsLeast(a, b, maxDistance);
    LengthsBound(a, b);
    if |a| - |b| > maxDistance || |b| - |a| > maxDistance {
      return false;
    }
    var prev := new int[|b| + 1](j => j);
    forall j: nat | j <= |b|
      ensures prev[..][j] == Cell(a, b, 0, j)
    {
      FirstRow(a, b, j);
    }
    for i := 0 to |a|
      invariant prev.Length == |b| + 1 && RowIs(a, b, i, prev[..], |b| + 1)
    {
      var curr, rowMin := NextRow(a, i, b, prev);
      if rowMin > maxDistance {
        LowRow(a, b, i + 1, curr[..], rowMin, maxDistance);
        Hopeless(a, b, i + 1, maxDistance);
        return false;
      }
      prev := curr;
    }
    LastCell(a, b);
    assert prev[..][|b|] == Dist(a, b);
    return prev[|b|] <= maxDistance;
  }
}
