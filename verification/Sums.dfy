/** Finite sums over integer sequences and the saturating int64 addition built on them. */
module Sums {
  const MAX_INT64: int := 0x7FFF_FFFF_FFFF_FFFF

  type int64 = x: int | -MAX_INT64 - 1 <= x <= MAX_INT64

  function Max0(x: int): int {
    if x < 0 then 0 else x
  }

  function Min(a: int, b: int): int {
    if a <= b then a else b
  }

  function Sum(ws: seq<int>): int {
    if ws == [] then 0 else Sum(ws[..|ws| - 1]) + ws[|ws| - 1]
  }

  predicate NonNegative(ws: seq<int>) {
    forall i :: 0 <= i < |ws| ==> 0 <= ws[i]
  }

  lemma {:induction false} SumAppend(ws: seq<int>, w: int)
    ensures Sum(ws + [w]) == Sum(ws) + w
  {
    assert (ws + [w])[..|ws|] == ws;
  }

  lemma {:induction false} SumNonNegative(ws: seq<int>)
    requires NonNegative(ws)
    ensures 0 <= Sum(ws)
  {
    if ws != [] {
      SumNonNegative(ws[..|ws| - 1]);
    }
  }

  lemma {:induction false} SumConcat(us: seq<int>, ws: seq<int>)
    ensures Sum(us + ws) == Sum(us) + Sum(ws)
  {
    if ws == [] {
      assert us + ws == us;
    } else {
      assert us + ws == (us + ws[..|ws| - 1]) + [ws[|ws| - 1]];
      SumConcat(us, ws[..|ws| - 1]);
      SumAppend(us + ws[..|ws| - 1], ws[|ws| - 1]);
    }
  }

  lemma {:induction false} SumRemove(ws: seq<int>, k: nat)
    requires k < |ws|
    ensures Sum(ws[..k] + ws[k + 1..]) == Sum(ws) - ws[k]
  {
    assert ws == (ws[..k] + [ws[k]]) + ws[k + 1..];
    SumConcat(ws[..k] + [ws[k]], ws[k + 1..]);
    SumAppend(ws[..k], ws[k]);
    SumConcat(ws[..k], ws[k + 1..]);
  }

  /** The engine's int64 addition: a non-positive addend is ignored and overflow sticks at the top. */
  function SaturatingAdd(a: int, b: int): (r: int)
    requires 0 <= a <= MAX_INT64 && b <= MAX_INT64
    ensures r == Min(MAX_INT64, a + Max0(b))
  {
    if b <= 0 then a
    else if a > MAX_INT64 - b then MAX_INT64
    else a + b
  }

  function SaturatingSum(ws: seq<int>): (r: int)
    requires forall i :: 0 <= i < |ws| ==> ws[i] <= MAX_INT64
    ensures 0 <= r <= MAX_INT64
  {
    if ws == [] then 0 else SaturatingAdd(SaturatingSum(ws[..|ws| - 1]), ws[|ws| - 1])
  }

  function Positives(ws: seq<int>): (r: seq<int>)
    ensures |r| == |ws| && forall i :: 0 <= i < |ws| ==> r[i] == Max0(ws[i])
  {
    seq(|ws|, i requires 0 <= i < |ws| => Max0(ws[i]))
  }

  /** Accumulating with saturation equals saturating the exact sum once. */
  lemma {:induction false} SaturatingSumIsClampedSum(ws: seq<int>)
    requires forall i :: 0 <= i < |ws| ==> ws[i] <= MAX_INT64
    ensures SaturatingSum(ws) == Min(MAX_INT64, Sum(Positives(ws)))
  {
    if ws != [] {
      var n := |ws| - 1;
      SaturatingSumIsClampedSum(ws[..n]);
      assert Positives(ws)[..n] == Positives(ws[..n]);
      SumNonNegative(Positives(ws[..n]));
    }
  }

  lemma RemoveFromMultiset(us: seq<int>, ws: seq<int>, k: nat)
    requires us != [] && multiset(us) == multiset(ws)
    requires k < |ws| && ws[k] == us[|us| - 1]
    ensures multiset(us[..|us| - 1]) == multiset(ws[..k] + ws[k + 1..])
  {
    var n := |us| - 1;
    assert us == us[..n] + [us[n]];
    assert ws == ws[..k] + [ws[k]] + ws[k + 1..];
    assert multiset(us) == multiset(us[..n]) + multiset{us[n]};
    assert multiset(ws) == multiset(ws[..k] + ws[k + 1..]) + multiset{ws[k]};
    assert multiset(us[..n]) == multiset(us) - multiset{us[n]};
  }

  lemma {:induction false} PositiveSumPermutation(us: seq<int>, ws: seq<int>)
    requires multiset(us) == multiset(ws)
    ensures Sum(Positives(us)) == Sum(Positives(ws))
  {
    if us == [] {
      assert |ws| == |multiset(ws)| == 0;
    } else {
      var n := |us| - 1;
      assert us[n] in multiset(us);
      var k :| 0 <= k < |ws| && ws[k] == us[n];
      var rest := ws[..k] + ws[k + 1..];
      RemoveFromMultiset(us, ws, k);
      PositiveSumPermutation(us[..n], rest);
      assert Positives(rest) == Positives(ws)[..k] + Positives(ws)[k + 1..];
      assert Positives(us)[..n] == Positives(us[..n]);
      SumRemove(Positives(ws), k);
    }
  }

  /** The saturating total of a list of byte counts does not depend on the list's order. */
  lemma SaturatingSumOrderIndependent(us: seq<int>, ws: seq<int>)
    requires multiset(us) == multiset(ws)
    requires forall i :: 0 <= i < |us| ==> us[i] <= MAX_INT64
    requires forall i :: 0 <= i < |ws| ==> ws[i] <= MAX_INT64
    ensures SaturatingSum(us) == SaturatingSum(ws)
  {
    SaturatingSumIsClampedSum(us);
    SaturatingSumIsClampedSum(ws);
    PositiveSumPermutation(us, ws);
  }
}
