/** Writes that go out one after another and stop at the first that fails, one for each identifier of a list. */
module Series {
  import opened Wrappers

  function Elements(s: seq<int>): set<int> {
    set x | x in s
  }

  /** The j-th write is reached: every one before it works. */
  predicate Reached(ids: seq<int>, j: int, endings: int -> Ending)
    requires j <= |ids|
  {
    forall i :: 0 <= i < j ==> endings(ids[i]).Works?
  }

  /** The identifiers that are written when the writes for `ids` go out in order and stop at the first failure. */
  function WrittenBy(ids: seq<int>, endings: int -> Ending): set<int> {
    set j | 0 <= j < |ids| && Reached(ids, j, endings) && endings(ids[j]).Happened() :: ids[j]
  }

  lemma AllWritten(ids: seq<int>, endings: int -> Ending)
    requires Reached(ids, |ids|, endings)
    ensures WrittenBy(ids, endings) == Elements(ids)
    ensures forall m :: m in ids ==> endings(m).Works?
  {
    forall j | 0 <= j < |ids|
      ensures ids[j] in WrittenBy(ids, endings)
    {
      assert Reached(ids, j, endings);
    }
  }

  lemma WrittenUpTo(ids: seq<int>, endings: int -> Ending, k: nat)
    requires k < |ids| && Reached(ids, k, endings) && !endings(ids[k]).Works?
    ensures WrittenBy(ids, endings) == Elements(ids[..if endings(ids[k]).Happened() then k + 1 else k])
    ensures exists m :: m in ids && !endings(m).Works?
  {
    forall j | 0 <= j < k
      ensures ids[j] in WrittenBy(ids, endings) && ids[j] in ids[..k]
    {
      assert Reached(ids, j, endings) && ids[j] == ids[..k][j];
    }
    assert forall j :: 0 <= j < |ids| && Reached(ids, j, endings) ==> j <= k;
    assert ids[..k + 1] == ids[..k] + [ids[k]];
    var failing := ids[k];
    assert failing in ids && !endings(failing).Works?;
  }
}
