/** Lists of ids as requests carry them, and the check that a query found every
    one: as many rows as ids. */
module IdLists {

  function IdSet(ids: seq<nat>): (all: set<nat>)
    ensures forall i :: i in all <==> i in ids
  {
    if ids == [] then {} else IdSet(ids[..|ids| - 1]) + {ids[|ids| - 1]}
  }

  ghost predicate Distinct(ids: seq<nat>) {
    forall i, j :: 0 <= i < j < |ids| ==> ids[i] != ids[j]
  }

  lemma AddOne(s: set<nat>, x: nat)
    ensures |s + {x}| == if x in s then |s| else |s| + 1
  {
    if x in s { assert s + {x} == s; }
  }

  lemma LastIsNew(ids: seq<nat>)
    requires ids != [] && Distinct(ids[..|ids| - 1]) && ids[|ids| - 1] !in ids[..|ids| - 1]
    ensures Distinct(ids)
  {
  }

  lemma {:induction false} PigeonHole(ids: seq<nat>)
    ensures |IdSet(ids)| <= |ids|
  {
    if ids != [] {
      PigeonHole(ids[..|ids| - 1]);
      AddOne(IdSet(ids[..|ids| - 1]), ids[|ids| - 1]);
    }
  }

  lemma {:induction false} FullMeansDistinct(ids: seq<nat>)
    requires |IdSet(ids)| == |ids|
    ensures Distinct(ids)
  {
    if ids != [] {
      var front, last := ids[..|ids| - 1], ids[|ids| - 1];
      PigeonHole(front);
      AddOne(IdSet(front), last);
      FullMeansDistinct(front);
      LastIsNew(ids);
    }
  }

  /** Finding as many rows as there are ids finds every id, and no id is repeated. */
  lemma AllFound(ids: seq<nat>, found: set<nat>)
    requires |found| == |ids| && forall i :: i in found ==> i in ids
    ensures forall i :: i in ids ==> i in found
    ensures Distinct(ids)
  {
    PigeonHole(ids);
    var all := IdSet(ids);
    assert |all| == |found| + |all - found| by { assert all == found + (all - found); }
    forall i | i in ids ensures i in found {
      assert i in all - found || i in found;
    }
    FullMeansDistinct(ids);
  }

  lemma {:induction false} DistinctSize(ids: seq<nat>)
    requires Distinct(ids)
    ensures |IdSet(ids)| == |ids|
  {
    if ids != [] {
      var front, last := ids[..|ids| - 1], ids[|ids| - 1];
      LastWasNew(ids);
      DistinctSize(front);
      AddOne(IdSet(front), last);
    }
  }

  lemma LastWasNew(ids: seq<nat>)
    requires ids != [] && Distinct(ids)
    ensures Distinct(ids[..|ids| - 1]) && ids[|ids| - 1] !in ids[..|ids| - 1]
  {
  }
}
