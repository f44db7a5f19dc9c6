/** The identifier allocator shared by the user and the message store: the next
    identifier is the largest one stored (or 0) plus one. */
module Ids {

  /** The largest of the identifiers, or 0 when there is none larger; this is the
      `maxID` that the allocation loops start at 0 and raise. */
  function MaxId(ids: seq<int>): (m: int)
    ensures m >= 0
    ensures forall i :: 0 <= i < |ids| ==> ids[i] <= m
    ensures m == 0 || m in ids
  {
    if ids == [] then 0
    else
      var p := MaxId(ids[..|ids| - 1]);
      if ids[|ids| - 1] > p then ids[|ids| - 1] else p
  }

  /** Identifiers in strictly increasing order, each at least 1. */
  predicate Increasing(ids: seq<int>) {
    (forall i :: 0 <= i < |ids| ==> ids[i] >= 1) &&
    (forall i, j :: 0 <= i < j < |ids| ==> ids[i] < ids[j])
  }

  /** Appending an identifier above the maximum makes it the new maximum. */
  lemma {:induction false} MaxIdAppendAbove(ids: seq<int>, x: int)
    requires x > MaxId(ids)
    ensures MaxId(ids + [x]) == x
  {
    assert (ids + [x])[..|ids|] == ids;
  }

  /** For increasing identifiers the maximum is the last one. */
  lemma {:induction false} MaxIdOfIncreasing(ids: seq<int>)
    requires Increasing(ids) && ids != []
    ensures MaxId(ids) == ids[|ids| - 1]
  {
    var m := MaxId(ids);
    var k :| 0 <= k < |ids| && ids[k] == m;
    assert ids[|ids| - 1] <= m;
    if k < |ids| - 1 {
      assert ids[k] < ids[|ids| - 1];
    }
  }

  /** Allocating max + 1 keeps identifiers increasing. */
  lemma {:induction false} AllocateKeepsIncreasing(ids: seq<int>)
    requires Increasing(ids)
    ensures Increasing(ids + [MaxId(ids) + 1])
  {
    var s := ids + [MaxId(ids) + 1];
    forall i, j | 0 <= i < j < |s| ensures s[i] < s[j] {
      if j == |ids| {
        assert s[i] == ids[i] <= MaxId(ids);
      }
    }
  }
}
