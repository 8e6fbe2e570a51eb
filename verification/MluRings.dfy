/**
  Choosing among the rings the topology library found. The rings are arbitrary here.
 */
module MluRings {
  import opened Sorting
  import opened MluBoards

  const BEST_EFFORT := "best-effort"
  const RESTRICTED := "restricted"

  datatype Ring = Ring(ordinals: seq<nat>, nonConflict: int)

  datatype Outcome =
    | Allocated(slots: seq<nat>)
    | RingsUnknown
    | NoRings
    | TooFewRings
    | ShouldNotBeHere

  /** No ring has more non-conflicting rings than `c`. */
  ghost predicate Best(rings: seq<Ring>, c: Ring) {
    c in rings && forall o :: o in rings ==> o.nonConflict <= c.nonConflict
  }

  ghost predicate Sorted(rings: seq<Ring>) {
    forall i, j :: 0 <= i < j < |rings| ==> rings[j].nonConflict <= rings[i].nonConflict
  }

  /** The slots are a best ring; if a best ring lies inside a group, they lie in that or an earlier one. */
  ghost predicate BestInGroup(rings: seq<Ring>, groups: seq<seq<nat>>, slots: seq<nat>) {
    && (exists c :: Best(rings, c) && c.ordinals == slots)
    && (forall k, c :: 0 <= k < |groups| && Best(rings, c) && ContainsAll(groups[k], c.ordinals) ==>
          exists j :: 0 <= j <= k && ContainsAll(groups[j], slots))
  }

  method SortRings(rings: seq<Ring>) returns (sorted: seq<Ring>)
    ensures Sorted(sorted) && |sorted| == |rings|
    ensures forall c :: c in sorted <==> c in rings
    ensures forall c :: Best(sorted, c) <==> Best(rings, c)
    ensures sorted != [] ==> Best(sorted, sorted[0])
  {
    sorted := SortList(rings, (x: Ring, y: Ring) => x.nonConflict > y.nonConflict);
    SameMembers(rings, sorted);
  }

  /** The leading rings that are as good as the first: exactly the best ones. */
  method BestRings(sorted: seq<Ring>) returns (candidates: seq<Ring>)
    requires Sorted(sorted)
    ensures forall c :: c in candidates <==> Best(sorted, c)
  {
    candidates := sorted;
    for i := 0 to |sorted|
      invariant candidates == sorted
      invariant forall j :: 0 <= j < i ==> sorted[j].nonConflict == sorted[0].nonConflict
    {
      if sorted[i].nonConflict < sorted[0].nonConflict {
        candidates := sorted[0..i];
        break;
      }
    }
  }

  method PickRing(sorted: seq<Ring>, groups: seq<seq<nat>>) returns (slots: seq<nat>)
    requires sorted != [] && Sorted(sorted)
    ensures BestInGroup(sorted, groups, slots)
  {
    var candidates := BestRings(sorted);
    assert Best(sorted, sorted[0]);
    for k := 0 to |groups|
      invariant forall j, c :: 0 <= j < k && c in candidates ==> !ContainsAll(groups[j], c.ordinals)
    {
      for m := 0 to |candidates|
        invariant forall c :: c in candidates[..m] ==> !ContainsAll(groups[k], c.ordinals)
      {
        assert candidates[..m + 1] == candidates[..m] + [candidates[m]];
        if ContainsAll(groups[k], candidates[m].ordinals) {
          assert candidates[m] in candidates;
          return candidates[m].ordinals;
        }
      }
      assert candidates[..|candidates|] == candidates;
    }
    assert sorted[0] in candidates;
    assert candidates[0] in candidates;
    slots := candidates[0].ordinals;
  }
}
