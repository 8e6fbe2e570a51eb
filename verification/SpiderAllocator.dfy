/**
  The spider allocator: without rings it uses up the smallest motherboards first.
 */
module SpiderAllocator {
  import opened Sets
  import opened Results
  import opened MluBoards
  import opened MluRings

  predicate SizeAlwaysFailsToFormRing(size: int) {
    size <= 1 || size > 8
  }

  function MotherBoard(d: Device): string {
    d.motherBoard
  }

  /** A motherboard's slots are the available ones of the devices that name it as theirs. */
  lemma MotherBoardSlots(available: seq<nat>, devs: Mlus, name: string, slot: nat)
    ensures slot in BoardSlots(available, devs, MotherBoard, name) <==>
      exists d :: d in devs && devs[d].slot == slot && slot in available && devs[d].motherBoard == name
  {
  }

  /** Without rings: `size` slots taken from the motherboards, smallest first. */
  method TakeFromMotherBoards(mbs: seq<Board>, size: int) returns (r: Outcome)
    ensures r.Allocated? || r.ShouldNotBeHere?
    ensures r.Allocated? <==> 1 <= size <= |Pool(Selected(mbs, Every))|
    ensures r.Allocated? ==> Greedy(Selected(mbs, Every), size, r.slots)
  {
    ghost var order := Selected(mbs, Every);
    assert [] + order == order;
    var taken, needed, full := AllocateFromBoards(mbs, Every, [], size, [], size);
    if full {
      GreedyFits(order, size, taken);
      return Allocated(taken);
    }
    ElemsSize(taken);
    r := ShouldNotBeHere;
  }

  method Allocate(policy: string, devs: Mlus, found: Result<seq<Ring>>, available: seq<nat>, size: int)
    returns (r: Outcome)
    ensures r.RingsUnknown? <==> found.Err?
    ensures r.NoRings? <==>
      found.Ok? && found.value == [] && policy != "best-effort" && 2 <= size <= 8
    ensures r.TooFewRings? <==>
      && found.Ok? && found.value != [] && policy == "restricted" && (size == 2 || size == 4)
      && forall c :: c in found.value ==> c.nonConflict < size
    ensures r.ShouldNotBeHere? <==>
      && found.Ok? && found.value == [] && (policy == "best-effort" || !(2 <= size <= 8))
      && !(1 <= size <= |Usable(available, devs)|)
    ensures r.Allocated? && found.value == [] ==>
      |r.slots| == size && Distinct(r.slots) && Elems(r.slots) <= Usable(available, devs)
    ensures r.Allocated? && found.value == [] && OnePerSlot(devs) ==>
      KeepsBoardsWhole(available, devs, MotherBoard, Elems(r.slots))
    ensures r.Allocated? && found.value != [] ==>
      exists mbs :: Split(available, devs, MotherBoard, mbs) && Ascending(mbs)
        && BestInGroup(found.value, Selected(mbs, Every), r.slots)
  {
    if found.Err? {
      return RingsUnknown;
    }
    var rings := SortRings(found.value);
    var mbs := SplitByBoards(available, devs, MotherBoard);
    if |rings| == 0 {
      if policy != BEST_EFFORT && !SizeAlwaysFailsToFormRing(size) {
        return NoRings;
      }
      r := TakeFromMotherBoards(mbs, size);
      PoolOfBoards(available, devs, MotherBoard, mbs);
      if r.Allocated? {
        GreedyFits(Selected(mbs, Every), size, r.slots);
        if OnePerSlot(devs) {
          GreedyKeepsBoardsWhole(available, devs, MotherBoard, mbs, size, r.slots);
        }
      }
      return;
    }
    if policy == RESTRICTED && size == 4 && rings[0].nonConflict < 4 {
      return TooFewRings;
    }
    if policy == RESTRICTED && size == 2 && rings[0].nonConflict < 2 {
      return TooFewRings;
    }
    var slots := PickRing(rings, Selected(mbs, Every));
    r := Allocated(slots);
  }
}
