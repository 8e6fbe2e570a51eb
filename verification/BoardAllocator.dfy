/**
  The board allocator: without rings it prefers the CPU group with fewer available slots,
  and in each group the smallest boards that lie wholly inside it.
 */
module BoardAllocator {
  import opened Sets
  import opened Results
  import opened MluBoards
  import opened MluRings

  predicate SizeAlwaysFailsToFormRing(size: int) {
    size > 8 || size <= 1 || size % 2 == 1
  }

  lemma EvenSizes(size: int)
    ensures SizeAlwaysFailsToFormRing(size) <==> size !in {2, 4, 6, 8}
  {
  }

  function SerialNumber(d: Device): string {
    d.sn
  }

  /** A board's slots are the available ones of the devices with its serial number. */
  lemma SerialNumberSlots(available: seq<nat>, devs: Mlus, sn: string, slot: nat)
    ensures slot in BoardSlots(available, devs, SerialNumber, sn) <==>
      exists d :: d in devs && devs[d].slot == slot && slot in available && devs[d].sn == sn
  {
  }

  // ---- groups ----

  /** The slots of `available` that are inside (or outside) `group`, in order. */
  function Inside(available: seq<nat>, group: seq<nat>, inside: bool): seq<nat> {
    if available == [] then []
    else
      var n := |available| - 1;
      Inside(available[..n], group, inside) + if (available[n] in group) == inside then [available[n]] else []
  }

  lemma {:induction false} InsideMembers(available: seq<nat>, group: seq<nat>, inside: bool)
    ensures Elems(Inside(available, group, inside)) == set x | x in available && (x in group) == inside
    decreases |available|
  {
    if available != [] {
      var n := |available| - 1;
      InsideMembers(available[..n], group, inside);
      assert available == available[..n] + [available[n]];
      var here := if (available[n] in group) == inside then [available[n]] else [];
      var before := Inside(available[..n], group, inside);
      assert forall x :: x in Inside(available, group, inside) <==> x in before || x in here;
      assert forall x :: x in before <==> x in Elems(before);
    }
  }

  /** Two groups that cover the available slots. */
  ghost predicate Covered(available: seq<nat>, groups: seq<seq<nat>>) {
    |groups| == 2 && forall x :: x in available ==> x in groups[0] || x in groups[1]
  }

  /** The available slots by group, the smaller part first; nothing when the groups do not apply. */
  ghost predicate Parts(available: seq<nat>, groups: seq<seq<nat>>, parts: seq<seq<nat>>) {
    if !Covered(available, groups) then parts == []
    else
      && |parts| == 2 && |parts[0]| <= |parts[1]|
      && var inside, outside := Inside(available, groups[0], true), Inside(available, groups[0], false);
      parts == [inside, outside] || parts == [outside, inside]
  }

  method FilterByGroup(available: seq<nat>, groups: seq<seq<nat>>) returns (parts: seq<seq<nat>>)
    ensures Parts(available, groups, parts)
  {
    if |groups| != 2 {
      return [];
    }
    var group0: seq<nat>, group1: seq<nat> := [], [];
    for i := 0 to |available|
      invariant group0 == Inside(available[..i], groups[0], true)
      invariant group1 == Inside(available[..i], groups[0], false)
      invariant forall j :: 0 <= j < i ==> available[j] in groups[0] || available[j] in groups[1]
    {
      assert available[..i + 1][..i] == available[..i];
      if available[i] in groups[0] {
        group0 := group0 + [available[i]];
        continue;
      }
      if available[i] in groups[1] {
        group1 := group1 + [available[i]];
        continue;
      }
      return [];
    }
    assert available[..|available|] == available;
    if |group0| > |group1| {
      group0, group1 := group1, group0;
    }
    parts := [group0, group1];
  }

  // ---- without rings ----

  /** The test whether a board lies wholly inside a group. */
  function In(group: seq<nat>): seq<nat> -> bool {
    l => ContainsAll(group, l)
  }

  /** The lists the allocation works through. */
  ghost function Order(available: seq<nat>, boards: seq<Board>, parts: seq<seq<nat>>): seq<seq<nat>> {
    WholeBoards(boards, parts) + [available]
  }

  ghost function WholeBoards(boards: seq<Board>, parts: seq<seq<nat>>): seq<seq<nat>> {
    if parts == [] then Selected(boards, Every) else Within(boards, parts)
  }

  /** Group by group, the boards that lie wholly inside. */
  ghost function Within(boards: seq<Board>, parts: seq<seq<nat>>): seq<seq<nat>> {
    if parts == [] then []
    else
      var n := |parts| - 1;
      Within(boards, parts[..n]) + Selected(boards, In(parts[n]))
  }

  lemma {:induction false} WithinExtends(boards: seq<Board>, parts: seq<seq<nat>>, i: nat)
    requires i <= |parts|
    ensures Within(boards, parts[..i]) <= Within(boards, parts)
    decreases |parts| - i
  {
    if i == |parts| {
      assert parts[..i] == parts;
    } else {
      WithinExtends(boards, parts, i + 1);
      WithinStep(boards, parts, i);
    }
  }

  lemma WithinStep(boards: seq<Board>, parts: seq<seq<nat>>, i: nat)
    requires i < |parts|
    ensures Within(boards, parts[..i + 1]) == Within(boards, parts[..i]) + Selected(boards, In(parts[i]))
  {
    assert parts[..i + 1][..i] == parts[..i];
  }

  lemma GreedyWithin(boards: seq<Board>, parts: seq<seq<nat>>, i: nat, size: int, taken: seq<nat>)
    requires i <= |parts| && Greedy(Within(boards, parts[..i]), size, taken)
    ensures Greedy(Within(boards, parts), size, taken)
  {
    WithinExtends(boards, parts, i);
    GreedyExtends(Within(boards, parts[..i]), Within(boards, parts), size, taken);
  }

  method TakeWholeBoards(boards: seq<Board>, parts: seq<seq<nat>>, size: int)
    returns (taken: seq<nat>, needed: int, full: bool)
    ensures full ==> size > 0 && Greedy(WholeBoards(boards, parts), size, taken)
    ensures !full ==> Filling(WholeBoards(boards, parts), size, taken, needed)
  {
    if |parts| == 0 {
      assert [] + Selected(boards, Every) == Selected(boards, Every);
      taken, needed, full := AllocateFromBoards(boards, Every, [], size, [], size);
      return;
    }
    taken, needed, full := [], size, false;
    for i := 0 to |parts|
      invariant Filling(Within(boards, parts[..i]), size, taken, needed)
    {
      WithinStep(boards, parts, i);
      taken, needed, full := AllocateFromBoards(boards, In(parts[i]), taken, needed, Within(boards, parts[..i]), size);
      if full {
        GreedyWithin(boards, parts, i + 1, size, taken);
        return;
      }
    }
    assert parts[..|parts|] == parts;
    full := false;
  }

  /** Without rings: whole boards group by group, then whatever is available. */
  method TakeFromGroups(available: seq<nat>, boards: seq<Board>, parts: seq<seq<nat>>, size: int) returns (r: Outcome)
    requires forall b :: b in boards ==> Elems(b.slots) <= Elems(available)
    ensures r.Allocated? || r.ShouldNotBeHere?
    ensures r.Allocated? <==> 1 <= size <= |Elems(available)|
    ensures r.Allocated? ==> Greedy(Order(available, boards, parts), size, r.slots)
  {
    ghost var order := WholeBoards(boards, parts);
    var taken, needed, full := TakeWholeBoards(boards, parts, size);
    if full {
      GreedyExtends(order, order + [available], size, taken);
    } else {
      taken, needed, full := AllocateRemainingFrom(available, taken, needed, order, size);
    }
    OrderPool(available, boards, parts);
    if full {
      GreedyFits(Order(available, boards, parts), size, taken);
      return Allocated(taken);
    }
    ElemsSize(taken);
    r := ShouldNotBeHere;
  }

  ghost predicate IsBoard(boards: seq<Board>, l: seq<nat>) {
    exists b :: b in boards && b.slots == l
  }

  ghost predicate InsideSome(parts: seq<seq<nat>>, l: seq<nat>) {
    exists k :: 0 <= k < |parts| && ContainsAll(parts[k], l)
  }

  lemma InsideSomeSnoc(parts: seq<seq<nat>>, l: seq<nat>)
    requires parts != []
    ensures InsideSome(parts, l) <==> InsideSome(parts[..|parts| - 1], l) || ContainsAll(parts[|parts| - 1], l)
  {
  }

  lemma {:induction false} WithinMembers(boards: seq<Board>, parts: seq<seq<nat>>, l: seq<nat>)
    ensures l in Within(boards, parts) <==> IsBoard(boards, l) && InsideSome(parts, l)
    decreases |parts|
  {
    if parts != [] {
      var n := |parts| - 1;
      WithinMembers(boards, parts[..n], l);
      assert l in Selected(boards, In(parts[n])) <==> IsBoard(boards, l) && ContainsAll(parts[n], l) by {
        SelectedMembers(boards, In(parts[n]), l);
      }
      InsideSomeSnoc(parts, l);
    }
  }

  lemma OrderPool(available: seq<nat>, boards: seq<Board>, parts: seq<seq<nat>>)
    requires forall b :: b in boards ==> Elems(b.slots) <= Elems(available)
    ensures Pool(Order(available, boards, parts)) == Elems(available)
  {
    var order := WholeBoards(boards, parts);
    PoolSnoc(order, available);
    forall x | x in Pool(order)
      ensures x in Elems(available)
    {
      PoolMember(order, x);
      var i :| 0 <= i < |order| && x in order[i];
      SelectedMembers(boards, Every, order[i]);
      WithinMembers(boards, parts, order[i]);
      assert order[i] in order;
      var b :| b in boards && b.slots == order[i];
      assert x in Elems(b.slots);
    }
  }

  method Allocate(policy: string, devs: Mlus, groups: seq<seq<nat>>, found: Result<seq<Ring>>, available: seq<nat>,
                  size: int)
    returns (r: Outcome, ghost boards: seq<Board>, ghost parts: seq<seq<nat>>)
    ensures found.Ok? ==> Split(available, devs, SerialNumber, boards) && Ascending(boards)
    ensures found.Ok? ==> Parts(available, groups, parts)
    ensures r.RingsUnknown? <==> found.Err?
    ensures r.NoRings? <==>
      found.Ok? && found.value == [] && policy != "best-effort" && size in {2, 4, 6, 8}
    ensures r.TooFewRings? <==>
      && found.Ok? && found.value != [] && policy == "restricted" && size == 2
      && forall c :: c in found.value ==> c.nonConflict < 2
    ensures r.ShouldNotBeHere? <==>
      && found.Ok? && found.value == [] && (policy == "best-effort" || size !in {2, 4, 6, 8})
      && !(1 <= size <= |Elems(available)|)
    ensures r.Allocated? && found.value == [] ==>
      |r.slots| == size && Distinct(r.slots) && Elems(r.slots) <= Elems(available)
    ensures r.Allocated? && found.value == [] ==> Greedy(Order(available, boards, parts), size, r.slots)
    ensures r.Allocated? && found.value != [] ==> BestInGroup(found.value, parts, r.slots)
  {
    boards, parts := [], [];
    EvenSizes(size);
    if found.Err? {
      return RingsUnknown, boards, parts;
    }
    var rings := SortRings(found.value);
    var split := SplitByBoards(available, devs, SerialNumber);
    var filtered := FilterByGroup(available, groups);
    boards, parts := split, filtered;
    if |rings| == 0 {
      if policy != BEST_EFFORT && !SizeAlwaysFailsToFormRing(size) {
        return NoRings, boards, parts;
      }
      BoardsAvailable(available, devs, split);
      r := TakeFromGroups(available, split, filtered, size);
      if r.Allocated? {
        GreedyFits(Order(available, split, filtered), size, r.slots);
        OrderPool(available, split, filtered);
      }
      return;
    }
    if policy == RESTRICTED && size == 2 && rings[0].nonConflict < 2 {
      return TooFewRings, boards, parts;
    }
    var slots := PickRing(rings, filtered);
    r := Allocated(slots);
  }

  lemma BoardsAvailable(available: seq<nat>, devs: Mlus, boards: seq<Board>)
    requires Split(available, devs, SerialNumber, boards)
    ensures forall b :: b in boards ==> Elems(b.slots) <= Elems(available)
  {
  }

  // ---- what the order guarantees ----

  /** Every available slot holds a known device, and no board straddles two groups. */
  ghost predicate WellPlaced(available: seq<nat>, devs: Mlus, boards: seq<Board>, parts: seq<seq<nat>>) {
    && Usable(available, devs) == Elems(available)
    && (parts != [] ==> forall b :: b in boards ==> InsideSome(parts, b.slots))
  }

  lemma PartsDivide(available: seq<nat>, groups: seq<seq<nat>>, parts: seq<seq<nat>>)
    requires Parts(available, groups, parts) && parts != []
    ensures |parts| == 2 && Elems(parts[0]) !! Elems(parts[1]) && Elems(parts[0]) + Elems(parts[1]) == Elems(available)
  {
    InsideMembers(available, groups[0], true);
    InsideMembers(available, groups[0], false);
  }

  /** The boards of the smaller group hold exactly its slots. */
  lemma FirstGroupPool(available: seq<nat>, devs: Mlus, boards: seq<Board>, groups: seq<seq<nat>>,
                       parts: seq<seq<nat>>)
    requires Split(available, devs, SerialNumber, boards) && Parts(available, groups, parts) && parts != []
    requires WellPlaced(available, devs, boards, parts)
    ensures Pool(Selected(boards, In(parts[0]))) == Elems(parts[0])
  {
    var pass := In(parts[0]);
    var order := Selected(boards, pass);
    forall x: nat
      ensures x in Pool(order) <==> x in Elems(parts[0])
    {
      PoolMember(order, x);
      if x in Pool(order) {
        var i :| 0 <= i < |order| && x in order[i];
        SelectedMembers(boards, pass, order[i]);
        assert order[i] in order;
      }
      if x in Elems(parts[0]) {
        var b := BoardInFirst(available, devs, boards, groups, parts, x);
        SelectedMembers(boards, pass, b.slots);
        var i :| 0 <= i < |order| && order[i] == b.slots;
      }
    }
  }

  lemma BoardInFirst(available: seq<nat>, devs: Mlus, boards: seq<Board>, groups: seq<seq<nat>>,
                     parts: seq<seq<nat>>, x: nat) returns (b: Board)
    requires Split(available, devs, SerialNumber, boards) && Parts(available, groups, parts) && parts != []
    requires WellPlaced(available, devs, boards, parts) && x in Elems(parts[0])
    ensures b in boards && x in b.slots && ContainsAll(parts[0], b.slots)
  {
    PartsDivide(available, groups, parts);
    b := BoardOf(available, devs, boards, x);
    var k :| 0 <= k < |parts| && ContainsAll(parts[k], b.slots);
    assert x in Elems(parts[k]);
  }

  lemma BoardOf(available: seq<nat>, devs: Mlus, boards: seq<Board>, x: nat) returns (b: Board)
    requires Split(available, devs, SerialNumber, boards) && x in Usable(available, devs)
    ensures b in boards && x in b.slots
  {
    var name := BoardHolding(available, devs, SerialNumber, x);
    var i := BoardAt(available, devs, SerialNumber, boards, name);
    b := boards[i];
    assert x in Elems(b.slots);
  }

  /** The slots of the boards that lie wholly inside the smaller group. */
  ghost function FirstPool(boards: seq<Board>, parts: seq<seq<nat>>): set<nat>
    requires parts != []
  {
    Pool(Selected(boards, In(parts[0])))
  }

  /**
    The boards inside the group with fewer available slots are used up before anything else is
    touched. They hold all slots of that group when every available slot is known and no board
    straddles the groups.
   */
  lemma SmallerGroupFirst(available: seq<nat>, devs: Mlus, boards: seq<Board>,
                          groups: seq<seq<nat>>, parts: seq<seq<nat>>, size: int, chosen: seq<nat>)
    requires Split(available, devs, SerialNumber, boards) && Parts(available, groups, parts) && parts != []
    requires Greedy(Order(available, boards, parts), size, chosen)
    ensures |parts| == 2 && |parts[0]| <= |parts[1]|
    ensures Elems(chosen) <= FirstPool(boards, parts) <==> size <= |FirstPool(boards, parts)|
    ensures FirstPool(boards, parts) <= Elems(chosen) <==> |FirstPool(boards, parts)| <= size
    ensures WellPlaced(available, devs, boards, parts) ==> FirstPool(boards, parts) == Elems(parts[0])
  {
    if WellPlaced(available, devs, boards, parts) {
      FirstGroupPool(available, devs, boards, groups, parts);
    }
    var first := Selected(boards, In(parts[0]));
    GroupAfterGroup(boards, parts);
    var second := Selected(boards, In(parts[1]));
    var rest := second + [available];
    assert first + second + [available] == first + rest;
    var k: nat :| StopsAt(first + rest, chosen, k);
    FirstListsFirst(first, rest, chosen, k);
    ElemsSize(chosen);
    NestedSizes(Elems(chosen), FirstPool(boards, parts));
  }

  lemma FirstListsFirst(first: seq<seq<nat>>, rest: seq<seq<nat>>, chosen: seq<nat>, k: nat)
    requires StopsAt(first + rest, chosen, k)
    ensures Elems(chosen) <= Pool(first) || Pool(first) <= Elems(chosen)
  {
    var order := first + rest;
    if k < |first| {
      assert order[..k + 1] == first[..k + 1];
      PoolGrows(first, k + 1);
    } else {
      assert order[..k][..|first|] == first;
      PoolGrows(order[..k], |first|);
    }
  }

  lemma GroupAfterGroup(boards: seq<Board>, parts: seq<seq<nat>>)
    requires |parts| == 2
    ensures WholeBoards(boards, parts) == Selected(boards, In(parts[0])) + Selected(boards, In(parts[1]))
  {
    assert Within(boards, parts[..1]) == Selected(boards, In(parts[0])) by {
      WithinStep(boards, parts, 0);
      assert [] + Selected(boards, In(parts[0])) == Selected(boards, In(parts[0]));
    }
    assert parts[..1] == parts[..|parts| - 1];
  }

  lemma NestedSizes(s: set<nat>, t: set<nat>)
    requires s <= t || t <= s
    ensures s <= t <==> |s| <= |t|
    ensures t <= s <==> |t| <= |s|
  {
    var less, more := if s <= t then s else t, if s <= t then t else s;
    SubsetSize(less, more);
    if |less| == |more| {
      SameSize(less, more);
    } else {
      assert less != more;
    }
  }

  ghost predicate Disjoint(order: seq<seq<nat>>) {
    forall i, j :: 0 <= i < j < |order| ==> Elems(order[i]) !! Elems(order[j])
  }

  lemma DisjointAppend(a: seq<seq<nat>>, b: seq<seq<nat>>)
    requires Disjoint(a) && Disjoint(b) && forall l: seq<nat>, m: seq<nat> :: l in a && m in b ==> Elems(l) !! Elems(m)
    ensures Disjoint(a + b)
  {
  }

  lemma ListsApart(available: seq<nat>, devs: Mlus, boards: seq<Board>, i: nat, j: nat)
    requires Split(available, devs, SerialNumber, boards) && OnePerSlot(devs) && i < j < |boards|
    ensures Elems(boards[i].slots) !! Elems(boards[j].slots)
  {
  }

  lemma {:induction false} SelectedDisjoint(available: seq<nat>, devs: Mlus, boards: seq<Board>,
                                            pass: seq<nat> -> bool, i: nat)
    requires Split(available, devs, SerialNumber, boards) && OnePerSlot(devs) && i <= |boards|
    ensures Disjoint(Selected(boards[..i], pass))
  {
    if i > 0 {
      var n := i - 1;
      SelectedDisjoint(available, devs, boards, pass, n);
      assert boards[..i][..n] == boards[..n];
      var before := Selected(boards[..n], pass);
      var last := if pass(boards[n].slots) then [boards[n].slots] else [];
      forall l: seq<nat>, m: seq<nat> | l in before && m in last
        ensures Elems(l) !! Elems(m)
      {
        SelectedMembers(boards[..n], pass, l);
        var j :| 0 <= j < n && boards[j].slots == l;
        ListsApart(available, devs, boards, j, n);
      }
      DisjointAppend(before, last);
    }
  }

  lemma WholeBoardsDisjoint(available: seq<nat>, devs: Mlus, boards: seq<Board>,
                            groups: seq<seq<nat>>, parts: seq<seq<nat>>)
    requires Split(available, devs, SerialNumber, boards) && OnePerSlot(devs) && Parts(available, groups, parts)
    ensures Disjoint(WholeBoards(boards, parts))
  {
    assert boards[..|boards|] == boards;
    if parts == [] {
      SelectedDisjoint(available, devs, boards, Every, |boards|);
    } else {
      var p, q := In(parts[0]), In(parts[1]);
      SelectedDisjoint(available, devs, boards, p, |boards|);
      SelectedDisjoint(available, devs, boards, q, |boards|);
      PartsDivide(available, groups, parts);
      forall l: seq<nat>, m: seq<nat> | l in Selected(boards, p) && m in Selected(boards, q)
        ensures Elems(l) !! Elems(m)
      {
        SelectedMembers(boards, p, l);
        SelectedMembers(boards, q, m);
        assert Elems(l) <= Elems(parts[0]) && Elems(m) <= Elems(parts[1]);
      }
      DisjointAppend(Selected(boards, p), Selected(boards, q));
      GroupAfterGroup(boards, parts);
    }
  }

  /** The board lies inside one group, if there are groups, and some but not all of its slots are chosen. */
  ghost predicate PartlyWhole(available: seq<nat>, devs: Mlus, parts: seq<seq<nat>>, chosen: seq<nat>, m: string) {
    var board := BoardSlots(available, devs, SerialNumber, m);
    && Partly(board, Elems(chosen))
    && (parts == [] || exists k :: 0 <= k < |parts| && board <= Elems(parts[k]))
  }

  /** A partly used board of this kind is the one at which the allocation stopped. */
  lemma PartlyIsLast(available: seq<nat>, devs: Mlus, boards: seq<Board>, groups: seq<seq<nat>>,
                     parts: seq<seq<nat>>, chosen: seq<nat>, k: nat, m: string)
    requires Split(available, devs, SerialNumber, boards) && Parts(available, groups, parts) && OnePerSlot(devs)
    requires StopsAt(Order(available, boards, parts), chosen, k) && PartlyWhole(available, devs, parts, chosen, m)
    ensures BoardSlots(available, devs, SerialNumber, m) == Elems(Order(available, boards, parts)[k])
  {
    var whole, order := WholeBoards(boards, parts), Order(available, boards, parts);
    var i := BoardAt(available, devs, SerialNumber, boards, m);
    var l := boards[i].slots;
    assert l in whole by {
      SelectedMembers(boards, Every, l);
      WithinMembers(boards, parts, l);
      if parts != [] {
        var g :| 0 <= g < |parts| && BoardSlots(available, devs, SerialNumber, m) <= Elems(parts[g]);
        assert forall x :: x in l ==> x in Elems(l);
        assert ContainsAll(parts[g], l);
      }
    }
    var at :| 0 <= at < |whole| && whole[at] == l;
    assert order[at] == l;
    if at < k {
      ListUsedUp(order, chosen, k, at);
    } else if at > k {
      WholeBoardsDisjoint(available, devs, boards, groups, parts);
      forall j | 0 <= j <= k
        ensures Elems(order[j]) !! Elems(order[at])
      {
        assert order[j] == whole[j];
      }
      ListUntouched(order, chosen, k, at);
    }
  }

  /** At most one of the boards that do not straddle the groups is partly used. */
  lemma OneBoardPartly(available: seq<nat>, devs: Mlus, boards: seq<Board>, groups: seq<seq<nat>>,
                       parts: seq<seq<nat>>, size: int, chosen: seq<nat>)
    requires Split(available, devs, SerialNumber, boards) && Parts(available, groups, parts) && OnePerSlot(devs)
    requires Greedy(Order(available, boards, parts), size, chosen)
    ensures forall m, n ::
      PartlyWhole(available, devs, parts, chosen, m) && PartlyWhole(available, devs, parts, chosen, n) ==> m == n
  {
    var k: nat :| StopsAt(Order(available, boards, parts), chosen, k);
    forall m, n | PartlyWhole(available, devs, parts, chosen, m) && PartlyWhole(available, devs, parts, chosen, n)
      ensures m == n
    {
      PartlyIsLast(available, devs, boards, groups, parts, chosen, k, m);
      PartlyIsLast(available, devs, boards, groups, parts, chosen, k, n);
      if m != n {
        BoardsDisjoint(available, devs, SerialNumber, m, n);
      }
    }
  }
}
