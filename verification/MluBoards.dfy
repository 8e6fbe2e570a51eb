/**
  What the two MLU slot allocators share: grouping the available slots by board, smallest
  board first, and taking slots list by list. Devices and boards are visited in any order.
 */
module MluBoards {
  import opened Sorting
  import opened Sets

  datatype Device = Device(slot: nat, sn: string, motherBoard: string)

  type Mlus = map<string, Device>

  datatype Board = Board(name: string, slots: seq<nat>)

  predicate ContainsAll(group: seq<nat>, devs: seq<nat>) {
    forall d | d in devs :: d in group
  }

  // ---- boards ----

  /** The devices among `ids` that are available and on the named board. */
  ghost function On(available: seq<nat>, devs: Mlus, boardOf: Device -> string, ids: set<string>, name: string)
    : set<string> {
    set d | d in ids && d in devs && devs[d].slot in available && boardOf(devs[d]) == name
  }

  ghost function SlotsOf(devs: Mlus, ids: set<string>): set<nat> {
    set d | d in ids && d in devs :: devs[d].slot
  }

  /** The available slots of the named board. */
  ghost function BoardSlots(available: seq<nat>, devs: Mlus, boardOf: Device -> string, name: string): set<nat> {
    SlotsOf(devs, On(available, devs, boardOf, devs.Keys, name))
  }

  /** The available slots that hold a known device. */
  ghost function Usable(available: seq<nat>, devs: Mlus): set<nat> {
    set d | d in devs && devs[d].slot in available :: devs[d].slot
  }

  ghost predicate OnePerSlot(devs: Mlus) {
    forall d, e :: d in devs && e in devs && devs[d].slot == devs[e].slot ==> d == e
  }

  /** `l` lists the slots of the given devices, one entry for each. */
  ghost predicate Lists(devs: Mlus, ids: set<string>, l: seq<nat>) {
    && |l| == |ids|
    && Elems(l) == SlotsOf(devs, ids)
    && (OnePerSlot(devs) ==> Distinct(l))
  }

  lemma ListsMore(devs: Mlus, ids: set<string>, l: seq<nat>, d: string)
    requires Lists(devs, ids, l) && d in devs && d !in ids && ids <= devs.Keys
    ensures Lists(devs, ids + {d}, l + [devs[d].slot])
  {
    ElemsSnoc(l, devs[d].slot);
    assert SlotsOf(devs, ids + {d}) == SlotsOf(devs, ids) + {devs[d].slot};
  }

  ghost predicate Split(available: seq<nat>, devs: Mlus, boardOf: Device -> string, boards: seq<Board>) {
    && (forall i, j :: 0 <= i < j < |boards| ==> boards[i].name != boards[j].name)
    && (forall b :: b in boards ==>
          b.slots != [] && Lists(devs, On(available, devs, boardOf, devs.Keys, b.name), b.slots))
    && (forall d :: d in devs && devs[d].slot in available ==> exists b :: b in boards && b.name == boardOf(devs[d]))
  }

  ghost predicate Ascending(boards: seq<Board>) {
    forall i, j :: 0 <= i < j < |boards| ==> |boards[i].slots| <= |boards[j].slots|
  }

  /** The boards as collected from the devices visited so far. */
  ghost predicate Collected(available: seq<nat>, devs: Mlus, boardOf: Device -> string, visited: set<string>,
                            boards: map<string, seq<nat>>)
  {
    && (forall n :: n in boards ==> boards[n] != [] && Lists(devs, On(available, devs, boardOf, visited, n), boards[n]))
    && (forall d :: d in visited && d in devs && devs[d].slot in available ==> boardOf(devs[d]) in boards)
  }

  lemma CollectStep(available: seq<nat>, devs: Mlus, boardOf: Device -> string, visited: set<string>,
                    boards: map<string, seq<nat>>, d: string)
    requires Collected(available, devs, boardOf, visited, boards) && visited <= devs.Keys && d in devs && d !in visited
    requires devs[d].slot in available
    ensures var n := boardOf(devs[d]);
      var list := (if n in boards then boards[n] else []) + [devs[d].slot];
      Collected(available, devs, boardOf, visited + {d}, boards[n := list])
  {
    var n := boardOf(devs[d]);
    var before, list := On(available, devs, boardOf, visited, n), if n in boards then boards[n] else [];
    assert Lists(devs, before, list) by {
      if n !in boards {
        assert before == {};
      }
    }
    assert On(available, devs, boardOf, visited + {d}, n) == before + {d};
    ListsMore(devs, before, list, d);
    var next := boards[n := list + [devs[d].slot]];
    forall m | m in next
      ensures next[m] != [] && Lists(devs, On(available, devs, boardOf, visited + {d}, m), next[m])
    {
      if m != n {
        assert On(available, devs, boardOf, visited + {d}, m) == On(available, devs, boardOf, visited, m);
      }
    }
  }

  lemma SkipStep(available: seq<nat>, devs: Mlus, boardOf: Device -> string, visited: set<string>,
                 boards: map<string, seq<nat>>, d: string)
    requires Collected(available, devs, boardOf, visited, boards) && d in devs && devs[d].slot !in available
    ensures Collected(available, devs, boardOf, visited + {d}, boards)
  {
    forall m | m in boards
      ensures On(available, devs, boardOf, visited + {d}, m) == On(available, devs, boardOf, visited, m)
    {
    }
  }

  method CollectBoards(available: seq<nat>, devs: Mlus, boardOf: Device -> string)
    returns (boards: map<string, seq<nat>>)
    ensures Collected(available, devs, boardOf, devs.Keys, boards)
  {
    boards := map[];
    var todo := devs.Keys;
    ghost var visited: set<string> := {};
    while todo != {}
      invariant todo <= devs.Keys && visited == devs.Keys - todo
      invariant Collected(available, devs, boardOf, visited, boards)
    {
      var d :| d in todo;
      if devs[d].slot in available {
        CollectStep(available, devs, boardOf, visited, boards, d);
        var n := boardOf(devs[d]);
        boards := boards[n := (if n in boards then boards[n] else []) + [devs[d].slot]];
      } else {
        SkipStep(available, devs, boardOf, visited, boards, d);
      }
      todo := todo - {d};
      visited := visited + {d};
    }
    assert visited == devs.Keys;
  }

  ghost predicate Entries(names: set<string>, boards: map<string, seq<nat>>, res: seq<Board>) {
    && Distinct(res)
    && (forall b :: b in res ==> b.name in names && b.name in boards && b.slots == boards[b.name])
    && (forall n :: n in names ==> n in boards && Board(n, boards[n]) in res)
  }

  lemma EntriesStep(names: set<string>, boards: map<string, seq<nat>>, res: seq<Board>, n: string)
    requires Entries(names, boards, res) && n in boards && n !in names
    ensures Entries(names + {n}, boards, res + [Board(n, boards[n])])
  {
  }

  /** The boards with available slots, smallest first. */
  method SplitByBoards(available: seq<nat>, devs: Mlus, boardOf: Device -> string) returns (res: seq<Board>)
    ensures Split(available, devs, boardOf, res) && Ascending(res)
  {
    var boards := CollectBoards(available, devs, boardOf);
    res := [];
    var todo := boards.Keys;
    ghost var names: set<string> := {};
    while todo != {}
      invariant todo <= boards.Keys && names == boards.Keys - todo
      invariant Entries(names, boards, res)
    {
      var n :| n in todo;
      EntriesStep(names, boards, res, n);
      res := res + [Board(n, boards[n])];
      todo := todo - {n};
      names := names + {n};
    }
    assert names == boards.Keys;
    var sorted := SortList(res, (x: Board, y: Board) => |x.slots| < |y.slots|);
    EntriesSplit(available, devs, boardOf, boards, res, sorted);
    res := sorted;
  }

  lemma EntriesSplit(available: seq<nat>, devs: Mlus, boardOf: Device -> string,
                     boards: map<string, seq<nat>>, res: seq<Board>, sorted: seq<Board>)
    requires Collected(available, devs, boardOf, devs.Keys, boards) && Entries(boards.Keys, boards, res)
    requires multiset(sorted) == multiset(res)
    ensures Split(available, devs, boardOf, sorted)
  {
    DistinctPermutation(res, sorted);
    SameMembers(res, sorted);
    forall i, j | 0 <= i < j < |sorted|
      ensures sorted[i].name != sorted[j].name
    {
      assert sorted[i] in sorted && sorted[j] in sorted;
    }
    forall d | d in devs && devs[d].slot in available
      ensures exists b :: b in sorted && b.name == boardOf(devs[d])
    {
      var n := boardOf(devs[d]);
      assert Board(n, boards[n]) in sorted;
    }
  }

  // ---- taking slots list by list ----

  ghost function Pool(order: seq<seq<nat>>): set<nat> {
    if order == [] then {} else Pool(order[..|order| - 1]) + Elems(order[|order| - 1])
  }

  lemma PoolSnoc(order: seq<seq<nat>>, l: seq<nat>)
    ensures Pool(order + [l]) == Pool(order) + Elems(l)
  {
  }

  /** Every list before the `k`-th is used up and no list after it is needed. */
  ghost predicate StopsAt(order: seq<seq<nat>>, chosen: seq<nat>, k: nat) {
    k < |order| && Pool(order[..k]) <= Elems(chosen) <= Pool(order[..k + 1])
  }

  /** `size` different slots, taken list by list. */
  ghost predicate Greedy(order: seq<seq<nat>>, size: int, chosen: seq<nat>) {
    Distinct(chosen) && |chosen| == size && exists k: nat :: StopsAt(order, chosen, k)
  }

  lemma GreedyExtends(order: seq<seq<nat>>, longer: seq<seq<nat>>, size: int, chosen: seq<nat>)
    requires Greedy(order, size, chosen) && order <= longer
    ensures Greedy(longer, size, chosen)
  {
    var k: nat :| StopsAt(order, chosen, k);
    assert longer[..k] == order[..k] && longer[..k + 1] == order[..k + 1];
    assert StopsAt(longer, chosen, k);
  }

  /** All lists so far are used up and more is needed (a size below 1 is never reached). */
  ghost predicate Filling(order: seq<seq<nat>>, size: int, taken: seq<nat>, needed: int) {
    && Distinct(taken) && Elems(taken) == Pool(order)
    && needed == size - |taken|
    && (size > 0 ==> needed > 0)
  }

  method AllocateRemainingFrom(devices: seq<nat>, taken0: seq<nat>, needed0: int, ghost order: seq<seq<nat>>,
                               ghost size: int)
    returns (taken: seq<nat>, needed: int, full: bool)
    requires Filling(order, size, taken0, needed0)
    ensures full ==> size > 0 && Greedy(order + [devices], size, taken)
    ensures !full ==> Filling(order + [devices], size, taken, needed)
  {
    taken, needed := taken0, needed0;
    for i := 0 to |devices|
      invariant Distinct(taken) && Elems(taken) == Pool(order) + Elems(devices[..i])
      invariant needed == size - |taken| && (size > 0 ==> needed > 0) && |taken| >= |taken0|
    {
      var device := devices[i];
      assert devices[..i + 1] == devices[..i] + [device];
      ElemsSnoc(devices[..i], device);
      if device in taken {
        assert device in Elems(taken);
        continue;
      }
      ElemsSnoc(taken, device);
      taken := taken + [device];
      needed := needed - 1;
      if needed == 0 {
        FullStops(order, devices, i + 1, size, taken);
        return taken, needed, true;
      }
    }
    assert devices[..|devices|] == devices;
    PoolSnoc(order, devices);
    full := false;
  }

  lemma FullStops(order: seq<seq<nat>>, devices: seq<nat>, i: nat, size: int, taken: seq<nat>)
    requires i <= |devices| && Distinct(taken) && Elems(taken) == Pool(order) + Elems(devices[..i])
    requires |taken| == size
    ensures Greedy(order + [devices], size, taken)
  {
    PoolSnoc(order, devices);
    assert (order + [devices])[..|order|] == order && (order + [devices])[..|order| + 1] == order + [devices];
    assert Elems(devices[..i]) <= Elems(devices);
    assert StopsAt(order + [devices], taken, |order|);
  }

  /** The slots of the boards that pass the test, in order. */
  function Selected(boards: seq<Board>, pass: seq<nat> -> bool): seq<seq<nat>> {
    if boards == [] then []
    else
      var n := |boards| - 1;
      Selected(boards[..n], pass) + if pass(boards[n].slots) then [boards[n].slots] else []
  }

  lemma {:induction false} SelectedMembers(boards: seq<Board>, pass: seq<nat> -> bool, l: seq<nat>)
    ensures l in Selected(boards, pass) <==> exists b :: b in boards && b.slots == l && pass(l)
    decreases |boards|
  {
    if boards != [] {
      var n := |boards| - 1;
      SelectedMembers(boards[..n], pass, l);
      assert boards == boards[..n] + [boards[n]];
    }
  }

  lemma {:induction false} SelectedExtends(boards: seq<Board>, pass: seq<nat> -> bool, i: nat)
    requires i <= |boards|
    ensures Selected(boards[..i], pass) <= Selected(boards, pass)
    decreases |boards| - i
  {
    if i == |boards| {
      assert boards[..i] == boards;
    } else {
      SelectedExtends(boards, pass, i + 1);
      assert boards[..i + 1][..i] == boards[..i];
    }
  }

  method AllocateFromBoards(boards: seq<Board>, pass: seq<nat> -> bool, taken0: seq<nat>, needed0: int,
                            ghost order: seq<seq<nat>>, ghost size: int)
    returns (taken: seq<nat>, needed: int, full: bool)
    requires Filling(order, size, taken0, needed0)
    ensures full ==> size > 0 && Greedy(order + Selected(boards, pass), size, taken)
    ensures !full ==> Filling(order + Selected(boards, pass), size, taken, needed)
  {
    taken, needed, full := taken0, needed0, false;
    assert order + [] == order;
    for i := 0 to |boards|
      invariant Filling(order + Selected(boards[..i], pass), size, taken, needed)
    {
      ghost var soFar := order + Selected(boards[..i], pass);
      SelectedStep(boards, pass, i, order);
      if pass(boards[i].slots) {
        taken, needed, full := AllocateRemainingFrom(boards[i].slots, taken, needed, soFar, size);
        if full {
          GreedyOnBoards(boards, pass, i + 1, order, size, taken);
          return;
        }
      }
    }
    assert boards[..|boards|] == boards;
    full := false;
  }

  lemma SelectedStep(boards: seq<Board>, pass: seq<nat> -> bool, i: nat, order: seq<seq<nat>>)
    requires i < |boards|
    ensures var soFar := order + Selected(boards[..i], pass);
      order + Selected(boards[..i + 1], pass) == if pass(boards[i].slots) then soFar + [boards[i].slots] else soFar
  {
    assert boards[..i + 1][..i] == boards[..i];
  }

  lemma GreedyOnBoards(boards: seq<Board>, pass: seq<nat> -> bool, i: nat, order: seq<seq<nat>>,
                       size: int, taken: seq<nat>)
    requires i <= |boards| && Greedy(order + Selected(boards[..i], pass), size, taken)
    ensures Greedy(order + Selected(boards, pass), size, taken)
  {
    SelectedExtends(boards, pass, i);
    var upTo, all := Selected(boards[..i], pass), Selected(boards, pass);
    assert order + upTo <= order + all;
    GreedyExtends(order + upTo, order + all, size, taken);
  }

  predicate Every(l: seq<nat>) {
    true
  }

  // ---- what taking list by list guarantees ----

  lemma {:induction false} PoolMember(order: seq<seq<nat>>, x: nat)
    ensures x in Pool(order) <==> exists i :: 0 <= i < |order| && x in order[i]
    decreases |order|
  {
    if order != [] {
      var n := |order| - 1;
      PoolMember(order[..n], x);
    }
  }

  lemma PoolGrows(order: seq<seq<nat>>, k: nat)
    requires k <= |order|
    ensures Pool(order[..k]) <= Pool(order)
  {
    forall x | x in Pool(order[..k])
      ensures x in Pool(order)
    {
      PoolMember(order[..k], x);
      PoolMember(order, x);
    }
  }

  lemma GreedyFits(order: seq<seq<nat>>, size: int, chosen: seq<nat>)
    requires Greedy(order, size, chosen)
    ensures Elems(chosen) <= Pool(order) && size <= |Pool(order)|
  {
    var k: nat :| StopsAt(order, chosen, k);
    PoolGrows(order, k + 1);
    SubsetSize(Elems(chosen), Pool(order));
    ElemsSize(chosen);
  }

  lemma ListUsedUp(order: seq<seq<nat>>, chosen: seq<nat>, k: nat, i: nat)
    requires StopsAt(order, chosen, k) && i < k
    ensures Elems(order[i]) <= Elems(chosen)
  {
    forall x | x in order[i]
      ensures x in Elems(chosen)
    {
      assert order[..k][i] == order[i];
      PoolMember(order[..k], x);
    }
  }

  lemma ListUntouched(order: seq<seq<nat>>, chosen: seq<nat>, k: nat, i: nat)
    requires StopsAt(order, chosen, k) && k < i < |order|
    requires forall j :: 0 <= j <= k ==> Elems(order[j]) !! Elems(order[i])
    ensures Elems(order[i]) !! Elems(chosen)
  {
    forall x | x in order[i]
      ensures x !in Elems(chosen)
    {
      PoolMember(order[..k + 1], x);
      assert x in Elems(order[i]);
      assert forall j :: 0 <= j <= k ==> x !in Elems(order[j]);
    }
  }

  lemma {:induction false} SelectedEvery(boards: seq<Board>, i: nat)
    requires i < |boards|
    ensures |Selected(boards, Every)| == |boards| && Selected(boards, Every)[i] == boards[i].slots
    decreases |boards|
  {
    var n := |boards| - 1;
    if n > 0 {
      SelectedEvery(boards[..n], if i < n then i else 0);
    }
  }

  /** The boards together hold exactly the usable slots. */
  lemma PoolOfBoards(available: seq<nat>, devs: Mlus, boardOf: Device -> string, boards: seq<Board>)
    requires Split(available, devs, boardOf, boards)
    ensures Pool(Selected(boards, Every)) == Usable(available, devs)
  {
    var order := Selected(boards, Every);
    forall x: nat
      ensures x in Pool(order) <==> x in Usable(available, devs)
    {
      PoolMember(order, x);
      if x in Pool(order) {
        var i :| 0 <= i < |order| && x in order[i];
        SelectedMembers(boards, Every, order[i]);
        var b :| b in boards && b.slots == order[i];
        assert x in Elems(b.slots);
      }
      if x in Usable(available, devs) {
        var d :| d in devs && devs[d].slot in available && devs[d].slot == x;
        var i := BoardAt(available, devs, boardOf, boards, boardOf(devs[d]));
        SelectedEvery(boards, i);
        assert x in BoardSlots(available, devs, boardOf, boardOf(devs[d]));
        assert x in Elems(boards[i].slots);
      }
    }
  }

  /** A board with available slots is listed, in full. */
  lemma BoardAt(available: seq<nat>, devs: Mlus, boardOf: Device -> string, boards: seq<Board>,
                name: string)
    returns (i: nat)
    requires Split(available, devs, boardOf, boards) && On(available, devs, boardOf, devs.Keys, name) != {}
    ensures i < |boards| && boards[i].name == name
    ensures Elems(boards[i].slots) == BoardSlots(available, devs, boardOf, name)
    ensures OnePerSlot(devs) ==> |boards[i].slots| == |BoardSlots(available, devs, boardOf, name)|
  {
    var d :| d in On(available, devs, boardOf, devs.Keys, name);
    var b :| b in boards && b.name == boardOf(devs[d]);
    i :| 0 <= i < |boards| && boards[i] == b;
    if OnePerSlot(devs) {
      ElemsSize(b.slots);
    }
  }

  lemma BoardsDisjoint(available: seq<nat>, devs: Mlus, boardOf: Device -> string, m: string,
                       n: string)
    requires OnePerSlot(devs) && m != n
    ensures BoardSlots(available, devs, boardOf, m) !! BoardSlots(available, devs, boardOf, n)
  {
  }

  /** Some, but not all, of the board's slots are chosen. */
  ghost predicate Partly(board: set<nat>, chosen: set<nat>) {
    !(board !! chosen) && !(board <= chosen)
  }

  /** At most one board is partly used, and an untouched board is at least as large as any touched one. */
  ghost predicate KeepsBoardsWhole(available: seq<nat>, devs: Mlus, boardOf: Device -> string, chosen: set<nat>) {
    && AtMostOnePartly(available, devs, boardOf, chosen)
    && (forall m, n ::
          var board, spared := BoardSlots(available, devs, boardOf, m), BoardSlots(available, devs, boardOf, n);
          !(board !! chosen) && spared != {} && spared !! chosen ==> |board| <= |spared|)
  }

  ghost predicate AtMostOnePartly(available: seq<nat>, devs: Mlus, boardOf: Device -> string, chosen: set<nat>) {
    forall m, n ::
      (&& Partly(BoardSlots(available, devs, boardOf, m), chosen)
       && Partly(BoardSlots(available, devs, boardOf, n), chosen)) ==> m == n
  }

  /** Where a board stands relative to the list the allocation stopped at. */
  lemma BoardStands(available: seq<nat>, devs: Mlus, boardOf: Device -> string, boards: seq<Board>,
                    chosen: seq<nat>, k: nat, i: nat)
    requires Split(available, devs, boardOf, boards) && OnePerSlot(devs) && i < |boards|
    requires StopsAt(Selected(boards, Every), chosen, k)
    ensures i < k ==> Elems(boards[i].slots) <= Elems(chosen)
    ensures i > k ==> Elems(boards[i].slots) !! Elems(chosen)
  {
    var order := Selected(boards, Every);
    SelectedEvery(boards, i);
    if i < k {
      ListUsedUp(order, chosen, k, i);
    } else if i > k {
      forall j | 0 <= j <= k
        ensures Elems(order[j]) !! Elems(order[i])
      {
        SelectedEvery(boards, j);
        BoardsDisjoint(available, devs, boardOf, boards[i].name, boards[j].name);
      }
      ListUntouched(order, chosen, k, i);
    }
  }

  lemma GreedyKeepsBoardsWhole(available: seq<nat>, devs: Mlus, boardOf: Device -> string,
                               boards: seq<Board>, size: int, chosen: seq<nat>)
    requires Split(available, devs, boardOf, boards) && Ascending(boards) && OnePerSlot(devs)
    requires Greedy(Selected(boards, Every), size, chosen)
    ensures KeepsBoardsWhole(available, devs, boardOf, Elems(chosen))
  {
    var k: nat :| StopsAt(Selected(boards, Every), chosen, k);
    forall m, n | Partly(BoardSlots(available, devs, boardOf, m), Elems(chosen))
               && Partly(BoardSlots(available, devs, boardOf, n), Elems(chosen))
      ensures m == n
    {
      var i := PartlyAtStop(available, devs, boardOf, boards, chosen, k, m);
      var j := PartlyAtStop(available, devs, boardOf, boards, chosen, k, n);
    }
    forall m, n | !(BoardSlots(available, devs, boardOf, m) !! Elems(chosen))
               && BoardSlots(available, devs, boardOf, n) != {}
               && BoardSlots(available, devs, boardOf, n) !! Elems(chosen)
      ensures |BoardSlots(available, devs, boardOf, m)| <= |BoardSlots(available, devs, boardOf, n)|
    {
      SparedIsLarger(available, devs, boardOf, boards, chosen, k, m, n);
    }
  }

  lemma PartlyAtStop(available: seq<nat>, devs: Mlus, boardOf: Device -> string, boards: seq<Board>,
                     chosen: seq<nat>, k: nat, m: string) returns (i: nat)
    requires Split(available, devs, boardOf, boards) && OnePerSlot(devs)
    requires StopsAt(Selected(boards, Every), chosen, k)
    requires Partly(BoardSlots(available, devs, boardOf, m), Elems(chosen))
    ensures i == k && i < |boards| && boards[i].name == m
  {
    i := BoardAt(available, devs, boardOf, boards, m);
    BoardStands(available, devs, boardOf, boards, chosen, k, i);
  }

  lemma SparedIsLarger(available: seq<nat>, devs: Mlus, boardOf: Device -> string,
                       boards: seq<Board>, chosen: seq<nat>, k: nat, m: string, n: string)
    requires Split(available, devs, boardOf, boards) && Ascending(boards) && OnePerSlot(devs)
    requires StopsAt(Selected(boards, Every), chosen, k)
    requires !(BoardSlots(available, devs, boardOf, m) !! Elems(chosen))
    requires BoardSlots(available, devs, boardOf, n) != {} && BoardSlots(available, devs, boardOf, n) !! Elems(chosen)
    ensures |BoardSlots(available, devs, boardOf, m)| <= |BoardSlots(available, devs, boardOf, n)|
  {
    var i := BoardAt(available, devs, boardOf, boards, m);
    var j := BoardAt(available, devs, boardOf, boards, n);
    BoardStands(available, devs, boardOf, boards, chosen, k, i);
    BoardStands(available, devs, boardOf, boards, chosen, k, j);
  }

  /** No slot of the board is chosen. */
  ghost predicate Spared(available: seq<nat>, devs: Mlus, boardOf: Device -> string, chosen: set<nat>, name: string) {
    BoardSlots(available, devs, boardOf, name) != {} && BoardSlots(available, devs, boardOf, name) !! chosen
  }

  /**
    Keeping boards whole is optimal: no choice of as many slots leaves more free slots
    together on one board.
   */
  lemma LargestFreeBoard(available: seq<nat>, devs: Mlus, boardOf: Device -> string,
                         chosen: set<nat>, other: set<nat>, m: string) returns (n: string)
    requires KeepsBoardsWhole(available, devs, boardOf, chosen)
    requires chosen <= Usable(available, devs) && other <= Usable(available, devs) && |chosen| <= |other|
    ensures |BoardSlots(available, devs, boardOf, m) - other| <= |BoardSlots(available, devs, boardOf, n) - chosen|
  {
    var board, usable := BoardSlots(available, devs, boardOf, m), Usable(available, devs);
    SubsetSize(board - other, board);
    if board !! chosen {
      assert board - chosen == board;
      return m;
    }
    if spared :| Spared(available, devs, boardOf, chosen, spared) {
      assert BoardSlots(available, devs, boardOf, spared) - chosen == BoardSlots(available, devs, boardOf, spared);
      return spared;
    }
    assert board <= usable;
    SubsetSize(board - other, usable - other);
    RestSizes(usable, chosen, other);
    if usable <= chosen {
      assert usable - chosen == {};
      return m;
    }
    n := RestOnOneBoard(available, devs, boardOf, chosen);
    SubsetSize(usable - chosen, BoardSlots(available, devs, boardOf, n) - chosen);
  }

  /** When no board is spared, all free slots are on one board. */
  lemma RestOnOneBoard(available: seq<nat>, devs: Mlus, boardOf: Device -> string, chosen: set<nat>) returns (n: string)
    requires AtMostOnePartly(available, devs, boardOf, chosen) && !(Usable(available, devs) <= chosen)
    requires forall m :: !Spared(available, devs, boardOf, chosen, m)
    ensures Usable(available, devs) - chosen <= BoardSlots(available, devs, boardOf, n)
  {
    var x :| x in Usable(available, devs) && x !in chosen;
    n := BoardHolding(available, devs, boardOf, x);
    assert !Spared(available, devs, boardOf, chosen, n);
    forall y | y in Usable(available, devs) - chosen
      ensures y in BoardSlots(available, devs, boardOf, n)
    {
      var p := BoardHolding(available, devs, boardOf, y);
      assert !Spared(available, devs, boardOf, chosen, p);
      assert Partly(BoardSlots(available, devs, boardOf, p), chosen);
      assert Partly(BoardSlots(available, devs, boardOf, n), chosen);
    }
  }

  lemma RestSizes(all: set<nat>, chosen: set<nat>, other: set<nat>)
    requires chosen <= all && other <= all && |chosen| <= |other|
    ensures |all - other| <= |all - chosen|
  {
  }

  lemma BoardHolding(available: seq<nat>, devs: Mlus, boardOf: Device -> string, x: nat)
    returns (name: string)
    requires x in Usable(available, devs)
    ensures x in BoardSlots(available, devs, boardOf, name)
  {
    var d :| d in devs && devs[d].slot in available && devs[d].slot == x;
    name := boardOf(devs[d]);
    assert d in On(available, devs, boardOf, devs.Keys, name);
  }
}
