/**
  What the record of a pod charges, against what was charged while placing it.
 */
module Recording {
  import opened Devices
  import opened Usages
  import opened Scoring
  import opened PodScoring

  /** What one container's record charges: every served kind repeats the kinds before it. */
  ghost function Repeated(lists: seq<ContainerDevices>, id: string): Usage {
    if lists == [] then ZERO
    else Repeated(lists[..|lists| - 1], id).Plus(ListUsage(Concat(lists), id))
  }

  lemma {:induction false} ContainerCharges(pd: PodDevices, rs: seq<Request>, lists: seq<ContainerDevices>, id: string)
    requires |lists| <= |rs|
    ensures PodUsage(RecordContainer(pd, rs, lists), id) == PodUsage(pd, id).Plus(Repeated(lists, id))
    decreases |lists|
  {
    if lists != [] {
      var n := |lists| - 1;
      var before := RecordContainer(pd, rs, lists[..n]);
      var after := RecordContainer(pd, rs, lists);
      assert after == before[rs[n].kind := Lists(before, rs[n].kind) + [Concat(lists)]];
      var a, b, c := PodUsage(pd, id), Repeated(lists[..n], id), ListUsage(Concat(lists), id);
      assert PodUsage(before, id) == a.Plus(b) by {
        ContainerCharges(pd, rs, lists[..n], id);
      }
      assert PodUsage(after, id) == PodUsage(before, id).Plus(c) by {
        PodUsageRecord(before, rs[n].kind, Lists(before, rs[n].kind), Concat(lists), id);
      }
      PlusAssociates(a, b, c);
    }
  }

  lemma OneKindOnce(lists: seq<ContainerDevices>, id: string)
    requires |lists| <= 1
    ensures Repeated(lists, id) == ListUsage(Concat(lists), id)
  {
  }

  /** Repeating never loses a slot, and a second kind repeats the first card of the first one. */
  lemma {:induction false} RepeatedAtLeast(lists: seq<ContainerDevices>, id: string)
    ensures Repeated(lists, id).slots >= ListUsage(Concat(lists), id).slots
    ensures |lists| >= 2 && lists[0] != [] && id == lists[0][0].uuid ==>
              Repeated(lists, id).slots > ListUsage(Concat(lists), id).slots
    decreases |lists|
  {
    if lists != [] {
      var n := |lists| - 1;
      RepeatedAtLeast(lists[..n], id);
      SlotsNonNegative(Concat(lists[..n]), id);
      if |lists| >= 2 && lists[0] != [] && id == lists[0][0].uuid {
        FirstShareCharged(lists[..n], id);
      }
    }
  }

  lemma FirstShareCharged(lists: seq<ContainerDevices>, id: string)
    requires lists != [] && lists[0] != [] && id == lists[0][0].uuid
    ensures ListUsage(Concat(lists), id).slots >= 1
  {
    var head, rest := [lists[0][0]], lists[0][1..];
    assert lists == [lists[0]] + lists[1..] && lists[0] == head + rest;
    ConcatAppend([lists[0]], lists[1..]);
    assert Concat([lists[0]]) == lists[0] by {
      assert [lists[0]][..0] == [];
    }
    ListUsageAppend(lists[0], Concat(lists[1..]), id);
    ListUsageAppend(head, rest, id);
    ListUsageOne(lists[0][0], id);
    SlotsNonNegative(rest, id);
    SlotsNonNegative(Concat(lists[1..]), id);
  }

  ghost predicate Recordable(nums: PodRequests, placed: PodPlacement) {
    |placed| <= |nums| && forall c :: 0 <= c < |placed| ==> |placed[c]| <= |nums[c]|
  }

  /** No container was served for two kinds. */
  ghost predicate OneKindServed(placed: PodPlacement) {
    forall c :: 0 <= c < |placed| ==> |placed[c]| <= 1
  }

  /** No container asks for two kinds. */
  ghost predicate SingleKind(nums: PodRequests) {
    forall rs :: rs in nums ==> |rs| <= 1
  }

  /** Asking for one kind is enough, and for a run that serves everything it is necessary. */
  lemma AskedAndServed(nums: PodRequests, placed: PodPlacement)
    requires Recordable(nums, placed)
    ensures SingleKind(nums) ==> OneKindServed(placed)
    ensures FullyServed(nums, placed) && |placed| == |nums| && OneKindServed(placed) ==> SingleKind(nums)
  {
    if SingleKind(nums) {
      forall c | 0 <= c < |placed|
        ensures |placed[c]| <= 1
      {
        assert nums[c] in nums;
      }
    }
  }

  lemma RecordUnfold(nums: PodRequests, placed: PodPlacement, id: string)
    requires Recordable(nums, placed) && placed != []
    ensures var n := |placed| - 1;
      && PodUsage(Record(nums, placed), id) == PodUsage(Record(nums, placed[..n]), id).Plus(Repeated(placed[n], id))
      && ListUsage(Shares(placed), id) == ListUsage(Shares(placed[..n]), id).Plus(ListUsage(Concat(placed[n]), id))
  {
    var n := |placed| - 1;
    assert placed[..n] + [placed[n]] == placed;
    SharesSnoc(placed[..n], placed[n]);
    ContainerCharges(Record(nums, placed[..n]), nums[n], placed[n], id);
    ListUsageAppend(Shares(placed[..n]), Concat(placed[n]), id);
  }

  /** With at most one kind per container, the record charges exactly what was placed. */
  lemma {:induction false} RecordAgrees(nums: PodRequests, placed: PodPlacement, id: string)
    requires Recordable(nums, placed)
    requires OneKindServed(placed)
    ensures PodUsage(Record(nums, placed), id) == ListUsage(Shares(placed), id)
    decreases |placed|
  {
    if placed == [] {
      SumMapEmpty((lists: PodSingleDevice) => ListUsage(Concat(lists), id));
    } else {
      var n := |placed| - 1;
      assert PodUsage(Record(nums, placed[..n]), id) == ListUsage(Shares(placed[..n]), id) by {
        RecordAgrees(nums, placed[..n], id);
      }
      assert Repeated(placed[n], id) == ListUsage(Concat(placed[n]), id) by {
        OneKindOnce(placed[n], id);
      }
      RecordUnfold(nums, placed, id);
    }
  }

  lemma {:induction false} RecordAtLeast(nums: PodRequests, placed: PodPlacement, id: string)
    requires Recordable(nums, placed)
    ensures PodUsage(Record(nums, placed), id).slots >= ListUsage(Shares(placed), id).slots
    decreases |placed|
  {
    if placed == [] {
      SumMapEmpty((lists: PodSingleDevice) => ListUsage(Concat(lists), id));
    } else {
      var n := |placed| - 1;
      assert PodUsage(Record(nums, placed[..n]), id).slots >= ListUsage(Shares(placed[..n]), id).slots by {
        RecordAtLeast(nums, placed[..n], id);
      }
      assert Repeated(placed[n], id).slots >= ListUsage(Concat(placed[n]), id).slots by {
        RepeatedAtLeast(placed[n], id);
      }
      RecordUnfold(nums, placed, id);
    }
  }

  /** A container served for two kinds makes the record charge its first card once too often. */
  lemma {:induction false} SecondKindCountsTwice(nums: PodRequests, placed: PodPlacement, c: nat, id: string)
    requires Recordable(nums, placed) && c < |placed|
    requires |placed[c]| >= 2 && placed[c][0] != [] && id == placed[c][0][0].uuid
    ensures PodUsage(Record(nums, placed), id).slots > ListUsage(Shares(placed), id).slots
    decreases |placed|
  {
    var n := |placed| - 1;
    if c == n {
      FirstTwice(nums, placed, id);
    } else {
      SecondKindCountsTwice(nums, placed[..n], c, id);
      StillTwice(nums, placed, id);
    }
  }

  lemma FirstTwice(nums: PodRequests, placed: PodPlacement, id: string)
    requires Recordable(nums, placed) && placed != []
    requires var lists: seq<ContainerDevices> := placed[|placed| - 1];
      |lists| >= 2 && lists[0] != [] && id == lists[0][0].uuid
    ensures PodUsage(Record(nums, placed), id).slots > ListUsage(Shares(placed), id).slots
  {
    var before, lists := placed[..|placed| - 1], placed[|placed| - 1];
    assert PodUsage(Record(nums, before), id).slots >= ListUsage(Shares(before), id).slots by {
      RecordAtLeast(nums, before, id);
    }
    assert Repeated(lists, id).slots > ListUsage(Concat(lists), id).slots by {
      RepeatedAtLeast(lists, id);
    }
    RecordUnfold(nums, placed, id);
  }

  lemma StillTwice(nums: PodRequests, placed: PodPlacement, id: string)
    requires Recordable(nums, placed) && placed != []
    requires var before := placed[..|placed| - 1];
      PodUsage(Record(nums, before), id).slots > ListUsage(Shares(before), id).slots
    ensures PodUsage(Record(nums, placed), id).slots > ListUsage(Shares(placed), id).slots
  {
    RecordUnfold(nums, placed, id);
    RepeatedAtLeast(placed[|placed| - 1], id);
  }

  /**
    The record charges every card exactly what was placed on it if and only if no container
    was served for two kinds; for a run that serves everything, if and only if no container
    asks for two kinds.
   */
  lemma RecordAgreesExactly(nums: PodRequests, placed: PodPlacement)
    requires Recordable(nums, placed)
    requires forall c, t :: 0 <= c < |placed| && 0 <= t < |placed[c]| ==> placed[c][t] != []
    ensures (forall id :: PodUsage(Record(nums, placed), id) == ListUsage(Shares(placed), id)) <==>
            OneKindServed(placed)
    ensures FullyServed(nums, placed) && |placed| == |nums| ==>
              ((forall id :: PodUsage(Record(nums, placed), id) == ListUsage(Shares(placed), id)) <==> SingleKind(nums))
  {
    AskedAndServed(nums, placed);
    if OneKindServed(placed) {
      forall id
        ensures PodUsage(Record(nums, placed), id) == ListUsage(Shares(placed), id)
      {
        RecordAgrees(nums, placed, id);
      }
    } else {
      var c :| 0 <= c < |placed| && |placed[c]| >= 2;
      SecondKindCountsTwice(nums, placed, c, placed[c][0][0].uuid);
    }
  }

  // ---- what a recorded share counts for ----

  /** What a share takes of a card: one slot, its memory and its cores. */
  function Taken(e: ContainerDevice): Usage {
    Usage(1, e.usedmem, e.usedcores, if e.usedcores == 100 then 1 else 0)
  }

  function TakenOf(e: ContainerDevice, id: string): Usage {
    if id == e.uuid then Taken(e) else Usage(0, 0, 0, 0)
  }

  lemma ShareInRecord(p: PodInfo, kind: string, e: ContainerDevice, node: string, id: string)
    ensures var more := PodInfo(p.nodeId, p.devices[kind := Lists(p.devices, kind) + [[e]]]);
      RecordUsage(more, node, id) ==
        RecordUsage(p, node, id).Plus(if node == p.nodeId then TakenOf(e, id) else Usage(0, 0, 0, 0))
  {
    ShareInPod(p.devices, kind, e, id);
  }

  lemma ShareInPod(pd: PodDevices, kind: string, e: ContainerDevice, id: string)
    ensures PodUsage(pd[kind := Lists(pd, kind) + [[e]]], id) == PodUsage(pd, id).Plus(TakenOf(e, id))
  {
    OneTaken(e, id);
    PodUsageRecord(pd, kind, Lists(pd, kind), [e], id);
  }

  lemma OneTaken(e: ContainerDevice, id: string)
    ensures ListUsage([e], id) == TakenOf(e, id)
  {
    ListUsageOne(e, id);
  }

  /** Recording one more share adds it to its own card on the pod's node, and nothing to any other. */
  lemma ShareIsCounted(pods: map<string, PodInfo>, uid: string, kind: string, e: ContainerDevice, node: string,
                       id: string)
    requires uid in pods
    ensures var p := pods[uid];
      var more := PodInfo(p.nodeId, p.devices[kind := Lists(p.devices, kind) + [[e]]]);
      PodsUsage(pods[uid := more], node, id) ==
        PodsUsage(pods, node, id).Plus(if node == p.nodeId then TakenOf(e, id) else Usage(0, 0, 0, 0))
  {
    var p := pods[uid];
    var more := PodInfo(p.nodeId, p.devices[kind := Lists(p.devices, kind) + [[e]]]);
    ShareInRecord(p, kind, e, node, id);
    PodsUsageGrow(pods, uid, more, if node == p.nodeId then TakenOf(e, id) else Usage(0, 0, 0, 0), node, id);
  }

  /** No pods, and pods without shares, take nothing. */
  lemma NothingIsCounted(pods: map<string, PodInfo>, uid: string, n: string, node: string, id: string)
    requires uid !in pods
    ensures PodsUsage(map[], node, id) == Usage(0, 0, 0, 0)
    ensures PodsUsage(pods[uid := PodInfo(n, map[])], node, id) == PodsUsage(pods, node, id)
  {
    NoPodsUsage(node, id);
    EmptyPodUsage(id);
    PodsUsageAdd(pods, uid, PodInfo(n, map[]), node, id);
    PlusZero(PodsUsage(pods, node, id));
  }
}
