/**
  Which container the plugin hands the shares to. The record of a kind holds one list for each
  container that asks for the kind, not one for each container, and the annotation merges them.
 */
module Deliveries {
  import opened Devices
  import opened Usages
  import opened Scoring
  import opened PodScoring
  import opened Recording
  import opened PodAnnotations
  import opened HandOff
  import opened Schedulers
  import opened SchedulerLimits

  /** Container `c` was served for `kind`, as its `t`-th request. */
  ghost predicate ServedFor(nums: PodRequests, placed: PodPlacement, c: nat, t: nat, kind: string)
    requires Recordable(nums, placed)
  {
    c < |placed| && t < |placed[c]| && nums[c][t].kind == kind
  }

  ghost predicate DistinctInEach(nums: PodRequests) {
    forall n :: n in nums ==> DistinctKinds(n)
  }

  /** What a container adds to the record of `kind`: its shares up to the request for that kind. */
  ghost function Part(rs: seq<Request>, lists: seq<ContainerDevices>, kind: string): ContainerDevices
    requires |lists| <= |rs|
  {
    if lists == [] then []
    else
      var n := |lists| - 1;
      if rs[n].kind == kind then Concat(lists) else Part(rs, lists[..n], kind)
  }

  lemma {:induction false} PartAt(rs: seq<Request>, lists: seq<ContainerDevices>, kind: string, t: nat)
    requires |lists| <= |rs| && DistinctKinds(rs) && t < |lists| && rs[t].kind == kind
    ensures Part(rs, lists, kind) == Concat(lists[..t + 1])
    decreases |lists|
  {
    var n := |lists| - 1;
    if t < n {
      PartAt(rs, lists[..n], kind, t);
      assert lists[..n][..t + 1] == lists[..t + 1];
    } else {
      assert lists[..t + 1] == lists;
    }
  }

  lemma {:induction false} PartAbsent(rs: seq<Request>, lists: seq<ContainerDevices>, kind: string)
    requires |lists| <= |rs| && forall t :: 0 <= t < |lists| ==> rs[t].kind != kind
    ensures Part(rs, lists, kind) == []
    decreases |lists|
  {
    if lists != [] {
      PartAbsent(rs, lists[..|lists| - 1], kind);
    }
  }

  /** One container's record appends its part, if it has one. */
  lemma {:induction false} RecordsPart(pd: PodDevices, rs: seq<Request>, lists: seq<ContainerDevices>, kind: string)
    requires |lists| <= |rs| && DistinctKinds(rs)
    ensures Concat(Lists(RecordContainer(pd, rs, lists), kind)) == Concat(Lists(pd, kind)) + Part(rs, lists, kind)
    decreases |lists|
  {
    if lists == [] {
      assert Concat(Lists(pd, kind)) + [] == Concat(Lists(pd, kind));
    } else {
      var n := |lists| - 1;
      var before := RecordContainer(pd, rs, lists[..n]);
      if rs[n].kind == kind {
        assert Lists(before, kind) == Lists(pd, kind) by {
          OneListPerContainer(pd, rs, lists[..n], kind);
        }
        ConcatSnoc(Lists(pd, kind), Concat(lists));
      } else {
        RecordsPart(pd, rs, lists[..n], kind);
      }
    }
  }

  /** What each container adds to the record of `kind`. */
  ghost function Parts(nums: PodRequests, placed: PodPlacement, kind: string): (parts: PodSingleDevice)
    requires Recordable(nums, placed)
    ensures |parts| == |placed|
    ensures forall c :: 0 <= c < |placed| ==> parts[c] == Part(nums[c], placed[c], kind)
  {
    seq(|placed|, c requires 0 <= c < |placed| => Part(nums[c], placed[c], kind))
  }

  /** The record of a kind is what its containers add, one after the other. */
  lemma {:induction false} RecordIsParts(nums: PodRequests, placed: PodPlacement, kind: string)
    requires Recordable(nums, placed) && DistinctInEach(nums)
    ensures Concat(Lists(Record(nums, placed), kind)) == Concat(Parts(nums, placed, kind))
    decreases |placed|
  {
    if placed == [] {
      assert Parts(nums, placed, kind) == [];
    } else {
      var n := |placed| - 1;
      assert nums[n] in nums;
      RecordIsParts(nums, placed[..n], kind);
      RecordsPart(Record(nums, placed[..n]), nums[n], placed[n], kind);
      assert Parts(nums, placed, kind)[..n] == Parts(nums, placed[..n], kind);
    }
  }

  /** The part of a container is its own shares exactly when it was served for the kind first. */
  lemma OwnPart(nums: PodRequests, placed: PodPlacement, c: nat, t: nat, kind: string)
    requires Recordable(nums, placed) && DistinctInEach(nums) && ServedFor(nums, placed, c, t, kind)
    requires forall u :: 0 <= u < |placed[c]| ==> placed[c][u] != []
    ensures t == 0 ==> Part(nums[c], placed[c], kind) == placed[c][t]
    ensures t > 0 ==> |Part(nums[c], placed[c], kind)| > |placed[c][t]|
    ensures Part(nums[c], placed[c], kind) != []
  {
    assert nums[c] in nums;
    PartAt(nums[c], placed[c], kind, t);
    var upTo := placed[c][..t + 1];
    ConcatHolds(upTo, t);
    if t == 0 {
      assert upTo == [placed[c][0]];
    } else {
      assert upTo[0] != [];
    }
  }

  /** No other container was served for the kind. */
  ghost predicate Alone(nums: PodRequests, placed: PodPlacement, c: nat, kind: string)
    requires Recordable(nums, placed)
  {
    forall d, u :: ServedFor(nums, placed, d, u, kind) ==> d == c
  }

  lemma AloneParts(nums: PodRequests, placed: PodPlacement, c: nat, kind: string)
    requires Recordable(nums, placed) && DistinctInEach(nums) && c < |placed|
    requires forall d, u :: 0 <= d < |placed| && 0 <= u < |placed[d]| ==> placed[d][u] != []
    ensures Alone(nums, placed, c, kind) <==>
            forall d :: 0 <= d < |placed| && d != c ==> Part(nums[d], placed[d], kind) == []
  {
    forall d | 0 <= d < |placed|
      ensures Part(nums[d], placed[d], kind) == [] <==> forall u :: !ServedFor(nums, placed, d, u, kind)
    {
      if u: nat :| ServedFor(nums, placed, d, u, kind) {
        OwnPart(nums, placed, d, u, kind);
      } else {
        forall t | 0 <= t < |placed[d]|
          ensures nums[d][t].kind != kind
        {
          assert !ServedFor(nums, placed, d, t, kind);
        }
        PartAbsent(nums[d], placed[d], kind);
      }
    }
  }

  /**
    The plugin hands a container exactly its own shares of a kind if and only if it is the
    pod's first container, the kind was its first request, and no other container was served
    for the kind.
   */
  lemma RightContainerExactly(nums: PodRequests, placed: PodPlacement, c: nat, t: nat, kind: string)
    requires Recordable(nums, placed) && DistinctInEach(nums) && ServedFor(nums, placed, c, t, kind)
    requires forall d, u :: 0 <= d < |placed| && 0 <= u < |placed[d]| ==> placed[d][u] != []
    ensures NextOf(Merged(Lists(Record(nums, placed), kind))) == Found(c, UnplacedAll(placed[c][t])) <==>
            c == 0 && t == 0 && Alone(nums, placed, c, kind)
  {
    var parts, own := Parts(nums, placed, kind), placed[c][t];
    var all := Concat(parts);
    RecordIsParts(nums, placed, kind);
    OwnPart(nums, placed, c, t, kind);
    AloneParts(nums, placed, c, kind);
    ConcatHolds(parts, c);
    assert NextOf(Merged(Lists(Record(nums, placed), kind))) == Found(0, UnplacedAll(all)) by {
      assert all != [];
    }
    if t == 0 && Alone(nums, placed, c, kind) {
      assert all == own;
    } else {
      assert |all| > |own|;
      assert |UnplacedAll(all)| > |UnplacedAll(own)|;
    }
  }

  /** A container asks for the kind. */
  ghost predicate Asks(rs: seq<Request>, kind: string) {
    exists r :: r in rs && r.kind == kind
  }

  /**
    As the pod asks: a pod that is served in full, with one kind per container, gets a
    container's shares to that container if and only if it is the first and no other container
    asks for the same kind.
   */
  lemma {:induction false} RightForRequests(nums: PodRequests, placed: PodPlacement, c: nat, kind: string)
    requires FullyServed(nums, placed) && |placed| == |nums| && SingleKind(nums)
    requires c < |nums| && Asks(nums[c], kind)
    requires forall d, u :: 0 <= d < |placed| && 0 <= u < |placed[d]| ==> placed[d][u] != []
    ensures |placed[c]| == 1
    ensures NextOf(Merged(Lists(Record(nums, placed), kind))) == Found(c, UnplacedAll(placed[c][0])) <==>
            c == 0 && forall d :: 0 <= d < |nums| && d != c ==> !Asks(nums[d], kind)
  {
    assert DistinctInEach(nums);
    forall d | 0 <= d < |nums|
      ensures |nums[d]| <= 1 && (Asks(nums[d], kind) <==> ServedFor(nums, placed, d, 0, kind))
    {
      assert nums[d] in nums;
      if |nums[d]| == 1 {
        assert nums[d][0] in nums[d];
      }
    }
    RightContainerExactly(nums, placed, c, 0, kind);
  }

  // ---- a pod that is handed over wrongly ----

  /**
    A pod with two containers of different kinds, placed and accepted: the shares of the second
    container are handed to the first.
   */
  lemma WrongContainer()
    ensures var nums, placed := [[ASK_A], [ASK_B]], [[[SHARE_A]], [[SHARE_B]]];
      && Tried(Table([CARD_A, CARD_B], map[], "n"), nums, SameType(), placed) && Uncrashed(nums, placed)
      && Accepts(nums, placed) && Asks(nums[1], "B")
      && NextOf(Merged(Lists(Record(nums, placed), "B"))) == Found(0, UnplacedAll(placed[1][0]))
  {
    var nums: PodRequests, placed: PodPlacement := [[ASK_A], [ASK_B]], [[[SHARE_A]], [[SHARE_B]]];
    assert FullyServed(nums, placed);
    assert Accepts(nums, placed) by {
      AcceptedExactly(nums, placed);
    }
    TriedTwo(nums, placed);
    TwoUncrashed(nums, placed);
    assert Asks(nums[1], "B") by {
      assert ASK_B in nums[1];
    }
    OnlySecond(nums, placed);
  }

  lemma TriedTwo(nums: PodRequests, placed: PodPlacement)
    requires nums == [[ASK_A], [ASK_B]] && placed == [[[SHARE_A]], [[SHARE_B]]]
    ensures Tried(Table([CARD_A, CARD_B], map[], "n"), nums, SameType(), placed)
  {
    var table := Table([CARD_A, CARD_B], map[], "n");
    assert Served(table, [], [ASK_A, ASK_B], SameType(), [[SHARE_A], [SHARE_B]]) by {
      BothOnEmpty(table);
    }
    assert Concat(nums) == [ASK_A, ASK_B] by {
      ConcatTwo([ASK_A], [ASK_B]);
    }
    assert Concat(placed) == [[SHARE_A], [SHARE_B]] by {
      ConcatTwo([[SHARE_A]], [[SHARE_B]]);
    }
  }

  lemma TwoUncrashed(nums: PodRequests, placed: PodPlacement)
    requires nums == [[ASK_A], [ASK_B]] && placed == [[[SHARE_A]], [[SHARE_B]]]
    ensures Uncrashed(nums, placed)
  {
    var none: PodPlacement := [];
    UncrashedSnoc(nums, none, placed[0]);
    assert none + [placed[0]] == placed[..1];
    UncrashedSnoc(nums, placed[..1], placed[1]);
    assert placed[..1] + [placed[1]] == placed;
  }

  lemma OnlySecond(nums: PodRequests, placed: PodPlacement)
    requires nums == [[ASK_A], [ASK_B]] && placed == [[[SHARE_A]], [[SHARE_B]]]
    ensures NextOf(Merged(Lists(Record(nums, placed), "B"))) == Found(0, UnplacedAll([SHARE_B]))
  {
    var parts := Parts(nums, placed, "B");
    RecordIsParts(nums, placed, "B");
    PartAbsent(nums[0], placed[0], "B");
    OwnPart(nums, placed, 1, 0, "B");
    ConcatHolds(parts, 1);
    assert parts[0] == [] && Concat(parts) == [SHARE_B];
  }
}
