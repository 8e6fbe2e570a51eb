/**
  Where the scheduler's promises end: which pods the acceptance test lets through, and the
  filter of a container with two kinds, which overcommits a card.
 */
module SchedulerLimits {
  import opened Devices
  import opened Usages
  import opened Fitting
  import opened Placement
  import opened Scoring
  import opened PodScoring
  import opened Recording
  import opened HandOff
  import opened Schedulers
  import opened SchedulerRuns

  // ---- the acceptance test ----

  /** The kinds of the first `n` containers. */
  function Kinds(nums: PodRequests, n: nat): set<string>
    requires n <= |nums| && forall c :: 0 <= c < n ==> |nums[c]| == 1
  {
    set c | 0 <= c < n :: nums[c][0].kind
  }

  ghost predicate DifferentKinds(nums: PodRequests, n: nat)
    requires n <= |nums| && forall c :: 0 <= c < n ==> |nums[c]| == 1
  {
    forall c, d :: 0 <= c < d < n ==> nums[c][0].kind != nums[d][0].kind
  }

  lemma {:induction false} KindCount(nums: PodRequests, n: nat)
    requires n <= |nums| && forall c :: 0 <= c < n ==> |nums[c]| == 1
    ensures |Kinds(nums, n)| <= n
    ensures |Kinds(nums, n)| == n <==> DifferentKinds(nums, n)
  {
    if n == 0 {
      assert Kinds(nums, 0) == {};
    } else {
      var kind, before := nums[n - 1][0].kind, Kinds(nums, n - 1);
      KindCount(nums, n - 1);
      if kind in before {
        var c :| 0 <= c < n - 1 && nums[c][0].kind == kind;
        assert Kinds(nums, n) == before;
        assert !DifferentKinds(nums, n);
      } else {
        NewKind(nums, n);
      }
    }
  }

  lemma NewKind(nums: PodRequests, n: nat)
    requires 0 < n <= |nums| && forall c :: 0 <= c < n ==> |nums[c]| == 1
    requires nums[n - 1][0].kind !in Kinds(nums, n - 1)
    ensures |Kinds(nums, n)| == |Kinds(nums, n - 1)| + 1
    ensures DifferentKinds(nums, n) <==> DifferentKinds(nums, n - 1)
  {
    assert Kinds(nums, n) == Kinds(nums, n - 1) + {nums[n - 1][0].kind};
    forall c | 0 <= c < n - 1
      ensures nums[c][0].kind != nums[n - 1][0].kind
    {
      assert nums[c][0].kind in Kinds(nums, n - 1);
    }
  }

  lemma OneRequestRecord(pd: PodDevices, rs: seq<Request>, lists: seq<ContainerDevices>)
    requires |rs| == 1 && |lists| <= 1
    ensures RecordContainer(pd, rs, lists).Keys == if lists == [] then pd.Keys else pd.Keys + {rs[0].kind}
  {
  }

  lemma {:induction false} ServedKinds(nums: PodRequests, placed: PodPlacement)
    requires FullyServed(nums, placed) && forall c :: 0 <= c < |nums| ==> |nums[c]| == 1
    ensures Record(nums, placed).Keys == Kinds(nums, |placed|)
    decreases |placed|
  {
    if placed == [] {
      assert Kinds(nums, 0) == {};
    } else {
      var n := |placed| - 1;
      ServedKinds(nums, placed[..n]);
      OneRequestRecord(Record(nums, placed[..n]), nums[n], placed[n]);
      assert Kinds(nums, n + 1) == Kinds(nums, n) + {nums[n][0].kind};
    }
  }

  lemma KeysSize(pd: PodDevices)
    ensures |pd| == |pd.Keys|
  {
  }

  ghost predicate OneEach(nums: PodRequests) {
    forall c :: 0 <= c < |nums| ==> |nums[c]| == 1
  }

  lemma AcceptedOnes(nums: PodRequests, placed: PodPlacement)
    requires Shaped(nums, placed) && OneEach(nums)
    ensures Accepts(nums, placed) <==>
            |placed| == |nums| && FullyServed(nums, placed) && DifferentKinds(nums, |nums|)
  {
    var pd := Record(nums, placed);
    KeysSize(pd);
    if FullyServed(nums, placed) {
      ServedKinds(nums, placed);
      KindCount(nums, |placed|);
    } else {
      var n := |placed| - 1;
      assert placed[n] == [];
      ServedKinds(nums, placed[..n]);
      OneRequestRecord(Record(nums, placed[..n]), nums[n], placed[n]);
      KindCount(nums, n);
    }
  }

  /** With at most one kind per container, only containers that ask for one can add a kind to the record. */
  lemma {:induction false} KindBound(nums: PodRequests, placed: PodPlacement)
    requires SingleKind(nums) && Recordable(nums, placed)
    ensures |Record(nums, placed)| <= |placed|
    ensures |Record(nums, placed)| == |placed| ==> forall c :: 0 <= c < |placed| ==> |nums[c]| == 1
    decreases |placed|
  {
    if placed != [] {
      var n := |placed| - 1;
      KindBound(nums, placed[..n]);
      assert nums[n] in nums;
      OneMoreKind(Record(nums, placed[..n]), nums[n], placed[n]);
    }
  }

  lemma OneMoreKind(pd: PodDevices, rs: seq<Request>, lists: seq<ContainerDevices>)
    requires |lists| <= |rs| <= 1
    ensures |RecordContainer(pd, rs, lists)| <= |pd| + |rs|
  {
    if |rs| == 1 {
      OneRequestRecord(pd, rs, lists);
      KeysSize(RecordContainer(pd, rs, lists));
      KeysSize(pd);
    }
  }

  /**
    A pod none of whose containers asks for two kinds is accepted if and only if every container
    asks for one, every container is served and no two containers ask for the same kind: next to
    a container without requests nothing is ever accepted.
   */
  lemma AcceptedExactly(nums: PodRequests, placed: PodPlacement)
    requires Shaped(nums, placed) && SingleKind(nums)
    ensures Accepts(nums, placed) <==>
            OneEach(nums) && |placed| == |nums| && FullyServed(nums, placed) && DifferentKinds(nums, |nums|)
  {
    if OneEach(nums) {
      AcceptedOnes(nums, placed);
    } else {
      KindBound(nums, placed);
    }
  }

  lemma TotalOfOne(r: Request)
    ensures Total([[r]]) == r.nums
  {
    var none: PodRequests := [];
    var rs: seq<Request> := [];
    assert [[r]][..0] == none && [r][..0] == rs;
    assert Wants(rs) == 0 && Total(none) == 0;
  }

  // ---- a container with two kinds ----

  const CARD_A := DeviceInfo("a", 0, 1, 10, 100, "A", 0, true)
  const CARD_B := DeviceInfo("b", 1, 1, 10, 100, "B", 0, true)
  const CAPS: Capacities := map["n" := map["a" := CARD_A, "b" := CARD_B]]
  const ASK_A := Request(1, "A", 1, 101, 1)
  const ASK_B := Request(1, "B", 1, 101, 1)
  const SHARE_A := ContainerDevice(0, "a", "A", 1, 1)
  const SHARE_B := ContainerDevice(1, "b", "B", 1, 1)

  function SameType(): Policy {
    Policy(false, (kind: string, inUse: bool, r: Request) => kind == r.kind)
  }

  /** One request for one card: the only usable card serves it. */
  lemma PicksOne(devs: seq<DeviceUsage>, r: Request, policy: Policy, i: nat, e: ContainerDevice)
    requires UniqueIds(devs) && i < |devs| && r.nums == 1 && Usable(devs[i], r, policy) && !NumaBound(policy, r)
    requires e.uuid == devs[i].id && e.kind == r.kind && e.usedcores == r.coresreq
    requires e.usedmem == MemNeed(devs[i].totalmem, r)
    requires forall j :: 0 <= j < |devs| && j != i ==> !Usable(devs[j], r, policy)
    ensures Chosen(devs, r, policy, [e])
  {
    assert devs[i] in devs;
    assert Ids([e]) == {devs[i].id};
    assert Ids([e]) <= Candidates(devs, r, policy, 0);
    forall d | d in devs && d.id == e.uuid
      ensures e.usedmem == MemNeed(d.totalmem, r)
    {
      var j :| 0 <= j < |devs| && devs[j] == d;
    }
    assert ShareOf(devs, r, e);
  }

  /** Two requests served one after the other. */
  lemma BothServed(devs0: seq<DeviceUsage>, r: Request, q: Request, policy: Policy,
                   e: ContainerDevice, f: ContainerDevice)
    requires Chosen(Current(devs0, []), r, policy, [e]) && Chosen(Current(devs0, [e]), q, policy, [f])
    ensures Served(devs0, [], [r, q], policy, [[e], [f]])
  {
    var none: seq<ContainerDevices> := [];
    assert Served(devs0, [], [r, q], policy, [[e]]) by {
      assert [] + Concat(none) == [] && none + [[e]] == [[e]];
      ServedSnoc(devs0, [], [r, q], policy, none, [e]);
    }
    assert [] + Concat([[e]]) == [e] by {
      ConcatOne([e]);
    }
    ServedSnoc(devs0, [], [r, q], policy, [[e]], [f]);
    assert [[e]] + [[f]] == [[e], [f]];
  }

  lemma FirstPick(devs0: seq<DeviceUsage>)
    requires devs0 == [View(CARD_A, ZERO), View(CARD_B, ZERO)]
    ensures Chosen(Current(devs0, []), ASK_A, SameType(), [SHARE_A])
  {
    assert devs0[0].id != devs0[1].id;
    PicksOne(Current(devs0, []), ASK_A, SameType(), 0, SHARE_A);
  }

  lemma SecondPick(devs0: seq<DeviceUsage>)
    requires devs0 == [View(CARD_A, ZERO), View(CARD_B, ZERO)]
    ensures Chosen(Current(devs0, [SHARE_A]), ASK_B, SameType(), [SHARE_B])
  {
    assert devs0[0].id != devs0[1].id;
    ListUsageOne(SHARE_A, "b");
    PicksOne(Current(devs0, [SHARE_A]), ASK_B, SameType(), 1, SHARE_B);
  }

  /** The two empty cards serve the two requests, one after the other. */
  lemma BothOnEmpty(table: seq<DeviceUsage>)
    requires table == Table([CARD_A, CARD_B], map[], "n")
    ensures Served(table, [], [ASK_A, ASK_B], SameType(), [[SHARE_A], [SHARE_B]])
  {
    assert table == [View(CARD_A, ZERO), View(CARD_B, ZERO)] by {
      SumMapEmpty((p: PodInfo) => RecordUsage(p, "n", "a"));
      SumMapEmpty((p: PodInfo) => RecordUsage(p, "n", "b"));
    }
    FirstPick(table);
    SecondPick(table);
    BothServed(table, ASK_A, ASK_B, SameType(), SHARE_A, SHARE_B);
  }

  lemma TriedBoth(infos: seq<DeviceInfo>, nums: PodRequests, placed: PodPlacement)
    requires infos == [CARD_A, CARD_B]
    requires nums == [[], [ASK_A, ASK_B]] && placed == [[], [[SHARE_A], [SHARE_B]]]
    ensures Tried(Table(infos, map[], "n"), nums, SameType(), placed)
  {
    BothOnEmpty(Table(infos, map[], "n"));
    PrependNone(nums[1]);
    PrependNone(placed[1]);
  }

  lemma ChargedTwice(nums: PodRequests, placed: PodPlacement)
    requires nums == [[], [ASK_A, ASK_B]] && placed == [[], [[SHARE_A], [SHARE_B]]]
    ensures PodUsage(Record(nums, placed), "a").slots >= 2
  {
    assert ListUsage(Shares(placed), "a").slots >= 1 by {
      PrependNone(placed[1]);
      FirstShareCharged(placed[1], "a");
    }
    SecondKindCountsTwice(nums, placed, 1, "a");
  }

  lemma FirstPodUsage(p: PodInfo, id: string)
    ensures PodsUsage(map["u" := p], p.nodeId, id) == PodUsage(p.devices, id)
  {
    var none: Pods := map[];
    var u := PodUsage(p.devices, id);
    assert PodsUsage(none["u" := p], p.nodeId, id) == ZERO.Plus(u) by {
      PodsUsageAdd(none, "u", p, p.nodeId, id);
      SumMapEmpty((q: PodInfo) => RecordUsage(q, p.nodeId, id));
    }
    assert none["u" := p] == map["u" := p];
    assert ZERO.Plus(u) == u;
  }

  /**
    With a container that asks for two kinds, the first filter after the node is registered
    records two shares on a card that has one slot.
   */
  lemma TwoKindsOvercommit(support: Annotations) returns (s: State, ev: Event, t: State)
    ensures Run(CAPS, support, [State(map[], map[]), s], [Register("n", [CARD_A, CARD_B])])
    ensures ev.Filter? && Priced(CAPS, ev.nums) && !SingleKind(ev.nums)
    ensures Next(support, s, ev, t)
    ensures PodsUsage(t.pods, "n", "a").slots > CARD_A.count
  {
    var nums: PodRequests := [[], [ASK_A, ASK_B]];
    var placed: PodPlacement := [[], [[SHARE_A], [SHARE_B]]];
    s := State(map["n" := [CARD_A, CARD_B]], map[]);
    ev := Event.Filter("u", nums, SameType(), ["n"], true);
    t := s.(pods := map["u" := PodInfo("n", Record(nums, placed))]);
    assert Conforms(CAPS, "n", [CARD_A, CARD_B]) by {
      assert [CARD_A, CARD_B][0].id != [CARD_A, CARD_B][1].id;
    }
    RunRegisters(CAPS, support, "n", [CARD_A, CARD_B]);
    assert Priced(CAPS, nums) by {
      BothPriced(nums);
    }
    BothRecorded(nums, placed, t.pods["u"]);
    BothFiltered(support, s, ev, t, nums, placed);
    BothWanted(nums);
  }

  lemma BothPriced(nums: PodRequests)
    requires nums == [[], [ASK_A, ASK_B]]
    ensures Priced(CAPS, nums)
  {
    assert PricedRequest(CAPS, ASK_A) && PricedRequest(CAPS, ASK_B);
  }

  lemma BothWanted(nums: PodRequests)
    requires nums == [[], [ASK_A, ASK_B]]
    ensures !SingleKind(nums)
  {
  }

  lemma BothRecorded(nums: PodRequests, placed: PodPlacement, p: PodInfo)
    requires nums == [[], [ASK_A, ASK_B]] && placed == [[], [[SHARE_A], [SHARE_B]]]
    requires p == PodInfo("n", Record(nums, placed))
    ensures PodsUsage(map["u" := p], "n", "a").slots >= 2
  {
    ChargedTwice(nums, placed);
    FirstPodUsage(p, "a");
  }

  lemma BothFiltered(support: Annotations, s: State, ev: Event, t: State, nums: PodRequests,
                     placed: PodPlacement)
    requires nums == [[], [ASK_A, ASK_B]] && placed == [[], [[SHARE_A], [SHARE_B]]]
    requires s == State(map["n" := [CARD_A, CARD_B]], map[]) && ev == Event.Filter("u", nums, SameType(), ["n"], true)
    requires t == s.(pods := map["u" := PodInfo("n", Record(nums, placed))])
    ensures Next(support, s, ev, t)
  {
    TriedBoth([CARD_A, CARD_B], nums, placed);
    PassedBoth(nums, placed);
    TwoKindRecord(nums, placed, placed[1]);
    TotalOfBoth(nums);
    assert s.pods - {"u"} == s.pods;
    FilteredAsRecorded(s.nodes, s.pods, "u", "n", nums, SameType(), placed);
  }

  lemma PassedBoth(nums: PodRequests, placed: PodPlacement)
    requires nums == [[], [ASK_A, ASK_B]] && placed == [[], [[SHARE_A], [SHARE_B]]]
    ensures Uncrashed(nums, placed)
  {
  }

  lemma PrependNone<T>(xs: seq<T>)
    ensures Concat([[], xs]) == xs
  {
    var one: seq<seq<T>> := [[]];
    assert Concat(one) == [] by {
      assert one[..0] == [];
    }
    ConcatSnoc(one, xs);
    assert one + [xs] == [[], xs] && [] + xs == xs;
  }

  lemma TotalOfBoth(nums: PodRequests)
    requires nums == [[], [ASK_A, ASK_B]]
    ensures Total(nums) == 2
  {
    var none: PodRequests := [];
    assert Total(none) == 0;
    assert nums[..1] == [[]] && nums[..1][..0] == none;
    assert Total(nums[..1]) == 0;
    var rs := nums[1];
    assert rs[..1] == [ASK_A] && rs[..1][..0] == [];
    assert Wants(rs[..1]) == 1;
    assert Wants(rs) == 2;
  }

  lemma TwoKindRecord(nums: PodRequests, placed: PodPlacement, lists: seq<ContainerDevices>)
    requires nums == [[], [ASK_A, ASK_B]] && placed == [[], lists] && |lists| == 2
    ensures |Record(nums, placed)| == 2
  {
    var none: PodDevices := map[];
    assert placed[..1] == [[]] && placed[..1][..0] == [];
    assert Record(nums, placed[..1]) == none;
    assert lists[..1][..0] == [];
    assert RecordContainer(none, nums[1], lists[..1]).Keys == {"A"};
    assert Record(nums, placed).Keys == {"A", "B"};
    KeysSize(Record(nums, placed));
  }

  /** A tried and accepted placement on the only node is a possible outcome of the filter. */
  lemma FilteredAsRecorded(nodes: Nodes, pods: Pods, uid: string, node: string, nums: PodRequests,
                           policy: Policy, placed: PodPlacement)
    requires nodes.Keys == {node} && Total(nums) != 0
    requires Tried(Table(nodes[node], pods - {uid}, node), nums, policy, placed) && Uncrashed(nums, placed)
    requires |Record(nums, placed)| == |nums|
    ensures FilterEffect(nodes, pods, (pods - {uid})[uid := PodInfo(node, Record(nums, placed))], uid, nums, policy,
                         [node], true, Scheduled(node, map[]), map[node := Visit(nums, placed)])
  {
    var usage, v := UsageTable(nodes, pods - {uid}, [node]), Visit(nums, placed);
    assert usage.Keys == {node} && usage[node] == Table(nodes[node], pods - {uid}, node);
    OnlyNodeIsBest(usage, node, nums, policy, v);
    ScheduledOn(nodes, pods, uid, nums, policy, [node], node, usage, map[node := v]);
  }

  lemma ScheduledOn(nodes: Nodes, pods: Pods, uid: string, nums: PodRequests, policy: Policy, names: seq<string>,
                    node: string, usage: map<string, seq<DeviceUsage>>, runs: Visits)
    requires usage == UsageTable(nodes, pods - {uid}, names) && Total(nums) != 0
    requires AllTried(usage, nums, policy, runs) && Best(usage, runs, node)
    ensures FilterEffect(nodes, pods, (pods - {uid})[uid := PodInfo(node, RecordOf(runs[node]))], uid, nums, policy,
                         names, true, Scheduled(node, map[]), runs)
  {
  }

  lemma OnlyNodeIsBest(usage: map<string, seq<DeviceUsage>>, node: string, nums: PodRequests,
                       policy: Policy, v: Visit)
    requires usage.Keys == {node} && TriedIn(usage[node], nums, policy, v) && IsAccepted(v)
    ensures AllTried(usage, nums, policy, map[node := v]) && Best(usage, map[node := v], node)
  {
  }
}
