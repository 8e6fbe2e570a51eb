/**
  Runs on a node with one card, which show where exclusivity and safety against informer
  events end, and the exact conditions for both.
 */
module OneCardRuns {
  import opened Devices
  import opened Usages
  import opened Fitting
  import opened Placement
  import opened Scoring
  import opened PodScoring
  import opened ScoreSums
  import opened HandOff
  import opened Schedulers
  import opened SchedulerRuns
  import opened SchedulerLimits
  import opened Completeness
  import opened Crashes

  // ---- filtering a pod onto the card ----

  /** Every card is accepted and no request is bound to a NUMA node. */
  function AnyCard(): Policy {
    Policy(false, (kind: string, inUse: bool, r: Request) => true)
  }

  /** The share of the card the request takes, and the record made of it. */
  function ShareFor(c: DeviceInfo, r: Request): ContainerDevice {
    ContainerDevice(0, c.id, r.kind, MemNeed(c.devmem, r), r.coresreq)
  }

  function RecordFor(c: DeviceInfo, r: Request): PodDevices {
    map[r.kind := [[ShareFor(c, r)]]]
  }

  lemma OneCardServed(d: DeviceUsage, r: Request, e: ContainerDevice)
    requires r.nums == 1 && HasRoom(d, MemNeed(d.totalmem, r), r.coresreq)
    requires e == ContainerDevice(0, d.id, r.kind, MemNeed(d.totalmem, r), r.coresreq)
    ensures Served([d], [], [r], AnyCard(), [[e]])
  {
    var none: seq<ContainerDevices> := [];
    assert Current([d], [] + Concat(none)) == [d] by {
      assert [] + Concat(none) == [];
      assert Current([d], [])[0] == d;
    }
    PicksOne([d], r, AnyCard(), 0, e);
    ServedSnoc([d], [], [r], AnyCard(), none, [e]);
    assert none + [[e]] == [[e]];
  }

  lemma OneCardTried(d: DeviceUsage, r: Request, e: ContainerDevice)
    requires r.nums == 1 && HasRoom(d, MemNeed(d.totalmem, r), r.coresreq)
    requires e == ContainerDevice(0, d.id, r.kind, MemNeed(d.totalmem, r), r.coresreq)
    ensures Tried([d], [[r]], AnyCard(), [[[e]]]) && Uncrashed([[r]], [[[e]]])
  {
    OneCardServed(d, r, e);
    ConcatOne([r]);
    ConcatOne([[e]]);
    var none: PodPlacement := [];
    UncrashedSnoc([[r]], none, [[e]]);
    assert none + [[[e]]] == [[[e]]];
  }

  lemma OneCardRecord(c: DeviceInfo, r: Request)
    ensures Record([[r]], [[[ShareFor(c, r)]]]) == RecordFor(c, r)
  {
    var lists: seq<ContainerDevices> := [[ShareFor(c, r)]];
    var none: PodDevices := map[];
    assert [lists][..0] == [] && lists[..0] == [];
    assert RecordContainer(none, [r], lists[..0]) == none;
    ConcatOne([ShareFor(c, r)]);
    assert Lists(none, r.kind) + [Concat(lists)] == lists;
    assert Record([[r]], [lists][..0]) == none;
  }

  ghost function FilterOne(uid: string, node: string, r: Request): Event {
    Filter(uid, [[r]], AnyCard(), [node], true)
  }

  /** A pod that is not recorded and whose share has room may be recorded on the card. */
  lemma OneCardFilter(nodes: Nodes, pods: Pods, uid: string, node: string, c: DeviceInfo, r: Request)
    requires nodes == map[node := [c]] && uid !in pods && r.nums == 1
    requires HasRoom(View(c, PodsUsage(pods, node, c.id)), MemNeed(c.devmem, r), r.coresreq)
    ensures FilterEffect(nodes, pods, pods[uid := PodInfo(node, RecordFor(c, r))], uid, [[r]], AnyCard(), [node], true,
                         Scheduled(node, map[]), map[node := Visit([[r]], [[[ShareFor(c, r)]]])])
  {
    var e := ShareFor(c, r);
    ReplaceEntry(pods, uid, PodInfo(node, RecordFor(c, r)));
    assert Tried(Table(nodes[node], pods - {uid}, node), [[r]], AnyCard(), [[[e]]]) && Uncrashed([[r]], [[[e]]]) by {
      OneCardTable(c, pods, node);
      OneCardTried(View(c, PodsUsage(pods, node, c.id)), r, e);
    }
    assert Record([[r]], [[[e]]]) == RecordFor(c, r) by {
      OneCardRecord(c, r);
    }
    assert Total([[r]]) != 0 by {
      TotalOfOne(r);
    }
    FilteredAsRecorded(nodes, pods, uid, node, [[r]], AnyCard(), [[[e]]]);
  }

  lemma OneCardTable(c: DeviceInfo, pods: Pods, node: string)
    ensures Table([c], pods, node) == [View(c, PodsUsage(pods, node, c.id))]
  {
  }

  /** The run goes on with that filter. */
  lemma RunFilters(caps: Capacities, support: Annotations, states: seq<State>, events: seq<Event>,
                   s: State, uid: string, node: string, c: DeviceInfo, r: Request)
    requires Run(caps, support, states, events) && s == states[|states| - 1] && PricedRequest(caps, r)
    requires s.nodes == map[node := [c]] && uid !in s.pods && r.nums == 1
    requires HasRoom(View(c, PodsUsage(s.pods, node, c.id)), MemNeed(c.devmem, r), r.coresreq)
    ensures Run(caps, support, states + [State(s.nodes, s.pods[uid := PodInfo(node, RecordFor(c, r))])],
                events + [FilterOne(uid, node, r)])
  {
    var ev, t := FilterOne(uid, node, r), State(s.nodes, s.pods[uid := PodInfo(node, RecordFor(c, r))]);
    assert Next(support, s, ev, t) by {
      OneCardFilter(s.nodes, s.pods, uid, node, c, r);
    }
    assert Allowed(caps, support, s, ev, t) by {
      SingleKindIsAllowed(caps, support, s, ev, t);
    }
    RunGrows(caps, support, states, events, ev, t);
  }

  /** A pod filtered without any node name loses its record. */
  lemma DroppedByFilter(nodes: Nodes, pods: Pods, uid: string, r: Request)
    requires r.nums == 1
    ensures FilterEffect(nodes, pods, pods - {uid}, uid, [[r]], AnyCard(), [], true, NoFit({}), map[])
  {
    TotalOfOne(r);
    assert UsageTable(nodes, pods - {uid}, []) == map[];
  }

  lemma RunDrops(caps: Capacities, support: Annotations, states: seq<State>, events: seq<Event>,
                 s: State, uid: string, r: Request)
    requires Run(caps, support, states, events) && s == states[|states| - 1] && PricedRequest(caps, r) && r.nums == 1
    ensures Run(caps, support, states + [State(s.nodes, s.pods - {uid})],
                events + [Filter(uid, [[r]], AnyCard(), [], true)])
  {
    var ev, t := Filter(uid, [[r]], AnyCard(), [], true), State(s.nodes, s.pods - {uid});
    assert Next(support, s, ev, t) by {
      DroppedByFilter(s.nodes, s.pods, uid, r);
    }
    assert Allowed(caps, support, s, ev, t) by {
      SingleKindIsAllowed(caps, support, s, ev, t);
    }
    RunGrows(caps, support, states, events, ev, t);
  }

  // ---- what is recorded on the card ----

  lemma OneShareUsage(e: ContainerDevice)
    ensures Concat([[e]]) == [e]
    ensures PodUsage(map[e.kind := [[e]]], e.uuid) == Share(e)
  {
    var none: PodDevices := map[];
    var lists: PodSingleDevice := [];
    ConcatSnoc(lists, [e]);
    assert lists + [[e]] == [[e]] && [] + [e] == [e];
    var u := ListUsage([e], e.uuid);
    assert u == Share(e) by {
      ListUsageOne(e, e.uuid);
    }
    assert PodUsage(none[e.kind := [[e]]], e.uuid) == ZERO.Plus(u) by {
      SumMapAdd(none, e.kind, [[e]], (ls: PodSingleDevice) => ListUsage(Concat(ls), e.uuid));
      SumMapEmpty((ls: PodSingleDevice) => ListUsage(Concat(ls), e.uuid));
    }
    assert none[e.kind := [[e]]] == map[e.kind := [[e]]];
    assert ZERO.Plus(u) == u;
  }

  lemma AddedShare(pods: Pods, uid: string, node: string, e: ContainerDevice)
    requires uid !in pods
    ensures PodsUsage(pods[uid := PodInfo(node, map[e.kind := [[e]]])], node, e.uuid) ==
            PodsUsage(pods, node, e.uuid).Plus(Share(e))
  {
    OneShareUsage(e);
    PodsUsageAdd(pods, uid, PodInfo(node, map[e.kind := [[e]]]), node, e.uuid);
  }

  /** One pod alone on the card. */
  lemma FirstShare(uid: string, node: string, e: ContainerDevice)
    ensures PodsUsage(map[uid := PodInfo(node, map[e.kind := [[e]]])], node, e.uuid) == Share(e)
  {
    var none: Pods := map[];
    AddedShare(none, uid, node, e);
    NoPodsUsage(node, e.uuid);
    assert none[uid := PodInfo(node, map[e.kind := [[e]]])] == map[uid := PodInfo(node, map[e.kind := [[e]]])];
    assert ZERO.Plus(Share(e)) == Share(e);
  }

  // ---- exclusive use ----

  /** A 100-core share recorded on the card is not alone there. */
  ghost predicate WholeIsShared(s: State, node: string, id: string) {
    exists uid, kind, e ::
      && uid in s.pods && s.pods[uid].nodeId == node && kind in s.pods[uid].devices
      && e in Concat(s.pods[uid].devices[kind]) && e.uuid == id && e.usedcores == 100
      && PodsUsage(s.pods, node, id).slots != 1
  }

  ghost predicate StaysExclusive(caps: Capacities, support: Annotations, node: string, id: string) {
    forall states, events, k: nat ::
      Run(caps, support, states, events) && k < |states| ==> !WholeIsShared(states[k], node, id)
  }

  const WHOLE := Request(1, NVIDIA, 0, 101, 100)
  const NOTHING := Request(1, NVIDIA, 0, 101, 0)

  /**
    A request for 100 cores is a promise of the whole card exactly for cards that register at
    most 100 cores, or have one slot: with scaled-up cores and two slots some run shares it.
   */
  lemma ExclusiveExactly(caps: Capacities, support: Annotations, node: string, id: string)
    requires ValidCapacities(caps) && node in caps && id in caps[node]
    ensures StaysExclusive(caps, support, node, id) <==> caps[node][id].devcore <= 100 || caps[node][id].count <= 1
  {
    var c := caps[node][id];
    if c.devcore <= 100 || c.count <= 1 {
      forall states, events, k: nat | Run(caps, support, states, events) && k < |states|
        ensures !WholeIsShared(states[k], node, id)
      {
        NeverShared(caps, support, states, events, k, node, id);
      }
    } else {
      var states, events := SharedRun(caps, support, node, c.(id := id));
      assert WholeIsShared(states[3], node, id);
    }
  }

  lemma NeverShared(caps: Capacities, support: Annotations, states: seq<State>, events: seq<Event>,
                    k: nat, node: string, id: string)
    requires ValidCapacities(caps) && node in caps && id in caps[node]
    requires Run(caps, support, states, events) && k < |states|
    requires caps[node][id].devcore <= 100 || caps[node][id].count <= 1
    ensures !WholeIsShared(states[k], node, id)
  {
    var s := states[k];
    forall uid, kind, e | uid in s.pods && s.pods[uid].nodeId == node && kind in s.pods[uid].devices
        && e in Concat(s.pods[uid].devices[kind]) && e.uuid == id && e.usedcores == 100
      ensures PodsUsage(s.pods, node, id).slots == 1
    {
      ExclusiveStaysExclusive(caps, support, states, events, k, uid, kind, e);
    }
  }

  /** A whole share, and then a share without cores next to it. */
  lemma SharedRun(caps: Capacities, support: Annotations, node: string, c: DeviceInfo)
    returns (states: seq<State>, events: seq<Event>)
    requires ValidCapacities(caps) && node in caps && c.id in caps[node] && SameSize(c, caps[node][c.id])
    requires c.devcore > 100 && c.count >= 2
    ensures Run(caps, support, states, events) && |states| == 4 && WholeIsShared(states[3], node, c.id)
  {
    var whole, extra := ShareFor(c, WHOLE), ShareFor(c, NOTHING);
    var one: Pods := map["u" := PodInfo(node, RecordFor(c, WHOLE))];
    RunRegisters(caps, support, node, [c]);
    states, events := [State(map[], map[]), State(map[node := [c]], map[])], [Register(node, [c])];
    assert PodsUsage(map[], node, c.id) == ZERO by {
      NoPodsUsage(node, c.id);
    }
    RunFilters(caps, support, states, events, states[1], "u", node, c, WHOLE);
    states, events := states + [State(map[node := [c]], one)], events + [FilterOne("u", node, WHOLE)];
    assert PodsUsage(one, node, c.id) == Share(whole) by {
      FirstShare("u", node, whole);
    }
    RunFilters(caps, support, states, events, states[2], "q", node, c, NOTHING);
    var two := one["q" := PodInfo(node, RecordFor(c, NOTHING))];
    states, events := states + [State(map[node := [c]], two)], events + [FilterOne("q", node, NOTHING)];
    BothOnCard(states[3], node, whole, extra);
  }

  lemma BothOnCard(s: State, node: string, whole: ContainerDevice, extra: ContainerDevice)
    requires whole.uuid == extra.uuid && whole.usedcores == 100
    requires s.pods == map["u" := PodInfo(node, map[whole.kind := [[whole]]]),
                           "q" := PodInfo(node, map[extra.kind := [[extra]]])]
    ensures WholeIsShared(s, node, whole.uuid)
  {
    var one: Pods := map["u" := PodInfo(node, map[whole.kind := [[whole]]])];
    assert s.pods == one["q" := PodInfo(node, map[extra.kind := [[extra]]])];
    FirstShare("u", node, whole);
    AddedShare(one, "q", node, extra);
    ConcatOne([whole]);
    assert s.pods["u"].nodeId == node && whole.kind in s.pods["u"].devices;
    assert whole in Concat(s.pods["u"].devices[whole.kind]);
  }

  // ---- a record re-added after its room was given away ----

  /**
    An informer event is safe in every case if and only if its pod is recorded, which is what
    the guard of the pod map tests.
   */
  lemma SyncSafeExactly(caps: Capacities, support: Annotations, s: State, uid: string,
                        node: string, id: string)
    requires Invariant(caps, s.nodes, s.pods) && node in caps && id in caps[node]
    ensures SyncIsSafe(caps, support, s, uid) <==> uid in s.pods
  {
    if uid !in s.pods {
      var info := PodInfo(node, map[NVIDIA := [[TooLarge(id, caps[node][id])]]]);
      TooLargeBreaks(caps, s, uid, node, id);
      var t := s.(pods := s.pods[uid := info]);
      assert Next(support, s, Sync(uid, info), t);
    }
  }

  /** A share with more memory than the card has. */
  function TooLarge(id: string, c: DeviceInfo): ContainerDevice {
    ContainerDevice(0, id, NVIDIA, c.devmem + 1, 0)
  }

  lemma TooLargeBreaks(caps: Capacities, s: State, uid: string, node: string, id: string)
    requires Invariant(caps, s.nodes, s.pods) && uid !in s.pods && node in caps && id in caps[node]
    ensures var devices: PodDevices := map[NVIDIA := [[TooLarge(id, caps[node][id])]]];
      NonNegativePod(devices) && !Invariant(caps, s.nodes, s.pods[uid := PodInfo(node, devices)])
  {
    var e := TooLarge(id, caps[node][id]);
    assert Safe(caps[node][id], PodsUsage(s.pods, node, id));
    ConcatOne([e]);
    AddedShare(s.pods, uid, node, e);
    assert !Safe(caps[node][id], PodsUsage(s.pods[uid := PodInfo(node, map[NVIDIA := [[e]]])], node, id));
  }

  ghost predicate SyncIsSafe(caps: Capacities, support: Annotations, s: State, uid: string) {
    forall info: PodInfo, t: State ::
      NonNegativePod(info.devices) && Next(support, s, Sync(uid, info), t) ==> Invariant(caps, t.nodes, t.pods)
  }

  /**
    And it happens: on any card with one slot, a pod is filtered and recorded, filtered again
    without success and dropped, its slot is given to another pod, and then an informer event
    brings its annotations back.
   */
  lemma StaleSyncOvercommits(support: Annotations, annos: Annotations, node: string, c: DeviceInfo)
    returns (states: seq<State>, events: seq<Event>, ev: Event, t: State)
    requires c.count == 1 && c.devmem >= 0 && c.devcore >= 0
    requires Readable(support, RecordFor(c, NOTHING), annos)
    ensures Run(map[node := map[c.id := c]], support, states, events) && |states| == 5
    ensures "q" in states[2].pods && states[2].pods["q"] == PodInfo(node, RecordFor(c, NOTHING))
    ensures "q" !in states[3].pods && "q" !in states[4].pods
    ensures ev == Sync("q", PodInfo(node, DecodedPod(support, annos))) && Next(support, states[4], ev, t)
    ensures PodsUsage(t.pods, node, c.id).slots == c.count + 1
  {
    states, events := DroppedRun(support, node, c);
    var info := PodInfo(node, DecodedPod(support, annos));
    var s, e := states[4], ShareFor(c, NOTHING);
    ev, t := Sync("q", info), State(s.nodes, s.pods["q" := info]);
    assert PodUsage(info.devices, c.id) == Share(e) by {
      ReadBack(support, annos, c);
    }
    TwoOnCard(node, e, s.pods, info);
  }

  /** The run up to the event. */
  lemma DroppedRun(support: Annotations, node: string, c: DeviceInfo)
    returns (states: seq<State>, events: seq<Event>)
    requires c.count == 1 && c.devmem >= 0 && c.devcore >= 0
    ensures Run(map[node := map[c.id := c]], support, states, events) && |states| == 5
    ensures states[2].pods == map["q" := PodInfo(node, RecordFor(c, NOTHING))] && states[3].pods == map[]
    ensures states[4] == State(map[node := [c]], map["u" := PodInfo(node, RecordFor(c, NOTHING))])
  {
    var caps: Capacities := map[node := map[c.id := c]];
    var nodes, none: Pods := map[node := [c]], map[];
    var p := PodInfo(node, RecordFor(c, NOTHING));
    RunRegisters(caps, support, node, [c]);
    states, events := [State(map[], map[]), State(nodes, none)], [Register(node, [c])];
    assert PodsUsage(none, node, c.id) == ZERO by {
      NoPodsUsage(node, c.id);
    }
    RunFilters(caps, support, states, events, states[1], "q", node, c, NOTHING);
    states, events := states + [State(nodes, none["q" := p])], events + [FilterOne("q", node, NOTHING)];
    RunDrops(caps, support, states, events, states[2], "q", NOTHING);
    assert none["q" := p] - {"q"} == none;
    states, events := states + [State(nodes, none)], events + [Filter("q", [[NOTHING]], AnyCard(), [], true)];
    RunFilters(caps, support, states, events, states[3], "u", node, c, NOTHING);
    states, events := states + [State(nodes, none["u" := p])], events + [FilterOne("u", node, NOTHING)];
  }

  lemma ReadBack(support: Annotations, annos: Annotations, c: DeviceInfo)
    requires Readable(support, RecordFor(c, NOTHING), annos)
    ensures PodUsage(DecodedPod(support, annos), c.id) == Share(ShareFor(c, NOTHING))
  {
    NothingLost(support, RecordFor(c, NOTHING), annos, c.id);
    OneShareUsage(ShareFor(c, NOTHING));
  }

  lemma TwoOnCard(node: string, e: ContainerDevice, pods: Pods, info: PodInfo)
    requires pods == map["u" := PodInfo(node, map[e.kind := [[e]]])]
    requires info.nodeId == node && PodUsage(info.devices, e.uuid) == Share(e)
    ensures PodsUsage(pods["q" := info], node, e.uuid).slots == 2
  {
    assert PodsUsage(pods, node, e.uuid) == Share(e) by {
      FirstShare("u", node, e);
    }
    PodsUsageAdd(pods, "q", info, node, e.uuid);
  }

  // ---- a container without requests after one with requests ----

  lemma CrashOnCard(d: DeviceUsage, e: ContainerDevice)
    requires HasRoom(d, 0, 0) && e == ContainerDevice(0, d.id, NVIDIA, 0, 0)
    ensures CrashRun([d], [[NOTHING], []], AnyCard(), [[[e]]])
  {
    var nums: PodRequests, placed: PodPlacement := [[NOTHING], []], [[[e]]];
    assert Served([d], [], [NOTHING], AnyCard(), [[e]]) by {
      OneCardServed(d, NOTHING, e);
    }
    assert Concat(nums[..1]) == [NOTHING] by {
      assert nums[..1] == [[NOTHING]];
      ConcatOne([NOTHING]);
    }
    assert Concat(placed) == [[e]] by {
      ConcatOne([[e]]);
    }
    var none: PodPlacement := [];
    UncrashedSnoc(nums, none, [[e]]);
    assert none + [[[e]]] == placed;
  }

  /** On a card with room the second container is a pitfall. */
  lemma PitfallOnCard(d: DeviceUsage, nums: PodRequests)
    requires HasRoom(d, 0, 0) && nums == [[NOTHING], []]
    ensures Pitfall([d], nums, AnyCard(), 1) && ApartBefore(nums, AnyCard())
  {
    var e := ContainerDevice(0, d.id, NVIDIA, 0, 0);
    PicksOne([d], NOTHING, AnyCard(), 0, e);
    PicksCanFit([d], NOTHING, AnyCard(), [e]);
    assert nums[..1] == [[NOTHING]];
    ConcatOne([NOTHING]);
  }

  /**
    The padding does crash: on any card with room, every filter of a pod whose second container
    asks for nothing ends in a panic, and the pod's record is gone.
   */
  lemma PaddingCrashes(support: Annotations, node: string, c: DeviceInfo, uid: string, patchOk: bool)
    requires c.count >= 1 && c.devmem >= 0 && c.devcore >= 0
    ensures var s, nums := State(map[node := [c]], map[]), [[NOTHING], []];
      && Run(map[node := map[c.id := c]], support, [State(map[], map[]), s], [Register(node, [c])])
      && CrashRun(Table([c], s.pods, node), nums, AnyCard(), [[[ShareFor(c, NOTHING)]]])
      && FilterEffect(s.nodes, s.pods, s.pods, uid, nums, AnyCard(), [node], patchOk, Crashed, map[])
      && forall after, res, runs ::
           FilterEffect(s.nodes, s.pods, after, uid, nums, AnyCard(), [node], patchOk, res, runs) ==>
             res == Crashed && after == s.pods
  {
    var nums: PodRequests := [[NOTHING], []];
    var s := State(map[node := [c]], map[]);
    var d := View(c, ZERO);
    RunRegisters(map[node := map[c.id := c]], support, node, [c]);
    assert Table([c], s.pods, node) == [d] by {
      OneCardTable(c, s.pods, node);
      NoPodsUsage(node, c.id);
    }
    assert s.pods - {uid} == s.pods;
    CrashOnCard(d, ShareFor(c, NOTHING));
    CrashIsPossible(s.nodes, s.pods, uid, node, nums, patchOk, [[[ShareFor(c, NOTHING)]]]);
    forall after, res, runs | FilterEffect(s.nodes, s.pods, after, uid, nums, AnyCard(), [node], patchOk, res, runs)
      ensures res == Crashed && after == s.pods
    {
      PaddingPitfall(node, c, uid, nums, s);
      CrashIsCertain(s.nodes, s.pods, after, uid, node, nums, AnyCard(), patchOk, res, runs);
    }
  }

  lemma PaddingPitfall(node: string, c: DeviceInfo, uid: string, nums: PodRequests, s: State)
    requires c.count >= 1 && c.devmem >= 0 && c.devcore >= 0
    requires s == State(map[node := [c]], map[]) && nums == [[NOTHING], []]
    ensures Pitfall(Table(s.nodes[node], s.pods - {uid}, node), nums, AnyCard(), 1) && ApartBefore(nums, AnyCard())
    ensures WellRegistered(s.nodes) && s.pods - {uid} == s.pods && forall n :: n in nums ==> Wanted(n)
  {
    assert s.pods - {uid} == s.pods;
    OneCardTable(c, s.pods, node);
    NoPodsUsage(node, c.id);
    PitfallOnCard(View(c, ZERO), nums);
  }

  lemma CrashIsPossible(nodes: Nodes, pods: Pods, uid: string, node: string, nums: PodRequests, patchOk: bool,
                        placed: PodPlacement)
    requires node in nodes && nums == [[NOTHING], []] && pods - {uid} == pods
    requires CrashRun(Table(nodes[node], pods, node), nums, AnyCard(), placed)
    ensures FilterEffect(nodes, pods, pods, uid, nums, AnyCard(), [node], patchOk, Crashed, map[])
  {
    assert Total(nums) == 1 by {
      var none: seq<Request> := [];
      assert nums[..1] == [[NOTHING]] && Wants(none) == 0;
      TotalOfOne(NOTHING);
    }
    var usage, v := UsageTable(nodes, pods, [node]), Visit(nums, placed);
    assert node in usage && CrashRun(usage[node], v.order, AnyCard(), v.placed) && Reordered(nums, v.order);
    assert SomeCrash(usage, nums, AnyCard());
  }

  lemma CrashIsCertain(nodes: Nodes, pods: Pods, after: Pods, uid: string, node: string, nums: PodRequests,
                       policy: Policy, patchOk: bool, res: FilterResult, runs: Visits)
    requires node in nodes && WellRegistered(nodes) && ApartBefore(nums, policy)
    requires forall n :: n in nums ==> Wanted(n)
    requires Pitfall(Table(nodes[node], pods - {uid}, node), nums, policy, 1)
    requires FilterEffect(nodes, pods, after, uid, nums, policy, [node], patchOk, res, runs)
    ensures res == Crashed && after == pods - {uid}
  {
    var names := [node];
    assert node in names;
    FilterCrashesExactly(nodes, pods, after, uid, nums, policy, names, patchOk, res, runs);
  }

  // ---- two kinds in one container ----

  /** The first kind is served on the only card. */
  lemma FirstIsServed(d: DeviceUsage)
    requires d == View(CARD_A, ZERO)
    ensures Served([d], [], [ASK_A, ASK_B], SameType(), [[SHARE_A]])
  {
    var rs, none: seq<ContainerDevices> := [ASK_A, ASK_B], [];
    assert Chosen(Current([d], [] + Concat(none)), ASK_A, SameType(), [SHARE_A]) by {
      NothingCharged([d]);
      assert [] + Concat(none) == [];
      PicksOne([d], ASK_A, SameType(), 0, SHARE_A);
    }
    ServedSnoc([d], [], rs, SameType(), none, [SHARE_A]);
    assert none + [[SHARE_A]] == [[SHARE_A]];
  }

  /** The second has no card. */
  lemma SecondHasNoCard(devs: seq<DeviceUsage>)
    requires forall d :: d in devs ==> d.kind == "A"
    ensures !CanFit(devs, ASK_B, SameType())
  {
    assert forall g :: Candidates(devs, ASK_B, SameType(), g) == {};
  }

  lemma OnlyFirstServed(d: DeviceUsage)
    requires d == View(CARD_A, ZERO)
    ensures Tried([d], [[ASK_A, ASK_B]], SameType(), [[[SHARE_A]]]) && Uncrashed([[ASK_A, ASK_B]], [[[SHARE_A]]])
  {
    var nums: PodRequests, placed: PodPlacement := [[ASK_A, ASK_B]], [[[SHARE_A]]];
    assert Concat(nums) == [ASK_A, ASK_B] && Concat(placed) == [[SHARE_A]] by {
      ConcatOne([ASK_A, ASK_B]);
      ConcatOne([[SHARE_A]]);
    }
    assert Served([d], [], Concat(nums), SameType(), Concat(placed)) by {
      FirstIsServed(d);
    }
    assert Maximal([d], [], Concat(nums), SameType(), Concat(placed)) by {
      SecondHasNoCard(Current([d], [] + Concat(Concat(placed))));
    }
    assert Uncrashed(nums, placed) by {
      var none: PodPlacement := [];
      UncrashedSnoc(nums, none, [[SHARE_A]]);
      assert none + [[[SHARE_A]]] == placed;
    }
  }

  /** So a container that asks for two kinds is scheduled on a node that has only the first. */
  lemma PartlyServedRun(support: Annotations)
    ensures var s := State(map["n" := [CARD_A]], map[]);
      && Run(CAPS, support, [State(map[], map[]), s], [Register("n", [CARD_A])])
      && FilterEffect(s.nodes, s.pods, map["u" := PodInfo("n", map["A" := [[SHARE_A]]])], "u", [[ASK_A, ASK_B]],
                      SameType(), ["n"], true, Scheduled("n", map[]),
                      map["n" := Visit([[ASK_A, ASK_B]], [[[SHARE_A]]])])
  {
    RunRegisters(CAPS, support, "n", [CARD_A]);
    PartlyFiltered([[ASK_A, ASK_B]], [[[SHARE_A]]], map["n" := [CARD_A]], map[]);
  }

  lemma PartlyFiltered(nums: PodRequests, placed: PodPlacement, nodes: Nodes, pods: Pods)
    requires nums == [[ASK_A, ASK_B]] && placed == [[[SHARE_A]]] && nodes == map["n" := [CARD_A]] && pods == map[]
    ensures FilterEffect(nodes, pods, map["u" := PodInfo("n", map["A" := [[SHARE_A]]])], "u", nums, SameType(), ["n"],
                         true, Scheduled("n", map[]), map["n" := Visit(nums, placed)])
  {
    assert pods - {"u"} == pods;
    assert Tried(Table([CARD_A], pods, "n"), nums, SameType(), placed) && Uncrashed(nums, placed) by {
      OneCardTable(CARD_A, pods, "n");
      NoPodsUsage("n", "a");
      OnlyFirstServed(View(CARD_A, ZERO));
    }
    assert Record(nums, placed) == map["A" := [[SHARE_A]]] by {
      FirstKindRecord(nums, placed);
    }
    assert Total(nums) == 2 by {
      var none: PodRequests, rs: seq<Request> := [], [];
      assert nums[..0] == none && Total(none) == 0;
      assert [ASK_A, ASK_B][..1] == [ASK_A] && [ASK_A][..0] == rs;
      assert Wants(rs) == 0 && Wants([ASK_A]) == 1;
    }
    FilteredAsRecorded(nodes, pods, "u", "n", nums, SameType(), placed);
  }

  lemma FirstKindRecord(nums: PodRequests, placed: PodPlacement)
    requires nums == [[ASK_A, ASK_B]] && placed == [[[SHARE_A]]]
    ensures Record(nums, placed) == map["A" := [[SHARE_A]]]
  {
    var lists: seq<ContainerDevices> := [[SHARE_A]];
    var none: PodDevices := map[];
    assert placed[..0] == [] && lists[..0] == [];
    assert RecordContainer(none, nums[0], lists[..0]) == none;
    ConcatOne([SHARE_A]);
    assert Lists(none, "A") + [Concat(lists)] == lists;
    assert Record(nums, placed[..0]) == none;
  }

  // ---- two requests on one card ----

  const FOR_A := Request(1, "A", 0, 101, 0)
  const FOR_B := Request(1, "B", 0, 101, 0)

  /** Where a card is accepted for two kinds, the sums of a container can exceed the node's slots. */
  lemma SharedCardRun(c: DeviceInfo)
    requires c.count >= 2 && c.devmem >= 0 && c.devcore >= 0
    ensures var d, e, f := View(c, ZERO), ShareFor(c, FOR_A), ShareFor(c, FOR_B);
      Served([d], [], [FOR_A, FOR_B], AnyCard(), [[e], [f]]) && TotalSlots([d], [e, f]) > SlotSum([d])
  {
    var d, e, f := View(c, ZERO), ShareFor(c, FOR_A), ShareFor(c, FOR_B);
    assert Chosen(Current([d], []), FOR_A, AnyCard(), [e]) by {
      NothingCharged([d]);
      PicksOne([d], FOR_A, AnyCard(), 0, e);
    }
    assert Chosen(Current([d], [e]), FOR_B, AnyCard(), [f]) by {
      SecondOnCard(c, d, e, f);
    }
    BothServed([d], FOR_A, FOR_B, AnyCard(), e, f);
    SharedCardCountsTwice([d], 0, e, f);
    OneCardSlots(d);
  }

  /** The first share takes a slot and nothing else, so the card still has room. */
  lemma SecondHasRoom(c: DeviceInfo, d: DeviceUsage, e: ContainerDevice)
    requires c.count >= 2 && c.devmem >= 0 && c.devcore >= 0
    requires d == View(c, ZERO) && e == ShareFor(c, FOR_A)
    ensures Charge(d, Share(e)) == d.(used := 1) && Usable(d.(used := 1), FOR_B, AnyCard())
  {
  }

  lemma SecondOnCard(c: DeviceInfo, d: DeviceUsage, e: ContainerDevice, f: ContainerDevice)
    requires c.count >= 2 && c.devmem >= 0 && c.devcore >= 0
    requires d == View(c, ZERO) && e == ShareFor(c, FOR_A) && f == ShareFor(c, FOR_B)
    ensures Chosen(Current([d], [e]), FOR_B, AnyCard(), [f])
  {
    var charged := d.(used := 1);
    SecondHasRoom(c, d, e);
    ChargedAlone(d, e);
    assert f.usedmem == MemNeed(charged.totalmem, FOR_B);
    PicksAlone(charged, FOR_B, AnyCard(), f);
  }

  lemma ChargedAlone(d: DeviceUsage, e: ContainerDevice)
    requires e.uuid == d.id
    ensures Current([d], [e]) == [Charge(d, Share(e))]
  {
    ListUsageOne(e, d.id);
  }

  lemma PicksAlone(d: DeviceUsage, r: Request, policy: Policy, e: ContainerDevice)
    requires r.nums == 1 && Usable(d, r, policy) && !NumaBound(policy, r)
    requires e.uuid == d.id && e.kind == r.kind && e.usedcores == r.coresreq && e.usedmem == MemNeed(d.totalmem, r)
    ensures Chosen([d], r, policy, [e])
  {
    PicksOne([d], r, policy, 0, e);
  }

  lemma OneCardSlots(d: DeviceUsage)
    ensures SlotSum([d]) == d.count
  {
    assert [d][..0] == [];
  }
}
