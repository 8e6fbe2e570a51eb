/**
  Safety over whole runs of the scheduler: no card is ever overcommitted and a card given
  out whole is never shared, whatever the order of filters, deletions, registrations and
  restarts.
 */
module SchedulerRuns {
  import opened Devices
  import opened Usages
  import opened Sorting
  import opened Fitting
  import opened Placement
  import opened Scoring
  import opened PodScoring
  import opened ScoreSums
  import opened Recording
  import opened PodAnnotations
  import opened HandOff
  import opened Schedulers

  /** The capacity of every card that may ever be registered, by node and identifier. */
  type Capacities = map<string, map<string, DeviceInfo>>

  predicate SameSize(c: DeviceInfo, d: DeviceInfo) {
    c.count == d.count && c.devmem == d.devmem && c.devcore == d.devcore
  }

  ghost predicate ValidCapacities(caps: Capacities) {
    forall n, id :: n in caps && id in caps[n] ==>
      caps[n][id].count >= 0 && caps[n][id].devmem >= 0 && caps[n][id].devcore >= 0
  }

  ghost predicate Conforms(caps: Capacities, node: string, infos: seq<DeviceInfo>) {
    && UniqueCards(infos)
    && forall c :: c in infos ==> node in caps && c.id in caps[node] && SameSize(c, caps[node][c.id])
  }

  // ---- what is safe ----

  /** Possible sums of shares with non-negative memory and cores. */
  predicate Plausible(u: Usage) {
    u.slots >= 0 && u.mem >= 0 && u.cores >= 0 && 0 <= u.whole <= u.slots && 100 * u.whole <= u.cores
  }

  /** Within capacity in all three dimensions; a whole share of a 100-core card is alone on it. */
  predicate Safe(c: DeviceInfo, u: Usage) {
    && Plausible(u)
    && u.slots <= c.count && u.mem <= c.devmem && u.cores <= c.devcore
    && (c.devcore == 100 && u.whole > 0 ==> u.slots == 1)
  }

  predicate NonNegative(e: ContainerDevice) {
    e.usedmem >= 0 && e.usedcores >= 0
  }

  ghost predicate NonNegativeList(es: ContainerDevices) {
    forall e :: e in es ==> NonNegative(e)
  }

  ghost predicate NonNegativePod(pd: PodDevices) {
    forall kind :: kind in pd ==> NonNegativeList(Concat(pd[kind]))
  }

  ghost predicate NonNegativePods(pods: Pods) {
    forall uid :: uid in pods ==> NonNegativePod(pods[uid].devices)
  }

  ghost predicate Invariant(caps: Capacities, nodes: Nodes, pods: Pods) {
    && (forall n :: n in nodes ==> Conforms(caps, n, nodes[n]))
    && NonNegativePods(pods)
    && (forall n, id :: n in caps && id in caps[n] ==> Safe(caps[n][id], PodsUsage(pods, n, id)))
  }

  // ---- sums are plausible ----

  lemma {:induction false} ListPlausible(es: ContainerDevices, id: string)
    requires NonNegativeList(es)
    ensures Plausible(ListUsage(es, id))
  {
    if es != [] {
      ListPlausible(es[..|es| - 1], id);
      assert NonNegative(es[|es| - 1]);
    }
  }

  lemma {:induction false} SumPlausible<V(!new)>(m: map<string, V>, f: V -> Usage)
    requires forall k :: k in m ==> Plausible(f(m[k]))
    ensures Plausible(SumMap(m, f))
    decreases |m|
  {
    if m == map[] {
      SumMapEmpty(f);
    } else {
      var k :| k in m;
      assert (m - {k}).Keys == m.Keys - {k};
      SumPlausible(m - {k}, f);
      SumMapRemove(m, k, f);
    }
  }

  lemma PodPlausible(pd: PodDevices, id: string)
    requires NonNegativePod(pd)
    ensures Plausible(PodUsage(pd, id))
  {
    forall k | k in pd
      ensures Plausible(ListUsage(Concat(pd[k]), id))
    {
      ListPlausible(Concat(pd[k]), id);
    }
    SumPlausible(pd, (lists: PodSingleDevice) => ListUsage(Concat(lists), id));
  }

  lemma PodsPlausible(pods: Pods, node: string, id: string)
    requires NonNegativePods(pods)
    ensures Plausible(PodsUsage(pods, node, id))
  {
    forall k | k in pods
      ensures Plausible(RecordUsage(pods[k], node, id))
    {
      PodPlausible(pods[k].devices, id);
    }
    SumPlausible(pods, (p: PodInfo) => RecordUsage(p, node, id));
  }

  // ---- giving and taking back ----

  /** Taking shares back never breaks safety. */
  lemma LessIsSafe(c: DeviceInfo, u: Usage, v: Usage)
    requires Plausible(u) && Plausible(v) && Safe(c, u.Plus(v))
    ensures Safe(c, u)
  {
  }

  /** A share that passes the search's test keeps the card safe. */
  lemma RoomIsSafe(c: DeviceInfo, d: DeviceUsage, u: Usage, e: ContainerDevice)
    requires Safe(c, u) && NonNegative(e)
    requires d.used == u.slots && d.usedmem == u.mem && d.usedcores == u.cores
    requires d.count == c.count && d.totalmem == c.devmem && d.totalcore == c.devcore
    requires HasRoom(d, e.usedmem, e.usedcores)
    ensures Safe(c, u.Plus(Share(e)))
  {
  }

  /** A legal sequence of shares keeps every registered card safe. */
  lemma {:induction false} LegalIsSafe(c: DeviceInfo, info: DeviceInfo, u: Usage, devs0: seq<DeviceUsage>,
                                       es: ContainerDevices)
    requires Safe(c, u) && SameSize(info, c) && NonNegativeList(es)
    requires HasCard(devs0, info.id) && Card(devs0, info.id) == View(info, u)
    requires Legal(devs0, [], es)
    ensures Safe(c, u.Plus(ListUsage(es, info.id)))
    decreases |es|
  {
    if es == [] {
      assert u.Plus(ZERO) == u;
    } else {
      var n := |es| - 1;
      var before, e := es[..n], es[n];
      LegalIsSafe(c, info, u, devs0, before);
      if e.uuid == info.id {
        var now := u.Plus(ListUsage(before, info.id));
        assert [] + before == before;
        assert NonNegative(e);
        RoomIsSafe(c, Charge(View(info, u), ListUsage(before, info.id)), now, e);
        PlusAssociates(u, ListUsage(before, info.id), Share(e));
      }
    }
  }

  /** Legal shares name only cards of the node. */
  lemma {:induction false} LegalIsLocal(devs0: seq<DeviceUsage>, es: ContainerDevices, id: string)
    requires Legal(devs0, [], es) && !HasCard(devs0, id)
    ensures ListUsage(es, id) == ZERO
    decreases |es|
  {
    if es != [] {
      LegalIsLocal(devs0, es[..|es| - 1], id);
    }
  }

  // ---- the shares of a filtered pod ----

  /** No request asks for negative cores, or is priced below zero on a card that may be registered. */
  ghost predicate Priced(caps: Capacities, nums: PodRequests) {
    forall rs, r :: rs in nums && r in rs ==> PricedRequest(caps, r)
  }

  ghost predicate PricedRequest(caps: Capacities, r: Request) {
    r.coresreq >= 0 && forall n, id :: n in caps && id in caps[n] ==> MemNeed(caps[n][id].devmem, r) >= 0
  }

  ghost predicate PricedOn(devs0: seq<DeviceUsage>, r: Request) {
    r.coresreq >= 0 && forall i :: 0 <= i < |devs0| ==> MemNeed(devs0[i].totalmem, r) >= 0
  }

  lemma PickNonNegative(devs0: seq<DeviceUsage>, applied: ContainerDevices, r: Request,
                        policy: Policy, es: ContainerDevices, e: ContainerDevice)
    requires PricedOn(devs0, r) && Picks(Current(devs0, applied), r, policy, es) && e in es
    ensures NonNegative(e)
  {
    var now := Current(devs0, applied);
    var numa :| Ids(es) <= Candidates(now, r, policy, numa);
    assert e.uuid in Ids(es);
    var d :| d in now && d.id == e.uuid;
    var i :| 0 <= i < |now| && now[i] == d;
    assert ShareOf(now, r, e);
    assert d.totalmem == devs0[i].totalmem;
  }

  lemma {:induction false} ServedNonNegative(devs0: seq<DeviceUsage>, applied: ContainerDevices, rs: seq<Request>,
                                             policy: Policy, placed: seq<ContainerDevices>)
    requires Served(devs0, applied, rs, policy, placed) && forall r :: r in rs ==> PricedOn(devs0, r)
    ensures NonNegativeList(Concat(placed))
    decreases |placed|
  {
    if placed != [] {
      var n := |placed| - 1;
      ServedNonNegative(devs0, applied, rs, policy, placed[..n]);
      forall e | e in placed[n]
        ensures NonNegative(e)
      {
        PickNonNegative(devs0, applied + Concat(placed[..n]), rs[n], policy, placed[n], e);
      }
    }
  }

  lemma {:induction false} ContainerNonNegative(pd: PodDevices, rs: seq<Request>, lists: seq<ContainerDevices>)
    requires |lists| <= |rs| && NonNegativePod(pd) && NonNegativeList(Concat(lists))
    ensures NonNegativePod(RecordContainer(pd, rs, lists))
    decreases |lists|
  {
    if lists != [] {
      var n := |lists| - 1;
      ContainerNonNegative(pd, rs, lists[..n]);
      var before, kind := RecordContainer(pd, rs, lists[..n]), rs[n].kind;
      ConcatSnoc(Lists(before, kind), Concat(lists));
    }
  }

  lemma {:induction false} RecordNonNegative(nums: PodRequests, placed: PodPlacement)
    requires Recordable(nums, placed) && NonNegativeList(Shares(placed))
    ensures NonNegativePod(Record(nums, placed))
    decreases |placed|
  {
    if placed != [] {
      var n := |placed| - 1;
      assert placed[..n] + [placed[n]] == placed;
      SharesSnoc(placed[..n], placed[n]);
      RecordNonNegative(nums, placed[..n]);
      ContainerNonNegative(Record(nums, placed[..n]), nums[n], placed[n]);
    }
  }

  lemma PlacedNonNegative(caps: Capacities, nodes: Nodes, pods: Pods, node: string,
                          nums: PodRequests, policy: Policy, placed: PodPlacement)
    requires node in nodes && Conforms(caps, node, nodes[node]) && Priced(caps, nums)
    requires Tried(Table(nodes[node], pods, node), nums, policy, placed)
    ensures NonNegativeList(Shares(placed))
  {
    var devs0 := Table(nodes[node], pods, node);
    forall r | r in Concat(nums)
      ensures PricedOn(devs0, r)
    {
      var c := InConcat(nums, r);
      assert PricedRequest(caps, r);
      forall i | 0 <= i < |devs0|
        ensures MemNeed(devs0[i].totalmem, r) >= 0
      {
        assert nodes[node][i] in nodes[node];
      }
    }
    ServedNonNegative(devs0, [], Concat(nums), policy, Concat(placed));
  }

  /** Legal shares keep each card of the node safe, registered or not. */
  lemma SharesAreSafe(c: DeviceInfo, infos: seq<DeviceInfo>, pods: Pods, node: string,
                      es: ContainerDevices, id: string)
    requires Safe(c, PodsUsage(pods, node, id)) && NonNegativeList(es)
    requires UniqueCards(infos) && forall d :: d in infos && d.id == id ==> SameSize(d, c)
    requires Legal(Table(infos, pods, node), [], es)
    ensures Safe(c, PodsUsage(pods, node, id).Plus(ListUsage(es, id)))
  {
    var devs0, u := Table(infos, pods, node), PodsUsage(pods, node, id);
    if HasCard(devs0, id) {
      var i :| 0 <= i < |devs0| && devs0[i].id == id;
      TableUnique(infos, pods, node);
      CardAt(devs0, i);
      assert infos[i] in infos;
      LegalIsSafe(c, infos[i], u, devs0, es);
    } else {
      assert ListUsage(es, id) == ZERO by {
        LegalIsLocal(devs0, es, id);
      }
      PlusZero(u);
    }
  }

  lemma TriedIsLegal(infos: seq<DeviceInfo>, pods: Pods, node: string, nums: PodRequests,
                     policy: Policy, placed: PodPlacement)
    requires UniqueCards(infos) && Tried(Table(infos, pods, node), nums, policy, placed)
    ensures Legal(Table(infos, pods, node), [], Shares(placed)) && Recordable(nums, placed)
  {
    TableUnique(infos, pods, node);
    ServedIsLegal(Table(infos, pods, node), [], Concat(nums), policy, Concat(placed));
  }

  /** Adding a record that is safe on its own node keeps every pair of node and card safe. */
  lemma AddedIsSafe(c: DeviceInfo, others: Pods, uid: string, p: PodInfo, n: string, id: string)
    requires uid !in others && Safe(c, PodsUsage(others, n, id))
    requires n == p.nodeId ==> Safe(c, PodsUsage(others, n, id).Plus(PodUsage(p.devices, id)))
    ensures Safe(c, PodsUsage(others[uid := p], n, id))
  {
    var u, w, x := PodsUsage(others, n, id), RecordUsage(p, n, id), PodsUsage(others[uid := p], n, id);
    assert Safe(c, u.Plus(w)) by {
      PlusZero(u);
    }
    assert x == u.Plus(w) by {
      PodsUsageAdd(others, uid, p, n, id);
    }
  }

  lemma PlacingKeeps(caps: Capacities, nodes: Nodes, others: Pods, uid: string, node: string,
                     nums: PodRequests, policy: Policy, placed: PodPlacement)
    requires Invariant(caps, nodes, others) && uid !in others && node in nodes
    requires Priced(caps, nums) && OneKindServed(placed)
    requires Tried(Table(nodes[node], others, node), nums, policy, placed)
    ensures Invariant(caps, nodes, others[uid := PodInfo(node, Record(nums, placed))])
  {
    TriedIsLegal(nodes[node], others, node, nums, policy, placed);
    PlacedNonNegative(caps, nodes, others, node, nums, policy, placed);
    RecordNonNegative(nums, placed);
    SafeAfterPlacing(caps, nodes, others, uid, node, nums, placed);
  }

  lemma SafeAfterPlacing(caps: Capacities, nodes: Nodes, others: Pods, uid: string, node: string,
                         nums: PodRequests, placed: PodPlacement)
    requires Invariant(caps, nodes, others) && uid !in others && node in nodes
    requires Recordable(nums, placed) && OneKindServed(placed) && NonNegativeList(Shares(placed))
    requires NonNegativePod(Record(nums, placed)) && Legal(Table(nodes[node], others, node), [], Shares(placed))
    ensures Invariant(caps, nodes, others[uid := PodInfo(node, Record(nums, placed))])
  {
    var p := PodInfo(node, Record(nums, placed));
    forall n, id | n in caps && id in caps[n]
      ensures Safe(caps[n][id], PodsUsage(others[uid := p], n, id))
    {
      if n == node {
        assert Safe(caps[n][id], PodsUsage(others, n, id).Plus(PodUsage(p.devices, id))) by {
          SharesAreSafe(caps[n][id], nodes[node], others, node, Shares(placed), id);
          RecordAgrees(nums, placed, id);
        }
      }
      AddedIsSafe(caps[n][id], others, uid, p, n, id);
    }
  }

  lemma RemovingKeeps(caps: Capacities, nodes: Nodes, pods: Pods, uid: string)
    requires Invariant(caps, nodes, pods)
    ensures Invariant(caps, nodes, pods - {uid})
  {
    if uid in pods {
      forall n, id | n in caps && id in caps[n]
        ensures Safe(caps[n][id], PodsUsage(pods - {uid}, n, id))
      {
        PodsUsageRemove(pods, uid, n, id);
        PodsPlausible(pods - {uid}, n, id);
        assert Plausible(RecordUsage(pods[uid], n, id)) by {
          PodPlausible(pods[uid].devices, id);
        }
        LessIsSafe(caps[n][id], PodsUsage(pods - {uid}, n, id), RecordUsage(pods[uid], n, id));
      }
    } else {
      assert pods - {uid} == pods;
    }
  }

  // ---- runs ----

  datatype State = State(nodes: Nodes, pods: Pods)

  datatype Event =
    | Filter(uid: string, nums: PodRequests, policy: Policy, names: seq<string>, patchOk: bool)
    | Remove(uid: string)
    | Sync(uid: string, info: PodInfo)
    | Register(node: string, infos: seq<DeviceInfo>)
    | Unregister(node: string, gone: seq<DeviceInfo>)
    | Restart(read: Notes)

  /** What a restarted scheduler finds on a pod: its node annotation and its annotations. */
  datatype Note = Note(node: string, annos: Annotations)

  type Notes = map<string, Note>

  ghost function Reread(support: Annotations, read: Notes): Pods {
    map uid | uid in read :: PodInfo(read[uid].node, DecodedPod(support, read[uid].annos))
  }

  /** What an event may do. A restart forgets everything and reads all pods with a node annotation back. */
  ghost predicate Next(support: Annotations, s: State, ev: Event, t: State) {
    match ev
    case Filter(uid, nums, policy, names, patchOk) =>
      && t.nodes == s.nodes
      && exists r, runs :: FilterEffect(s.nodes, s.pods, t.pods, uid, nums, policy, names, patchOk, r, runs)
    case Remove(uid) => t == s.(pods := s.pods - {uid})
    case Sync(uid, info) => t == if uid in s.pods then s else s.(pods := s.pods[uid := info])
    case Register(node, infos) => t == s.(nodes := WithCards(s.nodes, node, infos))
    case Unregister(node, gone) =>
      t == s || (node in s.nodes && t == s.(nodes := s.nodes[node := Remaining(s.nodes[node], gone)]))
    case Restart(read) => t == State(map[], Reread(support, read))
  }

  /**
    What keeps an event from breaking safety. A filter must not record a run in which a
    container was served for two kinds; asking for one kind per container is enough.
   */
  ghost predicate Allowed(caps: Capacities, support: Annotations, s: State, ev: Event, t: State) {
    match ev
    case Filter(uid, nums, policy, names, patchOk) =>
      && Priced(caps, nums)
      && exists r, runs ::
           && FilterEffect(s.nodes, s.pods, t.pods, uid, nums, policy, names, patchOk, r, runs)
           && RecordsOneKind(r, runs)
    case Remove(_) => true
    case Sync(uid, _) => uid in s.pods
    case Register(node, infos) =>
      Conforms(caps, node, (if node in s.nodes then s.nodes[node] else []) + infos)
    case Unregister(_, _) => true
    case Restart(read) =>
      && AllReadable(support, s.pods, read)
      && forall uid :: uid in read && uid !in s.pods ==> Silent(DecodedPod(support, read[uid].annos))
  }

  /** Every recorded pod is found again, on its node and with its record in its annotations. */
  ghost predicate AllReadable(support: Annotations, pods: Pods, read: Notes) {
    forall uid :: uid in pods ==>
      && uid in read && read[uid].node == pods[uid].nodeId
      && Readable(support, pods[uid].devices, read[uid].annos)
  }

  /** The record holds no share. */
  ghost predicate Silent(pd: PodDevices) {
    forall kind :: kind in pd ==> Concat(pd[kind]) == []
  }

  /** The recorded run, if any, serves no container for two kinds. */
  ghost predicate RecordsOneKind(r: FilterResult, runs: Visits) {
    r.Scheduled? ==> r.node in runs && OneKindServed(runs[r.node].placed)
  }

  /** A filter for a pod whose containers ask for one kind each is always allowed. */
  lemma SingleKindIsAllowed(caps: Capacities, support: Annotations, s: State, ev: Event, t: State)
    requires ev.Filter? && Priced(caps, ev.nums) && SingleKind(ev.nums) && Next(support, s, ev, t)
    ensures Allowed(caps, support, s, ev, t)
  {
    var r, runs: Visits :|
      FilterEffect(s.nodes, s.pods, t.pods, ev.uid, ev.nums, ev.policy, ev.names, ev.patchOk, r, runs);
    if r.Scheduled? {
      OnlyOrder(ev.nums, runs[r.node].order);
      AskedAndServed(ev.nums, runs[r.node].placed);
    }
    assert RecordsOneKind(r, runs);
  }

  /** The pod's annotations hold its record and every kind it uses has an annotation. */
  ghost predicate Readable(support: Annotations, pd: PodDevices, annos: Annotations) {
    && Carries(support, pd, annos) && CleanPod(pd)
    && forall kind :: kind in pd && Concat(pd[kind]) != [] ==> kind in support
  }

  lemma {:induction false} RemainingCards(infos: seq<DeviceInfo>, gone: seq<DeviceInfo>)
    requires UniqueCards(infos)
    ensures UniqueCards(Remaining(infos, gone))
    ensures forall c :: c in Remaining(infos, gone) ==> c in infos && !Removable(gone, c)
    decreases |infos|
  {
    if infos != [] {
      var n := |infos| - 1;
      RemainingCards(infos[..n], gone);
      forall i | 0 <= i < |Remaining(infos[..n], gone)|
        ensures Remaining(infos[..n], gone)[i].id != infos[n].id
      {
        assert Remaining(infos[..n], gone)[i] in infos[..n];
      }
    }
  }

  lemma MergedNonNegative(lists: PodSingleDevice)
    requires NonNegativeList(Concat(lists))
    ensures NonNegativeList(Concat(Merged(lists)))
  {
    var cd := Concat(lists);
    var es := UnplacedAll(cd);
    assert Concat(Merged(lists)) == es by {
      ConcatTwo(es, []);
      assert es + [] == es;
    }
    forall i | 0 <= i < |es|
      ensures NonNegative(es[i])
    {
      assert cd[i] in cd;
    }
  }

  lemma DecodedNonNegative(support: Annotations, pd: PodDevices, annos: Annotations)
    requires Carries(support, pd, annos) && CleanPod(pd) && NonNegativePod(pd)
    ensures NonNegativePod(DecodedPod(support, annos))
  {
    CarriedPod(support, pd, annos);
    forall kind | kind in DecodedPod(support, annos)
      ensures NonNegativeList(Concat(DecodedPod(support, annos)[kind]))
    {
      MergedNonNegative(pd[kind]);
    }
  }

  /** What is read back charges a card as recorded, plus what dropped pods bring back. */
  lemma RereadUsage(support: Annotations, pods: Pods, read: Notes, n: string, id: string)
    requires AllReadable(support, pods, read)
    ensures var again := Reread(support, read);
      PodsUsage(again, n, id) == PodsUsage(pods, n, id).Plus(PodsUsage(again - pods.Keys, n, id))
  {
    var again := Reread(support, read);
    var kept: Pods := map uid | uid in again && uid in pods.Keys :: again[uid];
    assert PodsUsage(kept, n, id) == PodsUsage(pods, n, id) by {
      forall uid | uid in pods
        ensures uid in kept && kept[uid] == again[uid]
      {
      }
      assert kept.Keys == pods.Keys;
      FoundUsage(support, pods, read, kept, n, id);
    }
    SumMapSplit(again, pods.Keys, (p: PodInfo) => RecordUsage(p, n, id));
  }

  /** The recorded pods, as read back, charge what they charged. */
  lemma FoundUsage(support: Annotations, pods: Pods, read: Notes, kept: Pods, n: string, id: string)
    requires AllReadable(support, pods, read) && kept.Keys == pods.Keys
    requires forall uid :: uid in pods ==> kept[uid] == PodInfo(read[uid].node, DecodedPod(support, read[uid].annos))
    ensures PodsUsage(kept, n, id) == PodsUsage(pods, n, id)
  {
    forall uid | uid in pods
      ensures RecordUsage(kept[uid], n, id) == RecordUsage(pods[uid], n, id)
    {
      NothingLost(support, pods[uid].devices, read[uid].annos, id);
    }
    SumMapCongruent(kept, pods, (p: PodInfo) => RecordUsage(p, n, id));
  }

  lemma {:induction false} SilentPods(pods: Pods, n: string, id: string)
    requires forall uid :: uid in pods ==> Silent(pods[uid].devices)
    ensures PodsUsage(pods, n, id) == ZERO
    decreases |pods|
  {
    if pods == map[] {
      SumMapEmpty((p: PodInfo) => RecordUsage(p, n, id));
    } else {
      var uid :| uid in pods;
      assert (pods - {uid}).Keys == pods.Keys - {uid};
      SilentPods(pods - {uid}, n, id);
      EmptyKinds(pods[uid].devices, id);
      PodsUsageRemove(pods, uid, n, id);
    }
  }

  lemma {:induction false} PodsSlots(pods: Pods, n: string, id: string)
    ensures PodsUsage(pods, n, id).slots >= 0
    decreases |pods|
  {
    if pods == map[] {
      SumMapEmpty((p: PodInfo) => RecordUsage(p, n, id));
    } else {
      var uid :| uid in pods;
      assert (pods - {uid}).Keys == pods.Keys - {uid};
      PodsSlots(pods - {uid}, n, id);
      KindsCount(pods[uid].devices, id);
      PodsUsageRemove(pods, uid, n, id);
    }
  }

  /** A recorded pod with a share charges some card of its node. */
  lemma LoudPod(pods: Pods, uid: string) returns (id: string)
    requires uid in pods && !Silent(pods[uid].devices)
    ensures PodsUsage(pods, pods[uid].nodeId, id).slots >= 1
  {
    var pd := pods[uid].devices;
    var kind :| kind in pd && Concat(pd[kind]) != [];
    var e: ContainerDevice := Concat(pd[kind])[0];
    id := e.uuid;
    ListedIsCounted(Concat(pd[kind]), e);
    KindsCount(pd, id);
    PodsUsageRemove(pods, uid, pods[uid].nodeId, id);
    PodsSlots(pods - {uid}, pods[uid].nodeId, id);
  }

  /**
    A restart changes the usage of no card if and only if no dropped pod that keeps its
    annotations brings shares back.
   */
  lemma RestartKeepsUsage(support: Annotations, s: State, t: State, read: Notes)
    requires AllReadable(support, s.pods, read) && Next(support, s, Restart(read), t)
    ensures (forall n, id :: PodsUsage(t.pods, n, id) == PodsUsage(s.pods, n, id)) <==>
            (forall uid :: uid in read && uid !in s.pods ==> Silent(DecodedPod(support, read[uid].annos)))
  {
    var extra := t.pods - s.pods.Keys;
    if forall uid :: uid in read && uid !in s.pods ==> Silent(DecodedPod(support, read[uid].annos)) {
      forall n, id
        ensures PodsUsage(t.pods, n, id) == PodsUsage(s.pods, n, id)
      {
        RereadUsage(support, s.pods, read, n, id);
        SilentPods(extra, n, id);
        PlusZero(PodsUsage(s.pods, n, id));
      }
    } else {
      var uid :| uid in read && uid !in s.pods && !Silent(DecodedPod(support, read[uid].annos));
      assert uid in extra;
      var id := LoudPod(extra, uid);
      RereadUsage(support, s.pods, read, read[uid].node, id);
    }
  }

  lemma RestartKeeps(caps: Capacities, support: Annotations, s: State, t: State, read: Notes)
    requires Invariant(caps, s.nodes, s.pods)
    requires Allowed(caps, support, s, Restart(read), t) && Next(support, s, Restart(read), t)
    ensures Invariant(caps, t.nodes, t.pods)
  {
    forall uid | uid in t.pods
      ensures NonNegativePod(t.pods[uid].devices)
    {
      if uid in s.pods {
        DecodedNonNegative(support, s.pods[uid].devices, read[uid].annos);
      }
    }
    RestartKeepsUsage(support, s, t, read);
  }

  lemma PricedInOrder(caps: Capacities, nums: PodRequests, order: PodRequests)
    requires Priced(caps, nums) && Reordered(nums, order)
    ensures Priced(caps, order)
  {
    forall rs, r | rs in order && r in rs
      ensures PricedRequest(caps, r)
    {
      var c :| 0 <= c < |order| && order[c] == rs;
      SameMembers(nums[c], order[c]);
      assert nums[c] in nums && r in nums[c];
    }
  }

  lemma FilterKeeps(caps: Capacities, nodes: Nodes, before: Pods, after: Pods, uid: string,
                    nums: PodRequests, policy: Policy, names: seq<string>, patchOk: bool,
                    r: FilterResult, runs: Visits)
    requires Invariant(caps, nodes, before) && Priced(caps, nums)
    requires FilterEffect(nodes, before, after, uid, nums, policy, names, patchOk, r, runs)
    requires RecordsOneKind(r, runs)
    ensures Invariant(caps, nodes, after)
  {
    RemovingKeeps(caps, nodes, before, uid);
    if r.Scheduled? {
      PricedInOrder(caps, nums, runs[r.node].order);
      PlacingKeeps(caps, nodes, before - {uid}, uid, r.node, runs[r.node].order, policy, runs[r.node].placed);
    }
  }

  /** Every allowed event keeps the invariant. */
  lemma EventKeeps(caps: Capacities, support: Annotations, s: State, ev: Event, t: State)
    requires Invariant(caps, s.nodes, s.pods)
    requires Allowed(caps, support, s, ev, t) && Next(support, s, ev, t)
    ensures Invariant(caps, t.nodes, t.pods)
  {
    match ev
    case Filter(uid, nums, policy, names, patchOk) =>
      var r, runs :|
        && FilterEffect(s.nodes, s.pods, t.pods, uid, nums, policy, names, patchOk, r, runs)
        && RecordsOneKind(r, runs);
      FilterKeeps(caps, s.nodes, s.pods, t.pods, uid, nums, policy, names, patchOk, r, runs);
    case Remove(uid) =>
      RemovingKeeps(caps, s.nodes, s.pods, uid);
    case Sync(_, _) =>
    case Register(_, _) =>
    case Unregister(node, gone) =>
      if node in s.nodes {
        RemainingCards(s.nodes[node], gone);
      }
    case Restart(read) =>
      RestartKeeps(caps, support, s, t, read);
  }

  ghost predicate Run(caps: Capacities, support: Annotations, states: seq<State>, events: seq<Event>) {
    && |states| == |events| + 1
    && states[0] == State(map[], map[])
    && forall i :: 0 <= i < |events| ==>
         && Allowed(caps, support, states[i], events[i], states[i + 1])
         && Next(support, states[i], events[i], states[i + 1])
  }

  /** A run goes on by any allowed event. */
  lemma RunGrows(caps: Capacities, support: Annotations, states: seq<State>, events: seq<Event>,
                 ev: Event, t: State)
    requires Run(caps, support, states, events)
    requires Allowed(caps, support, states[|states| - 1], ev, t) && Next(support, states[|states| - 1], ev, t)
    ensures Run(caps, support, states + [t], events + [ev])
  {
    var ss, es := states + [t], events + [ev];
    forall i | 0 <= i < |es|
      ensures Allowed(caps, support, ss[i], es[i], ss[i + 1]) && Next(support, ss[i], es[i], ss[i + 1])
    {
      if i < |events| {
        assert ss[i] == states[i] && ss[i + 1] == states[i + 1] && es[i] == events[i];
      }
    }
  }

  /** The run that registers one node. */
  lemma RunRegisters(caps: Capacities, support: Annotations, node: string, infos: seq<DeviceInfo>)
    requires infos != [] && Conforms(caps, node, infos)
    ensures Run(caps, support, [State(map[], map[]), State(map[node := infos], map[])], [Register(node, infos)])
  {
    var s0, s1, ev := State(map[], map[]), State(map[node := infos], map[]), Register(node, infos);
    assert Run(caps, support, [s0], []);
    assert [] + infos == infos;
    RunGrows(caps, support, [s0], [], ev, s1);
    assert [s0] + [s1] == [s0, s1] && [] + [ev] == [ev];
  }

  /** In every state of every run, every card is within capacity in every dimension. */
  lemma {:induction false} RunIsSafe(caps: Capacities, support: Annotations, states: seq<State>, events: seq<Event>,
                                     k: nat)
    requires ValidCapacities(caps) && Run(caps, support, states, events) && k < |states|
    ensures Invariant(caps, states[k].nodes, states[k].pods)
  {
    if k == 0 {
      forall n, id | n in caps && id in caps[n]
        ensures Safe(caps[n][id], PodsUsage(states[0].pods, n, id))
      {
        SumMapEmpty((p: PodInfo) => RecordUsage(p, n, id));
      }
    } else {
      RunIsSafe(caps, support, states, events, k - 1);
      EventKeeps(caps, support, states[k - 1], events[k - 1], states[k]);
    }
  }

  // ---- what stays in range ----

  ghost predicate Fits32(c: DeviceInfo) {
    InInt32(c.count) && InInt32(c.devmem) && InInt32(c.devcore)
  }

  ghost predicate WithinCard(d: DeviceUsage) {
    0 <= d.used <= d.count && 0 <= d.usedmem <= d.totalmem && 0 <= d.usedcores <= d.totalcore
  }

  /**
    No counter wraps, not even in the middle of a filter: in every state of every run, after
    any number of tentative shares of any pod on any node, the counters of every card are
    within its capacity, hence within 32 bits.
   */
  lemma CountersStayInRange(caps: Capacities, support: Annotations, states: seq<State>,
                            events: seq<Event>, k: nat, node: string, uid: string,
                            nums: PodRequests, policy: Policy, placed: PodPlacement, m: nat,
                            i: nat)
    requires ValidCapacities(caps) && Run(caps, support, states, events) && k < |states|
    requires forall n, id :: n in caps && id in caps[n] ==> Fits32(caps[n][id])
    requires node in states[k].nodes && i < |states[k].nodes[node]| && Priced(caps, nums)
    requires Tried(Table(states[k].nodes[node], states[k].pods - {uid}, node), nums, policy, placed)
    requires m <= |Shares(placed)|
    ensures var d := Current(Table(states[k].nodes[node], states[k].pods - {uid}, node), Shares(placed)[..m])[i];
      WithinCard(d) && InInt32(d.used) && InInt32(d.usedmem) && InInt32(d.usedcores)
  {
    var infos, others := states[k].nodes[node], states[k].pods - {uid};
    assert Invariant(caps, states[k].nodes, others) by {
      RunIsSafe(caps, support, states, events, k);
      RemovingKeeps(caps, states[k].nodes, states[k].pods, uid);
    }
    assert Legal(Table(infos, others, node), [], Shares(placed)[..m]) by {
      TriedIsLegal(infos, others, node, nums, policy, placed);
      LegalUpTo(Table(infos, others, node), [], Shares(placed), m);
    }
    PlacedNonNegative(caps, states[k].nodes, others, node, nums, policy, placed);
    TentativeWithin(caps, infos, others, node, Shares(placed)[..m], i);
  }

  lemma TentativeWithin(caps: Capacities, infos: seq<DeviceInfo>, others: Pods, node: string,
                        es: ContainerDevices, i: nat)
    requires i < |infos| && Conforms(caps, node, infos) && NonNegativeList(es)
    requires Safe(caps[node][infos[i].id], PodsUsage(others, node, infos[i].id))
    requires Legal(Table(infos, others, node), [], es)
    ensures var d := Current(Table(infos, others, node), es)[i];
      WithinCard(d) && d.count == infos[i].count && d.totalmem == infos[i].devmem && d.totalcore == infos[i].devcore
  {
    var id := infos[i].id;
    assert infos[i] in infos;
    SharesAreSafe(caps[node][id], infos, others, node, es, id);
    ChargeView(infos[i], PodsUsage(others, node, id), ListUsage(es, id));
  }

  lemma TableCounted(caps: Capacities, infos: seq<DeviceInfo>, pods: Pods, node: string)
    requires ValidCapacities(caps) && Conforms(caps, node, infos) && NonNegativePods(pods)
    ensures Counted(Table(infos, pods, node)) && UniqueIds(Table(infos, pods, node))
  {
    TableUnique(infos, pods, node);
    forall i | 0 <= i < |infos|
      ensures infos[i].count >= 0 && PodsUsage(pods, node, infos[i].id).slots >= 0
    {
      assert infos[i] in infos;
      PodsPlausible(pods, node, infos[i].id);
    }
  }

  /**
    The sums the score divides do not wrap either. In every state of every run, on every node,
    while any container is served: after any number of its shares there are at least as many
    free slots as shares, at most as many as slots, and at most the node's slots per request.
    Where its requests take different cards - as one request always does, and as requests for
    different kinds do when no card type is accepted for two - the node's slots are the bound.
   */
  lemma ScoreSumsStayInRange(caps: Capacities, support: Annotations, states: seq<State>,
                             events: seq<Event>, k: nat, node: string, uid: string,
                             nums: PodRequests, policy: Policy, placed: PodPlacement, c: nat,
                             m: nat)
    requires ValidCapacities(caps) && Run(caps, support, states, events) && k < |states| && node in states[k].nodes
    requires Tried(Table(states[k].nodes[node], states[k].pods - {uid}, node), nums, policy, placed)
    requires c < |placed| && m <= |Concat(placed[c])|
    ensures var devs, applied := Table(states[k].nodes[node], states[k].pods - {uid}, node), Shares(placed[..c]);
      var es, slots := Concat(placed[c])[..m], SlotSum(devs);
      var total, free := TotalSlots(devs, es), FreeSlots(devs, applied, es);
      && m <= free <= total <= |placed[c]| * slots
      && (DistinctCards(Concat(placed[c])) ==> total <= slots)
      && (DistinctCards(Concat(placed[c])) && slots <= MAX_INT32 ==> InInt32(total) && InInt32(free))
    ensures |placed[c]| <= 1 || (SeparateKinds(policy) && DistinctKinds(nums[c])) ==> DistinctCards(Concat(placed[c]))
  {
    var infos, others := states[k].nodes[node], states[k].pods - {uid};
    var devs, applied := Table(infos, others, node), Shares(placed[..c]);
    assert Counted(devs) && UniqueIds(devs) by {
      RunIsSafe(caps, support, states, events, k);
      TableCounted(caps, infos, others, node);
    }
    ContainerServed(devs, nums, policy, placed, c);
    ContainerSums(devs, applied, nums[c], policy, placed[c], m);
    if |placed[c]| <= 1 {
      OneListDistinct(devs, applied, nums[c], policy, placed[c]);
    } else if SeparateKinds(policy) && DistinctKinds(nums[c]) {
      SeparateKindsDiffer(devs, applied, nums[c], policy, placed[c]);
    }
  }

  // ---- exclusive use ----

  lemma {:induction false} WholeIsCounted(es: ContainerDevices, e: ContainerDevice)
    requires e in es && e.usedcores == 100 && NonNegativeList(es)
    ensures ListUsage(es, e.uuid).whole >= 1
    decreases |es|
  {
    var n := |es| - 1;
    ListPlausible(es[..n], e.uuid);
    if e in es[..n] {
      WholeIsCounted(es[..n], e);
    }
  }

  /** The share at (pod, kind) is part of the sums over kinds and over pods. */
  lemma RecordedIsCounted(pods: Pods, uid: string, kind: string, id: string)
    requires NonNegativePods(pods) && uid in pods && kind in pods[uid].devices
    ensures PodsUsage(pods, pods[uid].nodeId, id).whole >= ListUsage(Concat(pods[uid].devices[kind]), id).whole
  {
    var p := pods[uid];
    assert PodUsage(p.devices, id).whole >= ListUsage(Concat(p.devices[kind]), id).whole by {
      SumMapRemove(p.devices, kind, (lists: PodSingleDevice) => ListUsage(Concat(lists), id));
      PodPlausible(p.devices - {kind}, id);
    }
    assert PodsUsage(pods, p.nodeId, id).whole >= PodUsage(p.devices, id).whole by {
      PodsUsageRemove(pods, uid, p.nodeId, id);
      PodsPlausible(pods - {uid}, p.nodeId, id);
    }
  }

  /**
    In every state of every run, a recorded share that holds 100 cores of a card with at most
    100 cores, or with one slot, is the only share recorded on that card.
   */
  lemma ExclusiveStaysExclusive(caps: Capacities, support: Annotations, states: seq<State>,
                                events: seq<Event>, k: nat, uid: string, kind: string,
                                e: ContainerDevice)
    requires ValidCapacities(caps) && Run(caps, support, states, events) && k < |states|
    requires uid in states[k].pods && kind in states[k].pods[uid].devices
    requires e in Concat(states[k].pods[uid].devices[kind]) && e.usedcores == 100
    requires var node := states[k].pods[uid].nodeId;
      node in caps && e.uuid in caps[node] && (caps[node][e.uuid].devcore <= 100 || caps[node][e.uuid].count <= 1)
    ensures PodsUsage(states[k].pods, states[k].pods[uid].nodeId, e.uuid).slots == 1
  {
    RunIsSafe(caps, support, states, events, k);
    WholeIsCounted(Concat(states[k].pods[uid].devices[kind]), e);
    RecordedIsCounted(states[k].pods, uid, kind, e.uuid);
  }

  // ---- tentative and recomputed usage ----

  lemma {:induction false} LegalHasCard(devs0: seq<DeviceUsage>, es: ContainerDevices, e: ContainerDevice)
    requires Legal(devs0, [], es) && e in es
    ensures HasCard(devs0, e.uuid)
    decreases |es|
  {
    if e in es[..|es| - 1] {
      LegalHasCard(devs0, es[..|es| - 1], e);
    }
  }

  lemma {:induction false} ServedNonEmpty(devs0: seq<DeviceUsage>, applied: ContainerDevices, rs: seq<Request>,
                                          policy: Policy, placed: seq<ContainerDevices>, es: ContainerDevices)
    requires Served(devs0, applied, rs, policy, placed) && Wanted(rs) && es in placed
    ensures es != []
    decreases |placed|
  {
    var n := |placed| - 1;
    assert rs[n] in rs;
    if es in placed[..n] {
      ServedNonEmpty(devs0, applied, rs, policy, placed[..n], es);
    }
  }

  lemma PlacedNonEmpty(devs0: seq<DeviceUsage>, nums: PodRequests, policy: Policy,
                       placed: PodPlacement, c: nat, t: nat)
    requires Tried(devs0, nums, policy, placed) && (forall n :: n in nums ==> Wanted(n))
    requires c < |placed| && t < |placed[c]|
    ensures placed[c][t] != []
  {
    forall r | r in Concat(nums)
      ensures r.nums >= 1
    {
      var i := InConcat(nums, r);
      assert Wanted(nums[i]);
    }
    ConcatMember(placed, c, placed[c][t]);
    ServedNonEmpty(devs0, [], Concat(nums), policy, Concat(placed), placed[c][t]);
  }

  /** Row by row, the tentative table differs from the recomputed one by what is charged. */
  lemma RowAgrees(infos: seq<DeviceInfo>, others: Pods, uid: string, node: string, pd: PodDevices,
                  es: ContainerDevices, i: nat)
    requires uid !in others && i < |infos|
    ensures Current(Table(infos, others, node), es)[i] ==
            View(infos[i], PodsUsage(others, node, infos[i].id).Plus(ListUsage(es, infos[i].id)))
    ensures Table(infos, others[uid := PodInfo(node, pd)], node)[i] ==
            View(infos[i], PodsUsage(others, node, infos[i].id).Plus(PodUsage(pd, infos[i].id)))
  {
    ChargeView(infos[i], PodsUsage(others, node, infos[i].id), ListUsage(es, infos[i].id));
    PodsUsageAdd(others, uid, PodInfo(node, pd), node, infos[i].id);
  }

  /**
    After a pod is placed, the usage incremented in place equals the usage recomputed from
    the pod map with the new record if and only if no container was served for two kinds; for
    a pod that is served in full, if and only if no container asks for two kinds.
   */
  lemma TentativeAgreesExactly(infos: seq<DeviceInfo>, others: Pods, uid: string, node: string,
                               nums: PodRequests, policy: Policy, placed: PodPlacement)
    requires UniqueCards(infos) && uid !in others && forall n :: n in nums ==> Wanted(n)
    requires Tried(Table(infos, others, node), nums, policy, placed)
    ensures var charged, rebuilt := Current(Table(infos, others, node), Shares(placed)),
                                    Table(infos, others[uid := PodInfo(node, Record(nums, placed))], node);
      && (charged == rebuilt <==> OneKindServed(placed))
      && (FullyServed(nums, placed) && |placed| == |nums| ==> (charged == rebuilt <==> SingleKind(nums)))
  {
    AskedAndServed(nums, placed);
    if OneKindServed(placed) {
      TentativeAgrees(infos, others, uid, node, nums, placed);
    } else {
      var c :| 0 <= c < |placed| && |placed[c]| >= 2;
      PlacedNonEmpty(Table(infos, others, node), nums, policy, placed, c, 0);
      TriedIsLegal(infos, others, node, nums, policy, placed);
      TentativeDiffers(infos, others, uid, node, nums, placed, c);
    }
  }

  lemma TentativeAgrees(infos: seq<DeviceInfo>, others: Pods, uid: string, node: string,
                        nums: PodRequests, placed: PodPlacement)
    requires uid !in others && Recordable(nums, placed) && OneKindServed(placed)
    ensures Current(Table(infos, others, node), Shares(placed)) ==
            Table(infos, others[uid := PodInfo(node, Record(nums, placed))], node)
  {
    var now, next := Current(Table(infos, others, node), Shares(placed)),
                     Table(infos, others[uid := PodInfo(node, Record(nums, placed))], node);
    forall i | 0 <= i < |infos|
      ensures now[i] == next[i]
    {
      RowAgrees(infos, others, uid, node, Record(nums, placed), Shares(placed), i);
      RecordAgrees(nums, placed, infos[i].id);
    }
  }

  lemma TentativeDiffers(infos: seq<DeviceInfo>, others: Pods, uid: string, node: string,
                         nums: PodRequests, placed: PodPlacement, c: nat)
    requires uid !in others && Recordable(nums, placed) && c < |placed| && |placed[c]| >= 2 && placed[c][0] != []
    requires Legal(Table(infos, others, node), [], Shares(placed))
    ensures Current(Table(infos, others, node), Shares(placed)) !=
            Table(infos, others[uid := PodInfo(node, Record(nums, placed))], node)
  {
    var devs0, e := Table(infos, others, node), placed[c][0][0];
    ConcatMember(placed, c, placed[c][0]);
    var j: nat :| j < |Concat(placed)| && Concat(placed)[j] == placed[c][0];
    ConcatMember(Concat(placed), j, e);
    LegalHasCard(devs0, Shares(placed), e);
    var i :| 0 <= i < |devs0| && devs0[i].id == e.uuid;
    assert PodUsage(Record(nums, placed), e.uuid).slots > ListUsage(Shares(placed), e.uuid).slots by {
      SecondKindCountsTwice(nums, placed, c, e.uuid);
    }
    RowAgrees(infos, others, uid, node, Record(nums, placed), Shares(placed), i);
    assert Current(devs0, Shares(placed))[i] !=
           Table(infos, others[uid := PodInfo(node, Record(nums, placed))], node)[i];
  }
}
