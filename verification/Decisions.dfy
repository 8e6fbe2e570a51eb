/**
  What a decision of the filter contains, in the terms of the requests and the registered
  cards: how much of a card each recorded share holds, and which requests find a card.
 */
module Decisions {
  import opened Devices
  import opened Usages
  import opened Sorting
  import opened Fitting
  import opened Placement
  import opened Scoring
  import opened PodScoring
  import opened ScoreSums
  import opened Recording
  import opened Schedulers
  import opened SchedulerLimits
  import opened Completeness

  // ---- what a share holds ----

  /** What a request means on a card of `total` memory: its own figure, or else its percentage, or else none. */
  ghost predicate Means(total: int, r: Request, mem: int) {
    && (r.memreq > 0 ==> mem == r.memreq)
    && (r.memreq < 0 ==> mem == 0)
    && (r.memreq == 0 && r.mempct == 101 ==> mem == 0)
    && (r.memreq == 0 && 0 <= r.mempct <= 100 && 0 <= total <= 21474836 ==> mem == total * r.mempct / 100)
  }

  /** A figure is taken as it is, whatever the percentage. */
  lemma PriceMeans(total: int, r: Request)
    ensures Means(total, r, MemNeed(total, r))
  {
    if r.memreq == 0 && 0 <= r.mempct <= 100 && 0 <= total <= 21474836 {
      PercentageIsExact(total, r);
    }
  }

  ghost predicate AsAsked(c: DeviceInfo, r: Request, e: ContainerDevice) {
    e.uuid == c.id && e.kind == r.kind && e.usedcores == r.coresreq && Means(c.devmem, r, e.usedmem)
  }

  lemma {:induction false} InRecordContainer(pd: PodDevices, rs: seq<Request>, lists: seq<ContainerDevices>,
                                             kind: string, e: ContainerDevice)
    requires |lists| <= |rs| && e in Concat(Lists(RecordContainer(pd, rs, lists), kind))
    ensures e in Concat(Lists(pd, kind)) || e in Concat(lists)
    decreases |lists|
  {
    if lists != [] {
      var n := |lists| - 1;
      var before := RecordContainer(pd, rs, lists[..n]);
      if rs[n].kind == kind {
        ConcatSnoc(Lists(before, kind), Concat(lists));
      }
      if e in Concat(Lists(before, kind)) {
        InRecordContainer(pd, rs, lists[..n], kind, e);
      }
    }
  }

  /** Nothing is recorded that was not placed. */
  lemma {:induction false} InRecord(nums: PodRequests, placed: PodPlacement, kind: string, e: ContainerDevice)
    requires Recordable(nums, placed) && e in Concat(Lists(Record(nums, placed), kind))
    ensures e in Shares(placed)
    decreases |placed|
  {
    if placed != [] {
      var n := |placed| - 1;
      InRecordContainer(Record(nums, placed[..n]), nums[n], placed[n], kind, e);
      assert placed[..n] + [placed[n]] == placed;
      SharesSnoc(placed[..n], placed[n]);
      if e in Concat(Lists(Record(nums, placed[..n]), kind)) {
        InRecord(nums, placed[..n], kind, e);
      }
    }
  }

  lemma LastServed(devs: seq<DeviceUsage>, rs: seq<Request>, policy: Policy, part: seq<ContainerDevices>)
    requires Served(devs, [], rs, policy, part) && part != []
    ensures var t := |part| - 1; Chosen(Current(devs, Concat(part[..t])), rs[t], policy, part[t])
  {
    var es := Concat(part[..|part| - 1]);
    assert [] + es == es;
  }

  /** The `t`-th request served got the preferred cards of the node as it was then. */
  lemma ServedAt(devs: seq<DeviceUsage>, rs: seq<Request>, policy: Policy, flat: seq<ContainerDevices>, t: nat)
    requires Served(devs, [], rs, policy, flat) && t < |flat|
    ensures Chosen(Current(devs, Concat(flat[..t])), rs[t], policy, flat[t])
  {
    var part := flat[..t + 1];
    ServedTake(devs, [], rs, policy, flat, t + 1);
    LastServed(devs, rs, policy, part);
    assert part[..t] == flat[..t] && part[t] == flat[t];
  }

  /** Every share of a run belongs to a request and to a card of the node. */
  lemma ShareOrigin(devs: seq<DeviceUsage>, nums: PodRequests, policy: Policy, placed: PodPlacement,
                    e: ContainerDevice) returns (c: nat, r: Request, i: nat)
    requires Tried(devs, nums, policy, placed) && e in Shares(placed)
    ensures c < |nums| && r in nums[c]
    ensures i < |devs| && devs[i].id == e.uuid
    ensures e.kind == r.kind && e.usedcores == r.coresreq && e.usedmem == MemNeed(devs[i].totalmem, r)
  {
    var flat, rs := Concat(placed), Concat(nums);
    var t := InConcat(flat, e);
    ServedAt(devs, rs, policy, flat, t);
    r := rs[t];
    c := InConcat(nums, r);
    i := PickedFrom(devs, Concat(flat[..t]), r, policy, flat[t], e);
    var now := Current(devs, Concat(flat[..t]));
    assert ShareOf(now, r, e) && now[i] in now;
  }

  /** The card, the container and the request that account for a recorded share. */
  ghost predicate Accounted(infos: seq<DeviceInfo>, nums: PodRequests, e: ContainerDevice) {
    exists i, c, r :: 0 <= i < |infos| && 0 <= c < |nums| && r in nums[c] && AsAsked(infos[i], r, e)
  }

  /**
    Every share a filter records is on a card of the chosen node and holds what a request of the
    pod asks for: its cores, and its memory as a figure, a percentage or nothing.
   */
  lemma RecordedAsAsked(nodes: Nodes, before: Pods, after: Pods, uid: string, nums: PodRequests,
                        policy: Policy, names: seq<string>, patchOk: bool, res: FilterResult,
                        runs: Visits, kind: string, e: ContainerDevice)
    requires FilterEffect(nodes, before, after, uid, nums, policy, names, patchOk, res, runs) && res.Scheduled?
    requires uid in after && e in Concat(Lists(after[uid].devices, kind))
    ensures after[uid].nodeId == res.node && res.node in nodes && Accounted(nodes[res.node], nums, e)
  {
    var devs, v := Table(nodes[res.node], before - {uid}, res.node), runs[res.node];
    InRecord(v.order, v.placed, kind, e);
    var c, r, i := ShareOrigin(devs, v.order, policy, v.placed, e);
    SameMembers(nums[c], v.order[c]);
    PriceMeans(devs[i].totalmem, r);
    assert AsAsked(nodes[res.node][i], r, e);
  }

  // ---- which cards have room ----

  /**
    Room, in capacities: with the share added, slots, memory and cores are within the card; no
    share exceeds 100 cores; a whole 100-core card is given only while unused; and a card all
    of whose cores are given takes no share without cores.
   */
  lemma RoomExactly(d: DeviceUsage, e: ContainerDevice)
    ensures HasRoom(d, e.usedmem, e.usedcores) <==>
      && WithinCapacity(Charge(d, Usage(1, e.usedmem, e.usedcores, 0))) && e.usedcores <= 100
      && !(d.totalcore == 100 && e.usedcores == 100 && d.used > 0)
      && !(d.totalcore != 0 && d.usedcores == d.totalcore && e.usedcores == 0)
  {
  }

  predicate WithinCapacity(d: DeviceUsage) {
    d.used <= d.count && d.usedmem <= d.totalmem && d.usedcores <= d.totalcore
  }

  /** A card next to what is recorded on it takes a share of `mem` memory for the request. */
  ghost predicate Takes(c: DeviceInfo, u: Usage, r: Request, policy: Policy, mem: int) {
    && policy.accepts(c.kind, u.slots > 0, r)
    && u.slots + 1 <= c.count && u.mem + mem <= c.devmem && u.cores + r.coresreq <= c.devcore
    && r.coresreq <= 100
    && (c.devcore == 100 && r.coresreq == 100 ==> u.slots <= 0)
    && (c.devcore != 0 && u.cores == c.devcore ==> r.coresreq != 0)
  }

  ghost predicate SomeCardTakes(nodes: Nodes, others: Pods, names: seq<string>, r: Request, policy: Policy) {
    exists n, i :: n in names && n in nodes && 0 <= i < |nodes[n]| && CardTakes(nodes[n][i], others, n, r, policy)
  }

  ghost predicate CardTakes(c: DeviceInfo, others: Pods, node: string, r: Request, policy: Policy) {
    Takes(c, PodsUsage(others, node, c.id), r, policy, MemNeed(c.devmem, r))
  }

  /** One card is wanted: some usable card is enough, whatever the NUMA node. */
  lemma OneIsEnough(devs: seq<DeviceUsage>, r: Request, policy: Policy)
    requires r.nums == 1
    ensures CanFit(devs, r, policy) <==> exists d :: d in devs && Usable(d, r, policy)
  {
    if d :| d in devs && Usable(d, r, policy) {
      assert d.id in Candidates(devs, r, policy, d.numa);
      assert |Candidates(devs, r, policy, d.numa)| >= 1;
    }
    if numa :| |Candidates(devs, r, policy, numa)| >= r.nums {
      var id :| id in Candidates(devs, r, policy, numa);
    }
  }

  lemma UsableInTable(infos: seq<DeviceInfo>, others: Pods, node: string, r: Request, policy: Policy)
    ensures (exists d :: d in Table(infos, others, node) && Usable(d, r, policy)) <==>
            (exists i :: 0 <= i < |infos| && CardTakes(infos[i], others, node, r, policy))
  {
    var devs := Table(infos, others, node);
    forall i | 0 <= i < |infos|
      ensures Usable(devs[i], r, policy) <==> CardTakes(infos[i], others, node, r, policy)
    {
    }
    if d :| d in devs && Usable(d, r, policy) {
      var i :| 0 <= i < |devs| && devs[i] == d;
    }
    if i :| 0 <= i < |infos| && CardTakes(infos[i], others, node, r, policy) {
      assert devs[i] in devs;
    }
  }

  /**
    A pod that wants one card is scheduled if and only if some card of a named and registered
    node has room next to what is recorded on it.
   */
  lemma OneCardScheduledExactly(nodes: Nodes, before: Pods, after: Pods, uid: string, nums: PodRequests, r: Request,
                                policy: Policy, names: seq<string>, patchOk: bool, res: FilterResult,
                                runs: Visits)
    requires WellRegistered(nodes) && nums == [[r]] && r.nums == 1
    requires FilterEffect(nodes, before, after, uid, nums, policy, names, patchOk, res, runs)
    ensures res.Scheduled? || res.PatchFailed? <==> SomeCardTakes(nodes, before - {uid}, names, r, policy)
    ensures res.Scheduled? ==> patchOk
    ensures res.PatchFailed? ==> !patchOk
  {
    OneWanted(nums, r);
    ScheduledExactly(nodes, before, after, uid, nums, policy, names, patchOk, res, runs);
    OneNode(nodes, before - {uid}, names, r, policy, nums);
  }

  lemma OneWanted(nums: PodRequests, r: Request)
    requires nums == [[r]] && r.nums == 1
    ensures SingleKind(nums) && |nums| == 1 && forall n :: n in nums ==> Wanted(n)
  {
  }

  lemma OneNode(nodes: Nodes, others: Pods, names: seq<string>, r: Request, policy: Policy, nums: PodRequests)
    requires r.nums == 1 && nums == [[r]]
    ensures Placeable(nodes, others, names, nums, policy) <==> SomeCardTakes(nodes, others, names, r, policy)
  {
    forall n | n in nodes
      ensures NodeFits(Table(nodes[n], others, n), nums, policy) <==>
              exists i :: 0 <= i < |nodes[n]| && CardTakes(nodes[n][i], others, n, r, policy)
    {
      OneIsEnough(Table(nodes[n], others, n), r, policy);
      UsableInTable(nodes[n], others, n, r, policy);
      assert nums[0][0] == r;
    }
  }

  /** The request stays within the card's memory, as a figure, as nothing or as a percentage. */
  predicate MemoryWithin(c: DeviceInfo, r: Request) {
    || 0 < r.memreq <= c.devmem
    || (r.memreq == 0 && r.mempct == 101 && 0 <= c.devmem)
    || (r.memreq == 0 && 0 <= r.mempct <= 100 && 0 <= c.devmem <= 21474836)
  }

  /** A card on which nothing is recorded serves every request within its size, the whole card included. */
  lemma UnusedCardServes(nodes: Nodes, before: Pods, after: Pods, uid: string, nums: PodRequests, r: Request,
                         policy: Policy, names: seq<string>, patchOk: bool, res: FilterResult,
                         runs: Visits, n: string, i: nat)
    requires WellRegistered(nodes) && nums == [[r]] && r.nums == 1
    requires FilterEffect(nodes, before, after, uid, nums, policy, names, patchOk, res, runs)
    requires n in names && n in nodes && i < |nodes[n]| && nodes[n][i].count >= 1
    requires PodsUsage(before - {uid}, n, nodes[n][i].id) == Usage(0, 0, 0, 0)
    requires policy.accepts(nodes[n][i].kind, false, r) && MemoryWithin(nodes[n][i], r)
    requires 0 <= r.coresreq <= 100 && r.coresreq <= nodes[n][i].devcore
    ensures if patchOk then res.Scheduled? else res.PatchFailed?
  {
    var c := nodes[n][i];
    if r.memreq == 0 && r.mempct != 101 {
      PercentageIsExact(c.devmem, r);
    }
    assert CardTakes(c, before - {uid}, n, r, policy);
    OneCardScheduledExactly(nodes, before, after, uid, nums, r, policy, names, patchOk, res, runs);
    assert res.Scheduled? || res.PatchFailed?;
  }

  // ---- pods without requests ----

  /** A pod is passed through untouched if and only if no container asks for anything. */
  lemma PassedThroughExactly(nodes: Nodes, before: Pods, after: Pods, uid: string, nums: PodRequests,
                             policy: Policy, names: seq<string>, patchOk: bool, res: FilterResult,
                             runs: Visits)
    requires FilterEffect(nodes, before, after, uid, nums, policy, names, patchOk, res, runs)
    requires forall n :: n in nums ==> Wanted(n)
    ensures res.PassedThrough? <==> forall c :: 0 <= c < |nums| ==> nums[c] == []
  {
    TotalAtLeast(nums);
    if c :| 0 <= c < |nums| && nums[c] != [] {
      ConcatMember(nums, c, nums[c][0]);
    } else {
      NoneWanted(nums);
    }
  }

  lemma {:induction false} NoneWanted(nums: PodRequests)
    requires forall c :: 0 <= c < |nums| ==> nums[c] == []
    ensures Total(nums) == 0
    decreases |nums|
  {
    if nums != [] {
      NoneWanted(nums[..|nums| - 1]);
    }
  }

  // ---- what a filter leaves alone ----

  /** The pod has the same record before and after, or none. */
  predicate SameRecord(before: Pods, after: Pods, u: string) {
    (u in after <==> u in before) && (u in after ==> after[u] == before[u])
  }

  /**
    A filter touches no other pod, and its own is recorded afterwards if and only if it was
    scheduled, or passed through.
   */
  lemma OnlyOwnRecord(nodes: Nodes, before: Pods, after: Pods, uid: string, nums: PodRequests,
                      policy: Policy, names: seq<string>, patchOk: bool, res: FilterResult,
                      runs: Visits, u: string)
    requires FilterEffect(nodes, before, after, uid, nums, policy, names, patchOk, res, runs)
    ensures u != uid || res.PassedThrough? ==> SameRecord(before, after, u)
    ensures !res.PassedThrough? ==> (uid in after <==> res.Scheduled?)
    ensures res.Scheduled? ==> patchOk && after[uid].nodeId == res.node && res.node in names && res.node in nodes
    ensures res.NoFit? ==> res.failed == set n | n in names && n !in nodes
  {
  }
}
