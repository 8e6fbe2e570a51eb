/**
  The scheduler extender: the node and pod registries, the usage table rebuilt from the
  recorded pods, and the filter that places a pod.
 */
module Schedulers {
  import opened Devices
  import opened Usages
  import opened Sets
  import opened Sorting
  import opened Fitting
  import opened Placement
  import opened Scoring
  import opened PodScoring
  import opened HandOff

  /** A registered card with the given usage. */
  function View(c: DeviceInfo, u: Usage): DeviceUsage {
    DeviceUsage(c.id, c.index, u.slots, c.count, u.mem, c.devmem, c.devcore, u.cores, c.numa, c.kind, c.health)
  }

  /** The usage of a node's cards as the recorded pods have it. */
  ghost function Table(infos: seq<DeviceInfo>, pods: map<string, PodInfo>, node: string): (t: seq<DeviceUsage>)
    ensures |t| == |infos|
    ensures forall i :: 0 <= i < |t| ==> t[i] == View(infos[i], PodsUsage(pods, node, infos[i].id))
  {
    seq(|infos|, i requires 0 <= i < |infos| => View(infos[i], PodsUsage(pods, node, infos[i].id)))
  }

  lemma ChargeTwice(d: DeviceUsage, u: Usage, v: Usage)
    ensures Charge(Charge(d, u), v) == Charge(d, u.Plus(v))
  {
  }

  lemma ChargeView(c: DeviceInfo, u: Usage, v: Usage)
    ensures Charge(View(c, u), v) == View(c, u.Plus(v))
  {
  }

  // ---- charging recorded shares ----

  method ChargeShare(devs: seq<DeviceUsage>, e: ContainerDevice) returns (out: seq<DeviceUsage>)
    ensures |out| == |devs|
    ensures forall i :: 0 <= i < |devs| ==> out[i] == Charge(devs[i], ListUsage([e], devs[i].id))
  {
    out := [];
    for i := 0 to |devs|
      invariant |out| == i
      invariant forall j :: 0 <= j < i ==> out[j] == Charge(devs[j], ListUsage([e], devs[j].id))
    {
      var d := devs[i];
      ListUsageOne(e, d.id);
      if d.id == e.uuid {
        out := out + [d.(used := d.used + 1, usedmem := d.usedmem + e.usedmem, usedcores := d.usedcores + e.usedcores)];
      } else {
        out := out + [d];
      }
    }
  }

  method ChargeList(devs: seq<DeviceUsage>, es: ContainerDevices) returns (out: seq<DeviceUsage>)
    ensures |out| == |devs|
    ensures forall i :: 0 <= i < |devs| ==> out[i] == Charge(devs[i], ListUsage(es, devs[i].id))
  {
    out := devs;
    for k := 0 to |es|
      invariant |out| == |devs|
      invariant forall i :: 0 <= i < |devs| ==> out[i] == Charge(devs[i], ListUsage(es[..k], devs[i].id))
    {
      assert es[..k + 1] == es[..k] + [es[k]];
      forall i | 0 <= i < |devs|
        ensures Charge(out[i], ListUsage([es[k]], devs[i].id)) == Charge(devs[i], ListUsage(es[..k + 1], devs[i].id))
      {
        ListUsageAppend(es[..k], [es[k]], devs[i].id);
        ChargeTwice(devs[i], ListUsage(es[..k], devs[i].id), ListUsage([es[k]], devs[i].id));
      }
      out := ChargeShare(out, es[k]);
    }
    assert es[..|es|] == es;
  }

  method ChargeLists(devs: seq<DeviceUsage>, lists: PodSingleDevice) returns (out: seq<DeviceUsage>)
    ensures |out| == |devs|
    ensures forall i :: 0 <= i < |devs| ==> out[i] == Charge(devs[i], ListUsage(Concat(lists), devs[i].id))
  {
    out := devs;
    for k := 0 to |lists|
      invariant |out| == |devs|
      invariant forall i :: 0 <= i < |devs| ==> out[i] == Charge(devs[i], ListUsage(Concat(lists[..k]), devs[i].id))
    {
      assert lists[..k + 1] == lists[..k] + [lists[k]];
      ConcatSnoc(lists[..k], lists[k]);
      forall i | 0 <= i < |devs|
        ensures Charge(out[i], ListUsage(lists[k], devs[i].id)) ==
                Charge(devs[i], ListUsage(Concat(lists[..k + 1]), devs[i].id))
      {
        ListUsageAppend(Concat(lists[..k]), lists[k], devs[i].id);
        ChargeTwice(devs[i], ListUsage(Concat(lists[..k]), devs[i].id), ListUsage(lists[k], devs[i].id));
      }
      out := ChargeList(out, lists[k]);
    }
    assert lists[..|lists|] == lists;
  }

  /** Charges a recorded pod, its kinds in any order. */
  method ChargePod(devs: seq<DeviceUsage>, pd: PodDevices) returns (out: seq<DeviceUsage>)
    ensures |out| == |devs|
    ensures forall i :: 0 <= i < |devs| ==> out[i] == Charge(devs[i], PodUsage(pd, devs[i].id))
  {
    out := devs;
    var todo := pd.Keys;
    ghost var done: PodDevices := map[];
    forall i | 0 <= i < |devs|
      ensures PodUsage(done, devs[i].id) == ZERO
    {
      SumMapEmpty((lists: PodSingleDevice) => ListUsage(Concat(lists), devs[i].id));
    }
    while todo != {}
      invariant todo <= pd.Keys && done == map k | k in pd && k !in todo :: pd[k]
      invariant |out| == |devs|
      invariant forall i :: 0 <= i < |devs| ==> out[i] == Charge(devs[i], PodUsage(done, devs[i].id))
    {
      var kind :| kind in todo;
      forall i | 0 <= i < |devs|
        ensures Charge(out[i], ListUsage(Concat(pd[kind]), devs[i].id)) ==
                Charge(devs[i], PodUsage(done[kind := pd[kind]], devs[i].id))
      {
        SumMapAdd(done, kind, pd[kind], (lists: PodSingleDevice) => ListUsage(Concat(lists), devs[i].id));
        ChargeTwice(devs[i], PodUsage(done, devs[i].id), ListUsage(Concat(pd[kind]), devs[i].id));
      }
      out := ChargeLists(out, pd[kind]);
      done := done[kind := pd[kind]];
      todo := todo - {kind};
    }
    assert done == pd;
  }

  function Unused(c: DeviceInfo): DeviceUsage {
    View(c, ZERO)
  }

  // ---- the registries ----

  type Nodes = map<string, seq<DeviceInfo>>
  type Pods = map<string, PodInfo>

  ghost predicate UniqueCards(infos: seq<DeviceInfo>) {
    forall i, j :: 0 <= i < j < |infos| ==> infos[i].id != infos[j].id
  }

  ghost predicate WellRegistered(nodes: Nodes) {
    forall n :: n in nodes ==> UniqueCards(nodes[n])
  }

  function WithCards(nodes: Nodes, id: string, infos: seq<DeviceInfo>): Nodes {
    if infos == [] then nodes
    else nodes[id := (if id in nodes then nodes[id] else []) + infos]
  }

  predicate Removable(infos: seq<DeviceInfo>, c: DeviceInfo) {
    c.id == "" || exists k :: 0 <= k < |infos| && infos[k].id == c.id
  }

  function Remaining(infos: seq<DeviceInfo>, gone: seq<DeviceInfo>): seq<DeviceInfo> {
    if infos == [] then []
    else
      var n := |infos| - 1;
      Remaining(infos[..n], gone) + if Removable(gone, infos[n]) then [] else [infos[n]]
  }

  lemma {:induction false} RemainingAppend(infos: seq<DeviceInfo>, more: seq<DeviceInfo>, gone: seq<DeviceInfo>)
    ensures Remaining(infos + more, gone) == Remaining(infos, gone) + Remaining(more, gone)
    decreases |more|
  {
    if more == [] {
      assert infos + more == infos;
    } else {
      var n := |more| - 1;
      RemainingAppend(infos, more[..n], gone);
      assert (infos + more)[..|infos + more| - 1] == infos + more[..n];
    }
  }

  lemma RemainingOne(c: DeviceInfo, gone: seq<DeviceInfo>)
    ensures Remaining([c], gone) == if c.id != "" && (forall g :: g in gone ==> g.id != c.id) then [c] else []
  {
    var none: seq<DeviceInfo> := [];
    assert [c][..0] == none;
    assert Removable(gone, c) <==> c.id == "" || exists g :: g in gone && g.id == c.id;
  }

  /** The cards that are not named and have an identifier are kept, each in its place. */
  lemma RemainingExactly(infos: seq<DeviceInfo>, c: DeviceInfo, more: seq<DeviceInfo>, gone: seq<DeviceInfo>)
    ensures Remaining([], gone) == []
    ensures Remaining(infos + [c] + more, gone) ==
      Remaining(infos, gone) +
      (if c.id != "" && (forall g :: g in gone ==> g.id != c.id) then [c] else []) +
      Remaining(more, gone)
  {
    RemainingAppend(infos + [c], more, gone);
    RemainingAppend(infos, [c], gone);
    RemainingOne(c, gone);
  }

  /** A table shows every registered card, in its place and of its size, with what the pods take of it. */
  ghost predicate Shows(infos: seq<DeviceInfo>, pods: map<string, PodInfo>, node: string, t: seq<DeviceUsage>) {
    |t| == |infos| && forall i :: 0 <= i < |t| ==> ShowsCard(infos[i], PodsUsage(pods, node, infos[i].id), t[i])
  }

  predicate ShowsCard(c: DeviceInfo, u: Usage, d: DeviceUsage) {
    && d.id == c.id && d.index == c.index && d.kind == c.kind && d.numa == c.numa && d.health == c.health
    && d.count == c.count && d.totalmem == c.devmem && d.totalcore == c.devcore
    && d.used == u.slots && d.usedmem == u.mem && d.usedcores == u.cores
  }

  function Total(nums: PodRequests): int {
    if nums == [] then 0 else Total(nums[..|nums| - 1]) + Wants(nums[|nums| - 1])
  }

  const ASSIGNED_NODE := "4pd.io/vgpu-node"

  datatype NodeScore = NodeScore(nodeId: string, devices: PodDevices, score: real)

  datatype FilterResult =
    | PassedThrough
    | NoFit(failed: set<string>)
    | Scheduled(node: string, annotations: Annotations)
    | PatchFailed
    | Crashed

  /** The node's run left a record that passes the acceptance test. */
  ghost predicate Accepts(nums: PodRequests, placed: PodPlacement) {
    Shaped(nums, placed) && |Record(nums, placed)| == |nums|
  }

  // ---- the order of requests ----

  /** The same requests per container, in any order: they are the entries of a map, visited anew on each node. */
  ghost predicate Reordered(nums: PodRequests, order: PodRequests) {
    |order| == |nums| && forall c :: 0 <= c < |nums| ==> multiset(order[c]) == multiset(nums[c])
  }

  method AnyOrder(rs: seq<Request>) returns (order: seq<Request>)
    ensures multiset(order) == multiset(rs)
  {
    order := [];
    var left := multiset(rs);
    while left != multiset{}
      invariant multiset(order) + left == multiset(rs)
      decreases |left|
    {
      var r :| r in left;
      order := order + [r];
      left := left - multiset{r};
    }
  }

  method AnyOrders(nums: PodRequests) returns (order: PodRequests)
    ensures Reordered(nums, order)
  {
    order := [];
    for c := 0 to |nums|
      invariant |order| == c && forall d :: 0 <= d < c ==> multiset(order[d]) == multiset(nums[d])
    {
      var rs := AnyOrder(nums[c]);
      order := order + [rs];
    }
  }

  lemma KindsPermute(s: seq<Request>, t: seq<Request>)
    requires multiset(s) == multiset(t) && DistinctKinds(s)
    ensures DistinctKinds(t)
  {
    SameMembers(s, t);
    assert Distinct(s);
    DistinctPermutation(s, t);
    forall i, j | 0 <= i < j < |t|
      ensures t[i].kind != t[j].kind
    {
      assert t[i] in s && t[j] in s;
    }
  }

  lemma OrderKeeps(nums: PodRequests, order: PodRequests)
    requires Reordered(nums, order) && forall n :: n in nums ==> Wanted(n) && DistinctKinds(n)
    ensures forall n :: n in order ==> Wanted(n) && DistinctKinds(n)
  {
    forall c | 0 <= c < |order|
      ensures Wanted(order[c]) && DistinctKinds(order[c])
    {
      assert nums[c] in nums;
      SameMembers(nums[c], order[c]);
      KindsPermute(nums[c], order[c]);
    }
  }

  /** With at most one request per container there is only one order. */
  lemma OnlyOrder(nums: PodRequests, order: PodRequests)
    requires Reordered(nums, order) && forall n :: n in nums ==> |n| <= 1
    ensures order == nums
  {
    forall c | 0 <= c < |nums|
      ensures order[c] == nums[c]
    {
      assert nums[c] in nums;
      SameMembers(order[c], nums[c]);
      if |nums[c]| == 1 {
        assert order[c][0] in order[c];
      }
    }
  }

  // ---- trying the nodes ----

  /** The try of one node: the order its requests were visited in, and what they were given. */
  datatype Visit = Visit(order: PodRequests, placed: PodPlacement)

  type Visits = map<string, Visit>

  ghost predicate IsAccepted(v: Visit) {
    Accepts(v.order, v.placed)
  }

  /** The score of a try on a node with the given usage. */
  ghost function ScoreOf(devs0: seq<DeviceUsage>, v: Visit): real
    requires IsAccepted(v)
  {
    PodScore(devs0, v.order, v.placed)
  }

  ghost function RecordOf(v: Visit): PodDevices
    requires IsAccepted(v)
  {
    Record(v.order, v.placed)
  }

  ghost predicate TriedIn(devs0: seq<DeviceUsage>, nums: PodRequests, policy: Policy, v: Visit) {
    Reordered(nums, v.order) && Tried(devs0, v.order, policy, v.placed) && Uncrashed(v.order, v.placed)
  }

  /** Every considered node was tried on its usage without the pod. */
  ghost predicate AllTried(usage: map<string, seq<DeviceUsage>>, nums: PodRequests, policy: Policy, runs: Visits) {
    usage.Keys == runs.Keys && RunsTried(usage, nums, policy, runs)
  }

  ghost predicate RunsTried(usage: map<string, seq<DeviceUsage>>, nums: PodRequests, policy: Policy, runs: Visits) {
    forall n :: n in runs ==> n in usage && TriedIn(usage[n], nums, policy, runs[n])
  }

  lemma OneMoreTried(usage: map<string, seq<DeviceUsage>>, nums: PodRequests, policy: Policy,
                     runs: Visits, n: string, v: Visit)
    requires RunsTried(usage, nums, policy, runs) && n in usage && TriedIn(usage[n], nums, policy, v)
    ensures RunsTried(usage, nums, policy, runs[n := v])
  {
  }

  /** On some considered node, in some order, the run reaches a container at which it crashes. */
  ghost predicate SomeCrash(usage: map<string, seq<DeviceUsage>>, nums: PodRequests, policy: Policy) {
    exists n, v: Visit :: n in usage && Reordered(nums, v.order) && CrashRun(usage[n], v.order, policy, v.placed)
  }

  /** An entry of the score list belongs to an accepted node and holds its record and score. */
  ghost predicate Entered(usage: map<string, seq<DeviceUsage>>, runs: Visits, s: NodeScore) {
    && s.nodeId in usage && s.nodeId in runs && IsAccepted(runs[s.nodeId])
    && s.devices == RecordOf(runs[s.nodeId])
    && s.score == ScoreOf(usage[s.nodeId], runs[s.nodeId])
  }

  ghost predicate Mentioned(scores: seq<NodeScore>, node: string) {
    exists s :: s in scores && s.nodeId == node
  }

  /** The score list holds exactly the accepted nodes. */
  ghost predicate Scored(usage: map<string, seq<DeviceUsage>>, runs: Visits, scores: seq<NodeScore>) {
    && (forall s :: s in scores ==> Entered(usage, runs, s))
    && (forall n :: n in runs && IsAccepted(runs[n]) ==> Mentioned(scores, n))
  }

  method CalcScore(usage: map<string, seq<DeviceUsage>>, nums: PodRequests, policy: Policy)
    returns (panicked: bool, scores: seq<NodeScore>, ghost runs: Visits)
    requires forall n :: n in usage ==> UniqueIds(usage[n])
    requires forall n :: n in nums ==> Wanted(n) && DistinctKinds(n)
    ensures panicked ==> SomeCrash(usage, nums, policy)
    ensures !panicked ==> AllTried(usage, nums, policy, runs) && Scored(usage, runs, scores)
  {
    scores, runs := [], map[];
    var todo := usage.Keys;
    while todo != {}
      invariant todo <= usage.Keys && runs.Keys == usage.Keys - todo
      invariant RunsTried(usage, nums, policy, runs)
      invariant Scored(usage, runs, scores)
    {
      var n :| n in todo;
      var r;
      ghost var v;
      r, v := TryNode(usage[n], nums, policy);
      if r.Panicked? {
        assert SomeCrash(usage, nums, policy);
        return true, scores, runs;
      }
      if r.Accepted? {
        AcceptStep(usage, runs, scores, n, v);
        scores := scores + [NodeScore(n, r.devices, r.score)];
      } else {
        RejectStep(usage, runs, scores, n, v);
      }
      OneMoreTried(usage, nums, policy, runs, n, v);
      runs := runs[n := v];
      todo := todo - {n};
    }
    panicked := false;
  }

  /** Tries one node, the requests of each container in any order. */
  method TryNode(devs0: seq<DeviceUsage>, nums: PodRequests, policy: Policy) returns (r: NodeResult, ghost v: Visit)
    requires UniqueIds(devs0) && forall n :: n in nums ==> Wanted(n) && DistinctKinds(n)
    ensures r.Panicked? ==> Reordered(nums, v.order) && CrashRun(devs0, v.order, policy, v.placed)
    ensures r.Panicked? <==> CrashPoint(v.order, v.placed)
    ensures !r.Panicked? ==> TriedIn(devs0, nums, policy, v) && (r.Accepted? <==> IsAccepted(v))
    ensures r.Accepted? ==> r.devices == RecordOf(v) && r.score == ScoreOf(devs0, v)
    ensures r.Accepted? ==> |r.devices| == |nums|
  {
    var order := AnyOrders(nums);
    OrderKeeps(nums, order);
    var tentative;
    ghost var placed;
    r, tentative, placed := ScoreNode(devs0, order, policy);
    v := Visit(order, placed);
  }

  lemma RejectStep(usage: map<string, seq<DeviceUsage>>, runs: Visits, scores: seq<NodeScore>,
                   n: string, v: Visit)
    requires Scored(usage, runs, scores) && n !in runs && !IsAccepted(v)
    ensures Scored(usage, runs[n := v], scores)
  {
  }

  lemma AcceptStep(usage: map<string, seq<DeviceUsage>>, runs: Visits, scores: seq<NodeScore>,
                   n: string, v: Visit)
    requires Scored(usage, runs, scores) && n !in runs && n in usage && IsAccepted(v)
    ensures Scored(usage, runs[n := v], scores + [NodeScore(n, RecordOf(v), ScoreOf(usage[n], v))])
  {
  }

  // ---- the usage table ----

  /** The table of every registered node, charged for the pods in `done`. */
  ghost predicate ChargedFor(nodes: Nodes, done: Pods, overall: map<string, seq<DeviceUsage>>) {
    overall.Keys == nodes.Keys && forall n :: n in nodes ==> overall[n] == Table(nodes[n], done, n)
  }

  lemma FreshTable(infos: seq<DeviceInfo>, node: string, unused: seq<DeviceUsage>)
    requires |unused| == |infos| && forall i :: 0 <= i < |infos| ==> unused[i] == Unused(infos[i])
    ensures unused == Table(infos, map[], node)
  {
  }

  /** One more pod: its own node is charged, the others are as before. */
  lemma ChargeTable(infos: seq<DeviceInfo>, done: Pods, uid: string, p: PodInfo, node: string)
    requires uid !in done
    ensures p.nodeId != node ==> Table(infos, done[uid := p], node) == Table(infos, done, node)
    ensures p.nodeId == node ==> forall i :: 0 <= i < |infos| ==>
              Table(infos, done[uid := p], node)[i] ==
              Charge(Table(infos, done, node)[i], PodUsage(p.devices, infos[i].id))
  {
    forall i | 0 <= i < |infos|
      ensures Table(infos, done[uid := p], node)[i] ==
              Charge(Table(infos, done, node)[i], RecordUsage(p, node, infos[i].id))
    {
      PodsUsageAdd(done, uid, p, node, infos[i].id);
      ChargeView(infos[i], PodsUsage(done, node, infos[i].id), RecordUsage(p, node, infos[i].id));
    }
  }

  lemma ChargedStep(nodes: Nodes, done: Pods, overall: map<string, seq<DeviceUsage>>, uid: string,
                    p: PodInfo, charged: seq<DeviceUsage>)
    requires ChargedFor(nodes, done, overall) && uid !in done
    requires p.nodeId in nodes ==>
      && |charged| == |nodes[p.nodeId]|
      && forall i :: 0 <= i < |charged| ==>
           charged[i] == Charge(overall[p.nodeId][i], PodUsage(p.devices, overall[p.nodeId][i].id))
    ensures p.nodeId in nodes ==> ChargedFor(nodes, done[uid := p], overall[p.nodeId := charged])
    ensures p.nodeId !in nodes ==> ChargedFor(nodes, done[uid := p], overall)
  {
    forall n | n in nodes
      ensures Table(nodes[n], done[uid := p], n) == if p.nodeId == n then charged else overall[n]
    {
      ChargeTable(nodes[n], done, uid, p, n);
    }
  }

  /** A node's cards before any pod is charged. */
  method FreshNode(infos: seq<DeviceInfo>, ghost node: string) returns (unused: seq<DeviceUsage>)
    ensures unused == Table(infos, map[], node)
  {
    unused := [];
    for i := 0 to |infos|
      invariant |unused| == i && forall j :: 0 <= j < i ==> unused[j] == Unused(infos[j])
    {
      var d := infos[i];
      unused := unused + [DeviceUsage(d.id, d.index, 0, d.count, 0, d.devmem, d.devcore, 0, d.numa, d.kind, d.health)];
    }
    FreshTable(infos, node, unused);
  }

  method OverallUsage(nodes: Nodes, pods: Pods) returns (overall: map<string, seq<DeviceUsage>>)
    ensures ChargedFor(nodes, pods, overall)
  {
    overall := map[];
    var left := nodes.Keys;
    while left != {}
      invariant left <= nodes.Keys && overall.Keys == nodes.Keys - left
      invariant forall n :: n in overall ==> overall[n] == Table(nodes[n], map[], n)
    {
      var n :| n in left;
      var unused := FreshNode(nodes[n], n);
      overall := overall[n := unused];
      left := left - {n};
    }
    var todo := pods.Keys;
    ghost var done: Pods := map[];
    while todo != {}
      invariant todo <= pods.Keys && done == map u | u in pods && u !in todo :: pods[u]
      invariant ChargedFor(nodes, done, overall)
    {
      var uid :| uid in todo;
      var p := pods[uid];
      var charged := [];
      if p.nodeId in overall {
        charged := ChargePod(overall[p.nodeId], p.devices);
      }
      ChargedStep(nodes, done, overall, uid, p, charged);
      if p.nodeId in overall {
        overall := overall[p.nodeId := charged];
      }
      done := done[uid := p];
      todo := todo - {uid};
    }
    assert done == pods;
  }

  /** The registered nodes among the named ones, with the usage the pods give them. */
  ghost function UsageTable(nodes: Nodes, pods: Pods, names: seq<string>): map<string, seq<DeviceUsage>> {
    map n | n in names && n in nodes :: Table(nodes[n], pods, n)
  }

  /** An accepted node whose score no accepted node exceeds. */
  ghost predicate Best(usage: map<string, seq<DeviceUsage>>, runs: Visits, node: string) {
    && node in usage && node in runs && IsAccepted(runs[node])
    && forall n :: n in usage && n in runs && IsAccepted(runs[n]) ==>
         ScoreOf(usage[n], runs[n]) <= ScoreOf(usage[node], runs[node])
  }

  /** What one call of the filter does to the pod map, by the way it ends. */
  ghost predicate FilterEffect(nodes: Nodes, before: Pods, after: Pods, uid: string, nums: PodRequests, policy: Policy,
                               names: seq<string>, patchOk: bool, r: FilterResult, runs: Visits) {
    var others := before - {uid};
    var usage := UsageTable(nodes, others, names);
    if Total(nums) == 0 then r.PassedThrough? && after == before
    else match r
      case PassedThrough => false
      case Crashed => after == others && SomeCrash(usage, nums, policy)
      case NoFit(failed) =>
        && after == others && failed == (set n | n in names && n !in nodes)
        && AllTried(usage, nums, policy, runs)
        && forall n :: n in runs ==> !IsAccepted(runs[n])
      case PatchFailed =>
        && after == others && !patchOk
        && AllTried(usage, nums, policy, runs)
        && exists n :: Best(usage, runs, n)
      case Scheduled(node, _) =>
        && patchOk
        && AllTried(usage, nums, policy, runs)
        && Best(usage, runs, node)
        && after == others[uid := PodInfo(node, RecordOf(runs[node]))]
  }

  lemma TableUnique(infos: seq<DeviceInfo>, pods: Pods, node: string)
    requires UniqueCards(infos)
    ensures UniqueIds(Table(infos, pods, node))
  {
  }

  // ---- the annotations written with a decision ----

  /** The two annotation families are valid, do not overlap, and leave the node annotation alone. */
  ghost predicate ValidChecklists(inRequest: Annotations, support: Annotations) {
    && ValidChecklist(inRequest) && ValidChecklist(support)
    && inRequest.Values !! support.Values
    && ASSIGNED_NODE !in inRequest.Values && ASSIGNED_NODE !in support.Values
  }

  lemma CarriesMore(checklist: Annotations, pd: PodDevices, annos: Annotations, more: Annotations)
    requires Carries(checklist, pd, annos)
    requires forall kind :: kind in checklist ==> checklist[kind] !in more
    ensures Carries(checklist, pd, annos + more)
  {
  }

  method DecisionAnnotations(inRequest: Annotations, support: Annotations, node: string, devices: PodDevices)
    returns (annos: Annotations)
    ensures ValidChecklists(inRequest, support) ==>
              Carries(inRequest, devices, annos) && Carries(support, devices, annos)
    ensures ValidChecklists(inRequest, support) ==> "4pd.io/vgpu-node" in annos && annos["4pd.io/vgpu-node"] == node
  {
    var base := map[ASSIGNED_NODE := node];
    var requests := EncodePodDevices(inRequest, devices);
    var supported := EncodePodDevices(support, devices);
    annos := base + requests + supported;
    if ValidChecklists(inRequest, support) {
      BothCarried(inRequest, support, node, devices, requests, supported);
    }
  }

  lemma BothCarried(inRequest: Annotations, support: Annotations, node: string, devices: PodDevices,
                    requests: Annotations, supported: Annotations)
    requires ValidChecklists(inRequest, support)
    requires EncodingOf(inRequest, devices, requests) && EncodingOf(support, devices, supported)
    ensures var annos := map[ASSIGNED_NODE := node] + requests + supported;
      && Carries(inRequest, devices, annos) && Carries(support, devices, annos)
      && annos[ASSIGNED_NODE] == node
  {
    var base := map[ASSIGNED_NODE := node];
    KeysBelong(inRequest, devices, requests);
    KeysBelong(support, devices, supported);
    assert ASSIGNED_NODE != "";
    forall kind | kind in inRequest
      ensures inRequest[kind] !in base && inRequest[kind] !in supported
    {
      assert inRequest[kind] in inRequest.Values;
    }
    forall kind | kind in support
      ensures support[kind] !in base + requests
    {
      assert support[kind] in support.Values;
    }
    PatchCarries(inRequest, devices, base, requests);
    CarriesMore(inRequest, devices, base + requests, supported);
    PatchCarries(support, devices, base + requests, supported);
  }

  lemma KeysBelong(checklist: Annotations, pd: PodDevices, res: Annotations)
    requires EncodingOf(checklist, pd, res)
    ensures forall key :: key in res ==> key == "" || key in checklist.Values
  {
  }

  class Scheduler {
    var nodes: Nodes
    var pods: Pods
    const inRequest: Annotations
    const support: Annotations

    constructor (inRequest: Annotations, support: Annotations)
      ensures nodes == map[] && pods == map[]
      ensures this.inRequest == inRequest && this.support == support
    {
      nodes, pods := map[], map[];
      this.inRequest, this.support := inRequest, support;
    }

    method AddNode(nodeID: string, infos: seq<DeviceInfo>)
      modifies this`nodes
      ensures nodes == WithCards(old(nodes), nodeID, infos)
      ensures nodes - {nodeID} == old(nodes) - {nodeID}
      ensures infos == [] ==> nodes == old(nodes)
      ensures infos != [] ==>
        nodeID in nodes && nodes[nodeID] == (if nodeID in old(nodes) then old(nodes)[nodeID] else []) + infos
    {
      if |infos| == 0 {
        return;
      }
      if nodeID in nodes {
        nodes := nodes[nodeID := nodes[nodeID] + infos];
      } else {
        assert [] + infos == infos;
        nodes := nodes[nodeID := infos];
      }
    }

    /** Asking for a list of negative capacity panics before anything is changed. */
    method RmNodeDevice(nodeID: string, gone: seq<DeviceInfo>) returns (panicked: bool)
      modifies this`nodes
      ensures panicked <==> nodeID in old(nodes) && 0 < |old(nodes)[nodeID]| < |gone|
      ensures nodes == if nodeID in old(nodes) && !panicked
                       then old(nodes)[nodeID := Remaining(old(nodes)[nodeID], gone)] else old(nodes)
    {
      if nodeID !in nodes || |nodes[nodeID]| == 0 {
        return false;
      }
      var infos := nodes[nodeID];
      if |infos| < |gone| {
        return true;
      }
      var tmp: seq<DeviceInfo> := [];
      for i := 0 to |infos|
        invariant tmp == Remaining(infos[..i], gone)
        invariant nodes == old(nodes)
      {
        assert infos[..i + 1][..i] == infos[..i];
        var found := Removed(gone, infos[i]);
        if !found && |infos[i].id| > 0 {
          tmp := tmp + [infos[i]];
        }
      }
      assert infos[..|infos|] == infos;
      nodes := nodes[nodeID := tmp];
      panicked := false;
    }

    method AddPod(uid: string, nodeID: string, devices: PodDevices)
      modifies this`pods
      ensures pods == if uid in old(pods) then old(pods) else old(pods)[uid := PodInfo(nodeID, devices)]
    {
      if uid !in pods {
        pods := pods[uid := PodInfo(nodeID, devices)];
      }
    }

    method DelPod(uid: string)
      modifies this`pods
      ensures pods == old(pods) - {uid}
    {
      if uid in pods {
        pods := pods - {uid};
      }
    }

    /** The usage of the named nodes, rebuilt from all recorded pods in any order. */
    method GetNodesUsage(names: seq<string>) returns (usage: map<string, seq<DeviceUsage>>, failed: set<string>)
      ensures usage == UsageTable(nodes, pods, names)
      ensures usage.Keys == set n | n in names && n in nodes
      ensures forall n :: n in usage ==> Shows(nodes[n], pods, n, usage[n])
      ensures failed == set n | n in names && n !in nodes
    {
      var overall := OverallUsage(nodes, pods);
      usage, failed := map[], {};
      for i := 0 to |names|
        invariant usage == UsageTable(nodes, pods, names[..i])
        invariant failed == set n | n in names[..i] && n !in nodes
      {
        assert names[..i + 1] == names[..i] + [names[i]];
        if names[i] in nodes {
          usage := usage[names[i] := overall[names[i]]];
        } else {
          failed := failed + {names[i]};
        }
      }
      assert names[..|names|] == names;
    }

    /**
      Places a pod: its old record is dropped, the usage is rebuilt without it, every named
      node is tried, and the best accepted node is recorded, unless the patch fails.
     */
    method Filter(uid: string, nums: PodRequests, policy: Policy, names: seq<string>, patchOk: bool)
      returns (r: FilterResult, ghost runs: Visits)
      requires WellRegistered(nodes)
      requires forall n :: n in nums ==> Wanted(n) && DistinctKinds(n)
      modifies this`pods
      ensures FilterEffect(nodes, old(pods), pods, uid, nums, policy, names, patchOk, r, runs)
      ensures r.Scheduled? && ValidChecklists(inRequest, support) ==>
        && uid in pods
        && Carries(inRequest, pods[uid].devices, r.annotations)
        && Carries(support, pods[uid].devices, r.annotations)
    {
      runs := map[];
      var total := CountRequests(nums);
      if total == 0 {
        return PassedThrough, runs;
      }
      DelPod(uid);
      ghost var others := pods;
      var usage, failed := GetNodesUsage(names);
      UniqueTables(nodes, pods, names);
      var choice;
      choice, runs := Choose(usage, nums, policy);
      match choice
      case Crash =>
        return Crashed, runs;
      case None =>
        return NoFit(failed), runs;
      case One(m) =>
        var annotations := DecisionAnnotations(inRequest, support, m.nodeId, m.devices);
        AddPod(uid, m.nodeId, m.devices);
        if !patchOk {
          DelPod(uid);
          AddThenRemove(others, uid, PodInfo(m.nodeId, m.devices));
          return PatchFailed, runs;
        }
        r := Scheduled(m.nodeId, annotations);
    }
  }

  lemma AddThenRemove(pods: Pods, uid: string, p: PodInfo)
    requires uid !in pods
    ensures pods[uid := p] - {uid} == pods
  {
  }

  method CountRequests(nums: PodRequests) returns (total: int)
    ensures total == Total(nums)
  {
    total := 0;
    for i := 0 to |nums|
      invariant total == Total(nums[..i])
    {
      assert nums[..i + 1][..i] == nums[..i];
      total := total + Wants(nums[i]);
    }
    assert nums[..|nums|] == nums;
  }

  lemma UniqueTables(nodes: Nodes, pods: Pods, names: seq<string>)
    requires WellRegistered(nodes)
    ensures forall n :: n in UsageTable(nodes, pods, names) ==> UniqueIds(UsageTable(nodes, pods, names)[n])
  {
  }

  datatype Choice = Crash | None | One(m: NodeScore)

  /** Tries every node and takes the one with the highest score. */
  method Choose(usage: map<string, seq<DeviceUsage>>, nums: PodRequests, policy: Policy)
    returns (c: Choice, ghost runs: Visits)
    requires forall n :: n in usage ==> UniqueIds(usage[n])
    requires forall n :: n in nums ==> Wanted(n) && DistinctKinds(n)
    ensures c.Crash? ==> SomeCrash(usage, nums, policy)
    ensures !c.Crash? ==> AllTried(usage, nums, policy, runs)
    ensures c.None? ==> forall n :: n in runs ==> !IsAccepted(runs[n])
    ensures c.One? ==> Entered(usage, runs, c.m) && Best(usage, runs, c.m.nodeId)
  {
    var panicked, scores;
    panicked, scores, runs := CalcScore(usage, nums, policy);
    if panicked {
      return Crash, runs;
    }
    if |scores| == 0 {
      NothingScored(usage, runs);
      return None, runs;
    }
    var m := BestScore(scores);
    BestIsBest(usage, runs, scores, m);
    c := One(m);
  }

  lemma NothingScored(usage: map<string, seq<DeviceUsage>>, runs: Visits)
    requires Scored(usage, runs, [])
    ensures forall n :: n in runs ==> !IsAccepted(runs[n])
  {
  }

  /** The last entry of the list sorted by score. */
  method BestScore(scores: seq<NodeScore>) returns (m: NodeScore)
    requires scores != []
    ensures m in scores
    ensures forall s :: s in scores ==> s.score <= m.score
  {
    var sorted := SortList(scores, (x: NodeScore, y: NodeScore) => x.score < y.score);
    SameMembers(scores, sorted);
    m := sorted[|sorted| - 1];
    assert m in sorted;
    forall s | s in scores
      ensures s.score <= m.score
    {
      var i :| 0 <= i < |sorted| && sorted[i] == s;
    }
  }

  lemma BestIsBest(usage: map<string, seq<DeviceUsage>>, runs: Visits, scores: seq<NodeScore>,
                   m: NodeScore)
    requires Scored(usage, runs, scores) && m in scores
    requires forall s :: s in scores ==> s.score <= m.score
    ensures Entered(usage, runs, m) && Best(usage, runs, m.nodeId)
  {
  }

  method Removed(gone: seq<DeviceInfo>, c: DeviceInfo) returns (found: bool)
    ensures found || c.id == "" <==> Removable(gone, c)
    ensures found ==> exists k :: 0 <= k < |gone| && gone[k].id == c.id
  {
    found := false;
    for k := 0 to |gone|
      invariant !found && forall j :: 0 <= j < k ==> gone[j].id != c.id
    {
      if gone[k].id == c.id {
        return true;
      }
    }
  }
}
