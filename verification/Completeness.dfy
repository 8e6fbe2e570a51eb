/**
  When pods are served, judged by the cards as they are before the filter: the conditions a
  caller can check, for pods whose requests do not compete for cards.
 */
module Completeness {
  import opened Devices
  import opened Usages
  import opened Sets
  import opened Fitting
  import opened Placement
  import opened Scoring
  import opened PodScoring
  import opened Recording
  import opened ScoreSums
  import opened Schedulers
  import opened SchedulerLimits

  // ---- one request ----

  /** Shares that serve a request prove that it can be served. */
  lemma PicksCanFit(devs: seq<DeviceUsage>, r: Request, policy: Policy, es: ContainerDevices)
    requires Picks(devs, r, policy, es)
    ensures CanFit(devs, r, policy)
  {
    var numa :| Ids(es) <= Candidates(devs, r, policy, numa);
    IdsSize(es);
    SubsetSize(Ids(es), Candidates(devs, r, policy, numa));
  }

  lemma {:induction false} IdsSize(es: ContainerDevices)
    requires DistinctCards(es)
    ensures |Ids(es)| == |es|
    decreases |es|
  {
    if es == [] {
      assert Ids(es) == {};
    } else {
      var n := |es| - 1;
      IdsSize(es[..n]);
      assert es == es[..n] + [es[n]];
      IdsSnoc(es[..n], es[n]);
    }
  }

  /** A request that can be served is served by some preferred shares. */
  lemma SomeChosen(devs: seq<DeviceUsage>, r: Request, policy: Policy) returns (es: ContainerDevices)
    requires UniqueIds(devs) && CanFit(devs, r, policy) && r.nums >= 1
    ensures Chosen(devs, r, policy, es)
  {
    var g :| |Candidates(devs, r, policy, g)| >= r.nums;
    var numa := g;
    if NumaBound(policy, r) {
      var top := Highest(devs);
      numa := HighestGroup(devs, r, policy, g, top);
    }
    es := TakeForemost(devs, r, policy, numa, r.nums);
    var ids := Ids(es);
    forall d, x | d in devs && x in devs && d.id in ids && PassedOver(r, policy, es, d, x)
      ensures Ahead(d, x)
    {
      assert d.id in Candidates(devs, r, policy, numa);
      var y :| y in devs && y.id == d.id && InGroup(y, r, policy, numa);
      assert y == d && x.id in Candidates(devs, r, policy, numa);
    }
  }

  lemma {:induction false} Highest(devs: seq<DeviceUsage>) returns (top: int)
    ensures forall d :: d in devs ==> d.numa <= top
  {
    top := 0;
    if devs != [] {
      var n := |devs| - 1;
      var rest := Highest(devs[..n]);
      top := if rest > devs[n].numa then rest else devs[n].numa;
      assert forall d :: d in devs ==> d in devs[..n] || d == devs[n];
    }
  }

  /** With NUMA binding there is a highest group with enough usable cards. */
  lemma {:induction false} HighestGroup(devs: seq<DeviceUsage>, r: Request, policy: Policy, g: int, top: int)
    returns (numa: int)
    requires NumaBound(policy, r) && r.nums >= 1 && |Candidates(devs, r, policy, g)| >= r.nums
    requires forall d :: d in devs ==> d.numa <= top
    ensures |Candidates(devs, r, policy, numa)| >= r.nums && NoneAbove(devs, r, policy, numa)
    decreases top - g
  {
    if h :| h > g && |Candidates(devs, r, policy, h)| >= r.nums {
      var id :| id in Candidates(devs, r, policy, h);
      numa := HighestGroup(devs, r, policy, h, top);
    } else {
      numa := g;
    }
  }

  /** Of the named cards, one that is ahead of all others. */
  lemma {:induction false} First(devs: seq<DeviceUsage>, ids: set<string>) returns (d: DeviceUsage)
    requires exists x :: x in devs && x.id in ids
    ensures d in devs && d.id in ids && forall x :: x in devs && x.id in ids ==> Ahead(d, x)
    decreases |devs|
  {
    var n := |devs| - 1;
    assert forall x :: x in devs ==> x in devs[..n] || x == devs[n];
    d := devs[n];
    if exists x :: x in devs[..n] && x.id in ids {
      var best := First(devs[..n], ids);
      if devs[n].id !in ids || Ahead(best, devs[n]) {
        d := best;
      }
    }
  }

  /** The `n` foremost usable cards of a group. */
  lemma {:induction false} TakeForemost(devs: seq<DeviceUsage>, r: Request, policy: Policy, numa: int, n: nat)
    returns (es: ContainerDevices)
    requires UniqueIds(devs) && n <= |Candidates(devs, r, policy, numa)|
    ensures |es| == n && DistinctCards(es) && Ids(es) <= Candidates(devs, r, policy, numa)
    ensures forall e :: e in es ==> ShareOf(devs, r, e)
    ensures forall d, x | d in devs && d.id in Ids(es) && x in devs ::
              x.id in Candidates(devs, r, policy, numa) - Ids(es) ==> Ahead(d, x)
  {
    if n == 0 {
      es := [];
    } else {
      var all := Candidates(devs, r, policy, numa);
      var before := TakeForemost(devs, r, policy, numa, n - 1);
      IdsSize(before);
      var id := Unchosen(all, Ids(before));
      var c :| c in devs && c.id == id;
      var d := First(devs, all - Ids(before));
      var e := Entry(d, 0, r);
      assert ShareOf(devs, r, e) by {
        forall x | x in devs && x.id == e.uuid
          ensures x == d
        {
        }
      }
      es := before + [e];
      IdsSnoc(before, e);
      DistinctSnoc(before, e);
    }
  }

  lemma Unchosen(all: set<string>, chosen: set<string>) returns (x: string)
    requires |chosen| < |all|
    ensures x in all && x !in chosen
  {
    if all <= chosen {
      SubsetSize(all, chosen);
      assert false;
    }
    x :| x in all && x !in chosen;
  }

  // ---- requests that do not compete ----

  /** The card is accepted for another kind than the request's. */
  ghost predicate ForAnother(devs: seq<DeviceUsage>, r: Request, policy: Policy, id: string) {
    exists s: Request :: s.kind != r.kind && AcceptedFor(devs, s, policy, id)
  }

  /** Shares of cards that are accepted for other kinds leave the candidates as they are. */
  lemma CandidatesAside(devs: seq<DeviceUsage>, es: ContainerDevices, r: Request, policy: Policy,
                        numa: int)
    requires UniqueIds(devs) && SeparateKinds(policy)
    requires forall e :: e in es ==> ForAnother(devs, r, policy, e.uuid)
    ensures Candidates(Current(devs, es), r, policy, numa) == Candidates(devs, r, policy, numa)
  {
    var now := Current(devs, es);
    forall i | 0 <= i < |devs|
      ensures now[i] == devs[i] || !(AcceptedType(now[i], r, policy) || AcceptedType(devs[i], r, policy))
    {
      if e :| e in es && e.uuid == devs[i].id {
        var s: Request :| s.kind != r.kind && AcceptedFor(devs, s, policy, e.uuid);
        AcceptedForOne(devs, s, r, policy, e.uuid);
        assert now[i].kind == devs[i].kind;
      } else {
        ListUsageAbsent(es, devs[i].id);
      }
    }
    SameCandidates(devs, now, r, policy, numa);
  }

  lemma SameCandidates(devs: seq<DeviceUsage>, now: seq<DeviceUsage>, r: Request, policy: Policy,
                       numa: int)
    requires |now| == |devs|
    requires forall i :: 0 <= i < |devs| ==>
               now[i] == devs[i] || !(AcceptedType(now[i], r, policy) || AcceptedType(devs[i], r, policy))
    ensures Candidates(now, r, policy, numa) == Candidates(devs, r, policy, numa)
  {
    forall d | d in now && Usable(d, r, policy)
      ensures d in devs
    {
      var i :| 0 <= i < |now| && now[i] == d;
    }
    forall d | d in devs && Usable(d, r, policy)
      ensures d in now
    {
      var i :| 0 <= i < |devs| && devs[i] == d;
    }
  }

  lemma CanFitAside(devs: seq<DeviceUsage>, es: ContainerDevices, r: Request, policy: Policy)
    requires UniqueIds(devs) && SeparateKinds(policy)
    requires forall e :: e in es ==> ForAnother(devs, r, policy, e.uuid)
    ensures CanFit(Current(devs, es), r, policy) <==> CanFit(devs, r, policy)
  {
    forall numa {
      CandidatesAside(devs, es, r, policy, numa);
    }
  }

  /** The requests are for different kinds, and no card type is accepted for two; one request never competes. */
  ghost predicate Apart(rs: seq<Request>, policy: Policy) {
    DistinctKinds(rs) && (|rs| <= 1 || SeparateKinds(policy))
  }

  /** So the next request sees the cards as if nothing had been given yet. */
  lemma NextIsUnaffected(devs: seq<DeviceUsage>, rs: seq<Request>, policy: Policy,
                         placed: seq<ContainerDevices>)
    requires UniqueIds(devs) && Apart(rs, policy) && Served(devs, [], rs, policy, placed) && |placed| < |rs|
    ensures CanFit(Current(devs, [] + Concat(placed)), rs[|placed|], policy) <==> CanFit(devs, rs[|placed|], policy)
  {
    var es, r := Concat(placed), rs[|placed|];
    assert [] + es == es;
    if placed == [] {
      NothingCharged(devs);
    } else {
      forall e | e in es
        ensures ForAnother(devs, r, policy, e.uuid)
      {
        var t := ListAccepted(devs, [], rs, policy, placed, e);
        assert rs[t].kind != r.kind;
      }
      CanFitAside(devs, es, r, policy);
    }
  }

  /** A run that goes as far as it can serves everything if and only if each request alone can be served. */
  lemma ServedExactly(devs: seq<DeviceUsage>, rs: seq<Request>, policy: Policy,
                      placed: seq<ContainerDevices>)
    requires UniqueIds(devs) && Apart(rs, policy)
    requires Served(devs, [], rs, policy, placed) && Maximal(devs, [], rs, policy, placed)
    ensures |placed| == |rs| <==> forall r :: r in rs ==> CanFit(devs, r, policy)
  {
    if |placed| < |rs| {
      NextIsUnaffected(devs, rs, policy, placed);
      assert rs[|placed|] in rs;
    } else {
      forall r | r in rs
        ensures CanFit(devs, r, policy)
      {
        var t :| 0 <= t < |rs| && rs[t] == r;
        ServedFits(devs, rs, policy, placed, t);
      }
    }
  }

  lemma ServedFits(devs: seq<DeviceUsage>, rs: seq<Request>, policy: Policy,
                   placed: seq<ContainerDevices>, t: nat)
    requires UniqueIds(devs) && Apart(rs, policy) && Served(devs, [], rs, policy, placed) && t < |placed|
    ensures CanFit(devs, rs[t], policy)
  {
    ServedTake(devs, [], rs, policy, placed, t + 1);
    assert placed[..t + 1][..t] == placed[..t];
    PicksCanFit(Current(devs, [] + Concat(placed[..t])), rs[t], policy, placed[t]);
    NextIsUnaffected(devs, rs, policy, placed[..t]);
  }

  // ---- which pods are accepted ----

  /** The kinds of some requests. */
  ghost function KindsOf(rs: seq<Request>): set<string> {
    set r | r in rs :: r.kind
  }

  lemma KindsSnoc(rs: seq<Request>, r: Request)
    ensures KindsOf(rs + [r]) == KindsOf(rs) + {r.kind}
  {
  }

  lemma KindsAppend(rs: seq<Request>, ss: seq<Request>)
    ensures KindsOf(rs + ss) == KindsOf(rs) + KindsOf(ss)
  {
  }

  lemma {:induction false} DistinctKindsSize(rs: seq<Request>)
    requires DistinctKinds(rs)
    ensures |KindsOf(rs)| == |rs|
    decreases |rs|
  {
    if rs == [] {
      assert KindsOf(rs) == {};
    } else {
      var n := |rs| - 1;
      DistinctKindsSize(rs[..n]);
      assert rs == rs[..n] + [rs[n]];
      KindsSnoc(rs[..n], rs[n]);
    }
  }

  lemma {:induction false} ContainerKinds(pd: PodDevices, rs: seq<Request>, lists: seq<ContainerDevices>)
    requires |lists| <= |rs|
    ensures RecordContainer(pd, rs, lists).Keys == pd.Keys + KindsOf(rs[..|lists|])
    decreases |lists|
  {
    if lists != [] {
      var n := |lists| - 1;
      ContainerKinds(pd, rs, lists[..n]);
      assert rs[..n + 1] == rs[..n] + [rs[n]];
      KindsSnoc(rs[..n], rs[n]);
    }
  }

  lemma {:induction false} ServedRecordKinds(nums: PodRequests, placed: PodPlacement)
    requires FullyServed(nums, placed)
    ensures Record(nums, placed).Keys == KindsOf(Concat(nums[..|placed|]))
    decreases |placed|
  {
    if placed != [] {
      var n := |placed| - 1;
      ServedRecordKinds(nums, placed[..n]);
      ContainerKinds(Record(nums, placed[..n]), nums[n], placed[n]);
      assert nums[n][..|placed[n]|] == nums[n];
      NumsSnoc(nums, n);
      KindsAppend(Concat(nums[..n]), nums[n]);
    }
  }

  /** The requests of all containers up to the one served in part, as far as it was served. */
  lemma ServedPart(nums: PodRequests, placed: PodPlacement)
    requires Shaped(nums, placed) && placed != []
    ensures var n := |placed| - 1;
      && |Concat(placed)| <= |Concat(nums)|
      && Concat(nums)[..|Concat(placed)|] == Concat(nums[..n]) + nums[n][..|placed[n]|]
  {
    var n := |placed| - 1;
    FlatLength(nums, placed[..n]);
    NumsSnoc(nums, n);
    NumsSplit(nums, n + 1);
    assert Concat(placed) == Concat(placed[..n]) + placed[n];
  }

  /** The record holds the kinds of the requests that were served. */
  lemma RecordKinds(nums: PodRequests, placed: PodPlacement)
    requires Shaped(nums, placed)
    ensures |Concat(placed)| <= |Concat(nums)|
    ensures Record(nums, placed).Keys == KindsOf(Concat(nums)[..|Concat(placed)|])
  {
    if placed != [] {
      var n := |placed| - 1;
      ServedPart(nums, placed);
      ServedRecordKinds(nums, placed[..n]);
      ContainerKinds(Record(nums, placed[..n]), nums[n], placed[n]);
      KindsAppend(Concat(nums[..n]), nums[n][..|placed[n]|]);
    }
  }

  /** A pod all of whose requests are for different kinds is accepted when as many were served as it has containers. */
  lemma AcceptedCount(nums: PodRequests, placed: PodPlacement)
    requires Shaped(nums, placed) && DistinctKinds(Concat(nums))
    ensures Accepts(nums, placed) <==> |Concat(placed)| == |nums|
  {
    RecordKinds(nums, placed);
    KeysSize(Record(nums, placed));
    DistinctKindsSize(Concat(nums)[..|Concat(placed)|]);
  }

  /** The first `m` requests can each be served and the next one, if any, cannot. */
  ghost predicate FitsExactly(devs: seq<DeviceUsage>, rs: seq<Request>, policy: Policy, m: nat) {
    && m <= |rs|
    && (forall i :: 0 <= i < m ==> CanFit(devs, rs[i], policy))
    && (m < |rs| ==> !CanFit(devs, rs[m], policy))
  }

  lemma HowFar(devs: seq<DeviceUsage>, rs: seq<Request>, policy: Policy, flat: seq<ContainerDevices>, m: nat)
    requires UniqueIds(devs) && Apart(rs, policy)
    requires Served(devs, [], rs, policy, flat) && Maximal(devs, [], rs, policy, flat)
    ensures |flat| == m <==> FitsExactly(devs, rs, policy, m)
  {
    forall i | 0 <= i < |flat|
      ensures CanFit(devs, rs[i], policy)
    {
      ServedFits(devs, rs, policy, flat, i);
    }
    if |flat| < |rs| {
      NextIsUnaffected(devs, rs, policy, flat);
    }
  }

  /**
    Which pods are accepted, when no two of their requests compete, whatever their containers
    ask for: those of which, in the order visited, as many requests as the pod has containers
    can be served and the next one, if any, cannot.
   */
  lemma AcceptedApart(devs: seq<DeviceUsage>, nums: PodRequests, policy: Policy, placed: PodPlacement)
    requires UniqueIds(devs) && Apart(Concat(nums), policy) && Tried(devs, nums, policy, placed)
    ensures Accepts(nums, placed) <==> FitsExactly(devs, Concat(nums), policy, |nums|)
  {
    AcceptedCount(nums, placed);
    HowFar(devs, Concat(nums), policy, Concat(placed), |nums|);
  }

  // ---- pods with one kind per container ----

  lemma {:induction false} FlatOnes(nums: PodRequests)
    requires OneEach(nums)
    ensures |Concat(nums)| == |nums| && forall c :: 0 <= c < |nums| ==> Concat(nums)[c] == nums[c][0]
    decreases |nums|
  {
    if nums != [] {
      FlatOnes(nums[..|nums| - 1]);
    }
  }

  /** A pod whose containers ask for one kind each is accepted if and only if each container alone can be served. */
  lemma PodAccepted(devs: seq<DeviceUsage>, nums: PodRequests, policy: Policy, placed: PodPlacement)
    requires OneEach(nums) && DifferentKinds(nums, |nums|) && (|nums| <= 1 || SeparateKinds(policy))
    requires UniqueIds(devs) && Tried(devs, nums, policy, placed)
    ensures Accepts(nums, placed) <==> NodeFits(devs, nums, policy)
  {
    FlatOnes(nums);
    AcceptedApart(devs, nums, policy, placed);
  }

  /** Some named and registered node can serve every request next to all other recorded pods. */
  ghost predicate SomeNodeFits(nodes: Nodes, others: Pods, names: seq<string>, nums: PodRequests, policy: Policy)
    requires OneEach(nums)
  {
    exists n :: n in names && n in nodes && NodeFits(Table(nodes[n], others, n), nums, policy)
  }

  ghost predicate NodeFits(devs: seq<DeviceUsage>, nums: PodRequests, policy: Policy)
    requires OneEach(nums)
  {
    forall c :: 0 <= c < |nums| ==> CanFit(devs, nums[c][0], policy)
  }

  /** Every container asks for one kind, no two for the same, and some node can serve them all. */
  ghost predicate Placeable(nodes: Nodes, others: Pods, names: seq<string>, nums: PodRequests, policy: Policy) {
    && nums != [] && OneEach(nums) && DifferentKinds(nums, |nums|)
    && SomeNodeFits(nodes, others, names, nums, policy)
  }

  /**
    The filter is complete for pods whose containers ask for at most one kind each, when no
    card type is accepted for two kinds: it finds a node if and only if every container asks
    for a kind, the kinds are all different and some named and registered node can serve each
    request. One container needs no condition on the card types.
   */
  lemma ScheduledExactly(nodes: Nodes, before: Pods, after: Pods, uid: string, nums: PodRequests,
                         policy: Policy, names: seq<string>, patchOk: bool, res: FilterResult,
                         runs: Visits)
    requires WellRegistered(nodes) && SingleKind(nums) && forall n :: n in nums ==> Wanted(n)
    requires OneEach(nums) && |nums| > 1 ==> SeparateKinds(policy)
    requires FilterEffect(nodes, before, after, uid, nums, policy, names, patchOk, res, runs)
    ensures res.Scheduled? || res.PatchFailed? <==> Placeable(nodes, before - {uid}, names, nums, policy)
  {
    var others := before - {uid};
    var usage := UsageTable(nodes, others, names);
    forall n | n in usage && n in runs && TriedIn(usage[n], nums, policy, runs[n])
      ensures n in names && n in nodes && usage[n] == Table(nodes[n], others, n)
      ensures IsAccepted(runs[n]) <==>
                OneEach(nums) && DifferentKinds(nums, |nums|) && NodeFits(usage[n], nums, policy)
    {
      TableUnique(nodes[n], others, n);
      VisitAccepted(usage[n], nums, policy, runs[n]);
    }
    if Placeable(nodes, others, names, nums, policy) {
      TotalAtLeast(nums);
      FlatOnes(nums);
      OnesNeverCrash(usage, nums, policy);
      var n :| n in names && n in nodes && NodeFits(Table(nodes[n], others, n), nums, policy);
      assert n in usage;
    }
  }

  lemma VisitAccepted(devs: seq<DeviceUsage>, nums: PodRequests, policy: Policy, v: Visit)
    requires UniqueIds(devs) && SingleKind(nums) && (OneEach(nums) && |nums| > 1 ==> SeparateKinds(policy))
    requires TriedIn(devs, nums, policy, v)
    ensures IsAccepted(v) <==> OneEach(nums) && DifferentKinds(nums, |nums|) && NodeFits(devs, nums, policy)
  {
    OnlyOrder(nums, v.order);
    AcceptedExactly(nums, v.placed);
    if OneEach(nums) && DifferentKinds(nums, |nums|) {
      PodAccepted(devs, nums, policy, v.placed);
    }
  }

  lemma OnesNeverCrash(usage: map<string, seq<DeviceUsage>>, nums: PodRequests, policy: Policy)
    requires OneEach(nums)
    ensures !SomeCrash(usage, nums, policy)
  {
    forall n, v: Visit | n in usage && Reordered(nums, v.order) && CrashRun(usage[n], v.order, policy, v.placed)
      ensures false
    {
      OnlyOrder(nums, v.order);
    }
  }

  lemma {:induction false} WantsAtLeast(rs: seq<Request>)
    requires Wanted(rs)
    ensures Wants(rs) >= |rs|
    decreases |rs|
  {
    if rs != [] {
      var n := |rs| - 1;
      WantsAtLeast(rs[..n]);
      assert rs[n] in rs;
    }
  }

  /** Every request wants a card, so only a pod without requests is passed through. */
  lemma {:induction false} TotalAtLeast(nums: PodRequests)
    requires forall n :: n in nums ==> Wanted(n)
    ensures Total(nums) >= |Concat(nums)|
    decreases |nums|
  {
    if nums != [] {
      var n := |nums| - 1;
      TotalAtLeast(nums[..n]);
      assert nums[n] in nums;
      WantsAtLeast(nums[n]);
    }
  }

  // ---- two kinds in one container ----

  /** The acceptance test lets a single container with two kinds pass exactly when one of them is served. */
  lemma TwoKindsAccepted(r: Request, s: Request, lists: seq<ContainerDevices>)
    requires r.kind != s.kind && |lists| <= 2
    ensures Shaped([[r, s]], [lists]) && (Accepts([[r, s]], [lists]) <==> |lists| == 1)
  {
    ConcatOne([r, s]);
    ConcatOne(lists);
    AcceptedCount([[r, s]], [lists]);
  }

  /**
    A single container that asks for two kinds, visited in this order, is accepted if and only
    if the first can be served and the second cannot.
   */
  lemma PartlyServedIsAccepted(devs: seq<DeviceUsage>, r: Request, s: Request, policy: Policy,
                               placed: PodPlacement)
    requires UniqueIds(devs) && SeparateKinds(policy) && r.kind != s.kind
    requires Tried(devs, [[r, s]], policy, placed)
    ensures Accepts([[r, s]], placed) <==> CanFit(devs, r, policy) && !CanFit(devs, s, policy)
  {
    var rs := [r, s];
    ConcatOne(rs);
    AcceptedApart(devs, [rs], policy, placed);
    assert rs[0] == r && rs[1] == s;
  }
}
