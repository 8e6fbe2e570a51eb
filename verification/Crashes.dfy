/**
  Containers without requests: the padding they append is out of range once anything is
  recorded. Which pods that panics, judged by the cards as they are before the filter.
 */
module Crashes {
  import opened Devices
  import opened Usages
  import opened Sorting
  import opened Fitting
  import opened Placement
  import opened Scoring
  import opened PodScoring
  import opened Schedulers
  import opened Completeness

  /** Containers without requests come before all others. */
  ghost predicate EmptiesFirst(nums: PodRequests) {
    forall a, b :: 0 <= a < b < |nums| && nums[b] == [] ==> nums[a] == []
  }

  /** That keeps every run from crashing, on any node, with any policy and in any order. */
  lemma EmptiesFirstIsSafe(nums: PodRequests, order: PodRequests, placed: PodPlacement)
    requires EmptiesFirst(nums) && Reordered(nums, order)
    ensures !CrashPoint(order, placed)
  {
    EmptyTogether(nums, order);
    if CrashPoint(order, placed) {
      var a := SomeNonEmpty(placed);
    }
  }

  lemma EmptyTogether(nums: PodRequests, order: PodRequests)
    requires Reordered(nums, order)
    ensures forall c :: 0 <= c < |nums| ==> (order[c] == [] <==> nums[c] == [])
  {
    forall c | 0 <= c < |nums|
      ensures order[c] == [] <==> nums[c] == []
    {
      assert |multiset(order[c])| == |multiset(nums[c])|;
    }
  }

  lemma {:induction false} SomeNonEmpty<T>(ss: seq<seq<T>>) returns (i: nat)
    requires Concat(ss) != []
    ensures i < |ss| && ss[i] != []
    decreases |ss|
  {
    var n := |ss| - 1;
    if ss[n] != [] {
      i := n;
    } else {
      i := SomeNonEmpty(ss[..n]);
    }
  }

  /** Container `b` is a crash point if everything before it can be served. */
  ghost predicate Pitfall(devs: seq<DeviceUsage>, nums: PodRequests, policy: Policy, b: nat) {
    && b < |nums| && nums[b] == [] && (exists a :: 0 <= a < b && nums[a] != [])
    && forall c, r :: 0 <= c < b && r in nums[c] ==> CanFit(devs, r, policy)
  }

  /** The requests before a container without requests do not compete for cards. */
  ghost predicate ApartBefore(nums: PodRequests, policy: Policy) {
    forall b :: 0 <= b < |nums| && nums[b] == [] ==> Apart(Concat(nums[..b]), policy)
  }

  /**
    Exactly when a node's run crashes, where the requests before request-less containers do
    not compete: some container without requests follows one with requests, and everything
    before it can be served. Then no run ends in any other way.
   */
  lemma CrashExactly(devs: seq<DeviceUsage>, nums: PodRequests, policy: Policy)
    requires UniqueIds(devs) && ApartBefore(nums, policy) && forall n :: n in nums ==> Wanted(n)
    ensures (exists placed :: CrashRun(devs, nums, policy, placed)) <==> exists b :: Pitfall(devs, nums, policy, b)
    ensures (exists placed :: CrashRun(devs, nums, policy, placed)) ==>
              !exists placed :: Tried(devs, nums, policy, placed) && Uncrashed(nums, placed)
  {
    if placed :| CrashRun(devs, nums, policy, placed) {
      CrashIsPitfall(devs, nums, policy, placed);
      forall done | Tried(devs, nums, policy, done)
        ensures !Uncrashed(nums, done)
      {
        PitfallStops(devs, nums, policy, |placed|, done);
      }
    }
    if b: nat :| Pitfall(devs, nums, policy, b) {
      var placed := PitfallCrashes(devs, nums, policy, b);
    }
  }

  lemma CrashIsPitfall(devs: seq<DeviceUsage>, nums: PodRequests, policy: Policy, placed: PodPlacement)
    requires UniqueIds(devs) && ApartBefore(nums, policy) && CrashRun(devs, nums, policy, placed)
    ensures Pitfall(devs, nums, policy, |placed|)
  {
    var b := |placed|;
    var rs := Concat(nums[..b]);
    var a := SomeNonEmpty(placed);
    FlatLength(nums, placed);
    ServedExactly(devs, rs, policy, Concat(placed));
    forall c, r | 0 <= c < b && r in nums[c]
      ensures CanFit(devs, r, policy)
    {
      assert nums[..b][c] == nums[c];
      ConcatMember(nums[..b], c, r);
    }
  }

  // ---- no run passes a pitfall ----

  /** A container without requests is passed only while nothing has been served. */
  lemma {:induction false} PassedEmpty(nums: PodRequests, placed: PodPlacement, c: nat)
    requires Uncrashed(nums, placed) && c < |placed| && nums[c] == []
    ensures Concat(placed[..c]) == []
    decreases |placed|
  {
    var n := |placed| - 1;
    if c < n {
      PassedEmpty(nums, placed[..n], c);
      assert placed[..n][..c] == placed[..c];
    }
  }

  lemma {:induction false} ServedWithin(devs: seq<DeviceUsage>, rs: seq<Request>, ss: seq<Request>, policy: Policy,
                                        flat: seq<ContainerDevices>)
    requires Served(devs, [], rs + ss, policy, flat) && |flat| <= |rs|
    ensures Served(devs, [], rs, policy, flat)
    decreases |flat|
  {
    if flat != [] {
      ServedWithin(devs, rs, ss, policy, flat[..|flat| - 1]);
    }
  }

  /** A run cannot stop before a pitfall, nor get past it. */
  lemma PitfallStops(devs: seq<DeviceUsage>, nums: PodRequests, policy: Policy, b: nat, placed: PodPlacement)
    requires UniqueIds(devs) && Pitfall(devs, nums, policy, b) && Apart(Concat(nums[..b]), policy)
    requires Tried(devs, nums, policy, placed)
    ensures !Uncrashed(nums, placed)
  {
    if |placed| > b {
      var a :| 0 <= a < b && nums[a] != [];
      assert placed[..b][a][0] in placed[..b][a];
      ConcatMember(placed[..b], a, placed[a][0]);
      if Uncrashed(nums, placed) {
        PassedEmpty(nums, placed, b);
      }
    } else {
      StoppedAt(nums, placed, b);
      var n := |placed| - 1;
      assert nums[n][|placed[n]|] in nums[n];
      NumsSplit(nums, b);
      ServedWithin(devs, Concat(nums[..b]), Concat(nums[b..]), policy, Concat(placed));
      NextIsUnaffected(devs, Concat(nums[..b]), policy, Concat(placed));
    }
  }

  // ---- every pitfall is reached ----

  /** Requests that do not compete and can be served are served one after the other. */
  lemma {:induction false} BuildRun(devs: seq<DeviceUsage>, rs: seq<Request>, policy: Policy, m: nat)
    returns (flat: seq<ContainerDevices>)
    requires UniqueIds(devs) && Apart(rs, policy) && Wanted(rs) && m <= |rs|
    requires forall r :: r in rs ==> CanFit(devs, r, policy)
    ensures |flat| == m && Served(devs, [], rs, policy, flat)
  {
    if m == 0 {
      flat := [];
    } else {
      var before := BuildRun(devs, rs, policy, m - 1);
      var r, now := rs[m - 1], Current(devs, [] + Concat(before));
      assert r in rs;
      NextIsUnaffected(devs, rs, policy, before);
      CurrentUnique(devs, [] + Concat(before));
      var es := SomeChosen(now, r, policy);
      ServedSnoc(devs, [], rs, policy, before, es);
      flat := before + [es];
    }
  }

  /** The flat lists, handed back to their containers. */
  lemma {:induction false} Unflatten(nums: PodRequests, b: nat, flat: seq<ContainerDevices>)
    returns (placed: PodPlacement)
    requires b <= |nums| && |flat| == |Concat(nums[..b])|
    ensures |placed| == b && FullyServed(nums, placed) && Concat(placed) == flat
    decreases b
  {
    if b == 0 {
      placed := [];
    } else {
      NumsSnoc(nums, b - 1);
      var n := |Concat(nums[..b - 1])|;
      var before := Unflatten(nums, b - 1, flat[..n]);
      placed := before + [flat[n..]];
      ConcatSnoc(before, flat[n..]);
    }
  }

  lemma {:induction false} EmptyBefore(nums: PodRequests, placed: PodPlacement)
    requires FullyServed(nums, placed)
    requires forall a, c :: 0 <= a < c < |placed| && nums[c] == [] ==> nums[a] == []
    ensures Uncrashed(nums, placed)
    decreases |placed|
  {
    if placed != [] {
      var n := |placed| - 1;
      EmptyBefore(nums, placed[..n]);
      if nums[n] == [] {
        AllEmpty(placed[..n]);
      }
    }
  }

  lemma {:induction false} AllEmpty<T>(ss: seq<seq<T>>)
    requires forall i :: 0 <= i < |ss| ==> ss[i] == []
    ensures Concat(ss) == []
    decreases |ss|
  {
    if ss != [] {
      AllEmpty(ss[..|ss| - 1]);
    }
  }

  lemma {:induction false} PitfallCrashes(devs: seq<DeviceUsage>, nums: PodRequests, policy: Policy, b: nat)
    returns (placed: PodPlacement)
    requires UniqueIds(devs) && ApartBefore(nums, policy) && (forall n :: n in nums ==> Wanted(n))
    requires Pitfall(devs, nums, policy, b)
    ensures CrashRun(devs, nums, policy, placed)
    decreases b
  {
    if c: nat :| c < b && nums[c] == [] && exists a :: 0 <= a < c && nums[a] != [] {
      placed := PitfallCrashes(devs, nums, policy, c);
    } else {
      placed := FirstPitfall(devs, nums, policy, b);
    }
  }

  lemma FirstPitfall(devs: seq<DeviceUsage>, nums: PodRequests, policy: Policy, b: nat)
    returns (placed: PodPlacement)
    requires UniqueIds(devs) && ApartBefore(nums, policy) && (forall n :: n in nums ==> Wanted(n))
    requires Pitfall(devs, nums, policy, b)
    requires forall c :: 0 <= c < b && nums[c] == [] ==> forall a :: 0 <= a < c ==> nums[a] == []
    ensures CrashRun(devs, nums, policy, placed)
  {
    var rs := Concat(nums[..b]);
    forall r | r in rs
      ensures CanFit(devs, r, policy) && r.nums >= 1
    {
      var c := InConcat(nums[..b], r);
      assert nums[c] in nums;
    }
    var flat := BuildRun(devs, rs, policy, |rs|);
    placed := Unflatten(nums, b, flat);
    EmptyBefore(nums, placed);
    var a :| 0 <= a < b && nums[a] != [];
    assert placed[a][0] in placed[a];
    ConcatMember(placed, a, placed[a][0]);
  }

  // ---- the filter ----

  lemma OrderPitfall(devs: seq<DeviceUsage>, nums: PodRequests, order: PodRequests, policy: Policy, b: nat)
    requires Reordered(nums, order) && Pitfall(devs, nums, policy, b)
    ensures Pitfall(devs, order, policy, b)
  {
    EmptyTogether(nums, order);
    forall c, r | 0 <= c < b && r in order[c]
      ensures CanFit(devs, r, policy)
    {
      SameMembers(nums[c], order[c]);
    }
  }

  lemma {:induction false} OrderConcat(nums: PodRequests, order: PodRequests, b: nat)
    requires Reordered(nums, order) && b <= |nums|
    ensures multiset(Concat(order[..b])) == multiset(Concat(nums[..b]))
    decreases b
  {
    if b > 0 {
      OrderConcat(nums, order, b - 1);
      assert nums[..b][..b - 1] == nums[..b - 1] && order[..b][..b - 1] == order[..b - 1];
    }
  }

  lemma OrderApart(nums: PodRequests, order: PodRequests, policy: Policy)
    requires Reordered(nums, order) && ApartBefore(nums, policy)
    ensures ApartBefore(order, policy)
  {
    EmptyTogether(nums, order);
    forall b | 0 <= b < |order| && order[b] == []
      ensures Apart(Concat(order[..b]), policy)
    {
      OrderConcat(nums, order, b);
      SameMembers(Concat(nums[..b]), Concat(order[..b]));
      KindsPermute(Concat(nums[..b]), Concat(order[..b]));
    }
  }

  /** Some named and registered node has a pitfall for the pod next to all other recorded pods. */
  ghost predicate SomePitfall(nodes: Nodes, others: Pods, names: seq<string>, nums: PodRequests, policy: Policy) {
    exists n, b :: n in names && n in nodes && Pitfall(Table(nodes[n], others, n), nums, policy, b)
  }

  /**
    The filter panics if and only if some considered node has a pitfall, whatever the order in
    which nodes and requests are visited.
   */
  lemma FilterCrashesExactly(nodes: Nodes, before: Pods, after: Pods, uid: string, nums: PodRequests,
                             policy: Policy, names: seq<string>, patchOk: bool, res: FilterResult,
                             runs: Visits)
    requires WellRegistered(nodes) && ApartBefore(nums, policy) && forall n :: n in nums ==> Wanted(n)
    requires FilterEffect(nodes, before, after, uid, nums, policy, names, patchOk, res, runs)
    ensures res.Crashed? <==> SomePitfall(nodes, before - {uid}, names, nums, policy)
    ensures res.Crashed? ==> after == before - {uid}
  {
    var others := before - {uid};
    if SomePitfall(nodes, others, names, nums, policy) {
      PitfallIsMet(nodes, others, names, nums, policy, runs);
    }
    if res.Crashed? {
      CrashHasPitfall(nodes, others, names, nums, policy);
    }
  }

  /** With a pitfall on some node, the tries cannot all come to an end. */
  lemma PitfallIsMet(nodes: Nodes, others: Pods, names: seq<string>, nums: PodRequests, policy: Policy, runs: Visits)
    requires WellRegistered(nodes) && ApartBefore(nums, policy) && forall n :: n in nums ==> Wanted(n)
    requires SomePitfall(nodes, others, names, nums, policy)
    ensures Total(nums) > 0 && !AllTried(UsageTable(nodes, others, names), nums, policy, runs)
  {
    var n, b :| n in names && n in nodes && Pitfall(Table(nodes[n], others, n), nums, policy, b);
    var usage := UsageTable(nodes, others, names);
    PitfallWants(usage[n], nums, policy, b);
    if n in runs {
      TableUnique(nodes[n], others, n);
      VisitCrashes(usage[n], nums, policy, b, runs[n]);
    }
  }

  lemma CrashHasPitfall(nodes: Nodes, others: Pods, names: seq<string>, nums: PodRequests, policy: Policy)
    requires WellRegistered(nodes) && ApartBefore(nums, policy)
    requires SomeCrash(UsageTable(nodes, others, names), nums, policy)
    ensures SomePitfall(nodes, others, names, nums, policy)
  {
    var usage := UsageTable(nodes, others, names);
    var n, v: Visit :| n in usage && Reordered(nums, v.order) && CrashRun(usage[n], v.order, policy, v.placed);
    TableUnique(nodes[n], others, n);
    OrderApart(nums, v.order, policy);
    CrashIsPitfall(usage[n], v.order, policy, v.placed);
    OrderPitfall(usage[n], v.order, nums, policy, |v.placed|);
  }

  lemma PitfallWants(devs: seq<DeviceUsage>, nums: PodRequests, policy: Policy, b: nat)
    requires Pitfall(devs, nums, policy, b) && forall n :: n in nums ==> Wanted(n)
    ensures Total(nums) > 0
  {
    var a :| 0 <= a < b && nums[a] != [];
    ConcatMember(nums, a, nums[a][0]);
    TotalAtLeast(nums);
  }

  /** A node with a pitfall is tried to the end in no order. */
  lemma VisitCrashes(devs: seq<DeviceUsage>, nums: PodRequests, policy: Policy, b: nat, v: Visit)
    requires UniqueIds(devs) && ApartBefore(nums, policy) && Pitfall(devs, nums, policy, b)
    ensures !TriedIn(devs, nums, policy, v)
  {
    if TriedIn(devs, nums, policy, v) {
      OrderApart(nums, v.order, policy);
      OrderPitfall(devs, nums, v.order, policy, b);
      PitfallStops(devs, v.order, policy, b, v.placed);
    }
  }
}
