/**
  Fitting a whole pod on one node: container after container, with the acceptance test
  that compares the number of recorded kinds with the number of containers.
 */
module PodScoring {
  import opened Devices
  import opened Usages
  import opened Fitting
  import opened Placement
  import opened Scoring

  type PodRequests = seq<seq<Request>>

  /** Per container, the shares given to each request that was served. */
  type PodPlacement = seq<seq<ContainerDevices>>

  function Shares(placed: PodPlacement): ContainerDevices {
    Concat(Concat(placed))
  }

  /** Containers are tried in order; only the last one tried may be served in part. */
  ghost predicate Shaped(nums: PodRequests, placed: PodPlacement) {
    && |placed| <= |nums|
    && (forall c :: 0 <= c < |placed| ==> |placed[c]| <= |nums[c]|)
    && (forall c :: 0 <= c < |placed| - 1 ==> |placed[c]| == |nums[c]|)
  }

  ghost predicate FullyServed(nums: PodRequests, placed: PodPlacement) {
    |placed| <= |nums| && forall c :: 0 <= c < |placed| ==> |placed[c]| == |nums[c]|
  }

  /** What is recorded for the pod. */
  function Record(nums: PodRequests, placed: PodPlacement): PodDevices
    requires |placed| <= |nums| && forall c :: 0 <= c < |placed| ==> |placed[c]| <= |nums[c]|
  {
    if placed == [] then map[]
    else
      var n := |placed| - 1;
      RecordContainer(Record(nums, placed[..n]), nums[n], placed[n])
  }

  /** The node's score: the sum of the scores of the containers that were served in full. */
  ghost function PodScore(devs0: seq<DeviceUsage>, nums: PodRequests, placed: PodPlacement): real
    requires |placed| <= |nums|
  {
    if placed == [] then 0.0
    else
      var n := |placed| - 1;
      var applied, es := Shares(placed[..n]), Concat(placed[n]);
      PodScore(devs0, nums, placed[..n]) +
      if nums[n] != [] && |placed[n]| == |nums[n]| && FreeSlots(devs0, applied, es) >= 1
      then ContainerScore(devs0, applied, nums[n], es) else 0.0
  }

  /**
    How a run over the containers ends without a crash: every served request was legal when
    served, and the first unserved one, if any, could not be served at that point; only such
    a request ends the run before the last container.
   */
  ghost predicate Tried(devs0: seq<DeviceUsage>, nums: PodRequests, policy: Policy, placed: PodPlacement) {
    && Shaped(nums, placed)
    && Served(devs0, [], Concat(nums), policy, Concat(placed))
    && Maximal(devs0, [], Concat(nums), policy, Concat(placed))
    && (FullyServed(nums, placed) ==> |placed| == |nums|)
  }

  datatype NodeResult =
    | Accepted(devices: PodDevices, score: real)
    | Rejected
    | Panicked

  // ---- bookkeeping over containers ----

  lemma {:induction false} FlatLength(nums: PodRequests, placed: PodPlacement)
    requires FullyServed(nums, placed)
    ensures |Concat(placed)| == |Concat(nums[..|placed|])|
  {
    if placed != [] {
      var n := |placed| - 1;
      FlatLength(nums, placed[..n]);
      assert nums[..n + 1][..n] == nums[..n];
    }
  }

  lemma NumsSnoc(nums: PodRequests, c: nat)
    requires c < |nums|
    ensures Concat(nums[..c + 1]) == Concat(nums[..c]) + nums[c]
  {
    assert nums[..c + 1] == nums[..c] + [nums[c]];
    ConcatSnoc(nums[..c], nums[c]);
  }

  lemma NumsSplit(nums: PodRequests, c: nat)
    requires c <= |nums|
    ensures Concat(nums) == Concat(nums[..c]) + Concat(nums[c..])
  {
    assert nums == nums[..c] + nums[c..];
    ConcatAppend(nums[..c], nums[c..]);
  }

  lemma SharesSnoc(placed: PodPlacement, lists: seq<ContainerDevices>)
    ensures Concat(placed + [lists]) == Concat(placed) + lists
    ensures Shares(placed + [lists]) == Shares(placed) + Concat(lists)
  {
    ConcatSnoc(placed, lists);
    ConcatAppend(Concat(placed), lists);
  }

  /** One more container, served as far as possible. */
  lemma ContainerStep(devs0: seq<DeviceUsage>, nums: PodRequests, policy: Policy,
                      placed: PodPlacement, lists: seq<ContainerDevices>)
    requires FullyServed(nums, placed) && |placed| < |nums|
    requires Served(devs0, [], Concat(nums[..|placed|]), policy, Concat(placed))
    requires Served(devs0, Shares(placed), nums[|placed|], policy, lists)
    ensures Served(devs0, [], Concat(nums[..|placed| + 1]), policy, Concat(placed + [lists]))
  {
    var c := |placed|;
    FlatLength(nums, placed);
    NumsSnoc(nums, c);
    SharesSnoc(placed, lists);
    assert [] + Shares(placed) == Shares(placed);
    ServedAppend(devs0, [], Concat(nums[..c]), nums[c], policy, Concat(placed), lists);
  }

  lemma MiddleIndex<T>(a: seq<T>, b: seq<T>, c: seq<T>, i: nat)
    requires i < |b|
    ensures (a + b + c)[|a| + i] == b[i]
  {
  }

  /** Where a run that did not serve everything stopped. */
  lemma StoppedAt(nums: PodRequests, placed: PodPlacement, b: nat)
    requires Shaped(nums, placed) && !FullyServed(nums, placed) && |placed| <= b <= |nums|
    ensures var n, k := |placed| - 1, |Concat(placed)|;
      && n >= 0 && |placed[n]| < |nums[n]| && k < |Concat(nums[..b])| <= |Concat(nums)|
      && Concat(nums[..b])[k] == Concat(nums)[k] == nums[n][|placed[n]|]
  {
    var n := |placed| - 1;
    FlatLength(nums, placed[..n]);
    NumsSnoc(nums, n);
    assert Concat(nums[..b]) == Concat(nums[..n + 1]) + Concat(nums[..b][n + 1..]) by {
      assert nums[..b][..n + 1] == nums[..n + 1];
      NumsSplit(nums[..b], n + 1);
    }
    NumsSplit(nums, b);
    MiddleIndex(Concat(nums[..n]), nums[n], Concat(nums[..b][n + 1..]), |placed[n]|);
  }

  lemma ServedSoFar(devs0: seq<DeviceUsage>, nums: PodRequests, policy: Policy, c: nat, flat: seq<ContainerDevices>)
    requires c <= |nums| && Served(devs0, [], Concat(nums[..c]), policy, flat)
    ensures Served(devs0, [], Concat(nums), policy, flat)
  {
    NumsSplit(nums, c);
    ServedPrefix(devs0, [], Concat(nums[..c]), Concat(nums[c..]), policy, flat);
  }

  /** The run stops at the first request that cannot be served. */
  lemma StoppedRun(devs0: seq<DeviceUsage>, nums: PodRequests, policy: Policy, placed: PodPlacement,
                   lists: seq<ContainerDevices>)
    requires FullyServed(nums, placed) && |placed| < |nums| && |lists| < |nums[|placed|]|
    requires Served(devs0, [], Concat(nums[..|placed| + 1]), policy, Concat(placed + [lists]))
    requires Maximal(devs0, Shares(placed), nums[|placed|], policy, lists)
    ensures Tried(devs0, nums, policy, placed + [lists])
  {
    ServedSoFar(devs0, nums, policy, |placed| + 1, Concat(placed + [lists]));
    StillMaximal(devs0, nums, policy, placed, lists);
  }

  lemma StillMaximal(devs0: seq<DeviceUsage>, nums: PodRequests, policy: Policy, placed: PodPlacement,
                     lists: seq<ContainerDevices>)
    requires FullyServed(nums, placed) && |placed| < |nums| && |lists| < |nums[|placed|]|
    requires Maximal(devs0, Shares(placed), nums[|placed|], policy, lists)
    ensures Maximal(devs0, [], Concat(nums), policy, Concat(placed + [lists]))
  {
    var c, next := |placed|, placed + [lists];
    assert Concat(nums)[|Concat(next)|] == nums[c][|lists|] by {
      StoppedAt(nums, next, |nums|);
    }
    assert [] + Concat(Concat(next)) == Shares(placed) + Concat(lists) by {
      SharesSnoc(placed, lists);
    }
  }

  lemma FinishedRun(devs0: seq<DeviceUsage>, nums: PodRequests, policy: Policy, placed: PodPlacement)
    requires FullyServed(nums, placed) && |placed| == |nums|
    requires Served(devs0, [], Concat(nums[..|placed|]), policy, Concat(placed))
    ensures Tried(devs0, nums, policy, placed)
  {
    assert nums[..|nums|] == nums;
    FlatLength(nums, placed);
  }

  lemma {:induction false} RecordStep(nums: PodRequests, placed: PodPlacement, lists: seq<ContainerDevices>)
    requires FullyServed(nums, placed) && |placed| < |nums| && |lists| <= |nums[|placed|]|
    ensures Shaped(nums, placed + [lists])
    ensures Record(nums, placed + [lists]) == RecordContainer(Record(nums, placed), nums[|placed|], lists)
  {
  }

  lemma ScoreStep(devs0: seq<DeviceUsage>, nums: PodRequests, placed: PodPlacement,
                  lists: seq<ContainerDevices>)
    requires |placed| < |nums|
    ensures var applied, es := Shares(placed), Concat(lists);
      PodScore(devs0, nums, placed + [lists]) == PodScore(devs0, nums, placed) +
        if nums[|placed|] != [] && |lists| == |nums[|placed|]| && FreeSlots(devs0, applied, es) >= 1
        then ContainerScore(devs0, applied, nums[|placed|], es) else 0.0
  {
  }

  /** No kind ever has more lists than containers were tried. */
  lemma {:induction false} ListsAtMost(nums: PodRequests, placed: PodPlacement, kind: string)
    requires |placed| <= |nums|
    requires forall c :: 0 <= c < |placed| ==> |placed[c]| <= |nums[c]|
    requires forall c :: 0 <= c < |placed| ==> DistinctKinds(nums[c])
    requires kind in Record(nums, placed)
    ensures |Record(nums, placed)[kind]| <= |placed|
  {
    if placed != [] {
      var n := |placed| - 1;
      var before := Record(nums, placed[..n]);
      if kind in before {
        ListsAtMost(nums, placed[..n], kind);
      }
      OneListPerContainer(before, nums[n], placed[n], kind);
    }
  }

  /** A container asks for each kind at most once: its requests are the entries of a map. */
  ghost predicate DistinctKinds(rs: seq<Request>) {
    forall i, j :: 0 <= i < j < |rs| ==> rs[i].kind != rs[j].kind
  }

  lemma {:induction false} OneListPerContainer(pd: PodDevices, rs: seq<Request>, lists: seq<ContainerDevices>,
                                               kind: string)
    requires DistinctKinds(rs) && |lists| <= |rs|
    ensures |Lists(RecordContainer(pd, rs, lists), kind)| <= |Lists(pd, kind)| + 1
    ensures (forall j :: 0 <= j < |lists| ==> rs[j].kind != kind) ==>
              Lists(RecordContainer(pd, rs, lists), kind) == Lists(pd, kind)
    decreases |lists|
  {
    if lists != [] {
      OneListPerContainer(pd, rs, lists[..|lists| - 1], kind);
    }
  }

  method ScoreNode(devs0: seq<DeviceUsage>, nums: PodRequests, policy: Policy)
    returns (r: NodeResult, usage: seq<DeviceUsage>, ghost placed: PodPlacement)
    requires UniqueIds(devs0)
    requires forall n :: n in nums ==> Wanted(n) && DistinctKinds(n)
    ensures !r.Panicked? ==> Tried(devs0, nums, policy, placed) && Uncrashed(nums, placed)
    ensures !r.Panicked? ==> multiset(usage) == multiset(Current(devs0, Shares(placed)))
    ensures !r.Panicked? ==> (r.Accepted? <==> |Record(nums, placed)| == |nums|)
    ensures r.Accepted? ==> r.devices == Record(nums, placed) && r.score == PodScore(devs0, nums, placed)
    ensures r.Panicked? ==> CrashRun(devs0, nums, policy, placed)
    ensures r.Panicked? <==> CrashPoint(nums, placed)
    ensures r.Accepted? ==> |r.devices| == |nums|
  {
    var panicked, devices, score;
    panicked, devices, score, usage, placed := ScoreContainers(devs0, nums, policy);
    if panicked {
      return Panicked, usage, placed;
    }
    r := if |devices| == |nums| then Accepted(devices, score) else Rejected;
  }

  /** All containers so far are served, something is recorded, and the next container asks for nothing. */
  ghost predicate CrashPoint(nums: PodRequests, placed: PodPlacement) {
    FullyServed(nums, placed) && |placed| < |nums| && nums[|placed|] == [] && Concat(placed) != []
  }

  /** A run that reaches its first crash point. */
  ghost predicate CrashRun(devs0: seq<DeviceUsage>, nums: PodRequests, policy: Policy, placed: PodPlacement) {
    && CrashPoint(nums, placed) && Uncrashed(nums, placed)
    && Served(devs0, [], Concat(nums[..|placed|]), policy, Concat(placed))
  }

  /** The containers tried were passed without a crash point. */
  ghost predicate Uncrashed(nums: PodRequests, placed: PodPlacement) {
    |placed| <= |nums| &&
    (placed == [] ||
     var n := |placed| - 1;
     Uncrashed(nums, placed[..n]) && (nums[n] == [] ==> Concat(placed[..n]) == []))
  }

  lemma UncrashedSnoc(nums: PodRequests, placed: PodPlacement, lists: seq<ContainerDevices>)
    requires Uncrashed(nums, placed) && |placed| < |nums| && (nums[|placed|] == [] ==> Concat(placed) == [])
    ensures Uncrashed(nums, placed + [lists])
  {
  }

  method ScoreContainers(devs0: seq<DeviceUsage>, nums: PodRequests, policy: Policy)
    returns (panicked: bool, devices: PodDevices, score: real, usage: seq<DeviceUsage>, ghost placed: PodPlacement)
    requires UniqueIds(devs0)
    requires forall n :: n in nums ==> Wanted(n) && DistinctKinds(n)
    ensures panicked ==> CrashRun(devs0, nums, policy, placed)
    ensures panicked <==> CrashPoint(nums, placed)
    ensures !panicked ==> Tried(devs0, nums, policy, placed) && Uncrashed(nums, placed)
    ensures !panicked ==> devices == Record(nums, placed) && score == PodScore(devs0, nums, placed)
    ensures multiset(usage) == multiset(Current(devs0, Shares(placed)))
  {
    var node := new DeviceUsage[|devs0|](i requires 0 <= i < |devs0| => devs0[i]);
    assert node[..] == devs0 == Current(devs0, []);
    devices, score, placed := map[], 0.0, [];
    ghost var given: ContainerDevices := [];
    for ctrid := 0 to |nums|
      invariant |placed| == ctrid && given == Shares(placed)
      invariant Passed(devs0, nums, policy, placed)
      invariant Tally(devices, score) == TallyOf(devs0, nums, placed)
      invariant multiset(node[..]) == multiset(Current(devs0, given))
    {
      var n := nums[ctrid];
      assert n in nums;
      if n == [] {
        PaddingOutOfRange(nums, placed, devices);
        if Overruns(devices, ctrid) {
          return true, devices, score, node[..], placed;
        }
        EmptyContainer(devs0, nums, policy, placed);
        placed := placed + [[]];
        continue;
      }
      ghost var lists;
      var fit, nodescore, recorded;
      fit, nodescore, recorded, lists := FitInDevices(node, n, policy, devices, devs0, given);
      TallyStep(devs0, nums, placed, lists);
      if !fit {
        StoppedContainer(devs0, nums, policy, placed, lists);
        return false, recorded, score, node[..], placed + [lists];
      }
      ServedContainer(devs0, nums, policy, placed, lists);
      devices := recorded;
      score := score + nodescore;
      given := given + Concat(lists);
      placed := placed + [lists];
    }
    FinishedRun(devs0, nums, policy, placed);
    panicked, usage := false, node[..];
  }

  /** All containers so far were served, and none was a crash point. */
  ghost predicate Passed(devs0: seq<DeviceUsage>, nums: PodRequests, policy: Policy, placed: PodPlacement) {
    && FullyServed(nums, placed)
    && Served(devs0, [], Concat(nums[..|placed|]), policy, Concat(placed))
    && (Record(nums, placed) != map[] <==> Concat(placed) != [])
    && Uncrashed(nums, placed)
  }

  datatype Tally = Tally(devices: PodDevices, score: real)

  /** The record and the score once the containers of `placed` are handled. */
  ghost function TallyOf(devs0: seq<DeviceUsage>, nums: PodRequests, placed: PodPlacement): Tally
    requires |placed| <= |nums| && forall c :: 0 <= c < |placed| ==> |placed[c]| <= |nums[c]|
  {
    Tally(Record(nums, placed), PodScore(devs0, nums, placed))
  }

  lemma TallyStep(devs0: seq<DeviceUsage>, nums: PodRequests, placed: PodPlacement,
                  lists: seq<ContainerDevices>)
    requires FullyServed(nums, placed) && |placed| < |nums| && |lists| <= |nums[|placed|]| && nums[|placed|] != []
    ensures Shaped(nums, placed + [lists])
    ensures var rs, applied, es, before := nums[|placed|], Shares(placed), Concat(lists), TallyOf(devs0, nums, placed);
      TallyOf(devs0, nums, placed + [lists]) ==
        Tally(RecordContainer(before.devices, rs, lists),
              before.score + if |lists| == |rs| && FreeSlots(devs0, applied, es) >= 1
                             then ContainerScore(devs0, applied, rs, es) else 0.0)
  {
    assert Shaped(nums, placed + [lists]) by {
      RecordStep(nums, placed, lists);
    }
    assert Record(nums, placed + [lists]) == RecordContainer(Record(nums, placed), nums[|placed|], lists) by {
      RecordStep(nums, placed, lists);
    }
    ScoreStep(devs0, nums, placed, lists);
  }

  lemma ServedContainer(devs0: seq<DeviceUsage>, nums: PodRequests, policy: Policy,
                        placed: PodPlacement, lists: seq<ContainerDevices>)
    requires Passed(devs0, nums, policy, placed) && |placed| < |nums|
    requires Served(devs0, Shares(placed), nums[|placed|], policy, lists)
    requires lists != [] && |lists| == |nums[|placed|]|
    ensures Shares(placed + [lists]) == Shares(placed) + Concat(lists)
    ensures Passed(devs0, nums, policy, placed + [lists])
  {
    var next := placed + [lists];
    assert Served(devs0, [], Concat(nums[..|next|]), policy, Concat(next)) by {
      ContainerStep(devs0, nums, policy, placed, lists);
    }
    assert Concat(next) == Concat(placed) + lists && Shares(next) == Shares(placed) + Concat(lists) by {
      SharesSnoc(placed, lists);
    }
    assert Record(nums, next) != map[] by {
      RecordStep(nums, placed, lists);
      SomethingRecorded(Record(nums, placed), nums[|placed|], lists);
    }
    assert Uncrashed(nums, next) by {
      UncrashedSnoc(nums, placed, lists);
    }
  }

  lemma SomethingRecorded(pd: PodDevices, rs: seq<Request>, lists: seq<ContainerDevices>)
    requires lists != [] && |lists| <= |rs|
    ensures RecordContainer(pd, rs, lists) != map[]
  {
    assert rs[|lists| - 1].kind in RecordContainer(pd, rs, lists);
  }

  lemma {:induction false} EmptyContainer(devs0: seq<DeviceUsage>, nums: PodRequests, policy: Policy,
                                          placed: PodPlacement)
    requires Passed(devs0, nums, policy, placed) && |placed| < |nums| && nums[|placed|] == []
    requires Record(nums, placed) == map[]
    ensures Shares(placed + [[]]) == Shares(placed)
    ensures Passed(devs0, nums, policy, placed + [[]])
    ensures TallyOf(devs0, nums, placed + [[]]) == TallyOf(devs0, nums, placed)
  {
    var next := placed + [[]];
    assert Concat(next) == Concat(placed) && Shares(next) == Shares(placed) by {
      SharesSnoc(placed, []);
    }
    assert Served(devs0, [], Concat(nums[..|next|]), policy, Concat(next)) by {
      ContainerStep(devs0, nums, policy, placed, []);
    }
    assert Record(nums, next) == Record(nums, placed) by {
      RecordStep(nums, placed, []);
    }
    assert PodScore(devs0, nums, next) == PodScore(devs0, nums, placed) by {
      ScoreStep(devs0, nums, placed, []);
    }
    assert Uncrashed(nums, next) by {
      UncrashedSnoc(nums, placed, []);
    }
  }

  lemma StoppedContainer(devs0: seq<DeviceUsage>, nums: PodRequests, policy: Policy,
                         placed: PodPlacement, lists: seq<ContainerDevices>)
    requires Passed(devs0, nums, policy, placed) && |placed| < |nums|
    requires Served(devs0, Shares(placed), nums[|placed|], policy, lists)
    requires Maximal(devs0, Shares(placed), nums[|placed|], policy, lists) && |lists| < |nums[|placed|]|
    ensures Shares(placed + [lists]) == Shares(placed) + Concat(lists)
    ensures Tried(devs0, nums, policy, placed + [lists]) && Uncrashed(nums, placed + [lists])
  {
    assert Shares(placed + [lists]) == Shares(placed) + Concat(lists) by {
      SharesSnoc(placed, lists);
    }
    assert Tried(devs0, nums, policy, placed + [lists]) by {
      ContainerStep(devs0, nums, policy, placed, lists);
      StoppedRun(devs0, nums, policy, placed, lists);
    }
    UncrashedSnoc(nums, placed, lists);
  }

  /** Some recorded kind has no list at the container's position. */
  predicate Overruns(devices: PodDevices, ctrid: nat) {
    exists kind | kind in devices :: |devices[kind]| <= ctrid
  }

  /**
    A container without requests appends padding at its own position in every recorded
    kind; that position never exists, so the access panics exactly when anything is recorded.
   */
  lemma PaddingOutOfRange(nums: PodRequests, placed: PodPlacement, devices: PodDevices)
    requires FullyServed(nums, placed) && forall n :: n in nums ==> DistinctKinds(n)
    requires devices == Record(nums, placed)
    ensures Overruns(devices, |placed|) <==> devices != map[]
  {
    if devices != map[] {
      var kind :| kind in devices;
      ListsAtMost(nums, placed, kind);
    }
  }
}
