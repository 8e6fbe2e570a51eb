/**
  Fitting whole containers and pods on one node, what is recorded of it, and the score.
 */
module Scoring {
  import opened Devices
  import opened Usages
  import opened Sorting
  import opened Fitting
  import opened Placement

  /** Resource parsing keeps only requests for at least one card. */
  predicate Wanted(rs: seq<Request>) {
    forall r :: r in rs ==> r.nums >= 1
  }

  // ---- what a run over a list of requests leaves behind ----

  /** Each served request got the preferred ones of the cards that were usable after all earlier ones were charged. */
  ghost predicate Served(devs0: seq<DeviceUsage>, applied: ContainerDevices, rs: seq<Request>,
                         policy: Policy, placed: seq<ContainerDevices>) {
    && |placed| <= |rs|
    && (placed == [] ||
        var n := |placed| - 1;
        && Served(devs0, applied, rs, policy, placed[..n])
        && Chosen(Current(devs0, applied + Concat(placed[..n])), rs[n], policy, placed[n]))
  }

  /** Either all requests are served, or the first one that is not cannot be. */
  ghost predicate Maximal(devs0: seq<DeviceUsage>, applied: ContainerDevices, rs: seq<Request>,
                          policy: Policy, placed: seq<ContainerDevices>) {
    |placed| < |rs| ==> !CanFit(Current(devs0, applied + Concat(placed)), rs[|placed|], policy)
  }

  lemma ServedSnoc(devs0: seq<DeviceUsage>, applied: ContainerDevices, rs: seq<Request>,
                   policy: Policy, placed: seq<ContainerDevices>, es: ContainerDevices)
    requires Served(devs0, applied, rs, policy, placed) && |placed| < |rs|
    requires Chosen(Current(devs0, applied + Concat(placed)), rs[|placed|], policy, es)
    ensures Served(devs0, applied, rs, policy, placed + [es])
    ensures applied + Concat(placed + [es]) == applied + Concat(placed) + es
  {
  }

  lemma {:induction false} ServedPrefix(devs0: seq<DeviceUsage>, applied: ContainerDevices, rs: seq<Request>,
                                        ss: seq<Request>, policy: Policy, placed: seq<ContainerDevices>)
    requires Served(devs0, applied, rs, policy, placed)
    ensures Served(devs0, applied, rs + ss, policy, placed)
    decreases |placed|
  {
    if placed != [] {
      ServedPrefix(devs0, applied, rs, ss, policy, placed[..|placed| - 1]);
    }
  }

  /** Serving a further list of requests after a fully served one. */
  lemma {:induction false} ServedAppend(devs0: seq<DeviceUsage>, applied: ContainerDevices, rs: seq<Request>,
                                        ss: seq<Request>, policy: Policy,
                                        placed: seq<ContainerDevices>, more: seq<ContainerDevices>)
    requires Served(devs0, applied, rs, policy, placed) && |placed| == |rs|
    requires Served(devs0, applied + Concat(placed), ss, policy, more)
    ensures Served(devs0, applied, rs + ss, policy, placed + more)
    ensures applied + Concat(placed + more) == applied + Concat(placed) + Concat(more)
    decreases |more|
  {
    ConcatAppend(placed, more);
    if more == [] {
      assert placed + more == placed;
      ServedPrefix(devs0, applied, rs, ss, policy, placed);
    } else {
      var n := |more| - 1;
      ServedAppend(devs0, applied, rs, ss, policy, placed, more[..n]);
      assert (placed + more)[..|placed + more| - 1] == placed + more[..n];
      assert (rs + ss)[|placed| + n] == ss[n];
    }
  }

  /** Everything a run gives is legal, share after share. */
  lemma {:induction false} ServedIsLegal(devs0: seq<DeviceUsage>, applied: ContainerDevices, rs: seq<Request>,
                                         policy: Policy, placed: seq<ContainerDevices>)
    requires UniqueIds(devs0) && Served(devs0, applied, rs, policy, placed)
    ensures Legal(devs0, applied, Concat(placed))
    decreases |placed|
  {
    if placed != [] {
      var n := |placed| - 1;
      ServedIsLegal(devs0, applied, rs, policy, placed[..n]);
      var now := Current(devs0, applied + Concat(placed[..n]));
      assert Chosen(now, rs[n], policy, placed[n]);
      var numa :| Ids(placed[n]) <= Candidates(now, rs[n], policy, numa);
      PicksAreLegal(devs0, applied + Concat(placed[..n]), rs[n], policy, placed[n], numa);
      LegalAppend(devs0, applied, Concat(placed[..n]), placed[n]);
    }
  }

  // ---- what is recorded ----

  function Lists(pd: PodDevices, kind: string): PodSingleDevice {
    if kind in pd then pd[kind] else []
  }

  /**
    The record after one container. One accumulator serves all kinds, so the entry for a
    kind holds the shares of that kind and of every kind handled before it.
   */
  function RecordContainer(pd: PodDevices, rs: seq<Request>, placed: seq<ContainerDevices>): PodDevices
    requires |placed| <= |rs|
  {
    if placed == [] then pd
    else
      var n := |placed| - 1;
      var before := RecordContainer(pd, rs, placed[..n]);
      before[rs[n].kind := Lists(before, rs[n].kind) + [Concat(placed)]]
  }

  /** The score of one container: its cards' slots over their free slots, plus the cards it leaves. */
  ghost function ContainerScore(devs0: seq<DeviceUsage>, applied: ContainerDevices, rs: seq<Request>,
                                es: ContainerDevices): real
    requires FreeSlots(devs0, applied, es) >= 1
  {
    TotalSlots(devs0, es) as real / FreeSlots(devs0, applied, es) as real + (|devs0| - Wants(rs)) as real
  }

  function Wants(rs: seq<Request>): int {
    if rs == [] then 0 else Wants(rs[..|rs| - 1]) + rs[|rs| - 1].nums
  }

  lemma WantsSnoc(rs: seq<Request>, i: nat)
    requires i < |rs|
    ensures Wants(rs[..i + 1]) == Wants(rs[..i]) + rs[i].nums
  {
    assert rs[..i + 1][..i] == rs[..i];
  }

  lemma PlacedSize(devs0: seq<DeviceUsage>, applied: ContainerDevices, rs: seq<Request>,
                   policy: Policy, placed: seq<ContainerDevices>)
    requires Served(devs0, applied, rs, policy, placed) && |placed| == |rs| && rs != [] && Wanted(rs)
    ensures |Concat(placed)| >= 1
  {
  }

  /** One request: sort the list, search it, and charge what was found. */
  method FitRequest(node: array<DeviceUsage>, k: Request, policy: Policy,
                    ghost devs0: seq<DeviceUsage>, ghost applied: ContainerDevices)
    returns (fit: bool, tmpDevs: ContainerDevices, total: int, free: int)
    requires k.nums >= 1
    requires UniqueIds(devs0) && multiset(node[..]) == multiset(Current(devs0, applied))
    modifies node
    ensures fit <==> CanFit(Current(devs0, applied), k, policy)
    ensures fit ==> Chosen(Current(devs0, applied), k, policy, tmpDevs)
    ensures !fit ==> multiset(node[..]) == multiset(Current(devs0, applied))
    ensures fit ==> multiset(node[..]) == multiset(Current(devs0, applied + tmpDevs))
    ensures fit ==> total == TotalSlots(devs0, tmpDevs) && free == FreeSlots(devs0, applied, tmpDevs)
  {
    ghost var now := Current(devs0, applied);
    SameMembers(node[..], now);
    if k.nums > node.Length {
      TooFewCards(now, k, policy);
      return false, [], 0, 0;
    }
    LessIsStrictWeakOrder();
    SortInPlace(node, Less);
    CurrentUnique(devs0, applied);
    UniquePermutation(now, node[..]);
    fit, tmpDevs := FitInCertainDevice(node, k, policy);
    CanFitPermute(node[..], now, k, policy);
    if !fit {
      return false, [], 0, 0;
    }
    ChosenAreHighest(node[..], k, policy, tmpDevs);
    ChosenPermute(node[..], now, k, policy, tmpDevs);
    total, free := TakeShares(node, tmpDevs, devs0, applied);
  }

  /**
    All requests of one container, in whatever order they are visited. The first request
    that cannot be served stops the search, but what was served before stays recorded.
   */
  method FitInDevices(node: array<DeviceUsage>, requests: seq<Request>, policy: Policy, devinput: PodDevices,
                      ghost devs0: seq<DeviceUsage>, ghost applied: ContainerDevices)
    returns (fit: bool, score: real, devices: PodDevices, ghost placed: seq<ContainerDevices>)
    requires requests != [] && Wanted(requests)
    requires UniqueIds(devs0) && multiset(node[..]) == multiset(Current(devs0, applied))
    modifies node
    ensures multiset(node[..]) == multiset(Current(devs0, applied + Concat(placed)))
    ensures Served(devs0, applied, requests, policy, placed)
    ensures Maximal(devs0, applied, requests, policy, placed)
    ensures fit <==> |placed| == |requests|
    ensures devices == RecordContainer(devinput, requests, placed)
    ensures fit ==> FreeSlots(devs0, applied, Concat(placed)) >= 1
    ensures fit ==> score == ContainerScore(devs0, applied, requests, Concat(placed))
  {
    var p;
    fit, p, placed := ServeRequests(node, requests, policy, devinput, devs0, applied);
    devices := p.devices;
    if !fit {
      return fit, 0.0, devices, placed;
    }
    ContainerDone(devs0, applied, requests, policy, placed);
    score := p.total as real / p.free as real + (node.Length - p.sums) as real;
  }

  /** What the loop over the requests adds up besides the list of shares. */
  datatype Progress = Progress(devices: PodDevices, total: int, free: int, sums: int)

  /** The progress once the lists `placed` are given. */
  ghost function Account(devs0: seq<DeviceUsage>, applied: ContainerDevices, rs: seq<Request>, devinput: PodDevices,
                         placed: seq<ContainerDevices>): Progress
    requires |placed| <= |rs|
  {
    Progress(RecordContainer(devinput, rs, placed), TotalSlots(devs0, Concat(placed)),
             FreeSlots(devs0, applied, Concat(placed)), Wants(rs[..|placed|]))
  }

  /** The loop over the requests, with what the score is made of. */
  method ServeRequests(node: array<DeviceUsage>, requests: seq<Request>, policy: Policy, devinput: PodDevices,
                       ghost devs0: seq<DeviceUsage>, ghost applied: ContainerDevices)
    returns (fit: bool, p: Progress, ghost placed: seq<ContainerDevices>)
    requires Wanted(requests)
    requires UniqueIds(devs0) && multiset(node[..]) == multiset(Current(devs0, applied))
    modifies node
    ensures multiset(node[..]) == multiset(Current(devs0, applied + Concat(placed))) && node.Length == |devs0|
    ensures Served(devs0, applied, requests, policy, placed)
    ensures Maximal(devs0, applied, requests, policy, placed)
    ensures fit <==> |placed| == |requests|
    ensures p == Account(devs0, applied, requests, devinput, placed)
  {
    var devs: ContainerDevices := [];
    p := Progress(devinput, 0, 0, 0);
    placed := [];
    assert applied + devs == applied;
    SameMembers(node[..], Current(devs0, applied));
    for i := 0 to |requests|
      invariant |placed| == i && Serving(devs0, applied, requests, policy, devinput, placed, devs, p)
      invariant multiset(node[..]) == multiset(Current(devs0, applied + devs))
    {
      assert requests[i] in requests;
      var tmpDevs;
      fit, p, tmpDevs := ServeOne(node, requests[i], policy, p, devs, devs0, applied);
      if !fit {
        return;
      }
      NextList(devs0, applied, requests, policy, devinput, placed, tmpDevs);
      assert applied + (devs + tmpDevs) == applied + devs + tmpDevs;
      devs := devs + tmpDevs;
      placed := placed + [tmpDevs];
    }
    fit := true;
  }

  /** The lists given so far, the shares in them and what they add up to. */
  ghost predicate Serving(devs0: seq<DeviceUsage>, applied: ContainerDevices, rs: seq<Request>, policy: Policy,
                          devinput: PodDevices, placed: seq<ContainerDevices>, devs: ContainerDevices, p: Progress) {
    && Served(devs0, applied, rs, policy, placed)
    && devs == Concat(placed) && p == Account(devs0, applied, rs, devinput, placed)
  }

  /** The progress after one more list. */
  ghost function Further(p: Progress, devs0: seq<DeviceUsage>, before: ContainerDevices, devs: ContainerDevices,
                         r: Request, es: ContainerDevices): Progress {
    Progress(p.devices[r.kind := Lists(p.devices, r.kind) + [devs + es]], p.total + TotalSlots(devs0, es),
             p.free + FreeSlots(devs0, before, es), p.sums + r.nums)
  }

  /** One turn of the loop. */
  method ServeOne(node: array<DeviceUsage>, k: Request, policy: Policy, p0: Progress, devs: ContainerDevices,
                  ghost devs0: seq<DeviceUsage>, ghost applied: ContainerDevices)
    returns (fit: bool, p: Progress, tmpDevs: ContainerDevices)
    requires k.nums >= 1
    requires UniqueIds(devs0) && multiset(node[..]) == multiset(Current(devs0, applied + devs))
    modifies node
    ensures fit <==> CanFit(Current(devs0, applied + devs), k, policy)
    ensures !fit ==> p == p0 && multiset(node[..]) == multiset(Current(devs0, applied + devs))
    ensures fit ==> Chosen(Current(devs0, applied + devs), k, policy, tmpDevs)
    ensures fit ==> multiset(node[..]) == multiset(Current(devs0, applied + devs + tmpDevs))
    ensures fit ==> p == Further(p0, devs0, applied + devs, devs, k, tmpDevs)
  {
    var total, free;
    fit, tmpDevs, total, free := FitRequest(node, k, policy, devs0, applied + devs);
    if !fit {
      return fit, p0, tmpDevs;
    }
    p := Progress(p0.devices[k.kind := Lists(p0.devices, k.kind) + [devs + tmpDevs]],
                  p0.total + total, p0.free + free, p0.sums + k.nums);
  }

  lemma NextList(devs0: seq<DeviceUsage>, applied: ContainerDevices, rs: seq<Request>,
                 policy: Policy, devinput: PodDevices, placed: seq<ContainerDevices>,
                 es: ContainerDevices)
    requires Served(devs0, applied, rs, policy, placed) && |placed| < |rs|
    requires Chosen(Current(devs0, applied + Concat(placed)), rs[|placed|], policy, es)
    ensures Concat(placed + [es]) == Concat(placed) + es
    ensures applied + (Concat(placed) + es) == applied + Concat(placed) + es
    ensures Served(devs0, applied, rs, policy, placed + [es])
    ensures var p, devs := Account(devs0, applied, rs, devinput, placed), Concat(placed);
      Further(p, devs0, applied + devs, devs, rs[|placed|], es) == Account(devs0, applied, rs, devinput, placed + [es])
  {
    ConcatSnoc(placed, es);
    ServedSnoc(devs0, applied, rs, policy, placed, es);
    AccountSnoc(devs0, applied, rs, devinput, placed, es);
  }

  lemma {:induction false} AccountSnoc(devs0: seq<DeviceUsage>, applied: ContainerDevices, rs: seq<Request>,
                                       devinput: PodDevices, placed: seq<ContainerDevices>, es: ContainerDevices)
    requires |placed| < |rs|
    ensures var p, devs := Account(devs0, applied, rs, devinput, placed), Concat(placed);
      Further(p, devs0, applied + devs, devs, rs[|placed|], es) == Account(devs0, applied, rs, devinput, placed + [es])
  {
    var devs, next := Concat(placed), placed + [es];
    var p, q := Account(devs0, applied, rs, devinput, placed), Account(devs0, applied, rs, devinput, next);
    var further := Further(p, devs0, applied + devs, devs, rs[|placed|], es);
    assert further.devices == q.devices by {
      RecordSnoc(devinput, rs, placed, es);
    }
    assert further.total == q.total && further.free == q.free by {
      ConcatSnoc(placed, es);
      SlotsAppend(devs0, applied, devs, es);
    }
    assert further.sums == q.sums by {
      WantsSnoc(rs, |placed|);
    }
  }

  /** A served container has a free slot to divide by. */
  lemma ContainerDone(devs0: seq<DeviceUsage>, applied: ContainerDevices, rs: seq<Request>,
                      policy: Policy, placed: seq<ContainerDevices>)
    requires UniqueIds(devs0) && Served(devs0, applied, rs, policy, placed)
    requires |placed| == |rs| && rs != [] && Wanted(rs)
    ensures rs[..|placed|] == rs && FreeSlots(devs0, applied, Concat(placed)) >= 1
  {
    ServedIsLegal(devs0, applied, rs, policy, placed);
    FreeSlotsPositive(devs0, applied, Concat(placed));
    PlacedSize(devs0, applied, rs, policy, placed);
  }

  lemma RecordSnoc(pd: PodDevices, rs: seq<Request>, placed: seq<ContainerDevices>,
                   es: ContainerDevices)
    requires |placed| < |rs|
    ensures var before, kind := RecordContainer(pd, rs, placed), rs[|placed|].kind;
      RecordContainer(pd, rs, placed + [es]) == before[kind := Lists(before, kind) + [Concat(placed) + es]]
  {
  }

  lemma TooFewCards(devs: seq<DeviceUsage>, r: Request, policy: Policy)
    requires r.nums > |devs|
    ensures !CanFit(devs, r, policy)
  {
    forall numa
      ensures |Candidates(devs, r, policy, numa)| < r.nums
    {
      FewCandidates(devs, r, policy, numa);
    }
  }
}
