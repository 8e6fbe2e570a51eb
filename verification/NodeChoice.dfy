/**
  Which node wins: what a score is between, when one node scores above another, and what that
  means for the filter's choice.
 */
module NodeChoice {
  import opened Devices
  import opened Usages
  import opened Sorting
  import opened Fitting
  import opened Placement
  import opened Scoring
  import opened PodScoring
  import opened ScoreSums
  import opened Schedulers

  // ---- one container ----

  lemma Sign(x: real, f: real)
    requires f > 0.0
    ensures x * f >= 0.0 ==> x >= 0.0
    ensures x * f > 0.0 ==> x > 0.0
    ensures x >= 0.0 ==> x * f >= 0.0
    ensures x > 0.0 ==> x * f > 0.0
  {
  }

  lemma Ratio(total: int, free: int)
    requires 1 <= free <= total
    ensures 1.0 <= total as real / free as real <= total as real
  {
    var t, f := total as real, free as real;
    var q := t / f;
    assert q * f == t;
    assert (q - 1.0) * f == t - f;
    Sign(q - 1.0, f);
    if f > 1.0 {
      Sign(q, f - 1.0);
      assert q * (f - 1.0) == t - q;
    }
  }

  lemma RatioFalls(total: int, f: int, g: int)
    requires 1 <= f <= g && 1 <= total
    ensures total as real / f as real >= total as real / g as real
    ensures f < g ==> total as real / f as real > total as real / g as real
  {
    var x, y := f as real, g as real;
    var p, q := total as real / x, total as real / y;
    assert p * x == q * y == total as real;
    Sign(q, y);
    assert (p - q) * x == q * (y - x);
    if f < g {
      Sign(q, y - x);
    }
    Sign(p - q, x);
  }

  /** A served container is given as many shares as its requests want cards. */
  lemma {:induction false} SharesGiven(devs: seq<DeviceUsage>, applied: ContainerDevices, rs: seq<Request>,
                                       policy: Policy, lists: seq<ContainerDevices>)
    requires Served(devs, applied, rs, policy, lists)
    ensures |Concat(lists)| == Wants(rs[..|lists|])
    decreases |lists|
  {
    if lists != [] {
      var n := |lists| - 1;
      SharesGiven(devs, applied, rs, policy, lists[..n]);
      WantsSnoc(rs, n);
    }
  }

  /**
    The score of a served container: the cards it leaves, plus at least 1 and at most the slots
    of the cards it takes.
   */
  lemma ScoreBounds(devs: seq<DeviceUsage>, applied: ContainerDevices, rs: seq<Request>, policy: Policy,
                    lists: seq<ContainerDevices>)
    requires UniqueIds(devs) && Counted(devs) && Served(devs, applied, rs, policy, lists)
    requires |lists| == |rs| && rs != [] && Wanted(rs)
    ensures FreeSlots(devs, applied, Concat(lists)) >= 1
    ensures var es := Concat(lists);
      var left, score := (|devs| - |es|) as real, ContainerScore(devs, applied, rs, es);
      left + 1.0 <= score <= left + TotalSlots(devs, es) as real
  {
    var es := Concat(lists);
    var total, free := TotalSlots(devs, es), FreeSlots(devs, applied, es);
    FreeAndTotal(devs, applied, rs, policy, lists);
    RatioBounds(total, free, |devs| - |es|);
  }

  lemma FreeAndTotal(devs: seq<DeviceUsage>, applied: ContainerDevices, rs: seq<Request>, policy: Policy,
                     lists: seq<ContainerDevices>)
    requires UniqueIds(devs) && Counted(devs) && Served(devs, applied, rs, policy, lists)
    requires |lists| == |rs| && rs != [] && Wanted(rs)
    ensures |Concat(lists)| == Wants(rs)
    ensures 1 <= FreeSlots(devs, applied, Concat(lists)) <= TotalSlots(devs, Concat(lists))
  {
    var es := Concat(lists);
    SharesGiven(devs, applied, rs, policy, lists);
    assert rs[..|lists|] == rs;
    ContainerDone(devs, applied, rs, policy, lists);
    assert es[..|es|] == es;
    ContainerSums(devs, applied, rs, policy, lists, |es|);
  }

  lemma RatioBounds(total: int, free: int, left: int)
    requires 1 <= free <= total
    ensures var score := total as real / free as real + left as real;
      left as real + 1.0 <= score <= left as real + total as real
  {
    Ratio(total, free);
  }

  /** One share counts the slots of its card, and those that are free when it is given. */
  lemma SlotsOfOne(devs: seq<DeviceUsage>, applied: ContainerDevices, e: ContainerDevice, i: nat)
    requires UniqueIds(devs) && i < |devs| && devs[i].id == e.uuid
    ensures TotalSlots(devs, [e]) == devs[i].count
    ensures FreeSlots(devs, applied, [e]) == devs[i].count - devs[i].used - ListUsage(applied, e.uuid).slots
  {
    assert [e][..0] == [];
    assert applied + [] == applied;
    CardCurrent(devs, applied, i);
  }

  // ---- a pod ----

  /** What container `c` adds to the score. */
  ghost function Added(devs: seq<DeviceUsage>, nums: PodRequests, placed: PodPlacement, c: nat): real
    requires c < |placed| <= |nums|
  {
    PodScore(devs, nums, placed[..c + 1]) - PodScore(devs, nums, placed[..c])
  }

  lemma AddedIs(devs: seq<DeviceUsage>, nums: PodRequests, placed: PodPlacement, c: nat)
    requires c < |placed| <= |nums|
    ensures var applied, es := Shares(placed[..c]), Concat(placed[c]);
      Added(devs, nums, placed, c) ==
        if nums[c] != [] && |placed[c]| == |nums[c]| && FreeSlots(devs, applied, es) >= 1
        then ContainerScore(devs, applied, nums[c], es) else 0.0
  {
    assert placed[..c + 1] == placed[..c] + [placed[c]];
    ScoreStep(devs, nums, placed[..c], placed[c]);
  }

  /**
    A pod's score is the sum of what its containers add: a container without requests, or not
    served in full, adds nothing, and any other the cards it leaves, plus 1 up to the slots of
    the cards it takes.
   */
  lemma ScoreIsSum(devs: seq<DeviceUsage>, nums: PodRequests, policy: Policy, placed: PodPlacement, c: nat)
    requires UniqueIds(devs) && Counted(devs) && Tried(devs, nums, policy, placed) && c < |placed|
    requires forall n :: n in nums ==> Wanted(n)
    ensures PodScore(devs, nums, []) == 0.0 && placed[..|placed|] == placed
    ensures PodScore(devs, nums, placed[..c + 1]) == PodScore(devs, nums, placed[..c]) + Added(devs, nums, placed, c)
    ensures nums[c] == [] || |placed[c]| < |nums[c]| ==> Added(devs, nums, placed, c) == 0.0
    ensures nums[c] != [] && |placed[c]| == |nums[c]| ==>
      var es := Concat(placed[c]);
      var left := (|devs| - |es|) as real;
      left + 1.0 <= Added(devs, nums, placed, c) <= left + TotalSlots(devs, es) as real
  {
    AddedIs(devs, nums, placed, c);
    if nums[c] != [] && |placed[c]| == |nums[c]| {
      ContainerServed(devs, nums, policy, placed, c);
      assert nums[c] in nums;
      ScoreBounds(devs, Shares(placed[..c]), nums[c], policy, placed[c]);
    }
  }

  // ---- two nodes ----

  /** The slots of the cards container `c` takes, and how many of them are free. */
  ghost function TotalAt(devs: seq<DeviceUsage>, v: Visit, c: nat): int
    requires c < |v.placed|
  {
    TotalSlots(devs, Concat(v.placed[c]))
  }

  ghost function FreeAt(devs: seq<DeviceUsage>, v: Visit, c: nat): int
    requires c < |v.placed|
  {
    FreeSlots(devs, Shares(v.placed[..c]), Concat(v.placed[c]))
  }

  ghost predicate Complete(devs: seq<DeviceUsage>, nums: PodRequests, policy: Policy, v: Visit) {
    && UniqueIds(devs) && Counted(devs) && TriedIn(devs, nums, policy, v)
    && FullyServed(v.order, v.placed) && |v.placed| == |nums|
  }

  /** Container by container the cards taken have equally many slots, and no more of them are free on `a`. */
  ghost predicate AsFull(a: seq<DeviceUsage>, v: Visit, b: seq<DeviceUsage>, w: Visit) {
    |v.placed| == |w.placed| &&
    forall c :: 0 <= c < |v.placed| ==> TotalAt(a, v, c) == TotalAt(b, w, c) && FreeAt(a, v, c) <= FreeAt(b, w, c)
  }

  lemma {:induction false} WantsRemove(rs: seq<Request>, i: nat)
    requires i < |rs|
    ensures Wants(rs) == Wants(rs[..i] + rs[i + 1..]) + rs[i].nums
    decreases |rs|
  {
    var n := |rs| - 1;
    if i < n {
      WantsRemove(rs[..n], i);
      var rest := rs[..i] + rs[i + 1..];
      assert rest[..|rest| - 1] == rs[..n][..i] + rs[..n][i + 1..] && rest[|rest| - 1] == rs[n];
    } else {
      assert rs[..i] + rs[i + 1..] == rs[..n];
    }
  }

  /** The cards wanted do not depend on the order of the requests. */
  lemma {:induction false} WantsPermute(rs: seq<Request>, ss: seq<Request>)
    requires multiset(rs) == multiset(ss)
    ensures Wants(rs) == Wants(ss)
    decreases |rs|
  {
    SameMembers(rs, ss);
    if rs != [] {
      var n := |rs| - 1;
      assert rs[n] in ss;
      var i :| 0 <= i < |ss| && ss[i] == rs[n];
      WithoutOne(rs, n);
      WithoutOne(ss, i);
      assert rs[..n] + rs[n + 1..] == rs[..n];
      WantsPermute(rs[..n], ss[..i] + ss[i + 1..]);
      WantsRemove(ss, i);
    }
  }

  lemma WithoutOne(rs: seq<Request>, i: nat)
    requires i < |rs|
    ensures multiset(rs[..i] + rs[i + 1..]) == multiset(rs) - multiset{rs[i]}
  {
    assert rs == rs[..i] + [rs[i]] + rs[i + 1..];
  }

  /** What one container adds on the two nodes. */
  lemma AddedCompare(nums: PodRequests, policy: Policy, a: seq<DeviceUsage>, v: Visit, b: seq<DeviceUsage>,
                     w: Visit, c: nat)
    requires Complete(a, nums, policy, v) && Complete(b, nums, policy, w) && AsFull(a, v, b, w) && |a| >= |b|
    requires c < |nums| && forall n :: n in nums ==> Wanted(n)
    ensures Added(a, v.order, v.placed, c) >= Added(b, w.order, w.placed, c)
    ensures nums[c] != [] && (|a| > |b| || FreeAt(a, v, c) < FreeAt(b, w, c)) ==>
              Added(a, v.order, v.placed, c) > Added(b, w.order, w.placed, c)
  {
    AddedIs(a, v.order, v.placed, c);
    AddedIs(b, w.order, w.placed, c);
    SameMembers(nums[c], v.order[c]);
    SameMembers(nums[c], w.order[c]);
    assert nums[c] in nums;
    if nums[c] != [] {
      ServedScore(a, nums, policy, v, c);
      ServedScore(b, nums, policy, w, c);
      WantsPermute(v.order[c], nums[c]);
      WantsPermute(w.order[c], nums[c]);
      RatioFalls(TotalAt(a, v, c), FreeAt(a, v, c), FreeAt(b, w, c));
    }
  }

  lemma ServedScore(devs: seq<DeviceUsage>, nums: PodRequests, policy: Policy, v: Visit, c: nat)
    requires Complete(devs, nums, policy, v) && c < |nums| && nums[c] != [] && Wanted(nums[c])
    ensures 1 <= FreeAt(devs, v, c) <= TotalAt(devs, v, c)
  {
    SameMembers(nums[c], v.order[c]);
    ContainerServed(devs, v.order, policy, v.placed, c);
    FreeAndTotal(devs, Shares(v.placed[..c]), v.order[c], policy, v.placed[c]);
  }

  /** The score after each container. */
  ghost function Scores(devs: seq<DeviceUsage>, v: Visit): (xs: seq<real>)
    requires |v.placed| <= |v.order|
    ensures |xs| == |v.placed| + 1 && xs[0] == 0.0 && xs[|v.placed|] == PodScore(devs, v.order, v.placed)
    ensures forall c :: 0 <= c < |v.placed| ==> xs[c + 1] - xs[c] == Added(devs, v.order, v.placed, c)
  {
    assert v.placed[..|v.placed|] == v.placed;
    seq(|v.placed| + 1, m requires 0 <= m <= |v.placed| => PodScore(devs, v.order, v.placed[..m]))
  }

  /** Sums compare as their terms. */
  lemma {:induction false} SumsCompare(xs: seq<real>, ys: seq<real>, m: nat, k: nat)
    requires m < |xs| == |ys| && xs[0] == ys[0]
    requires forall c :: 0 <= c < m ==> xs[c + 1] - xs[c] >= ys[c + 1] - ys[c]
    requires k < m ==> xs[k + 1] - xs[k] > ys[k + 1] - ys[k]
    ensures xs[m] >= ys[m] && (k < m ==> xs[m] > ys[m])
    decreases m
  {
    if m > 0 {
      SumsCompare(xs, ys, m - 1, k);
    }
  }

  /** More cards, or the cards taken somewhere have fewer free slots. */
  ghost predicate Better(nums: PodRequests, a: seq<DeviceUsage>, v: Visit, b: seq<DeviceUsage>, w: Visit)
    requires |v.placed| == |nums| && |w.placed| == |nums|
  {
    exists c :: 0 <= c < |nums| && nums[c] != [] && (|a| > |b| || FreeAt(a, v, c) < FreeAt(b, w, c))
  }

  /**
    Where container by container the cards taken have equally many slots, a node with more cards
    scores higher, and so does one with as many cards whose taken cards have fewer free slots.
   */
  lemma BetterScoresHigher(nums: PodRequests, policy: Policy, a: seq<DeviceUsage>, v: Visit, b: seq<DeviceUsage>,
                           w: Visit)
    requires Complete(a, nums, policy, v) && Complete(b, nums, policy, w) && AsFull(a, v, b, w) && |a| >= |b|
    requires Better(nums, a, v, b, w) && forall n :: n in nums ==> Wanted(n)
    ensures PodScore(a, v.order, v.placed) > PodScore(b, w.order, w.placed)
  {
    var k :| 0 <= k < |nums| && nums[k] != [] && (|a| > |b| || FreeAt(a, v, k) < FreeAt(b, w, k));
    var xs, ys := Scores(a, v), Scores(b, w);
    forall c | 0 <= c < |nums|
      ensures xs[c + 1] - xs[c] >= ys[c + 1] - ys[c]
    {
      AddedCompare(nums, policy, a, v, b, w, c);
    }
    AddedCompare(nums, policy, a, v, b, w, k);
    SumsCompare(xs, ys, |nums|, k);
  }

  /** So the filter does not choose the other node. */
  lemma BetterNodeWins(nodes: Nodes, before: Pods, after: Pods, uid: string, nums: PodRequests,
                       policy: Policy, names: seq<string>, patchOk: bool, res: FilterResult,
                       runs: Visits, a: string, b: string)
    requires FilterEffect(nodes, before, after, uid, nums, policy, names, patchOk, res, runs) && res.Scheduled?
    requires a in names && a in nodes && a in runs && b in names && b in nodes && b in runs && IsAccepted(runs[a])
    requires forall n :: n in nums ==> Wanted(n)
    requires var usage := UsageTable(nodes, before - {uid}, names);
      && Complete(usage[a], nums, policy, runs[a]) && Complete(usage[b], nums, policy, runs[b])
      && |nodes[a]| >= |nodes[b]|
      && AsFull(usage[a], runs[a], usage[b], runs[b]) && Better(nums, usage[a], runs[a], usage[b], runs[b])
    ensures res.node != b
  {
    var usage := UsageTable(nodes, before - {uid}, names);
    BetterScoresHigher(nums, policy, usage[a], runs[a], usage[b], runs[b]);
  }
}
