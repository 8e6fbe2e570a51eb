/**
  The search for cards on one node: the device order, the test a card must pass, and
  the downward scan with its NUMA resets.
 */
module Fitting {
  import opened Devices
  import opened Sorting
  import opened Sets

  /** The order in which a node's cards are sorted before each search. */
  predicate Less(x: DeviceUsage, y: DeviceUsage) {
    if x.numa == y.numa then x.count - x.used < y.count - y.used else x.numa < y.numa
  }

  lemma LessIsStrictWeakOrder()
    ensures StrictWeakOrder(Less)
  {
  }

  ghost predicate UniqueIds(devs: seq<DeviceUsage>) {
    forall i, j :: 0 <= i < j < |devs| ==> devs[i].id != devs[j].id
  }

  ghost predicate NumaOrdered(devs: seq<DeviceUsage>) {
    forall i, j :: 0 <= i < j < |devs| ==> devs[i].numa <= devs[j].numa
  }

  predicate AcceptedType(d: DeviceUsage, r: Request, policy: Policy) {
    policy.accepts(d.kind, d.used > 0, r)
  }

  /** The card has room for a share of `mem` and `cores`, and giving it breaks no exclusive use. */
  predicate HasRoom(d: DeviceUsage, mem: int, cores: int) {
    && d.used < d.count
    && cores <= 100
    && d.usedmem + mem <= d.totalmem
    && d.usedcores + cores <= d.totalcore
    && (d.totalcore == 100 && cores == 100 ==> d.used <= 0)
    && (d.totalcore != 0 && cores == 0 ==> d.usedcores != d.totalcore)
  }

  predicate Usable(d: DeviceUsage, r: Request, policy: Policy) {
    AcceptedType(d, r, policy) && HasRoom(d, MemNeed(d.totalmem, r), r.coresreq)
  }

  /** Without NUMA binding all cards are one group; with it, the cards of one NUMA node are. */
  predicate InGroup(d: DeviceUsage, r: Request, policy: Policy, numa: int) {
    NumaBound(policy, r) ==> d.numa == numa
  }

  /** The cards of a group that could serve the request. */
  ghost function Candidates(devs: seq<DeviceUsage>, r: Request, policy: Policy, numa: int): set<string> {
    set d | d in devs && Usable(d, r, policy) && InGroup(d, r, policy, numa) :: d.id
  }

  /** Some group holds enough usable cards. */
  ghost predicate CanFit(devs: seq<DeviceUsage>, r: Request, policy: Policy) {
    exists numa :: |Candidates(devs, r, policy, numa)| >= r.nums
  }

  function Ids(es: ContainerDevices): set<string> {
    set e | e in es :: e.uuid
  }

  ghost predicate DistinctCards(es: ContainerDevices) {
    forall i, j :: 0 <= i < j < |es| ==> es[i].uuid != es[j].uuid
  }

  /** The share the request takes of any card that carries this identifier. */
  ghost predicate ShareOf(devs: seq<DeviceUsage>, r: Request, e: ContainerDevice) {
    && e.kind == r.kind
    && e.usedcores == r.coresreq
    && forall d :: d in devs && d.id == e.uuid ==> e.usedmem == MemNeed(d.totalmem, r)
  }

  /** `es` serves the request: the right number of different usable cards, all of one group. */
  ghost predicate Picks(devs: seq<DeviceUsage>, r: Request, policy: Policy, es: ContainerDevices) {
    && |es| == r.nums
    && DistinctCards(es)
    && (exists numa :: Ids(es) <= Candidates(devs, r, policy, numa))
    && forall e :: e in es ==> ShareOf(devs, r, e)
  }

  /** Each share names, by index, the card it names by identifier. */
  ghost predicate IndexedIn(devs: seq<DeviceUsage>, es: ContainerDevices) {
    forall e :: e in es ==> 0 <= e.idx < |devs| && devs[e.idx].id == e.uuid
  }

  /** A usable card of the group that lies above a chosen one is chosen too. */
  ghost predicate Topmost(devs: seq<DeviceUsage>, r: Request, policy: Policy, es: ContainerDevices)
    requires IndexedIn(devs, es)
  {
    forall e, j | e in es && e.idx < j < |devs| && Usable(devs[j], r, policy)
      :: InGroup(devs[j], r, policy, devs[e.idx].numa) ==> devs[j].id in Ids(es)
  }

  lemma CandidatesStep(devs: seq<DeviceUsage>, i: nat, r: Request, policy: Policy, numa: int)
    requires i < |devs| && UniqueIds(devs)
    ensures var up, here := Candidates(devs[i + 1..], r, policy, numa), Candidates(devs[i..], r, policy, numa);
      && devs[i].id !in up
      && here == (if Usable(devs[i], r, policy) && InGroup(devs[i], r, policy, numa) then up + {devs[i].id} else up)
  {
  }

  /** With no NUMA binding the group is irrelevant. */
  lemma OneGroup(devs: seq<DeviceUsage>, r: Request, policy: Policy, g: int, h: int)
    requires !NumaBound(policy, r)
    ensures Candidates(devs, r, policy, g) == Candidates(devs, r, policy, h)
  {
  }

  lemma IdsSnoc(es: ContainerDevices, e: ContainerDevice)
    ensures Ids(es + [e]) == Ids(es) + {e.uuid}
  {
  }

  predicate TakenFrom(d: DeviceUsage, r: Request, policy: Policy, numa: int, e: ContainerDevice) {
    InGroup(d, r, policy, numa) && e == Entry(d, e.idx, r)
  }

  function Entry(d: DeviceUsage, i: int, r: Request): ContainerDevice {
    ContainerDevice(i, d.id, r.kind, MemNeed(d.totalmem, r), r.coresreq)
  }

  /** `es` lists exactly the usable cards of the group `numa` from position `lo` up. */
  ghost predicate Collected(devs: seq<DeviceUsage>, lo: nat, r: Request, policy: Policy, numa: int,
                            es: ContainerDevices)
    requires lo <= |devs|
  {
    && Ids(es) == Candidates(devs[lo..], r, policy, numa)
    && |es| == |Candidates(devs[lo..], r, policy, numa)|
    && DistinctCards(es)
    && (forall e :: e in es ==> lo <= e.idx < |devs| && TakenFrom(devs[e.idx], r, policy, numa, e))
  }

  /** With NUMA binding, the group being collected is the lowest one met so far. */
  ghost predicate LowestGroup(devs: seq<DeviceUsage>, lo: nat, r: Request, policy: Policy, numa: int)
    requires lo <= |devs|
  {
    NumaBound(policy, r) ==>
      || (forall j :: lo <= j < |devs| ==> !AcceptedType(devs[j], r, policy))
      || (&& (exists j :: lo <= j < |devs| && devs[j].numa == numa)
          && forall k :: lo <= k < |devs| && AcceptedType(devs[k], r, policy) ==> devs[k].numa >= numa)
  }

  /**
    The loop state of the scan: the cards from `lo` up are done, `es` holds the group being
    collected, and no group done so far is large enough.
   */
  ghost predicate Scanned(devs: seq<DeviceUsage>, lo: nat, r: Request, policy: Policy, numa: int, es: ContainerDevices)
    requires lo <= |devs|
  {
    && Collected(devs, lo, r, policy, numa, es)
    && LowestGroup(devs, lo, r, policy, numa)
    && !CanFit(devs[lo..], r, policy)
  }

  /** A card that is not usable changes no set of candidates. */
  lemma SkipAccepted(devs: seq<DeviceUsage>, i: nat, r: Request, policy: Policy, numa: int,
                     es: ContainerDevices)
    requires i < |devs| && UniqueIds(devs)
    requires Collected(devs, i + 1, r, policy, numa, es) && !CanFit(devs[i + 1..], r, policy)
    requires !Usable(devs[i], r, policy)
    ensures Collected(devs, i, r, policy, numa, es) && !CanFit(devs[i..], r, policy)
  {
    forall g
      ensures Candidates(devs[i..], r, policy, g) == Candidates(devs[i + 1..], r, policy, g)
    {
      CandidatesStep(devs, i, r, policy, g);
    }
  }

  /** A card of another type changes nothing. */
  lemma SkipCard(devs: seq<DeviceUsage>, i: nat, r: Request, policy: Policy, numa: int,
                 es: ContainerDevices)
    requires i < |devs| && UniqueIds(devs) && NumaOrdered(devs)
    requires Scanned(devs, i + 1, r, policy, numa, es)
    requires !AcceptedType(devs[i], r, policy)
    ensures Scanned(devs, i, r, policy, numa, es)
  {
    SkipAccepted(devs, i, r, policy, numa, es);
    LowestGroupStep(devs, i, r, policy, numa);
  }

  lemma LowestGroupStep(devs: seq<DeviceUsage>, i: nat, r: Request, policy: Policy, numa: int)
    requires i < |devs| && NumaOrdered(devs) && LowestGroup(devs, i + 1, r, policy, numa)
    requires AcceptedType(devs[i], r, policy) && NumaBound(policy, r) ==> devs[i].numa == numa
    ensures LowestGroup(devs, i, r, policy, numa)
  {
  }

  /** A usable card of the current group joins the list. */
  lemma TakeCard(devs: seq<DeviceUsage>, i: nat, r: Request, policy: Policy, numa: int,
                 es: ContainerDevices)
    requires i < |devs| && UniqueIds(devs)
    requires Collected(devs, i + 1, r, policy, numa, es)
    requires Usable(devs[i], r, policy) && InGroup(devs[i], r, policy, numa)
    ensures Collected(devs, i, r, policy, numa, es + [Entry(devs[i], i, r)])
  {
    var e := Entry(devs[i], i, r);
    CandidatesStep(devs, i, r, policy, numa);
    IdsSnoc(es, e);
    DistinctSnoc(es, e);
    forall x | x in es + [e]
      ensures i <= x.idx < |devs| && TakenFrom(devs[x.idx], r, policy, numa, x)
    {
      assert x in es || x == e;
    }
  }

  lemma DistinctSnoc(es: ContainerDevices, e: ContainerDevice)
    requires DistinctCards(es) && e.uuid !in Ids(es)
    ensures DistinctCards(es + [e])
  {
  }

  /** As long as shares are missing, taking a card does not make any group large enough. */
  lemma StillShort(devs: seq<DeviceUsage>, i: nat, r: Request, policy: Policy, numa: int,
                   es: ContainerDevices)
    requires i < |devs| && UniqueIds(devs)
    requires !CanFit(devs[i + 1..], r, policy)
    requires InGroup(devs[i], r, policy, numa)
    requires Collected(devs, i, r, policy, numa, es) && |es| < r.nums
    ensures !CanFit(devs[i..], r, policy)
  {
    forall g
      ensures |Candidates(devs[i..], r, policy, g)| < r.nums
    {
      if NumaBound(policy, r) {
        CandidatesStep(devs, i, r, policy, g);
        assert g != numa ==> !InGroup(devs[i], r, policy, g);
      } else {
        OneGroup(devs[i..], r, policy, g, numa);
      }
    }
  }

  /** Sorting makes groups contiguous: a group met for the first time has no usable cards above. */
  lemma NewGroup(devs: seq<DeviceUsage>, i: nat, r: Request, policy: Policy, numa: int)
    requires i < |devs| && NumaOrdered(devs)
    requires LowestGroup(devs, i + 1, r, policy, numa)
    requires NumaBound(policy, r) && devs[i].numa != numa && AcceptedType(devs[i], r, policy)
    ensures Collected(devs, i + 1, r, policy, devs[i].numa, [])
    ensures LowestGroup(devs, i, r, policy, devs[i].numa)
  {
  }

  lemma {:induction false} FewCandidates(devs: seq<DeviceUsage>, r: Request, policy: Policy, numa: int)
    ensures |Candidates(devs, r, policy, numa)| <= |devs|
  {
    if devs == [] {
      assert Candidates(devs, r, policy, numa) == {};
    } else {
      var d, rest := devs[0], devs[1..];
      assert devs == [d] + rest;
      FewCandidates(rest, r, policy, numa);
      assert Candidates(devs, r, policy, numa) <= Candidates(rest, r, policy, numa) + {d.id};
      SubsetSize(Candidates(devs, r, policy, numa), Candidates(rest, r, policy, numa) + {d.id});
    }
  }

  /**
    The state of the scan at card `i`, once its type is accepted and its group entered: the
    group is the lowest so far and holds the cards collected above `i`.
   */
  ghost predicate Entered(devs: seq<DeviceUsage>, i: nat, r: Request, policy: Policy, numa: int, es: ContainerDevices)
    requires i < |devs|
  {
    && Collected(devs, i + 1, r, policy, numa, es)
    && LowestGroup(devs, i, r, policy, numa)
    && !CanFit(devs[i + 1..], r, policy)
    && InGroup(devs[i], r, policy, numa)
  }

  lemma EnterGroup(devs: seq<DeviceUsage>, i: nat, r: Request, policy: Policy, numa: int,
                   es: ContainerDevices)
    requires i < |devs| && NumaOrdered(devs) && Scanned(devs, i + 1, r, policy, numa, es)
    requires AcceptedType(devs[i], r, policy)
    ensures NumaBound(policy, r) && numa != devs[i].numa ==> Entered(devs, i, r, policy, devs[i].numa, [])
    ensures !(NumaBound(policy, r) && numa != devs[i].numa) ==> Entered(devs, i, r, policy, numa, es)
  {
    if NumaBound(policy, r) && numa != devs[i].numa {
      NewGroup(devs, i, r, policy, numa);
    } else {
      LowestGroupStep(devs, i, r, policy, numa);
    }
  }

  lemma SkipEntered(devs: seq<DeviceUsage>, i: nat, r: Request, policy: Policy, numa: int,
                    es: ContainerDevices)
    requires i < |devs| && UniqueIds(devs) && Entered(devs, i, r, policy, numa, es) && !Usable(devs[i], r, policy)
    ensures Scanned(devs, i, r, policy, numa, es)
  {
    SkipAccepted(devs, i, r, policy, numa, es);
  }

  lemma TakeEntered(devs: seq<DeviceUsage>, i: nat, r: Request, policy: Policy, numa: int,
                    es: ContainerDevices)
    requires i < |devs| && UniqueIds(devs) && NumaOrdered(devs)
    requires Entered(devs, i, r, policy, numa, es) && Usable(devs[i], r, policy) && |es| < r.nums
    ensures var more := es + [Entry(devs[i], i, r)];
      if |more| < r.nums then Scanned(devs, i, r, policy, numa, more) else Succeeded(devs, r, policy, more)
  {
    var more := es + [Entry(devs[i], i, r)];
    TakeCard(devs, i, r, policy, numa, es);
    if |more| < r.nums {
      StillShort(devs, i, r, policy, numa, more);
    } else {
      ScanSucceeded(devs, i, r, policy, numa, more);
      HighestSucceeds(devs, i, r, policy, numa, more);
    }
  }

  /** With NUMA binding, the chosen group is the highest one with enough usable cards. */
  ghost predicate FromHighest(devs: seq<DeviceUsage>, r: Request, policy: Policy, es: ContainerDevices) {
    NumaBound(policy, r) ==>
      exists numa :: Ids(es) <= Candidates(devs, r, policy, numa) && NoneAbove(devs, r, policy, numa)
  }

  /** No group above `numa` has enough usable cards. */
  ghost predicate NoneAbove(devs: seq<DeviceUsage>, r: Request, policy: Policy, numa: int) {
    forall g :: g > numa ==> |Candidates(devs, r, policy, g)| < r.nums
  }

  /** What a successful scan returns. */
  ghost predicate Succeeded(devs: seq<DeviceUsage>, r: Request, policy: Policy, es: ContainerDevices) {
    && CanFit(devs, r, policy) && Picks(devs, r, policy, es)
    && IndexedIn(devs, es) && Topmost(devs, r, policy, es) && FromHighest(devs, r, policy, es)
  }

  datatype Verdict = NoRoom | TooManyCores | Fits(memreq: int)

  /** Whether a card of the right type has room for a share, and how much memory that takes. */
  method Examine(d: DeviceUsage, request: Request) returns (v: Verdict)
    ensures v.TooManyCores? <==> d.used < d.count && request.coresreq > 100
    ensures v.Fits? <==> HasRoom(d, MemNeed(d.totalmem, request), request.coresreq)
    ensures v.Fits? ==> v.memreq == MemNeed(d.totalmem, request)
  {
    var memreq := 0;
    if d.count <= d.used {
      return NoRoom;
    }
    if request.coresreq > 100 {
      return TooManyCores;
    }
    if request.memreq > 0 {
      memreq := request.memreq;
    }
    if request.mempct != 101 && request.memreq == 0 {
      memreq := Percent32(d.totalmem, request.mempct);
    }
    if d.totalmem - d.usedmem < memreq {
      return NoRoom;
    }
    if d.totalcore - d.usedcores < request.coresreq {
      return NoRoom;
    }
    if d.totalcore == 100 && request.coresreq == 100 && d.used > 0 {
      return NoRoom;
    }
    if d.totalcore != 0 && d.usedcores == d.totalcore && request.coresreq == 0 {
      return NoRoom;
    }
    v := Fits(memreq);
  }

  /**
    The scan is sound and complete: it succeeds exactly when some group holds enough usable
    cards, and then returns different usable cards of one group, highest first. With NUMA
    binding that group is the highest one with enough usable cards.
   */
  method FitInCertainDevice(node: array<DeviceUsage>, request: Request, policy: Policy)
    returns (fit: bool, tmpDevs: ContainerDevices)
    requires request.nums >= 1
    requires UniqueIds(node[..]) && NumaOrdered(node[..])
    ensures fit <==> CanFit(node[..], request, policy)
    ensures fit ==> Picks(node[..], request, policy, tmpDevs) && IndexedIn(node[..], tmpDevs)
    ensures fit ==> Topmost(node[..], request, policy, tmpDevs) && FromHighest(node[..], request, policy, tmpDevs)
  {
    ghost var devs := node[..];
    var nums := request.nums;
    var prevnuma := -1;
    tmpDevs := [];
    assert devs[|devs|..] == [];
    for i := node.Length downto 0
      invariant nums == request.nums - |tmpDevs| && nums >= 1
      invariant Scanned(devs, i, request, policy, prevnuma, tmpDevs)
    {
      var d := node[i];
      assert d == devs[i];
      if !AcceptedType(d, request, policy) {
        SkipCard(devs, i, request, policy, prevnuma, tmpDevs);
        continue;
      }
      EnterGroup(devs, i, request, policy, prevnuma, tmpDevs);
      if NumaBound(policy, request) && prevnuma != d.numa {
        nums := request.nums;
        prevnuma := d.numa;
        tmpDevs := [];
      }
      var verdict := Examine(d, request);
      match verdict
      case NoRoom =>
        SkipEntered(devs, i, request, policy, prevnuma, tmpDevs);
      case TooManyCores =>
        NobodyFits(devs, request, policy);
        return false, tmpDevs;
      case Fits(memreq) =>
        TakeEntered(devs, i, request, policy, prevnuma, tmpDevs);
        nums := nums - 1;
        tmpDevs := tmpDevs + [ContainerDevice(i, d.id, request.kind, memreq, request.coresreq)];
        if nums == 0 {
          return true, tmpDevs;
        }
    }
    assert devs[0..] == devs;
    return false, tmpDevs;
  }

  /** A request for more than 100 cores fits nowhere. */
  lemma NobodyFits(devs: seq<DeviceUsage>, r: Request, policy: Policy)
    requires r.coresreq > 100 && r.nums >= 1
    ensures !CanFit(devs, r, policy)
  {
    assert forall g :: Candidates(devs, r, policy, g) == {};
  }

  /** What the scan holds when the last share is taken. */
  lemma ScanSucceeded(devs: seq<DeviceUsage>, i: nat, r: Request, policy: Policy, numa: int,
                      es: ContainerDevices)
    requires i < |devs| && UniqueIds(devs) && |es| == r.nums
    requires Collected(devs, i, r, policy, numa, es)
    ensures CanFit(devs, r, policy) && Picks(devs, r, policy, es)
    ensures Ids(es) <= Candidates(devs, r, policy, numa)
    ensures IndexedIn(devs, es) && Topmost(devs, r, policy, es)
  {
    assert Candidates(devs[i..], r, policy, numa) <= Candidates(devs, r, policy, numa);
    SubsetSize(Candidates(devs[i..], r, policy, numa), Candidates(devs, r, policy, numa));
    forall e | e in es
      ensures ShareOf(devs, r, e)
    {
    }
    forall e, j | e in es && e.idx < j < |devs| && Usable(devs[j], r, policy)
      && InGroup(devs[j], r, policy, devs[e.idx].numa)
      ensures devs[j].id in Ids(es)
    {
      assert devs[j] == devs[i..][j - i];
      assert devs[j] in devs[i..];
    }
  }

  /** The groups above the one being collected lie wholly above card `i`, where none was large enough. */
  lemma HighestSucceeds(devs: seq<DeviceUsage>, i: nat, r: Request, policy: Policy, numa: int,
                        es: ContainerDevices)
    requires i < |devs| && NumaOrdered(devs) && !CanFit(devs[i + 1..], r, policy) && InGroup(devs[i], r, policy, numa)
    requires Ids(es) <= Candidates(devs, r, policy, numa)
    ensures FromHighest(devs, r, policy, es)
  {
    if NumaBound(policy, r) {
      forall g | g > numa
        ensures |Candidates(devs, r, policy, g)| < r.nums
      {
        GroupAbove(devs, i, r, policy, g);
      }
      assert NoneAbove(devs, r, policy, numa);
    }
  }

  lemma GroupAbove(devs: seq<DeviceUsage>, i: nat, r: Request, policy: Policy, g: int)
    requires i < |devs| && NumaOrdered(devs) && NumaBound(policy, r) && devs[i].numa < g
    ensures Candidates(devs, r, policy, g) == Candidates(devs[i + 1..], r, policy, g)
  {
    forall d | d in devs && d.numa == g
      ensures d in devs[i + 1..]
    {
      var j :| 0 <= j < |devs| && devs[j] == d;
      assert j > i && devs[i + 1..][j - i - 1] == d;
    }
  }

  // ---- which cards are taken ----

  /** A card on a higher NUMA node, or on the same one with at least as many free slots. */
  predicate Ahead(d: DeviceUsage, x: DeviceUsage) {
    d.numa > x.numa || (d.numa == x.numa && d.count - d.used >= x.count - x.used)
  }

  /**
    Every chosen card is ahead of every usable card that is left; with NUMA binding, of those
    on its own node.
   */
  ghost predicate Foremost(devs: seq<DeviceUsage>, r: Request, policy: Policy, es: ContainerDevices) {
    forall d, x | d in devs && x in devs && d.id in Ids(es) && PassedOver(r, policy, es, d, x) :: Ahead(d, x)
  }

  /** The card could have been taken in place of `d`. */
  ghost predicate PassedOver(r: Request, policy: Policy, es: ContainerDevices, d: DeviceUsage, x: DeviceUsage) {
    x.id !in Ids(es) && Usable(x, r, policy) && (policy.numaBind && r.kind == "NVIDIA" ==> x.numa == d.numa)
  }

  /** The shares serve the request, and are those the order prefers. */
  ghost predicate Chosen(devs: seq<DeviceUsage>, r: Request, policy: Policy, es: ContainerDevices) {
    Picks(devs, r, policy, es) && Foremost(devs, r, policy, es) && FromHighest(devs, r, policy, es)
  }

  /**
    Selection order: in a sorted list, the topmost usable cards are the foremost ones.
   */
  lemma ChosenAreHighest(devs: seq<DeviceUsage>, r: Request, policy: Policy, es: ContainerDevices)
    requires Ordered(devs, Less) && UniqueIds(devs)
    requires IndexedIn(devs, es) && Topmost(devs, r, policy, es)
    ensures Foremost(devs, r, policy, es)
  {
    forall d, x | d in devs && x in devs && d.id in Ids(es) && PassedOver(r, policy, es, d, x)
      ensures Ahead(d, x)
    {
      var e :| e in es && e.uuid == d.id;
      var i :| 0 <= i < |devs| && devs[i] == d;
      var j :| 0 <= j < |devs| && devs[j] == x;
      assert e.idx == i && j < i;
      AboveIsAhead(devs, j, i);
    }
  }

  lemma AboveIsAhead(devs: seq<DeviceUsage>, j: nat, i: nat)
    requires Ordered(devs, Less) && j < i < |devs|
    ensures Ahead(devs[i], devs[j])
  {
    assert !Less(devs[i], devs[j]);
  }
}
