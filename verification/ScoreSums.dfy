/**
  The sums the score divides. Go adds the slots and the free slots of a container's cards
  in 32 bits; here is how large the sums can get.
 */
module ScoreSums {
  import opened Devices
  import opened Usages
  import opened Fitting
  import opened Placement
  import opened Scoring
  import opened PodScoring

  /** The slots of all cards of a node. */
  function SlotSum(devs: seq<DeviceUsage>): int {
    if devs == [] then 0 else SlotSum(devs[..|devs| - 1]) + devs[|devs| - 1].count
  }

  /** The slots of the cards with the given identifiers. */
  ghost function SlotsIn(devs: seq<DeviceUsage>, ids: set<string>): int {
    if devs == [] then 0
    else
      var n := |devs| - 1;
      SlotsIn(devs[..n], ids) + if devs[n].id in ids then devs[n].count else 0
  }

  ghost predicate Counted(devs: seq<DeviceUsage>) {
    forall i :: 0 <= i < |devs| ==> devs[i].count >= 0 && devs[i].used >= 0
  }

  ghost predicate OnCards(devs: seq<DeviceUsage>, es: ContainerDevices) {
    forall e :: e in es ==> HasCard(devs, e.uuid)
  }

  lemma {:induction false} SlotsInBound(devs: seq<DeviceUsage>, ids: set<string>)
    requires Counted(devs)
    ensures SlotsIn(devs, ids) <= SlotSum(devs)
    decreases |devs|
  {
    if devs != [] {
      SlotsInBound(devs[..|devs| - 1], ids);
    }
  }

  lemma {:induction false} SlotsInAbsent(devs: seq<DeviceUsage>, ids: set<string>, x: string)
    requires forall i :: 0 <= i < |devs| ==> devs[i].id != x
    ensures SlotsIn(devs, ids + {x}) == SlotsIn(devs, ids)
    decreases |devs|
  {
    if devs != [] {
      SlotsInAbsent(devs[..|devs| - 1], ids, x);
    }
  }

  lemma {:induction false} SlotsInAdd(devs: seq<DeviceUsage>, ids: set<string>, i: nat)
    requires UniqueIds(devs) && i < |devs| && devs[i].id !in ids
    ensures SlotsIn(devs, ids + {devs[i].id}) == SlotsIn(devs, ids) + devs[i].count
    decreases |devs|
  {
    var n := |devs| - 1;
    if i < n {
      SlotsInAdd(devs[..n], ids, i);
    } else {
      SlotsInAbsent(devs[..n], ids, devs[n].id);
    }
  }

  /** Different cards are counted once each. */
  lemma {:induction false} TotalOfDistinct(devs: seq<DeviceUsage>, es: ContainerDevices)
    requires UniqueIds(devs) && DistinctCards(es) && OnCards(devs, es)
    ensures TotalSlots(devs, es) == SlotsIn(devs, Ids(es))
    decreases |es|
  {
    if es == [] {
      assert Ids(es) == {};
      NoSlots(devs);
    } else {
      var n := |es| - 1;
      var before, e := es[..n], es[n];
      TotalOfDistinct(devs, before);
      assert es == before + [e];
      IdsSnoc(before, e);
      assert e in es && e.uuid !in Ids(before);
      var i :| 0 <= i < |devs| && devs[i].id == e.uuid;
      CardAt(devs, i);
      SlotsInAdd(devs, Ids(before), i);
    }
  }

  lemma {:induction false} NoSlots(devs: seq<DeviceUsage>)
    ensures SlotsIn(devs, {}) == 0
    decreases |devs|
  {
    if devs != [] {
      NoSlots(devs[..|devs| - 1]);
    }
  }

  lemma TotalBounded(devs: seq<DeviceUsage>, es: ContainerDevices)
    requires UniqueIds(devs) && Counted(devs) && DistinctCards(es) && OnCards(devs, es)
    ensures TotalSlots(devs, es) <= SlotSum(devs)
  {
    TotalOfDistinct(devs, es);
    SlotsInBound(devs, Ids(es));
  }

  /** Several lists of different cards: each at most the whole node. */
  lemma {:induction false} TotalOfLists(devs: seq<DeviceUsage>, lists: seq<ContainerDevices>)
    requires UniqueIds(devs) && Counted(devs)
    requires forall l :: l in lists ==> DistinctCards(l) && OnCards(devs, l)
    ensures TotalSlots(devs, Concat(lists)) <= |lists| * SlotSum(devs)
    decreases |lists|
  {
    if lists != [] {
      var n, all := |lists| - 1, SlotSum(devs);
      assert TotalSlots(devs, Concat(lists[..n])) <= n * all by {
        TotalOfLists(devs, lists[..n]);
      }
      assert TotalSlots(devs, lists[n]) <= all by {
        assert lists[n] in lists;
        TotalBounded(devs, lists[n]);
      }
      assert TotalSlots(devs, Concat(lists)) == TotalSlots(devs, Concat(lists[..n])) + TotalSlots(devs, lists[n]) by {
        SlotsAppend(devs, [], Concat(lists[..n]), lists[n]);
      }
      OneMore(n, all);
    }
  }

  lemma OneMore(n: nat, all: int)
    ensures (n + 1) * all == n * all + all
  {
  }

  lemma CardCounted(devs: seq<DeviceUsage>, applied: ContainerDevices, id: string)
    requires UniqueIds(devs) && Counted(devs) && HasCard(devs, id)
    ensures Card(devs, id).count >= 0
    ensures var d := Card(Current(devs, applied), id); d.count - d.used <= Card(devs, id).count
  {
    var i :| 0 <= i < |devs| && devs[i].id == id;
    CardCurrent(devs, applied, i);
    SlotsNonNegative(applied, id);
  }

  /** No more slots are free than there are. */
  lemma {:induction false} FreeAtMostTotal(devs: seq<DeviceUsage>, applied: ContainerDevices, es: ContainerDevices)
    requires UniqueIds(devs) && Counted(devs) && OnCards(devs, es)
    ensures FreeSlots(devs, applied, es) <= TotalSlots(devs, es)
    decreases |es|
  {
    if es != [] {
      var k := |es| - 1;
      FreeAtMostTotal(devs, applied, es[..k]);
      assert es[k] in es;
      CardCounted(devs, applied + es[..k], es[k].uuid);
    }
  }

  /** The sum only grows while the shares are added up. */
  lemma {:induction false} TotalGrows(devs: seq<DeviceUsage>, es: ContainerDevices, m: nat)
    requires UniqueIds(devs) && Counted(devs) && OnCards(devs, es) && m <= |es|
    ensures TotalSlots(devs, es[..m]) <= TotalSlots(devs, es)
    decreases |es|
  {
    if m == |es| {
      assert es[..m] == es;
    } else {
      var k := |es| - 1;
      TotalGrows(devs, es[..k], m);
      assert es[..k][..m] == es[..m];
      assert es[k] in es;
      CardCounted(devs, [], es[k].uuid);
    }
  }

  // ---- the lists of a container ----

  /** A request's list names different cards of the node. */
  lemma PickedCards(devs: seq<DeviceUsage>, applied: ContainerDevices, r: Request, policy: Policy,
                    es: ContainerDevices)
    requires Picks(Current(devs, applied), r, policy, es)
    ensures DistinctCards(es) && OnCards(devs, es)
  {
    forall e | e in es
      ensures HasCard(devs, e.uuid)
    {
      var i := PickedFrom(devs, applied, r, policy, es, e);
      assert devs[i] in devs;
    }
  }

  /** The card a picked share names; its type was accepted for the request. */
  lemma PickedFrom(devs: seq<DeviceUsage>, applied: ContainerDevices, r: Request, policy: Policy,
                   es: ContainerDevices, e: ContainerDevice) returns (i: nat)
    requires Picks(Current(devs, applied), r, policy, es) && e in es
    ensures i < |devs| && devs[i].id == e.uuid && AcceptedType(Current(devs, applied)[i], r, policy)
  {
    var now := Current(devs, applied);
    var numa :| Ids(es) <= Candidates(now, r, policy, numa);
    assert e.uuid in Ids(es);
    var d :| d in now && Usable(d, r, policy) && d.id == e.uuid;
    i :| 0 <= i < |now| && now[i] == d;
  }

  lemma {:induction false} ServedCards(devs: seq<DeviceUsage>, applied: ContainerDevices, rs: seq<Request>,
                                       policy: Policy, lists: seq<ContainerDevices>)
    requires Served(devs, applied, rs, policy, lists)
    ensures forall l :: l in lists ==> DistinctCards(l) && OnCards(devs, l)
    decreases |lists|
  {
    if lists != [] {
      var n := |lists| - 1;
      ServedCards(devs, applied, rs, policy, lists[..n]);
      PickedCards(devs, applied + Concat(lists[..n]), rs[n], policy, lists[n]);
      forall l | l in lists
        ensures DistinctCards(l) && OnCards(devs, l)
      {
        assert l in lists[..n] || l == lists[n];
      }
    }
  }

  lemma {:induction false} ConcatOnCards(devs: seq<DeviceUsage>, lists: seq<ContainerDevices>)
    requires forall l :: l in lists ==> OnCards(devs, l)
    ensures OnCards(devs, Concat(lists))
    decreases |lists|
  {
    if lists != [] {
      var n := |lists| - 1;
      ConcatOnCards(devs, lists[..n]);
      assert lists[n] in lists;
    }
  }

  /**
    While a container is served, after any number of its shares: no fewer free slots than
    shares, no more than slots, and no more slots than the node has for each request.
    A container whose requests take different cards stays within the node's slots.
   */
  lemma ContainerSums(devs: seq<DeviceUsage>, applied: ContainerDevices, rs: seq<Request>,
                      policy: Policy, lists: seq<ContainerDevices>, m: nat)
    requires UniqueIds(devs) && Counted(devs) && Served(devs, applied, rs, policy, lists) && m <= |Concat(lists)|
    ensures var es := Concat(lists)[..m];
      && m <= FreeSlots(devs, applied, es) <= TotalSlots(devs, es) <= |lists| * SlotSum(devs)
      && (DistinctCards(Concat(lists)) ==> TotalSlots(devs, es) <= SlotSum(devs))
  {
    var all := Concat(lists);
    ServedCards(devs, applied, rs, policy, lists);
    ConcatOnCards(devs, lists);
    TotalGrows(devs, all, m);
    assert TotalSlots(devs, all) <= |lists| * SlotSum(devs) by {
      TotalOfLists(devs, lists);
    }
    if DistinctCards(all) {
      TotalBounded(devs, all);
    }
    assert OnCards(devs, all[..m]);
    FreeAtMostTotal(devs, applied, all[..m]);
    assert Legal(devs, applied, all[..m]) by {
      ServedIsLegal(devs, applied, rs, policy, lists);
      LegalUpTo(devs, applied, all, m);
    }
    FreeSlotsPositive(devs, applied, all[..m]);
  }

  lemma {:induction false} LegalUpTo(devs: seq<DeviceUsage>, applied: ContainerDevices, es: ContainerDevices, m: nat)
    requires Legal(devs, applied, es) && m <= |es|
    ensures Legal(devs, applied, es[..m])
    decreases |es|
  {
    if m == |es| {
      assert es[..m] == es;
    } else {
      var n := |es| - 1;
      LegalUpTo(devs, applied, es[..n], m);
      assert es[..n][..m] == es[..m];
    }
  }

  // ---- one container of a run ----

  lemma {:induction false} ServedTake(devs: seq<DeviceUsage>, applied: ContainerDevices, rs: seq<Request>,
                                      policy: Policy, placed: seq<ContainerDevices>, k: nat)
    requires Served(devs, applied, rs, policy, placed) && k <= |placed|
    ensures Served(devs, applied, rs, policy, placed[..k])
    decreases |placed|
  {
    if k == |placed| {
      assert placed[..k] == placed;
    } else {
      var n := |placed| - 1;
      ServedTake(devs, applied, rs, policy, placed[..n], k);
      assert placed[..n][..k] == placed[..k];
    }
  }

  lemma {:induction false} ServedDrop(devs: seq<DeviceUsage>, applied: ContainerDevices, rs: seq<Request>,
                                      qs: seq<Request>, rest: seq<Request>, policy: Policy,
                                      placed: seq<ContainerDevices>, more: seq<ContainerDevices>)
    requires |placed| == |rs| && |more| <= |qs| && Served(devs, applied, rs + qs + rest, policy, placed + more)
    ensures Served(devs, applied + Concat(placed), qs, policy, more)
    decreases |more|
  {
    if more != [] {
      var n := |more| - 1;
      var flat := placed + more;
      assert flat[..|flat| - 1] == placed + more[..n] && flat[|flat| - 1] == more[n];
      ServedDrop(devs, applied, rs, qs, rest, policy, placed, more[..n]);
      assert (rs + qs + rest)[|placed| + n] == qs[n];
      assert applied + Concat(placed + more[..n]) == applied + Concat(placed) + Concat(more[..n]) by {
        ConcatAppend(placed, more[..n]);
      }
    }
  }

  /** In a pod's run, each container is served after all shares of the ones before it. */
  lemma ContainerServed(devs: seq<DeviceUsage>, nums: PodRequests, policy: Policy,
                        placed: PodPlacement, c: nat)
    requires Tried(devs, nums, policy, placed) && c < |placed|
    ensures Served(devs, Shares(placed[..c]), nums[c], policy, placed[c])
  {
    var before, here := Concat(placed[..c]), placed[c];
    assert Concat(placed) == before + here + Concat(placed[c + 1..]) by {
      assert placed == placed[..c] + [placed[c]] + placed[c + 1..];
      ConcatAppend(placed[..c] + [placed[c]], placed[c + 1..]);
      ConcatSnoc(placed[..c], placed[c]);
    }
    assert Concat(nums) == Concat(nums[..c]) + nums[c] + Concat(nums[c + 1..]) by {
      NumsSplit(nums, c + 1);
      NumsSnoc(nums, c);
    }
    assert |before| == |Concat(nums[..c])| by {
      FlatLength(nums, placed[..c]);
    }
    assert Served(devs, [], Concat(nums), policy, before + here) by {
      ServedTake(devs, [], Concat(nums), policy, Concat(placed), |before + here|);
      assert Concat(placed)[..|before + here|] == before + here;
    }
    ServedDrop(devs, [], Concat(nums[..c]), nums[c], Concat(nums[c + 1..]), policy, before, here);
    assert [] + Concat(before) == Concat(before);
  }

  // ---- which containers take different cards ----

  /** No card type is accepted for two kinds. */
  ghost predicate SeparateKinds(policy: Policy) {
    forall kind, inUse, used, r, s ::
      policy.accepts(kind, inUse, r) && policy.accepts(kind, used, s) ==> r.kind == s.kind
  }

  /** The card a list names was accepted for the list's request. */
  ghost predicate AcceptedFor(devs: seq<DeviceUsage>, r: Request, policy: Policy, id: string) {
    exists i, inUse :: 0 <= i < |devs| && devs[i].id == id && policy.accepts(devs[i].kind, inUse, r)
  }

  lemma {:induction false} ListAccepted(devs: seq<DeviceUsage>, applied: ContainerDevices, rs: seq<Request>,
                                        policy: Policy, lists: seq<ContainerDevices>, e: ContainerDevice)
    returns (t: nat)
    requires Served(devs, applied, rs, policy, lists) && e in Concat(lists)
    ensures t < |lists| && AcceptedFor(devs, rs[t], policy, e.uuid)
    decreases |lists|
  {
    var n := |lists| - 1;
    if e in lists[n] {
      t := n;
      var before := applied + Concat(lists[..n]);
      var i := PickedFrom(devs, before, rs[n], policy, lists[n], e);
      assert Current(devs, before)[i].kind == devs[i].kind;
    } else {
      t := ListAccepted(devs, applied, rs, policy, lists[..n], e);
    }
  }

  /** When no card type is accepted for two kinds, a container's shares are on different cards. */
  lemma {:induction false} SeparateKindsDiffer(devs: seq<DeviceUsage>, applied: ContainerDevices, rs: seq<Request>,
                                               policy: Policy, lists: seq<ContainerDevices>)
    requires UniqueIds(devs) && SeparateKinds(policy) && DistinctKinds(rs) && Served(devs, applied, rs, policy, lists)
    ensures DistinctCards(Concat(lists))
    decreases |lists|
  {
    if lists != [] {
      var n := |lists| - 1;
      var before, last := Concat(lists[..n]), lists[n];
      SeparateKindsDiffer(devs, applied, rs, policy, lists[..n]);
      PickedCards(devs, applied + before, rs[n], policy, last);
      forall e, f | e in before && f in last
        ensures e.uuid != f.uuid
      {
        var t := ListAccepted(devs, applied, rs, policy, lists[..n], e);
        var i := PickedFrom(devs, applied + before, rs[n], policy, last, f);
        assert AcceptedFor(devs, rs[n], policy, f.uuid) by {
          assert Current(devs, applied + before)[i].kind == devs[i].kind;
        }
        AcceptedForOne(devs, rs[t], rs[n], policy, e.uuid);
      }
      DistinctJoin(before, last);
    }
  }

  lemma OneListDistinct(devs: seq<DeviceUsage>, applied: ContainerDevices, rs: seq<Request>,
                        policy: Policy, lists: seq<ContainerDevices>)
    requires Served(devs, applied, rs, policy, lists) && |lists| <= 1
    ensures DistinctCards(Concat(lists))
  {
    if |lists| == 1 {
      ServedCards(devs, applied, rs, policy, lists);
      assert lists[..0] == [] && lists[0] in lists;
      assert Concat(lists) == lists[0];
    }
  }

  lemma AcceptedForOne(devs: seq<DeviceUsage>, r: Request, s: Request, policy: Policy, id: string)
    requires UniqueIds(devs) && SeparateKinds(policy) && AcceptedFor(devs, r, policy, id) && r.kind != s.kind
    ensures !AcceptedFor(devs, s, policy, id)
  {
  }

  lemma DistinctJoin(es: ContainerDevices, fs: ContainerDevices)
    requires DistinctCards(es) && DistinctCards(fs) && forall e, f :: e in es && f in fs ==> e.uuid != f.uuid
    ensures DistinctCards(es + fs)
  {
    var all := es + fs;
    forall i, j | 0 <= i < j < |all|
      ensures all[i].uuid != all[j].uuid
    {
      if i < |es| <= j {
        assert all[i] in es && all[j] in fs;
      }
    }
  }

  /** Outside that: two requests that take the same card count its slots twice. */
  lemma {:induction false} SharedCardCountsTwice(devs: seq<DeviceUsage>, i: nat, e: ContainerDevice, f: ContainerDevice)
    requires UniqueIds(devs) && i < |devs| && e.uuid == f.uuid == devs[i].id
    ensures TotalSlots(devs, [e, f]) == 2 * devs[i].count
  {
    CardAt(devs, i);
    assert TotalSlots(devs, [e]) == devs[i].count by {
      assert [e][..0] == [];
    }
    assert [e, f][..1] == [e];
  }
}
