/**
  Placing a container's requests on one node. The node's card list is sorted and
  incremented in place; `devs0` is the usage at the start and `applied` the shares given
  so far, so that the list is at all times a permutation of `Current(devs0, applied)`.
 */
module Placement {
  import opened Devices
  import opened Usages
  import opened Sorting
  import opened Fitting

  function Charge(d: DeviceUsage, u: Usage): DeviceUsage {
    d.(used := d.used + u.slots, usedmem := d.usedmem + u.mem, usedcores := d.usedcores + u.cores)
  }

  /** The usage of every card once the shares `es` are given. */
  function Current(devs0: seq<DeviceUsage>, es: ContainerDevices): (devs: seq<DeviceUsage>)
    ensures |devs| == |devs0|
    ensures forall i :: 0 <= i < |devs| ==> devs[i] == Charge(devs0[i], ListUsage(es, devs0[i].id))
  {
    seq(|devs0|, i requires 0 <= i < |devs0| => Charge(devs0[i], ListUsage(es, devs0[i].id)))
  }

  lemma NothingCharged(devs: seq<DeviceUsage>)
    ensures Current(devs, []) == devs
  {
    assert forall i :: 0 <= i < |devs| ==> Current(devs, [])[i] == devs[i];
  }

  const NO_CARD := DeviceUsage("", 0, 0, 0, 0, 0, 0, 0, 0, "", false)

  ghost predicate HasCard(devs: seq<DeviceUsage>, id: string) {
    exists d :: d in devs && d.id == id
  }

  /** The card with identifier `id`. */
  ghost function Card(devs: seq<DeviceUsage>, id: string): DeviceUsage {
    if HasCard(devs, id) then
      var d :| d in devs && d.id == id; d
    else NO_CARD
  }

  lemma CardAt(devs: seq<DeviceUsage>, i: nat)
    requires UniqueIds(devs) && i < |devs|
    ensures Card(devs, devs[i].id) == devs[i]
  {
    assert devs[i] in devs;
  }

  /** A permutation of a list with unique identifiers has unique identifiers. */
  lemma UniquePermutation(s: seq<DeviceUsage>, t: seq<DeviceUsage>)
    requires UniqueIds(s) && multiset(s) == multiset(t)
    ensures UniqueIds(t)
  {
    SameMembers(s, t);
    forall i, j | 0 <= i < j < |t|
      ensures t[i].id != t[j].id
    {
      assert t[i] in s && t[j] in s;
      if t[i] == t[j] {
        assert t == t[..j] + [t[j]] + t[j + 1..];
        assert t[i] in t[..j];
        assert multiset(t)[t[j]] == multiset(t[..j])[t[j]] + 1 + multiset(t[j + 1..])[t[j]];
        AtMostOnce(s, t[j]);
        assert false;
      }
    }
  }

  lemma {:induction false} AtMostOnce(s: seq<DeviceUsage>, d: DeviceUsage)
    requires UniqueIds(s)
    ensures multiset(s)[d] <= 1
  {
    if s != [] {
      AtMostOnce(s[1..], d);
      assert s == [s[0]] + s[1..];
      if s[0] == d {
        assert d !in s[1..];
      }
    }
  }

  lemma CurrentUnique(devs0: seq<DeviceUsage>, es: ContainerDevices)
    requires UniqueIds(devs0)
    ensures UniqueIds(Current(devs0, es))
  {
  }

  // ---- the searches see the list only up to permutation ----

  lemma CandidatesPermute(s: seq<DeviceUsage>, t: seq<DeviceUsage>, r: Request, policy: Policy,
                          numa: int)
    requires multiset(s) == multiset(t)
    ensures Candidates(s, r, policy, numa) == Candidates(t, r, policy, numa)
  {
    SameMembers(s, t);
  }

  lemma CanFitPermute(s: seq<DeviceUsage>, t: seq<DeviceUsage>, r: Request, policy: Policy)
    requires multiset(s) == multiset(t)
    ensures CanFit(s, r, policy) <==> CanFit(t, r, policy)
  {
    forall numa {
      CandidatesPermute(s, t, r, policy, numa);
    }
  }

  lemma PicksPermute(s: seq<DeviceUsage>, t: seq<DeviceUsage>, r: Request, policy: Policy,
                     es: ContainerDevices)
    requires multiset(s) == multiset(t) && Picks(s, r, policy, es)
    ensures Picks(t, r, policy, es)
  {
    SameMembers(s, t);
    var numa :| Ids(es) <= Candidates(s, r, policy, numa);
    CandidatesPermute(s, t, r, policy, numa);
    forall e | e in es
      ensures ShareOf(t, r, e)
    {
      assert ShareOf(s, r, e);
    }
  }

  /** Likewise for which cards are preferred. */
  lemma ChosenPermute(s: seq<DeviceUsage>, t: seq<DeviceUsage>, r: Request, policy: Policy,
                      es: ContainerDevices)
    requires multiset(s) == multiset(t) && Chosen(s, r, policy, es)
    ensures Chosen(t, r, policy, es)
  {
    SameMembers(s, t);
    PicksPermute(s, t, r, policy, es);
    if NumaBound(policy, r) {
      var numa :| Ids(es) <= Candidates(s, r, policy, numa) && NoneAbove(s, r, policy, numa);
      forall g {
        CandidatesPermute(s, t, r, policy, g);
      }
      assert NoneAbove(t, r, policy, numa);
    }
  }

  // ---- the shares of one request, one after the other ----

  /** Each share goes to a card of the node that has room for it at that moment. */
  ghost predicate Legal(devs0: seq<DeviceUsage>, applied: ContainerDevices, es: ContainerDevices) {
    es == [] ||
    var k := |es| - 1;
    Legal(devs0, applied, es[..k]) && LegalAt(devs0, applied + es[..k], es[k])
  }

  ghost predicate LegalAt(devs0: seq<DeviceUsage>, before: ContainerDevices, e: ContainerDevice) {
    && HasCard(devs0, e.uuid)
    && HasRoom(Charge(Card(devs0, e.uuid), ListUsage(before, e.uuid)), e.usedmem, e.usedcores)
  }

  lemma CardCurrent(devs0: seq<DeviceUsage>, es: ContainerDevices, i: nat)
    requires UniqueIds(devs0) && i < |devs0|
    ensures Card(devs0, devs0[i].id) == devs0[i]
    ensures Card(Current(devs0, es), devs0[i].id) == Charge(devs0[i], ListUsage(es, devs0[i].id))
  {
    CurrentUnique(devs0, es);
    CardAt(devs0, i);
    CardAt(Current(devs0, es), i);
  }

  /** A share chosen at the start of a request stays legal after other cards were charged. */
  lemma PickIsLegal(devs0: seq<DeviceUsage>, applied: ContainerDevices, others: ContainerDevices,
                    r: Request, policy: Policy, e: ContainerDevice, numa: int)
    requires UniqueIds(devs0) && e.uuid in Candidates(Current(devs0, applied), r, policy, numa)
    requires ShareOf(Current(devs0, applied), r, e)
    requires forall f :: f in others ==> f.uuid != e.uuid
    ensures LegalAt(devs0, applied + others, e)
  {
    var now := Current(devs0, applied);
    var d :| d in now && Usable(d, r, policy) && d.id == e.uuid;
    var i :| 0 <= i < |now| && now[i] == d;
    assert devs0[i] in devs0;
    CardAt(devs0, i);
    ListUsageAbsent(others, e.uuid);
    ListUsageAppend(applied, others, e.uuid);
  }

  /** The shares of one request are chosen together, yet each is legal after the ones before it. */
  lemma {:induction false} PicksAreLegal(devs0: seq<DeviceUsage>, applied: ContainerDevices,
                                         r: Request, policy: Policy, es: ContainerDevices, numa: int)
    requires UniqueIds(devs0)
    requires DistinctCards(es) && Ids(es) <= Candidates(Current(devs0, applied), r, policy, numa)
    requires forall e :: e in es ==> ShareOf(Current(devs0, applied), r, e)
    ensures Legal(devs0, applied, es)
  {
    if es != [] {
      var k := |es| - 1;
      assert es[k].uuid in Ids(es);
      assert Ids(es[..k]) <= Ids(es);
      PicksAreLegal(devs0, applied, r, policy, es[..k], numa);
      PickIsLegal(devs0, applied, es[..k], r, policy, es[k], numa);
    }
  }

  lemma {:induction false} LegalAppend(devs0: seq<DeviceUsage>, applied: ContainerDevices, es: ContainerDevices,
                                       fs: ContainerDevices)
    requires Legal(devs0, applied, es) && Legal(devs0, applied + es, fs)
    ensures Legal(devs0, applied, es + fs)
    decreases |fs|
  {
    if fs == [] {
      assert es + fs == es;
    } else {
      var n := |fs| - 1;
      LegalAppend(devs0, applied, es, fs[..n]);
      assert applied + es + fs[..n] == applied + (es + fs[..n]);
      assert (es + fs)[..|es + fs| - 1] == es + fs[..n] && (es + fs)[|es + fs| - 1] == fs[n];
    }
  }

  // ---- the score ----

  /** The slots of the chosen cards, counted once per share. */
  ghost function TotalSlots(devs0: seq<DeviceUsage>, es: ContainerDevices): int {
    if es == [] then 0
    else TotalSlots(devs0, es[..|es| - 1]) + Card(devs0, es[|es| - 1].uuid).count
  }

  /** The slots that were free on each chosen card when its share was given. */
  ghost function FreeSlots(devs0: seq<DeviceUsage>, applied: ContainerDevices, es: ContainerDevices): int {
    if es == [] then 0
    else
      var k := |es| - 1;
      var d := Card(Current(devs0, applied + es[..k]), es[k].uuid);
      FreeSlots(devs0, applied, es[..k]) + (d.count - d.used)
  }

  lemma {:induction false} SlotsAppend(devs0: seq<DeviceUsage>, applied: ContainerDevices, es: ContainerDevices,
                                       fs: ContainerDevices)
    ensures TotalSlots(devs0, es + fs) == TotalSlots(devs0, es) + TotalSlots(devs0, fs)
    ensures FreeSlots(devs0, applied, es + fs) == FreeSlots(devs0, applied, es) + FreeSlots(devs0, applied + es, fs)
  {
    if fs == [] {
      assert es + fs == es;
    } else {
      var n := |fs| - 1;
      assert (es + fs)[..|es + fs| - 1] == es + fs[..n];
      SlotsAppend(devs0, applied, es, fs[..n]);
      assert applied + (es + fs[..n]) == applied + es + fs[..n];
    }
  }

  /** Every share goes to a card with a free slot, so the score never divides by zero. */
  lemma {:induction false} FreeSlotsPositive(devs0: seq<DeviceUsage>, applied: ContainerDevices, es: ContainerDevices)
    requires UniqueIds(devs0) && Legal(devs0, applied, es)
    ensures FreeSlots(devs0, applied, es) >= |es|
  {
    if es != [] {
      var k := |es| - 1;
      FreeSlotsPositive(devs0, applied, es[..k]);
      var i :| 0 <= i < |devs0| && devs0[i].id == es[k].uuid;
      CardCurrent(devs0, applied + es[..k], i);
    }
  }

  // ---- charging the list in place ----

  /** Charging one share changes exactly the card it names. */
  lemma CurrentStep(devs0: seq<DeviceUsage>, es: ContainerDevices, e: ContainerDevice, i: nat)
    requires UniqueIds(devs0) && i < |devs0| && devs0[i].id == e.uuid
    ensures Current(devs0, es + [e]) == Current(devs0, es)[i := Charge(Current(devs0, es)[i], Share(e))]
  {
    var now, next := Current(devs0, es), Current(devs0, es + [e]);
    forall j | 0 <= j < |devs0|
      ensures next[j] == if j == i then Charge(now[i], Share(e)) else now[j]
    {
      ListUsageAppend(es, [e], devs0[j].id);
      ListUsageOne(e, devs0[j].id);
    }
  }

  /** The same update at the place where the sorted list keeps that card. */
  lemma PermutedStep(s: seq<DeviceUsage>, t: seq<DeviceUsage>, i: nat, j: nat, d: DeviceUsage)
    requires multiset(s) == multiset(t) && i < |s| && j < |t| && s[i] == t[j]
    ensures multiset(s[i := d]) == multiset(t[j := d])
  {
    assert s == s[..i] + [s[i]] + s[i + 1..] && s[i := d] == s[..i] + [d] + s[i + 1..];
    assert t == t[..j] + [t[j]] + t[j + 1..] && t[j := d] == t[..j] + [d] + t[j + 1..];
  }

  lemma IndexOf(s: seq<DeviceUsage>, t: seq<DeviceUsage>, j: nat) returns (i: nat)
    requires multiset(s) == multiset(t) && j < |t|
    ensures i < |s| && s[i] == t[j]
  {
    SameMembers(s, t);
    assert t[j] in t;
    i :| i < |s| && s[i] == t[j];
  }

  /** Charging a share in the sorted list keeps it a permutation of the usage table. */
  lemma ChargeStep(devs0: seq<DeviceUsage>, before: ContainerDevices, e: ContainerDevice,
                   list: seq<DeviceUsage>, j: nat)
    requires UniqueIds(devs0) && multiset(list) == multiset(Current(devs0, before))
    requires j < |list| && list[j].id == e.uuid
    ensures multiset(list[j := Charge(list[j], Share(e))]) == multiset(Current(devs0, before + [e]))
    ensures Card(Current(devs0, before), e.uuid) == list[j] && Card(devs0, e.uuid).count == list[j].count
  {
    var now := Current(devs0, before);
    var i := IndexOf(now, list, j);
    CardAt(devs0, i);
    CardAt(now, i);
    CurrentStep(devs0, before, e, i);
    PermutedStep(now, list, i, j, Charge(now[i], Share(e)));
  }

  method Store(node: array<DeviceUsage>, i: nat, d: DeviceUsage)
    requires i < node.Length
    modifies node
    ensures node[..] == old(node[..])[i := d]
  {
    node[i] := d;
  }

  /** Charges one share where the list keeps its card. */
  method TakeShare(node: array<DeviceUsage>, val: ContainerDevice,
                   ghost devs0: seq<DeviceUsage>, ghost before: ContainerDevices)
    returns (count: int, free: int)
    requires UniqueIds(devs0) && multiset(node[..]) == multiset(Current(devs0, before))
    requires 0 <= val.idx < node.Length && node[val.idx].id == val.uuid
    modifies node
    ensures multiset(node[..]) == multiset(Current(devs0, before + [val]))
    ensures forall i :: 0 <= i < node.Length ==> node[i].id == old(node[i].id)
    ensures count == Card(devs0, val.uuid).count
    ensures var d := Card(Current(devs0, before), val.uuid); free == d.count - d.used
  {
    ghost var was := node[..];
    ChargeStep(devs0, before, val, was, val.idx);
    var d := node[val.idx];
    count := d.count;
    free := d.count - d.used;
    d := d.(used := d.used + 1, usedcores := d.usedcores + val.usedcores, usedmem := d.usedmem + val.usedmem);
    assert d == Charge(was[val.idx], Share(val));
    Store(node, val.idx, d);
  }

  lemma SlotsSnoc(devs0: seq<DeviceUsage>, applied: ContainerDevices, es: ContainerDevices, k: nat)
    requires k < |es|
    ensures applied + es[..k + 1] == applied + es[..k] + [es[k]]
    ensures TotalSlots(devs0, es[..k + 1]) == TotalSlots(devs0, es[..k]) + Card(devs0, es[k].uuid).count
    ensures var d := Card(Current(devs0, applied + es[..k]), es[k].uuid);
      FreeSlots(devs0, applied, es[..k + 1]) == FreeSlots(devs0, applied, es[..k]) + (d.count - d.used)
  {
    assert es[..k + 1][..k] == es[..k];
  }

  /** Adds up the slots of the chosen cards and charges them where the list keeps them. */
  method TakeShares(node: array<DeviceUsage>, es: ContainerDevices,
                    ghost devs0: seq<DeviceUsage>, ghost applied: ContainerDevices)
    returns (total: int, free: int)
    requires UniqueIds(devs0) && multiset(node[..]) == multiset(Current(devs0, applied))
    requires IndexedIn(node[..], es)
    modifies node
    ensures multiset(node[..]) == multiset(Current(devs0, applied + es))
    ensures total == TotalSlots(devs0, es) && free == FreeSlots(devs0, applied, es)
  {
    total, free := 0, 0;
    ghost var done := applied;
    assert applied + es[..0] == applied;
    for k := 0 to |es|
      invariant done == applied + es[..k]
      invariant multiset(node[..]) == multiset(Current(devs0, done))
      invariant forall i :: 0 <= i < node.Length ==> node[i].id == old(node[i].id)
      invariant total == TotalSlots(devs0, es[..k]) && free == FreeSlots(devs0, applied, es[..k])
    {
      assert es[k] in es;
      assert old(node[..])[es[k].idx].id == es[k].uuid;
      SlotsSnoc(devs0, applied, es, k);
      var t, f := TakeShare(node, es[k], devs0, done);
      total := total + t;
      free := free + f;
      done := done + [es[k]];
    }
    assert es[..|es|] == es;
  }
}
