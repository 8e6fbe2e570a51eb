/**
  Runs of allocations and removals on one DCU card.
 */
module DcuRuns {
  import opened Devices
  import opened CoreMask
  import opened Dcu

  /** A live container's share of the card: the percentage it was given and its mask. */
  datatype Held = Held(percent: nat, mask: string)

  function Percents(hs: seq<Held>): nat {
    if hs == [] then 0 else Percents(hs[..|hs| - 1]) + hs[|hs| - 1].percent
  }

  /** The units a percentage stands for, rounded down. */
  function UnitsFor(percent: nat, cores: nat): nat {
    percent * cores / 100
  }

  /** The plugin asks for exactly these units if and only if the product fits 32 bits. */
  lemma RequestedExactly(percent: nat, cores: nat)
    requires percent <= MAX_INT32 && cores <= MAX_INT32
    ensures Requested(percent, cores) == UnitsFor(percent, cores) <==> percent * cores <= MAX_INT32
  {
    ProductExactly(cores, percent);
    assert cores * percent == percent * cores;
  }

  /** So it does for every percentage on cards of up to 21474836 units. */
  lemma RequestedUpTo100(percent: nat, cores: nat)
    requires percent <= 100 && cores <= 21474836
    ensures Requested(percent, cores) == UnitsFor(percent, cores)
  {
    ProductBounds(cores, percent);
    assert cores * percent == percent * cores;
    RequestedExactly(percent, cores);
  }

  /** Every live mask has its promised size, and no two live masks share a unit. */
  ghost predicate Exact(cores: nat, hs: seq<Held>) {
    && (forall h :: h in hs ==> ValidMask(h.mask, cores) && Count(Units(h.mask)) == UnitsFor(h.percent, cores))
    && (forall i, j :: 0 <= i < j < |hs| ==> Disjoint(Units(hs[i].mask), Units(hs[j].mask)))
  }

  /** The joined units of all live masks. */
  function Union(cores: nat, hs: seq<Held>): (b: Bits)
    requires forall h :: h in hs ==> ValidMask(h.mask, cores)
    ensures |b| == 4 * (cores / 4)
  {
    if hs == [] then Zeros(4 * (cores / 4))
    else
      var n := |hs| - 1;
      var h := hs[n];
      assert h in hs && ValidMask(h.mask, cores);
      UnitsLength(h.mask);
      Or(Union(cores, hs[..n]), Units(h.mask))
  }

  /** Unit `i` belongs to some live mask. */
  ghost predicate Holds(hs: seq<Held>, i: nat) {
    exists h :: h in hs && i < |Units(h.mask)| && Units(h.mask)[i]
  }

  lemma HoldsSnoc(hs: seq<Held>, h: Held, i: nat)
    ensures Holds(hs + [h], i) <==> Holds(hs, i) || (i < |Units(h.mask)| && Units(h.mask)[i])
  {
  }

  lemma {:induction false} UnionMember(cores: nat, hs: seq<Held>, i: nat)
    requires (forall h :: h in hs ==> ValidMask(h.mask, cores)) && i < 4 * (cores / 4)
    ensures Union(cores, hs)[i] <==> Holds(hs, i)
    decreases |hs|
  {
    if hs != [] {
      var n := |hs| - 1;
      assert hs[n] in hs && hs == hs[..n] + [hs[n]];
      UnionMember(cores, hs[..n], i);
      UnitsLength(hs[n].mask);
      HoldsSnoc(hs[..n], hs[n], i);
    }
  }

  /** The directories a refresh reads are those of the live containers. */
  ghost predicate Seen(dirs: seq<Vdev>, card: nat, hs: seq<Held>) {
    (set v | v in dirs && v.card == card :: v.mask) == set h | h in hs :: h.mask
  }

  lemma SameOwners(dirs: seq<Vdev>, card: nat, hs: seq<Held>, i: nat)
    requires Seen(dirs, card, hs)
    ensures Owned(dirs, card, i) <==> Holds(hs, i)
  {
    var onCard, held := set v | v in dirs && v.card == card :: v.mask, set h | h in hs :: h.mask;
    if Owned(dirs, card, i) {
      var v :| v in dirs && v.card == card && i < |Units(v.mask)| && Units(v.mask)[i];
      assert v.mask in onCard;
      var h :| h in hs && h.mask == v.mask;
    }
    if Holds(hs, i) {
      var h :| h in hs && i < |Units(h.mask)| && Units(h.mask)[i];
      assert h.mask in held;
      var v :| v in dirs && v.card == card && v.mask == h.mask;
    }
  }

  /** A refresh that sees exactly the live containers rebuilds the union of their masks. */
  lemma RefreshIsUnion(dirs: seq<Vdev>, card: nat, cores: nat, mask: string, hs: seq<Held>)
    requires UnionMask(dirs, card, cores, mask) && Seen(dirs, card, hs)
    requires forall h :: h in hs ==> ValidMask(h.mask, cores)
    ensures Units(mask) == Union(cores, hs)
  {
    var here, all := Units(mask), Union(cores, hs);
    UnitsLength(mask);
    forall i | 0 <= i < |here|
      ensures here[i] == all[i]
    {
      UnionMember(cores, hs, i);
      SameOwners(dirs, card, hs, i);
    }
  }

  // ---- sizes ----

  lemma {:induction false} ZerosCount(n: nat)
    ensures Count(Zeros(n)) == 0
  {
    if n > 0 {
      ZerosCount(n - 1);
      assert Zeros(n)[..n - 1] == Zeros(n - 1);
    }
  }

  function Granted(cores: nat, hs: seq<Held>): nat {
    if hs == [] then 0 else Granted(cores, hs[..|hs| - 1]) + UnitsFor(hs[|hs| - 1].percent, cores)
  }

  /** Disjoint masks add up in the union. */
  lemma {:induction false} UnionCount(cores: nat, hs: seq<Held>)
    requires Exact(cores, hs)
    ensures Count(Union(cores, hs)) == Granted(cores, hs)
    decreases |hs|
  {
    if hs == [] {
      ZerosCount(4 * (cores / 4));
    } else {
      var n := |hs| - 1;
      UnionCount(cores, hs[..n]);
      LastIsApart(cores, hs);
      CountOr(Union(cores, hs[..n]), Units(hs[n].mask));
      assert hs[n] in hs;
    }
  }

  lemma LastIsApart(cores: nat, hs: seq<Held>)
    requires Exact(cores, hs) && hs != []
    ensures Disjoint(Union(cores, hs[..|hs| - 1]), Units(hs[|hs| - 1].mask))
  {
    var n := |hs| - 1;
    assert hs[n] in hs;
    UnitsLength(hs[n].mask);
    var before, last := Union(cores, hs[..n]), Units(hs[n].mask);
    forall i | 0 <= i < |before|
      ensures !(before[i] && last[i])
    {
      UnionMember(cores, hs[..n], i);
    }
  }

  lemma FloorsAdd(p: nat, q: nat, cores: nat)
    ensures UnitsFor(p, cores) + UnitsFor(q, cores) <= UnitsFor(p + q, cores)
  {
  }

  /** Rounding down never promises more than the sum does. */
  lemma {:induction false} FloorSum(cores: nat, hs: seq<Held>)
    ensures Granted(cores, hs) <= UnitsFor(Percents(hs), cores)
    decreases |hs|
  {
    if hs != [] {
      FloorSum(cores, hs[..|hs| - 1]);
      FloorsAdd(Percents(hs[..|hs| - 1]), hs[|hs| - 1].percent, cores);
    }
  }

  lemma WithinCard(percent: nat, cores: nat)
    requires percent <= 100
    ensures UnitsFor(percent, cores) <= cores
  {
  }

  /**
    A grant is never short: with at most 100 percent promised on a card whose unit count is
    a multiple of four, a refreshed mask always has exactly the requested number of units.
   */
  lemma {:induction false} GrantIsExact(cores: nat, hs: seq<Held>, percent: nat, mask: string)
    requires cores % 4 == 0 && Exact(cores, hs) && Percents(hs) + percent <= 100
    requires ValidMask(mask, cores) && Units(mask) == TakeFree(Union(cores, hs), UnitsFor(percent, cores))
    ensures Count(Units(mask)) == UnitsFor(percent, cores)
    ensures forall h :: h in hs ==> Disjoint(Units(h.mask), Units(mask))
  {
    var all, n := Union(cores, hs), UnitsFor(percent, cores);
    assert n <= Free(all) by {
      UnionCount(cores, hs);
      FloorSum(cores, hs);
      FloorsAdd(Percents(hs), percent, cores);
      WithinCard(Percents(hs) + percent, cores);
      CountAndFree(all);
    }
    TakeFreeCount(all, n);
    TakeFreeAvoids(all, n);
    forall h | h in hs
      ensures Disjoint(Units(h.mask), Units(mask))
    {
      UnitsLength(h.mask);
      forall i | 0 <= i < |Units(mask)|
        ensures !(Units(h.mask)[i] && Units(mask)[i])
      {
        UnionMember(cores, hs, i);
      }
    }
  }

  /** A full-card grant on an empty card is exact if and only if the unit count is a multiple of four. */
  lemma WholeCardExactly(cores: nat)
    ensures Count(TakeFree(Union(cores, []), UnitsFor(100, cores))) == UnitsFor(100, cores) <==> cores % 4 == 0
  {
    var empty := Zeros(4 * (cores / 4));
    assert UnitsFor(100, cores) == cores;
    TakeFreeCount(empty, cores);
    CountAndFree(empty);
    ZerosCount(4 * (cores / 4));
  }

  /** Two grants cut from the same mask, without a refresh between, overlap as soon as a unit is free. */
  lemma UnrefreshedOverlap(b: Bits, n: nat, m: nat)
    requires n >= 1 && m >= 1
    ensures Disjoint(TakeFree(b, n), TakeFree(b, m)) <==> Free(b) == 0
  {
    if Free(b) == 0 {
      NoneFree(b);
    } else {
      var i := FirstFree(b);
      TakeAt(b, n, i);
      TakeAt(b, m, i);
    }
  }

  lemma {:induction false} NoneFree(b: Bits)
    requires Free(b) == 0
    ensures forall i :: 0 <= i < |b| ==> b[i]
    decreases |b|
  {
    if b != [] {
      NoneFree(b[..|b| - 1]);
    }
  }

  lemma {:induction false} FirstFree(b: Bits) returns (i: nat)
    requires Free(b) > 0
    ensures i < |b| && !b[i] && Free(b[..i]) == 0
    decreases |b|
  {
    var k := |b| - 1;
    if Free(b[..k]) > 0 {
      i := FirstFree(b[..k]);
      assert b[..k][..i] == b[..i];
    } else {
      i := k;
    }
  }

  // ---- runs ----

  datatype Event = Allocate(percent: nat) | Release(i: nat)

  /** An allocation follows a refresh that saw all live containers of the card. */
  ghost predicate Next(card: nat, cores: nat, s: seq<Held>, ev: Event, t: seq<Held>) {
    match ev
    case Allocate(percent) =>
      exists dirs, seen, mask ::
        && Seen(dirs, card, s) && UnionMask(dirs, card, cores, seen)
        && ValidMask(mask, cores) && Units(mask) == TakeFree(Units(seen), Requested(percent, cores))
        && t == s + [Held(percent, mask)]
    case Release(i) => i < |s| && t == s[..i] + s[i + 1..]
  }

  ghost predicate Allowed(s: seq<Held>, ev: Event) {
    ev.Allocate? ==> Percents(s) + ev.percent <= 100
  }

  lemma AllocateKeeps(card: nat, cores: nat, s: seq<Held>, percent: nat, t: seq<Held>)
    requires cores % 4 == 0 && cores <= 21474836 && Exact(cores, s) && Percents(s) + percent <= 100
    requires Next(card, cores, s, Allocate(percent), t)
    ensures Exact(cores, t)
  {
    var dirs, seen, mask :|
      && Seen(dirs, card, s) && UnionMask(dirs, card, cores, seen)
      && ValidMask(mask, cores) && Units(mask) == TakeFree(Units(seen), Requested(percent, cores))
      && t == s + [Held(percent, mask)];
    RequestedUpTo100(percent, cores);
    RefreshIsUnion(dirs, card, cores, seen, s);
    GrantIsExact(cores, s, percent, mask);
    forall i, j | 0 <= i < j < |t|
      ensures Disjoint(Units(t[i].mask), Units(t[j].mask))
    {
      if j == |s| {
        assert s[i] in s;
      }
    }
  }

  /** In every state of every run, live masks are disjoint and each has its promised size. */
  lemma {:induction false} RunIsExact(card: nat, cores: nat, states: seq<seq<Held>>, events: seq<Event>, k: nat)
    requires cores % 4 == 0 && cores <= 21474836
    requires |states| == |events| + 1 && states[0] == [] && k < |states|
    requires forall i :: 0 <= i < |events| ==>
               Allowed(states[i], events[i]) && Next(card, cores, states[i], events[i], states[i + 1])
    ensures Exact(cores, states[k])
  {
    if k > 0 {
      RunIsExact(card, cores, states, events, k - 1);
      match events[k - 1]
      case Allocate(percent) =>
        AllocateKeeps(card, cores, states[k - 1], percent, states[k]);
      case Release(i) =>
        ReleaseKeeps(cores, states[k - 1], i);
    }
  }

  lemma ReleaseKeeps(cores: nat, s: seq<Held>, i: nat)
    requires Exact(cores, s) && i < |s|
    ensures Exact(cores, s[..i] + s[i + 1..])
  {
  }
}
