/**
  The DCU device plugin: masks rebuilt from the directories of live containers, grants
  cut out of them, and what that keeps over runs of allocations and removals on a card.
 */
module Dcu {
  import opened Devices
  import opened Numerals
  import opened CoreMask
  import opened Results

  /** The directory of one virtual device: its pod, its card and its mask. */
  datatype Vdev = Vdev(pod: string, card: nat, mask: string)

  predicate ValidMask(mask: string, cores: nat) {
    |mask| == cores / 4 && IsMask(mask)
  }

  ghost predicate ValidDirs(dirs: seq<Vdev>, totalcores: seq<nat>) {
    forall v :: v in dirs ==> v.card < |totalcores| && ValidMask(v.mask, totalcores[v.card])
  }

  /** What the lookup of the living pods returned for each directory, in order. */
  type Listings = seq<Result<set<string>>>

  /** The directories whose pod was found, in order. */
  function LiveDirs(dirs: seq<Vdev>, listings: Listings): seq<Vdev>
    requires |dirs| <= |listings|
  {
    if dirs == [] then []
    else
      var n := |dirs| - 1;
      LiveDirs(dirs[..n], listings) + if listings[n].Ok? && dirs[n].pod in listings[n].value then [dirs[n]] else []
  }

  /** The first `m` lookups succeeded, and the next one, if there is one, failed. */
  ghost predicate FailsAt(listings: Listings, m: nat) {
    && m <= |listings| && (forall k :: 0 <= k < m ==> listings[k].Ok?)
    && (m < |listings| ==> listings[m].Err?)
  }

  /** Unit `i` of a card belongs to some listed directory. */
  ghost predicate Owned(dirs: seq<Vdev>, card: nat, i: nat) {
    exists v :: v in dirs && v.card == card && i < |Units(v.mask)| && Units(v.mask)[i]
  }

  /** The mask of a card is the union of the masks of the directories on it. */
  ghost predicate UnionMask(dirs: seq<Vdev>, card: nat, cores: nat, mask: string) {
    && ValidMask(mask, cores)
    && forall i :: 0 <= i < |Units(mask)| ==> (Units(mask)[i] <==> Owned(dirs, card, i))
  }

  /** When all lookups see the same pods, what is kept are the directories of those pods. */
  lemma {:induction false} LiveExactly(dirs: seq<Vdev>, listings: Listings, live: set<string>)
    requires |dirs| <= |listings| && forall k :: 0 <= k < |dirs| ==> listings[k] == Ok(live)
    ensures forall v :: v in LiveDirs(dirs, listings) <==> v in dirs && v.pod in live
    decreases |dirs|
  {
    if dirs != [] {
      LiveExactly(dirs[..|dirs| - 1], listings, live);
    }
  }

  lemma NothingOwned(card: nat, cores: nat, mask: string)
    requires ValidMask(mask, cores) && Units(mask) == Zeros(4 * (cores / 4))
    ensures UnionMask([], card, cores, mask)
  {
  }

  /** The units a share of `percent` asks for, in Go's 32-bit arithmetic. */
  function Requested(percent: int, cores: int): int {
    Percent32(Wrap32(cores), percent)
  }

  method JoinMasks(tot: string, c: string, ghost cores: nat) returns (mask: string)
    requires ValidMask(tot, cores) && ValidMask(c, cores)
    ensures ValidMask(mask, cores) && |Units(tot)| == |Units(c)| && Units(mask) == Or(Units(tot), Units(c))
  {
    MaskIsWritten(tot);
    var panicked;
    panicked, mask := AddCoreUsage(tot, c);
    assert c[..|tot|] == c;
  }

  class Plugin {
    const totalcores: seq<nat>
    var coremask: seq<string>

    constructor (totalcores: seq<nat>)
      ensures this.totalcores == totalcores && |coremask| == |totalcores|
    {
      this.totalcores := totalcores;
      coremask := seq(|totalcores|, _ => "");
    }

    /** Every card's mask is the union of the masks of `dirs` on it. */
    ghost predicate Reflects(dirs: seq<Vdev>)
      reads this
    {
      |coremask| == |totalcores| &&
      forall d :: 0 <= d < |totalcores| ==> UnionMask(dirs, d, totalcores[d], coremask[d])
    }

    method ResetMasks()
      requires |coremask| == |totalcores|
      modifies this`coremask
      ensures Reflects([])
    {
      for d := 0 to |totalcores|
        invariant |coremask| == |totalcores|
        invariant forall j :: 0 <= j < d ==> UnionMask([], j, totalcores[j], coremask[j])
      {
        var zeros := InitCoreUsage(totalcores[d]);
        NothingOwned(d, totalcores[d], zeros);
        coremask := coremask[d := zeros];
      }
    }

    /** Joins the mask of one directory to its card's. */
    method AddDir(v: Vdev, ghost kept: seq<Vdev>)
      requires Reflects(kept) && v.card < |totalcores| && ValidMask(v.mask, totalcores[v.card])
      modifies this`coremask
      ensures Reflects(kept + [v])
    {
      var mask := JoinMasks(coremask[v.card], v.mask, totalcores[v.card]);
      JoinDir(kept, totalcores, coremask, v, mask);
      coremask := coremask[v.card := mask];
    }

    /**
      Rebuilds the masks from the directories, in whatever order they are listed. The living
      pods are looked up anew for each directory; a failed lookup leaves masks that know only
      the directories before it.
     */
    method RefreshContainerDevices(files: Result<seq<Vdev>>, listings: Listings)
      returns (ok: bool, ghost seen: nat, ghost kept: seq<Vdev>)
      requires |coremask| == |totalcores|
      requires files.Ok? ==> ValidDirs(files.value, totalcores) && |listings| == |files.value|
      modifies this`coremask
      ensures files.Err? ==> !ok && coremask == old(coremask)
      ensures files.Ok? ==> FailsAt(listings, seen) && (ok <==> seen == |files.value|)
      ensures files.Ok? ==> kept == LiveDirs(files.value[..seen], listings) && Reflects(kept)
    {
      seen, kept := 0, [];
      if files.Err? {
        return false, seen, kept;
      }
      var dirs := files.value;
      ResetMasks();
      for k := 0 to |dirs|
        invariant seen == k && forall j :: 0 <= j < k ==> listings[j].Ok?
        invariant kept == LiveDirs(dirs[..k], listings)
        invariant Reflects(kept)
      {
        if listings[k].Err? {
          return false, seen, kept;
        }
        var v := dirs[k];
        assert v in dirs && dirs[..k + 1][..k] == dirs[..k];
        if v.pod in listings[k].value {
          AddDir(v, kept);
          kept := kept + [v];
        }
        seen := seen + 1;
      }
      ok := true;
    }

    /** The mask for a share of `usedcores` percent. The plugin's own masks stay as they are. */
    method Grant(card: nat, usedcores: int) returns (mask: string)
      requires card < |totalcores| == |coremask| && ValidMask(coremask[card], totalcores[card])
      ensures ValidMask(mask, totalcores[card]) && IsLower(mask)
      ensures Units(mask) == TakeFree(Units(coremask[card]), Requested(usedcores, totalcores[card]))
    {
      var reqcores := GoDiv(Wrap32(usedcores * Wrap32(totalcores[card])), 100);
      MaskIsWritten(coremask[card]);
      mask := AllocCoreUsage(coremask[card], reqcores);
    }
  }

  lemma {:induction false} JoinDir(dirs: seq<Vdev>, totalcores: seq<nat>, masks: seq<string>, v: Vdev, joined: string)
    requires |masks| == |totalcores| && v.card < |totalcores| && ValidMask(v.mask, totalcores[v.card])
    requires forall d :: 0 <= d < |masks| ==> UnionMask(dirs, d, totalcores[d], masks[d])
    requires ValidMask(joined, totalcores[v.card]) && |Units(masks[v.card])| == |Units(v.mask)|
    requires Units(joined) == Or(Units(masks[v.card]), Units(v.mask))
    ensures forall d :: 0 <= d < |masks| ==> UnionMask(dirs + [v], d, totalcores[d], masks[v.card := joined][d])
  {
  }

  /** Two refreshes that see the same live directories, in any order, give the same units. */
  lemma RefreshIsOrderFree(dirs: seq<Vdev>, other: seq<Vdev>, card: nat, cores: nat, mask: string,
                           again: string)
    requires UnionMask(dirs, card, cores, mask) && UnionMask(other, card, cores, again)
    requires forall v :: v in dirs <==> v in other
    ensures Units(mask) == Units(again)
  {
    UnitsLength(mask);
    UnitsLength(again);
    forall i | 0 <= i < |Units(mask)|
      ensures Units(mask)[i] == Units(again)[i]
    {
      assert Owned(dirs, card, i) <==> Owned(other, card, i);
    }
  }
}
