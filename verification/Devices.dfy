/**
  The records the scheduler and the device plugins exchange, and the arithmetic on
  them that Go performs in 32 bits.
 */
module Devices {

  /** One physical card as a node registers it. */
  datatype DeviceInfo = DeviceInfo(
    id: string, index: int, count: int, devmem: int, devcore: int,
    kind: string, numa: int, health: bool)

  /** A registered card together with what is used of it. */
  datatype DeviceUsage = DeviceUsage(
    id: string, index: int, used: int, count: int, usedmem: int, totalmem: int,
    totalcore: int, usedcores: int, numa: int, kind: string, health: bool)

  /** What a container asks of one kind of device. */
  datatype Request = Request(nums: int, kind: string, memreq: int, mempct: int, coresreq: int)

  /** One granted share of a card. */
  datatype ContainerDevice = ContainerDevice(
    idx: int, uuid: string, kind: string, usedmem: int, usedcores: int)

  type ContainerDevices = seq<ContainerDevice>
  type PodSingleDevice = seq<ContainerDevices>
  type PodDevices = map<string, PodSingleDevice>

  /** What the scheduler remembers of a placed pod. */
  datatype PodInfo = PodInfo(nodeId: string, devices: PodDevices)

  /**
    The vendor checks, reduced to what the search can observe. `accepts` is an arbitrary
    test on the card's type, on whether the card is in use, and on the request; the NUMA
    flag is raised only for NVIDIA requests.
   */
  datatype Policy = Policy(numaBind: bool, accepts: (string, bool, Request) -> bool)

  const NVIDIA := "NVIDIA"

  predicate NumaBound(policy: Policy, r: Request) {
    policy.numaBind && r.kind == NVIDIA
  }

  // ---- 32-bit arithmetic ----

  const MIN_INT32: int := -0x8000_0000
  const MAX_INT32: int := 0x7fff_ffff

  predicate InInt32(x: int) {
    MIN_INT32 <= x <= MAX_INT32
  }

  /** Two's complement truncation to 32 bits. */
  function Wrap32(x: int): (r: int)
    ensures InInt32(r)
    ensures InInt32(x) ==> r == x
  {
    (x + 0x8000_0000) % 0x1_0000_0000 - 0x8000_0000
  }

  /** Go's integer division, which truncates toward zero. */
  function GoDiv(x: int, y: int): (r: int)
    requires y > 0
    ensures x >= 0 ==> r == x / y
  {
    if x >= 0 then x / y else -((-x) / y)
  }

  /** A percentage as Go computes it from two 32-bit numbers. */
  function Percent32(total: int, pct: int): int {
    GoDiv(Wrap32(total * pct), 100)
  }

  /**
    The percentage is exact, rounded down, if and only if the product fits 32 bits: a product
    that wraps loses at least 2^32, far more than rounding hides.
   */
  lemma ProductExactly(total: int, pct: int)
    requires 0 <= total <= MAX_INT32 && 0 <= pct <= MAX_INT32
    ensures Percent32(total, pct) == total * pct / 100 <==> total * pct <= MAX_INT32
  {
    var product := total * pct;
    ProductNonNegative(total, pct);
    assert Wrap32(product) <= product;
    assert product > MAX_INT32 ==> Wrap32(product) <= product - 0x1_0000_0000;
  }

  /** The memory one share of a card with `total` memory takes; 101 means "no percentage". */
  function MemNeed(total: int, r: Request): int {
    if r.mempct != 101 && r.memreq == 0 then Percent32(total, r.mempct)
    else if r.memreq > 0 then r.memreq
    else 0
  }

  /** The share is the exact rounded-down percentage if and only if the product fits 32 bits. */
  lemma PercentageExactly(total: int, r: Request)
    requires 0 <= total <= MAX_INT32 && 0 <= r.mempct <= MAX_INT32 && r.mempct != 101 && r.memreq == 0
    ensures MemNeed(total, r) == total * r.mempct / 100 <==> total * r.mempct <= MAX_INT32
  {
    ProductExactly(total, r.mempct);
  }

  /** The share is priced below zero exactly when the wrapped product is at most -100. */
  lemma BelowZeroExactly(total: int, r: Request)
    requires r.mempct != 101 && r.memreq == 0
    ensures MemNeed(total, r) < 0 <==> 0x8000_0000 <= total * r.mempct % 0x1_0000_0000 <= 0xffff_ff9c
  {
    var product := total * r.mempct;
    var rest := product % 0x1_0000_0000;
    assert Wrap32(product) == rest - if rest >= 0x8000_0000 then 0x1_0000_0000 else 0;
  }

  lemma ProductNonNegative(total: int, pct: int)
    requires 0 <= total && 0 <= pct
    ensures 0 <= total * pct
  {
  }

  /** On cards of at most 21474836 MiB every percentage up to 100 is exact, and the share fits the card. */
  lemma PercentageIsExact(total: int, r: Request)
    requires 0 <= total <= 21474836 && 0 <= r.mempct <= 100 && r.memreq == 0
    ensures MemNeed(total, r) == total * r.mempct / 100
    ensures 0 <= MemNeed(total, r) <= total
  {
    ProductBounds(total, r.mempct);
    PercentageExactly(total, r);
  }

  lemma ProductBounds(total: int, pct: int)
    requires 0 <= total && 0 <= pct <= 100
    ensures 0 <= total * pct <= total * 100
  {
  }

  /** One MiB more and the product wraps: the whole card is then priced below zero. */
  lemma PercentageWraps()
    ensures MemNeed(21474837, Request(1, NVIDIA, 0, 100, 0)) < 0
  {
    BelowZeroExactly(21474837, Request(1, NVIDIA, 0, 100, 0));
  }
}
