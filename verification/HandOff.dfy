/**
  Whole pods through the annotations: what a restarted scheduler reads back, and what the
  device plugin is handed.
 */
module HandOff {
  import opened Devices
  import opened Usages
  import opened Text
  import opened Results
  import opened NodeAnnotations
  import opened PodAnnotations

  type Annotations = map<string, string>

  /** The annotation of each supported kind; every annotation belongs to one kind. */
  ghost predicate ValidChecklist(checklist: Annotations) {
    && "" !in checklist.Values
    && forall a, b :: a in checklist && b in checklist && checklist[a] == checklist[b] ==> a == b
  }

  /** A Go map yields the empty string for a kind it does not hold. */
  function Key(checklist: Annotations, kind: string): string {
    if kind in checklist then checklist[kind] else ""
  }

  /** One entry per annotation, written from a kind that belongs to it. */
  ghost predicate EncodingOf(checklist: Annotations, pd: PodDevices, res: Annotations) {
    && res.Keys == (set kind | kind in pd :: Key(checklist, kind))
    && forall key :: key in res ==>
         exists kind :: kind in pd && Key(checklist, kind) == key && res[key] == EncodedSingle(pd[kind])
  }

  method EncodePodDevices(checklist: Annotations, pd: PodDevices) returns (res: Annotations)
    ensures EncodingOf(checklist, pd, res)
  {
    res := map[];
    var todo := pd.Keys;
    while todo != {}
      invariant todo <= pd.Keys
      invariant res.Keys == set kind | kind in pd.Keys - todo :: Key(checklist, kind)
      invariant forall key :: key in res ==>
                  exists kind :: kind in pd && Key(checklist, kind) == key && res[key] == EncodedSingle(pd[kind])
    {
      var devType :| devType in todo;
      var s := EncodePodSingleDevice(pd[devType]);
      res := res[Key(checklist, devType) := s];
      todo := todo - {devType};
    }
    assert pd.Keys - {} == pd.Keys;
  }

  /** The annotations carry the record: one entry for each recorded kind that has an annotation. */
  ghost predicate Carries(checklist: Annotations, pd: PodDevices, annos: Annotations) {
    forall kind :: kind in checklist ==>
      && (checklist[kind] in annos <==> kind in pd)
      && (kind in pd ==> annos[checklist[kind]] == EncodedSingle(pd[kind]))
  }

  /** Whatever the order of encoding, patching the annotations in makes the pod carry its record. */
  lemma PatchCarries(checklist: Annotations, pd: PodDevices, annos: Annotations, res: Annotations)
    requires ValidChecklist(checklist)
    requires forall kind :: kind in checklist ==> checklist[kind] !in annos
    requires EncodingOf(checklist, pd, res)
    ensures Carries(checklist, pd, annos + res)
  {
  }

  // ---- decoding ----

  ghost predicate Broken(checklist: Annotations, annos: Annotations, kind: string) {
    kind in checklist && checklist[kind] in annos && DecodedSingle(annos[checklist[kind]]).Err?
  }

  /** One malformed entry makes the whole pod read as holding nothing. */
  ghost function DecodedPod(checklist: Annotations, annos: Annotations): PodDevices {
    if exists kind :: Broken(checklist, annos, kind) then map[]
    else map kind | kind in checklist && checklist[kind] in annos && !Broken(checklist, annos, kind)
           :: DecodedSingle(annos[checklist[kind]]).value
  }

  method DecodeSingle(str: string) returns (r: Result<PodSingleDevice>)
    ensures r == DecodedSingle(str)
  {
    var parts := Split(str, ';');
    var res: PodSingleDevice := [];
    for i := 0 to |parts|
      invariant DecodeLists(parts[..i]) == Ok(res)
    {
      assert parts[..i + 1][..i] == parts[..i];
      var cd := DecodeContainerDevices(parts[i]);
      if cd.Err? {
        ErrorStays(parts, DecodeOne, i + 1);
        return Err;
      }
      res := res + [cd.value];
    }
    assert parts[..|parts|] == parts;
    return Ok(res);
  }

  method DecodePodDevices(checklist: Annotations, annos: Annotations) returns (pd: PodDevices)
    ensures pd == DecodedPod(checklist, annos)
  {
    if annos == map[] {
      return map[];
    }
    pd := map[];
    var todo := checklist.Keys;
    while todo != {}
      invariant todo <= checklist.Keys
      invariant forall kind :: Broken(checklist, annos, kind) ==> kind in todo
      invariant forall kind :: kind in pd <==> kind in checklist && kind !in todo && checklist[kind] in annos
      invariant forall kind :: kind in pd ==> Ok(pd[kind]) == DecodedSingle(annos[checklist[kind]])
    {
      var devID :| devID in todo;
      todo := todo - {devID};
      if checklist[devID] in annos {
        var r := DecodeSingle(annos[checklist[devID]]);
        if r.Err? {
          assert Broken(checklist, annos, devID);
          return map[];
        }
        pd := pd[devID := r.value];
      }
    }
  }

  // ---- after a restart ----

  /** The record without positions, all containers of a kind merged into one. */
  function Merged(lists: PodSingleDevice): PodSingleDevice {
    [UnplacedAll(Concat(lists)), []]
  }

  ghost predicate CleanPod(pd: PodDevices) {
    forall kind :: kind in pd ==> CleanList(Concat(pd[kind]))
  }

  lemma CarriedPod(checklist: Annotations, pd: PodDevices, annos: Annotations)
    requires Carries(checklist, pd, annos) && CleanPod(pd)
    ensures DecodedPod(checklist, annos) == map kind | kind in checklist && kind in pd :: Merged(pd[kind])
  {
    forall kind | kind in checklist && kind in pd
      ensures DecodedSingle(annos[checklist[kind]]) == Ok(Merged(pd[kind]))
    {
      SingleRoundTrip(pd[kind]);
    }
    assert !exists kind :: Broken(checklist, annos, kind);
  }

  lemma {:induction false} UnplacedUsage(cd: ContainerDevices, id: string)
    ensures ListUsage(UnplacedAll(cd), id) == ListUsage(cd, id)
  {
    if cd != [] {
      var n := |cd| - 1;
      UnplacedUsage(cd[..n], id);
      assert UnplacedAll(cd)[..n] == UnplacedAll(cd[..n]);
    }
  }

  lemma MergedUsage(lists: PodSingleDevice, id: string)
    ensures ListUsage(Concat(Merged(lists)), id) == ListUsage(Concat(lists), id)
  {
    var cd := UnplacedAll(Concat(lists));
    ConcatTwo(cd, []);
    assert cd + [] == cd;
    UnplacedUsage(Concat(lists), id);
  }

  /** What a restarted scheduler counts for a pod, and what it loses. */
  lemma RestartUsage(checklist: Annotations, pd: PodDevices, annos: Annotations, id: string)
    requires Carries(checklist, pd, annos) && CleanPod(pd)
    ensures PodUsage(pd, id) == PodUsage(DecodedPod(checklist, annos), id).Plus(PodUsage(pd - checklist.Keys, id))
  {
    var f := (lists: PodSingleDevice) => ListUsage(Concat(lists), id);
    var within := map kind | kind in pd && kind in checklist.Keys :: pd[kind];
    CarriedPod(checklist, pd, annos);
    forall kind | kind in within
      ensures f(DecodedPod(checklist, annos)[kind]) == f(within[kind])
    {
      MergedUsage(pd[kind], id);
    }
    SumMapCongruent(within, DecodedPod(checklist, annos), f);
    SumMapSplit(pd, checklist.Keys, f);
  }

  lemma {:induction false} KindsCount(pd: PodDevices, id: string)
    ensures PodUsage(pd, id).slots >= 0
    ensures forall kind :: kind in pd ==> PodUsage(pd, id).slots >= ListUsage(Concat(pd[kind]), id).slots
    decreases |pd|
  {
    var f := (lists: PodSingleDevice) => ListUsage(Concat(lists), id);
    if pd == map[] {
      SumMapEmpty(f);
    } else {
      forall kind | kind in pd
        ensures PodUsage(pd, id).slots >= ListUsage(Concat(pd[kind]), id).slots >= 0
      {
        assert (pd - {kind}).Keys == pd.Keys - {kind};
        KindsCount(pd - {kind}, id);
        SumMapRemove(pd, kind, f);
        SlotsNonNegative(Concat(pd[kind]), id);
      }
      var kind :| kind in pd;
    }
  }

  lemma {:induction false} ListedIsCounted(cd: ContainerDevices, e: ContainerDevice)
    requires e in cd
    ensures ListUsage(cd, e.uuid).slots >= 1
  {
    var n := |cd| - 1;
    if e in cd[..n] {
      ListedIsCounted(cd[..n], e);
    } else {
      SlotsNonNegative(cd[..n], e.uuid);
    }
  }

  /**
    Restart equivalence: usage rebuilt from the annotations equals the recorded usage on
    every card if and only if every kind with shares has an annotation.
   */
  lemma RestartExactly(checklist: Annotations, pd: PodDevices, annos: Annotations)
    requires Carries(checklist, pd, annos) && CleanPod(pd)
    ensures (forall id :: PodUsage(DecodedPod(checklist, annos), id) == PodUsage(pd, id)) <==>
            (forall kind :: kind in pd && Concat(pd[kind]) != [] ==> kind in checklist)
  {
    if forall kind :: kind in pd && Concat(pd[kind]) != [] ==> kind in checklist {
      forall id
        ensures PodUsage(DecodedPod(checklist, annos), id) == PodUsage(pd, id)
      {
        NothingLost(checklist, pd, annos, id);
      }
    } else {
      var kind :| kind in pd && Concat(pd[kind]) != [] && kind !in checklist;
      SomethingLost(checklist, pd, annos, kind);
    }
  }

  lemma NothingLost(checklist: Annotations, pd: PodDevices, annos: Annotations, id: string)
    requires Carries(checklist, pd, annos) && CleanPod(pd)
    requires forall kind :: kind in pd && Concat(pd[kind]) != [] ==> kind in checklist
    ensures PodUsage(DecodedPod(checklist, annos), id) == PodUsage(pd, id)
  {
    assert PodUsage(pd - checklist.Keys, id) == ZERO by {
      EmptyKinds(pd - checklist.Keys, id);
    }
    RestartUsage(checklist, pd, annos, id);
  }

  lemma SomethingLost(checklist: Annotations, pd: PodDevices, annos: Annotations, kind: string)
    requires Carries(checklist, pd, annos) && CleanPod(pd)
    requires kind in pd && Concat(pd[kind]) != [] && kind !in checklist
    ensures var id := Concat(pd[kind])[0].uuid;
      PodUsage(DecodedPod(checklist, annos), id).slots < PodUsage(pd, id).slots
  {
    var lost, e := pd - checklist.Keys, Concat(pd[kind])[0];
    assert PodUsage(lost, e.uuid).slots >= 1 by {
      ListedIsCounted(Concat(pd[kind]), e);
      KindsCount(lost, e.uuid);
      assert kind in lost;
    }
    RestartUsage(checklist, pd, annos, e.uuid);
  }

  lemma {:induction false} EmptyKinds(pd: PodDevices, id: string)
    requires forall kind :: kind in pd ==> Concat(pd[kind]) == []
    ensures PodUsage(pd, id) == ZERO
    decreases |pd|
  {
    var f := (lists: PodSingleDevice) => ListUsage(Concat(lists), id);
    if pd == map[] {
      SumMapEmpty(f);
    } else {
      var kind :| kind in pd;
      assert (pd - {kind}).Keys == pd.Keys - {kind};
      EmptyKinds(pd - {kind}, id);
      SumMapRemove(pd, kind, f);
    }
  }

  // ---- the device plugin ----

  datatype Delivery = Found(ctr: nat, devices: ContainerDevices) | NotFound | OutOfRange

  /** The first container that still holds devices. */
  function NextOf(lists: PodSingleDevice): Delivery {
    if lists == [] then NotFound
    else if lists[0] != [] then Found(0, lists[0])
    else Shifted(NextOf(lists[1..]), 1)
  }

  /** What is found, `n` containers further on. */
  function Shifted(d: Delivery, n: nat): Delivery {
    if d.Found? then Found(d.ctr + n, d.devices) else d
  }

  /** The container is looked up by its position; a pod that has no such container panics. */
  function Handed(d: Delivery, containers: nat): Delivery {
    if d.Found? && d.ctr >= containers then OutOfRange else d
  }

  /** The lists once that container is served. */
  function Erased(lists: PodSingleDevice): PodSingleDevice {
    if lists == [] then []
    else if lists[0] != [] then [[]] + lists[1..]
    else [lists[0]] + Erased(lists[1..])
  }

  method GetNextDeviceRequest(dtype: string, containers: nat, checklist: Annotations, annos: Annotations)
    returns (r: Delivery)
    ensures var pd := DecodedPod(checklist, annos);
      r == if dtype in pd then Handed(NextOf(pd[dtype]), containers) else NotFound
  {
    var pdevices := DecodePodDevices(checklist, annos);
    if dtype !in pdevices {
      return NotFound;
    }
    r := FirstHolding(pdevices[dtype], containers);
  }

  lemma NextStep(pd: PodSingleDevice, i: nat)
    requires i < |pd|
    ensures Shifted(NextOf(pd[i..]), i) == if pd[i] != [] then Found(i, pd[i]) else Shifted(NextOf(pd[i + 1..]), i + 1)
  {
  }

  method FirstHolding(pd: PodSingleDevice, containers: nat) returns (r: Delivery)
    ensures r == Handed(NextOf(pd), containers)
  {
    assert pd[0..] == pd;
    for ctridx := 0 to |pd|
      invariant NextOf(pd) == Shifted(NextOf(pd[ctridx..]), ctridx)
    {
      NextStep(pd, ctridx);
      if |pd[ctridx]| > 0 {
        if ctridx >= containers {
          return OutOfRange;
        }
        return Found(ctridx, pd[ctridx]);
      }
    }
    return NotFound;
  }

  method EraseNextDeviceType(dtype: string, checklist: Annotations, annos: Annotations) returns (r: Result<Annotations>)
    ensures var pd := DecodedPod(checklist, annos);
      r == if dtype in pd then Ok(annos[Key(checklist, dtype) := EncodedSingle(Erased(pd[dtype]))]) else Err
  {
    var pdevices := DecodePodDevices(checklist, annos);
    if dtype !in pdevices {
      return Err;
    }
    var res := EraseFirst(pdevices[dtype]);
    var s := EncodePodSingleDevice(res);
    return Ok(annos[Key(checklist, dtype) := s]);
  }

  method EraseFirst(pd: PodSingleDevice) returns (res: PodSingleDevice)
    ensures res == Erased(pd)
  {
    res := [];
    var found := false;
    for i := 0 to |pd|
      invariant Erased(pd) == res + if found then pd[i..] else Erased(pd[i..])
    {
      ErasedStep(pd, i, res);
      if found {
        res := res + [pd[i]];
      } else if |pd[i]| > 0 {
        found := true;
        res := res + [[]];
      } else {
        res := res + [pd[i]];
      }
    }
  }

  lemma ErasedStep(pd: PodSingleDevice, i: nat, res: PodSingleDevice)
    requires i < |pd|
    ensures res + pd[i..] == res + [pd[i]] + pd[i + 1..]
    ensures pd[i] != [] ==> res + Erased(pd[i..]) == res + [[]] + pd[i + 1..]
    ensures pd[i] == [] ==> res + Erased(pd[i..]) == res + [pd[i]] + Erased(pd[i + 1..])
  {
  }

  /** The plugin is handed all shares of the kind at once, under the first container. */
  lemma HandedOver(checklist: Annotations, pd: PodDevices, annos: Annotations, kind: string)
    requires Carries(checklist, pd, annos) && CleanPod(pd)
    requires kind in checklist && kind in pd && Concat(pd[kind]) != []
    ensures kind in DecodedPod(checklist, annos)
    ensures var lists := DecodedPod(checklist, annos)[kind];
      && NextOf(lists) == Found(0, UnplacedAll(Concat(pd[kind])))
      && forall containers: nat :: containers >= 1 ==> Handed(NextOf(lists), containers) == NextOf(lists)
  {
    CarriedPod(checklist, pd, annos);
  }

  /** After one erase nothing is left to hand over: delivery happens once. */
  lemma DeliveredOnce(checklist: Annotations, pd: PodDevices, annos: Annotations, kind: string)
    requires ValidChecklist(checklist) && Carries(checklist, pd, annos) && CleanPod(pd)
    requires kind in checklist && kind in pd && Concat(pd[kind]) != []
    ensures kind in DecodedPod(checklist, annos)
    ensures var lists := DecodedPod(checklist, annos)[kind];
      var after := annos[checklist[kind] := EncodedSingle(Erased(lists))];
      kind in DecodedPod(checklist, after) && NextOf(DecodedPod(checklist, after)[kind]) == NotFound
  {
    CarriedPod(checklist, pd, annos);
    var lists := DecodedPod(checklist, annos)[kind];
    assert Erased(lists) == [[], []];
    NothingLeft(checklist, pd, annos, kind);
  }

  /** With the kind's lists empty, nothing of the kind is found. */
  lemma NothingLeft(checklist: Annotations, pd: PodDevices, annos: Annotations, kind: string)
    requires ValidChecklist(checklist) && Carries(checklist, pd, annos) && CleanPod(pd)
    requires kind in checklist && kind in pd
    ensures var after := annos[checklist[kind] := EncodedSingle([[], []])];
      kind in DecodedPod(checklist, after) && NextOf(DecodedPod(checklist, after)[kind]) == NotFound
  {
    var after := annos[checklist[kind] := EncodedSingle([[], []])];
    var left := pd[kind := [[], []]];
    ConcatTwo<ContainerDevice>([], []);
    assert Carries(checklist, left, after);
    CarriedPod(checklist, left, after);
    assert Merged([[], []]) == [[], []];
  }

  ghost predicate FirstHolder(lists: PodSingleDevice, c: nat) {
    c < |lists| && lists[c] != [] && forall i :: 0 <= i < c ==> lists[i] == []
  }

  lemma {:induction false} NextIsFirst(lists: PodSingleDevice)
    ensures !NextOf(lists).OutOfRange?
    ensures NextOf(lists).Found? <==> exists i :: 0 <= i < |lists| && lists[i] != []
    ensures NextOf(lists).Found? ==>
      FirstHolder(lists, NextOf(lists).ctr) && NextOf(lists).devices == lists[NextOf(lists).ctr]
    decreases |lists|
  {
    if lists != [] {
      NextIsFirst(lists[1..]);
      if i :| 0 <= i < |lists| && lists[i] != [] {
        assert i > 0 ==> lists[1..][i - 1] == lists[i];
      }
      if lists[0] == [] && NextOf(lists).Found? {
        var c := NextOf(lists).ctr;
        assert forall i :: 0 < i < c ==> lists[i] == lists[1..][i - 1];
      }
    }
  }

  /** The lookup panics exactly when shares are found, but none within the pod's containers. */
  lemma OutOfRangeExactly(lists: PodSingleDevice, containers: nat)
    ensures Handed(NextOf(lists), containers).OutOfRange? <==>
      && (exists i :: 0 <= i < |lists| && lists[i] != [])
      && (forall i :: 0 <= i < |lists| && i < containers ==> lists[i] == [])
  {
    NextIsFirst(lists);
  }

  // ---- a text no filter writes ----

  /** A list of shares behind so many semicolons belongs to a container at that position. */
  function Behind(n: nat, text: string): string {
    if n == 0 then text else ";" + Behind(n - 1, text)
  }

  function Blanks(n: nat): seq<string> {
    seq(n, _ => "")
  }

  function NoShares(n: nat): PodSingleDevice {
    seq(n, _ => [])
  }

  lemma {:induction false} SplitBehind(n: nat, text: string)
    requires ';' !in text
    ensures Split(Behind(n, text), ';') == Blanks(n) + [text]
  {
    if n == 0 {
      SplitWhole(text, ';');
    } else {
      SplitBehind(n - 1, text);
      SplitFirst("", ';', Behind(n - 1, text));
      assert "" + [';'] + Behind(n - 1, text) == Behind(n, text);
      assert Blanks(n) == [""] + Blanks(n - 1);
    }
  }

  lemma {:induction false} DecodeBlanks(n: nat)
    ensures DecodeLists(Blanks(n)) == Ok(NoShares(n))
  {
    if n == 0 {
      assert Blanks(n) == [] && NoShares(n) == [];
    } else {
      DecodeBlanks(n - 1);
      EmptyList();
      DecodeListsSnoc(Blanks(n - 1), "", NoShares(n - 1), []);
      assert Blanks(n) == Blanks(n - 1) + [""] && NoShares(n) == NoShares(n - 1) + [[]];
    }
  }

  lemma BehindDecoded(n: nat, cd: ContainerDevices)
    requires CleanList(cd)
    ensures DecodedSingle(Behind(n, Encoded(cd))) == Ok(NoShares(n) + [UnplacedAll(cd)])
  {
    RecordsFree(cd);
    TerminatedFree(ShareRecords(cd), ':', ';');
    SplitBehind(n, Encoded(cd));
    DecodeBlanks(n);
    ListRoundTrip(cd);
    DecodeListsSnoc(Blanks(n), Encoded(cd), NoShares(n), UnplacedAll(cd));
  }

  /** Shares behind as many semicolons as the pod has containers panic the lookup. */
  lemma ForeignTextPanics(checklist: Annotations, kind: string, cd: ContainerDevices, containers: nat)
    requires kind in checklist && CleanList(cd) && cd != []
    ensures var pd := DecodedPod(checklist, map[checklist[kind] := Behind(containers, Encoded(cd))]);
      kind in pd && Handed(NextOf(pd[kind]), containers) == OutOfRange
  {
    var lists := NoShares(containers) + [UnplacedAll(cd)];
    BehindDecoded(containers, cd);
    assert lists[containers] != [];
    OutOfRangeExactly(lists, containers);
  }

  lemma {:induction false} ConcatHolds(lists: PodSingleDevice, c: nat)
    requires c < |lists|
    ensures |Concat(lists)| >= |lists[c]|
    ensures (exists i :: 0 <= i < |lists| && i != c && lists[i] != []) ==> |Concat(lists)| > |lists[c]|
    ensures (forall i :: 0 <= i < |lists| && i != c ==> lists[i] == []) ==> Concat(lists) == lists[c]
    decreases |lists|
  {
    var n := |lists| - 1;
    if c < n {
      ConcatHolds(lists[..n], c);
      if exists i :: 0 <= i < |lists| && i != c && lists[i] != [] {
        var i :| 0 <= i < |lists| && i != c && lists[i] != [];
        if i < n {
          assert lists[..n][i] != [];
        }
      }
    } else {
      if exists i :: 0 <= i < |lists| && i != c && lists[i] != [] {
        var i :| 0 <= i < |lists| && i != c && lists[i] != [];
        ConcatHolds(lists[..n], i);
      } else {
        ConcatOfEmpty(lists[..n]);
      }
    }
  }

  lemma {:induction false} ConcatOfEmpty(lists: PodSingleDevice)
    requires forall i :: 0 <= i < |lists| ==> lists[i] == []
    ensures Concat(lists) == []
    decreases |lists|
  {
    if lists != [] {
      ConcatOfEmpty(lists[..|lists| - 1]);
    }
  }

  /** One part with too few fields, under any supported kind, makes the whole pod read as empty. */
  lemma RefusedTextEmptiesPod(checklist: Annotations, annos: Annotations, kind: string, s: string, p: string)
    requires kind in checklist && checklist[kind] in annos
    requires s in Split(annos[checklist[kind]], ';') && p in Split(s, ':') && 1 <= Occurs(p, ',') <= 2
    ensures DecodedPod(checklist, annos) == map[]
  {
    ListRefusedExactly(s);
    AnnotationRefusedExactly(annos[checklist[kind]]);
    assert Broken(checklist, annos, kind);
  }

  /** Erasing empties the first list that holds shares and leaves every other as it is. */
  lemma {:induction false} ErasedExactly(lists: PodSingleDevice, c: nat)
    requires FirstHolder(lists, c)
    ensures Erased(lists) == lists[c := []]
    decreases |lists|
  {
    if c > 0 {
      assert lists[0] == [] && lists == [lists[0]] + lists[1..];
      ErasedExactly(lists[1..], c - 1);
    }
  }

  lemma {:induction false} NothingErased(lists: PodSingleDevice)
    requires forall i :: 0 <= i < |lists| ==> lists[i] == []
    ensures Erased(lists) == lists
    decreases |lists|
  {
    if lists != [] {
      NothingErased(lists[1..]);
    }
  }
}
