/**
  The annotations that carry a pod's devices from the scheduler to itself after a restart
  and to the device plugin on the node.
 */
module PodAnnotations {
  import opened Devices
  import opened Usages
  import opened Text
  import opened Results
  import opened NodeAnnotations

  // ---- one list of shares ----

  function ShareFields(e: ContainerDevice): (fields: seq<string>)
    ensures |fields| == 4
  {
    [e.uuid, e.kind, Itoa(e.usedmem), Itoa(e.usedcores)]
  }

  function ShareRecords(cd: ContainerDevices): seq<string> {
    seq(|cd|, i requires 0 <= i < |cd| => Join(ShareFields(cd[i]), ','))
  }

  function Encoded(cd: ContainerDevices): string {
    Terminated(ShareRecords(cd), ':')
  }

  function ParsedShare(items: seq<string>): ContainerDevice
    requires |items| >= 4
  {
    ContainerDevice(0, items[0], items[1],
                    ParseInt(items[2], MIN_INT32, MAX_INT32), ParseInt(items[3], MIN_INT32, MAX_INT32))
  }

  /** A part without a comma is skipped; one with fewer than four fields is malformed. */
  function DecodeShare(part: string): Result<ContainerDevices> {
    if ',' !in part then Ok([])
    else if |Split(part, ',')| < 4 then Err
    else Ok([ParsedShare(Split(part, ','))])
  }

  function DecodeShares(parts: seq<string>): Result<ContainerDevices> {
    DecodeAll(parts, DecodeShare)
  }

  function DecodedList(str: string): Result<ContainerDevices> {
    DecodeShares(Split(str, ':'))
  }

  method EncodeContainerDevices(cd: ContainerDevices) returns (tmp: string)
    ensures tmp == Encoded(cd)
  {
    tmp := "";
    for i := 0 to |cd|
      invariant tmp == Encoded(cd[..i])
    {
      var record := Join(ShareFields(cd[i]), ',');
      assert cd[..i + 1] == cd[..i] + [cd[i]];
      EncodedSnoc(cd[..i], cd[i]);
      tmp := tmp + (record + ":");
    }
    assert cd[..|cd|] == cd;
  }

  method DecodeContainerDevices(str: string) returns (r: Result<ContainerDevices>)
    ensures r == DecodedList(str)
  {
    if |str| == 0 {
      EmptyList();
      return Ok([]);
    }
    var cd := Split(str, ':');
    var contdev: ContainerDevices := [];
    for i := 0 to |cd|
      invariant DecodeShares(cd[..i]) == Ok(contdev)
    {
      assert cd[..i + 1] == cd[..i] + [cd[i]] && cd[..i + 1][..i] == cd[..i];
      if ',' in cd[i] {
        var tmpstr := Split(cd[i], ',');
        if |tmpstr| < 4 {
          ErrorStays(cd, DecodeShare, i + 1);
          return Err;
        }
        DecodeAllSnoc(cd[..i], DecodeShare, cd[i], contdev, [ParsedShare(tmpstr)]);
        contdev := contdev + [ParsedShare(tmpstr)];
      } else {
        DecodeAllSkip(cd[..i], DecodeShare, cd[i]);
      }
    }
    assert cd[..|cd|] == cd;
    return Ok(contdev);
  }

  // ---- round trip of one list ----

  function Unplaced(e: ContainerDevice): ContainerDevice {
    e.(idx := 0)
  }

  /** The list without the positions, which are not written. */
  function UnplacedAll(cd: ContainerDevices): (r: ContainerDevices)
    ensures |r| == |cd|
    ensures forall i :: 0 <= i < |r| ==> r[i] == Unplaced(cd[i])
  {
    seq(|cd|, i requires 0 <= i < |cd| => Unplaced(cd[i]))
  }

  ghost predicate CleanShare(e: ContainerDevice) {
    && Free(e.uuid, ",:;") && Free(e.kind, ",:;")
    && InInt32(e.usedmem) && InInt32(e.usedcores)
  }

  ghost predicate CleanList(cd: ContainerDevices) {
    forall e :: e in cd ==> CleanShare(e)
  }

  lemma EncodedSnoc(cd: ContainerDevices, e: ContainerDevice)
    ensures Encoded(cd + [e]) == Encoded(cd) + (Join(ShareFields(e), ',') + ":")
    ensures ShareRecords(cd + [e]) == ShareRecords(cd) + [Join(ShareFields(e), ',')]
  {
    assert ShareRecords(cd + [e]) == ShareRecords(cd) + [Join(ShareFields(e), ',')];
    TerminatedSnoc(ShareRecords(cd), Join(ShareFields(e), ','), ':');
  }

  lemma EncodedAppend(cd: ContainerDevices, ce: ContainerDevices)
    ensures Encoded(cd + ce) == Encoded(cd) + Encoded(ce)
  {
    assert ShareRecords(cd + ce) == ShareRecords(cd) + ShareRecords(ce);
    TerminatedAppend(ShareRecords(cd), ShareRecords(ce), ':');
  }

  lemma ShareFieldsClean(e: ContainerDevice, c: char)
    requires Free(e.uuid, ",:;") && Free(e.kind, ",:;") && c in ",:;"
    ensures forall f :: f in ShareFields(e) ==> c !in f
  {
    ItoaFree(e.usedmem, c);
    ItoaFree(e.usedcores, c);
  }

  lemma ShareSplits(e: ContainerDevice)
    requires Free(e.uuid, ",:;") && Free(e.kind, ",:;")
    ensures var record := Join(ShareFields(e), ',');
      && ',' in record && ':' !in record && ';' !in record
      && Split(record, ',') == ShareFields(e)
  {
    assert ",:;"[0] == ',' && ",:;"[1] == ':' && ",:;"[2] == ';';
    ShareFieldsClean(e, ',');
    ShareFieldsClean(e, ':');
    ShareFieldsClean(e, ';');
    SplitJoin(ShareFields(e), ',');
    JoinFree(ShareFields(e), ',', ':');
    JoinFree(ShareFields(e), ',', ';');
    assert Join(ShareFields(e), ',')[|ShareFields(e)[0]|] == ',';
  }

  lemma ShareRoundTrip(e: ContainerDevice)
    requires CleanShare(e)
    ensures var record := Join(ShareFields(e), ',');
      && ',' in record && ':' !in record && ';' !in record
      && Split(record, ',') == ShareFields(e)
    ensures ParsedShare(ShareFields(e)) == Unplaced(e)
  {
    ShareSplits(e);
    ItoaRoundTrip(e.usedmem, MIN_INT32, MAX_INT32);
    ItoaRoundTrip(e.usedcores, MIN_INT32, MAX_INT32);
  }

  lemma RecordsFree(cd: ContainerDevices)
    requires CleanList(cd)
    ensures forall r :: r in ShareRecords(cd) ==> ':' !in r && ';' !in r
  {
    forall i | 0 <= i < |cd|
      ensures ':' !in ShareRecords(cd)[i] && ';' !in ShareRecords(cd)[i]
    {
      ShareRoundTrip(cd[i]);
    }
  }

  lemma DecodeSharesSnoc(parts: seq<string>, record: string, done: ContainerDevices)
    requires DecodeShares(parts) == Ok(done) && ',' in record && |Split(record, ',')| >= 4
    ensures DecodeShares(parts + [record]) == Ok(done + [ParsedShare(Split(record, ','))])
  {
    DecodeAllSnoc(parts, DecodeShare, record, done, [ParsedShare(Split(record, ','))]);
  }

  lemma {:induction false} RecordsRoundTrip(cd: ContainerDevices)
    requires CleanList(cd)
    ensures DecodeShares(ShareRecords(cd)) == Ok(UnplacedAll(cd))
  {
    if cd == [] {
      assert ShareRecords(cd) == [] && UnplacedAll(cd) == [];
    } else {
      var n := |cd| - 1;
      var before, e := cd[..n], cd[n];
      assert cd == before + [e];
      RecordsRoundTrip(before);
      assert DecodeShares(ShareRecords(before) + [Join(ShareFields(e), ',')]) ==
             Ok(UnplacedAll(before) + [Unplaced(e)]) by {
        ShareRoundTrip(e);
        DecodeSharesSnoc(ShareRecords(before), Join(ShareFields(e), ','), UnplacedAll(before));
      }
      EncodedSnoc(before, e);
      assert UnplacedAll(cd) == UnplacedAll(before) + [Unplaced(e)];
    }
  }

  /** One list of shares survives, positions aside. */
  lemma ListRoundTrip(cd: ContainerDevices)
    requires CleanList(cd)
    ensures DecodedList(Encoded(cd)) == Ok(UnplacedAll(cd))
    ensures ';' !in Encoded(cd)
  {
    RecordsFree(cd);
    RecordsRoundTrip(cd);
    SplitTerminated(ShareRecords(cd), ':');
    TerminatedFree(ShareRecords(cd), ':', ';');
    DecodeAllSkip(ShareRecords(cd), DecodeShare, "");
  }

  // ---- all containers of a pod, for one kind ----

  /** The semicolon is written once, after the last container. */
  function EncodedSingle(pd: PodSingleDevice): string {
    Encoded(Concat(pd)) + ";"
  }

  method EncodePodSingleDevice(pd: PodSingleDevice) returns (res: string)
    ensures res == EncodedSingle(pd)
  {
    res := "";
    for i := 0 to |pd|
      invariant res == Encoded(Concat(pd[..i]))
    {
      var s := EncodeContainerDevices(pd[i]);
      assert pd[..i + 1] == pd[..i] + [pd[i]];
      ConcatSnoc(pd[..i], pd[i]);
      EncodedAppend(Concat(pd[..i]), pd[i]);
      res := res + s;
    }
    assert pd[..|pd|] == pd;
    res := res + ";";
  }

  function DecodeOne(s: string): Result<PodSingleDevice> {
    var cd := DecodedList(s);
    if cd.Ok? then Ok([cd.value]) else Err
  }

  function DecodeLists(parts: seq<string>): Result<PodSingleDevice> {
    DecodeAll(parts, DecodeOne)
  }

  function DecodedSingle(str: string): Result<PodSingleDevice> {
    DecodeLists(Split(str, ';'))
  }

  lemma DecodeListsSnoc(parts: seq<string>, s: string, done: PodSingleDevice, cd: ContainerDevices)
    requires DecodeLists(parts) == Ok(done) && DecodedList(s) == Ok(cd)
    ensures DecodeLists(parts + [s]) == Ok(done + [cd])
  {
    DecodeAllSnoc(parts, DecodeOne, s, done, [cd]);
  }

  lemma DecodeTwo(a: string, b: string, x: ContainerDevices, y: ContainerDevices)
    requires DecodedList(a) == Ok(x) && DecodedList(b) == Ok(y)
    ensures DecodeLists([a, b]) == Ok([x, y])
  {
    DecodeListsSnoc([], a, [], x);
    assert [] + [a] == [a] && [] + [x] == [x];
    DecodeListsSnoc([a], b, [x], y);
    assert [a] + [b] == [a, b] && [x] + [y] == [x, y];
  }

  lemma EmptyList()
    ensures DecodedList("") == Ok([])
  {
    var none: seq<string> := [];
    assert Split("", ':') == none + [""];
    DecodeAllSkip(none, DecodeShare, "");
  }

  /**
    What survives: the containers' lists come back as one list, followed by an empty one.
   */
  lemma SingleRoundTrip(pd: PodSingleDevice)
    requires CleanList(Concat(pd))
    ensures DecodedSingle(EncodedSingle(pd)) == Ok([UnplacedAll(Concat(pd)), []])
  {
    var s := Encoded(Concat(pd));
    ListRoundTrip(Concat(pd));
    assert s + ";" == s + [';'] + "";
    SplitFirst(s, ';', "");
    assert Split(s + ";", ';') == [s, ""];
    EmptyList();
    DecodeTwo(s, "", UnplacedAll(Concat(pd)), []);
  }

  function UnplacedLists(pd: PodSingleDevice): PodSingleDevice {
    seq(|pd|, i requires 0 <= i < |pd| => UnplacedAll(pd[i]))
  }

  /** The per-container lists themselves survive only for one list followed by an empty one. */
  lemma ListsSurviveExactly(pd: PodSingleDevice)
    requires CleanList(Concat(pd))
    ensures DecodedSingle(EncodedSingle(pd)) == Ok(UnplacedLists(pd)) <==> |pd| == 2 && pd[1] == []
  {
    SingleRoundTrip(pd);
    if |pd| == 2 && pd[1] == [] {
      OneListAndNone(pd);
    } else {
      OtherShapes(pd);
    }
  }

  lemma {:induction false} OneListAndNone(pd: PodSingleDevice)
    requires |pd| == 2 && pd[1] == []
    ensures UnplacedLists(pd) == [UnplacedAll(Concat(pd)), []]
  {
    assert Concat(pd) == pd[0] by {
      ConcatTwo(pd[0], []);
      assert pd == [pd[0], []] && pd[0] + [] == pd[0];
    }
    assert UnplacedLists(pd)[1] == [];
  }

  lemma OtherShapes(pd: PodSingleDevice)
    requires !(|pd| == 2 && pd[1] == [])
    ensures UnplacedLists(pd) != [UnplacedAll(Concat(pd)), []]
  {
    var lists, merged := UnplacedLists(pd), [UnplacedAll(Concat(pd)), []];
    assert |lists| != |merged| || lists[1] != merged[1];
  }

  lemma ConcatTwo<T>(a: seq<T>, b: seq<T>)
    ensures Concat([a, b]) == a + b
  {
    var none: seq<seq<T>> := [];
    ConcatSnoc(none, a);
    ConcatSnoc([a], b);
    assert none + [a] == [a] && [a] + [b] == [a, b];
    assert [] + a == a;
  }

  /** Two containers with one share each come back as one container with two. */
  lemma TwoContainersMerge(e: ContainerDevice, f: ContainerDevice)
    requires CleanShare(e) && CleanShare(f)
    ensures DecodedSingle(EncodedSingle([[e], [f]])) == Ok([[Unplaced(e), Unplaced(f)], []])
  {
    var pd := [[e], [f]];
    ConcatTwo([e], [f]);
    assert Concat(pd) == [e, f];
    SingleRoundTrip(pd);
    assert UnplacedAll([e, f]) == [Unplaced(e), Unplaced(f)];
  }

  // ---- the text itself ----

  /** A share as the protocol writes it: identifier, type, memory, cores. */
  function Promised(id: string, kind: string, mem: int, cores: int): string {
    id + "," + (kind + "," + (Itoa(mem) + "," + Itoa(cores))) + ":"
  }

  /** Encoding writes that text, for one share and for each further one. */
  lemma EncodesShares(cd: ContainerDevices, e: ContainerDevice)
    ensures Encoded([]) == ""
    ensures Encoded(cd + [e]) == Encoded(cd) + Promised(e.uuid, e.kind, e.usedmem, e.usedcores)
  {
    assert ShareRecords([]) == [];
    EncodedSnoc(cd, e);
    ShareText(e);
  }

  lemma {:induction false} ShareText(e: ContainerDevice)
    ensures Join(ShareFields(e), ',') + ":" == Promised(e.uuid, e.kind, e.usedmem, e.usedcores)
  {
    var m, c := Itoa(e.usedmem), Itoa(e.usedcores);
    var l := ShareFields(e);
    assert l == [e.uuid, e.kind, m, c] && l[1..] == [e.kind, m, c];
    assert [e.kind, m, c][1..] == [m, c] && [m, c][1..] == [c];
    assert Join([m, c], ',') == m + "," + c;
    assert Join([e.kind, m, c], ',') == e.kind + "," + (m + "," + c);
  }

  /** Decoding reads it back, field by field; memory and cores come to the nearest 32-bit number. */
  lemma DecodesShares(id: string, kind: string, mem: int, cores: int)
    requires Free(id, ",:;") && Free(kind, ",:;")
    ensures DecodedList(Promised(id, kind, mem, cores)) ==
            Ok([ContainerDevice(0, id, kind, Nearest32(mem), Nearest32(cores))])
  {
    var e := ContainerDevice(0, id, kind, mem, cores);
    var none: ContainerDevices := [];
    assert Encoded([e]) == Promised(id, kind, mem, cores) by {
      EncodesShares(none, e);
      assert none + [e] == [e];
      assert "" + Promised(id, kind, mem, cores) == Promised(id, kind, mem, cores);
    }
    OneShareDecodes(e);
    ItoaNearest(mem, MIN_INT32, MAX_INT32);
    ItoaNearest(cores, MIN_INT32, MAX_INT32);
  }

  function Nearest32(n: int): int {
    if n < -0x8000_0000 then -0x8000_0000 else if n > 0x7fff_ffff then 0x7fff_ffff else n
  }

  lemma OneShareDecodes(e: ContainerDevice)
    requires Free(e.uuid, ",:;") && Free(e.kind, ",:;")
    ensures DecodedList(Encoded([e])) == Ok([ParsedShare(ShareFields(e))])
  {
    var record := Join(ShareFields(e), ',');
    ShareSplits(e);
    assert ShareRecords([e]) == [record];
    assert Split(Encoded([e]), ':') == [record] + [""] by {
      SplitTerminated([record], ':');
    }
    DecodeOnePart(DecodeShare, record, [ParsedShare(ShareFields(e))]);
  }

  /** A list is refused if and only if one of its parts has one or two commas. */
  lemma ListRefusedExactly(str: string)
    ensures DecodedList(str) == Err <==> exists p :: p in Split(str, ':') && 1 <= Occurs(p, ',') <= 2
  {
    var parts := Split(str, ':');
    if DecodedList(str) == Err {
      var p := FailingPart(parts, DecodeShare);
      SplitCounts(p, ',');
    }
    if p :| p in parts && 1 <= Occurs(p, ',') <= 2 {
      SplitCounts(p, ',');
      PartFails(parts, DecodeShare, p);
    }
  }

  /** An annotation is refused if and only if one of the lists between its semicolons is. */
  lemma AnnotationRefusedExactly(str: string)
    ensures DecodedSingle(str) == Err <==> exists s :: s in Split(str, ';') && DecodedList(s) == Err
  {
    var lists := Split(str, ';');
    if DecodedSingle(str) == Err {
      var s := FailingPart(lists, DecodeOne);
    }
    if s :| s in lists && DecodedList(s) == Err {
      PartFails(lists, DecodeOne, s);
    }
  }
}
