/**
  The registration annotation of a node: every card as seven comma-separated fields,
  every record closed by a colon.
 */
module NodeAnnotations {
  import opened Devices
  import opened Text
  import opened Results

  const MIN_INT64: int := -0x8000_0000_0000_0000
  const MAX_INT64: int := 0x7fff_ffff_ffff_ffff

  function Atoi(s: string): int {
    ParseInt(s, MIN_INT64, MAX_INT64)
  }

  function Fields(d: DeviceInfo): (fields: seq<string>)
    ensures |fields| == 7
  {
    [d.id, Itoa(d.count), Itoa(d.devmem), Itoa(d.devcore), d.kind, Itoa(d.numa), FormatBool(d.health)]
  }

  function Records(dlist: seq<DeviceInfo>): seq<string> {
    seq(|dlist|, i requires 0 <= i < |dlist| => Join(Fields(dlist[i]), ','))
  }

  function Parsed(items: seq<string>): DeviceInfo
    requires |items| == 7
  {
    DeviceInfo(items[0], 0, Wrap32(Atoi(items[1])), Wrap32(Atoi(items[2])), Wrap32(Atoi(items[3])),
               items[4], Atoi(items[5]), ParseBool(items[6]))
  }

  /** What each part decodes to, one after the other; one malformed part fails all. */
  function DecodeAll<T>(parts: seq<string>, decode: string -> Result<seq<T>>): Result<seq<T>> {
    if parts == [] then Ok([])
    else
      var done, last := DecodeAll(parts[..|parts| - 1], decode), decode(parts[|parts| - 1]);
      if done.Ok? && last.Ok? then Ok(done.value + last.value) else Err
  }

  lemma DecodeAllSnoc<T>(parts: seq<string>, decode: string -> Result<seq<T>>, part: string,
                         done: seq<T>, more: seq<T>)
    requires DecodeAll(parts, decode) == Ok(done) && decode(part) == Ok(more)
    ensures DecodeAll(parts + [part], decode) == Ok(done + more)
  {
    assert (parts + [part])[..|parts|] == parts;
  }

  /** A part that decodes to nothing may be left out. */
  lemma DecodeAllSkip<T>(parts: seq<string>, decode: string -> Result<seq<T>>, part: string)
    requires decode(part) == Ok([])
    ensures DecodeAll(parts + [part], decode) == DecodeAll(parts, decode)
  {
    assert (parts + [part])[..|parts|] == parts;
    if DecodeAll(parts, decode).Ok? {
      var done := DecodeAll(parts, decode).value;
      assert done + [] == done;
    }
  }

  /** One part and the empty remainder behind its separator. */
  lemma {:induction false} DecodeOnePart<T>(decode: string -> Result<seq<T>>, part: string, xs: seq<T>)
    requires decode(part) == Ok(xs) && decode("") == Ok([])
    ensures DecodeAll([part] + [""], decode) == Ok(xs)
  {
    var none: seq<string> := [];
    assert none + [part] == [part] && [] + xs == xs;
    DecodeAllSnoc(none, decode, part, [], xs);
    DecodeAllSkip([part], decode, "");
  }

  lemma {:induction false} ErrorStays<T>(parts: seq<string>, decode: string -> Result<seq<T>>, i: nat)
    requires i <= |parts| && DecodeAll(parts[..i], decode) == Err
    ensures DecodeAll(parts, decode) == Err
    decreases |parts| - i
  {
    if i == |parts| {
      assert parts[..i] == parts;
    } else {
      assert parts[..i + 1][..i] == parts[..i];
      ErrorStays(parts, decode, i + 1);
    }
  }

  /** One malformed part fails all. */
  lemma {:induction false} PartFails<T>(parts: seq<string>, decode: string -> Result<seq<T>>, p: string)
    requires p in parts && decode(p) == Err
    ensures DecodeAll(parts, decode) == Err
    decreases |parts|
  {
    var n := |parts| - 1;
    if p != parts[n] {
      assert p in parts[..n];
      PartFails(parts[..n], decode, p);
    }
  }

  /** Nothing else does. */
  lemma {:induction false} FailingPart<T>(parts: seq<string>, decode: string -> Result<seq<T>>) returns (p: string)
    requires DecodeAll(parts, decode) == Err
    ensures p in parts && decode(p) == Err
    decreases |parts|
  {
    var n := |parts| - 1;
    if decode(parts[n]) == Err {
      p := parts[n];
    } else {
      p := FailingPart(parts[..n], decode);
    }
  }

  /** A part without a comma is skipped; one without exactly seven fields is malformed. */
  function DecodePart(part: string): Result<seq<DeviceInfo>> {
    if ',' !in part then Ok([])
    else if |Split(part, ',')| == 7 then Ok([Parsed(Split(part, ','))])
    else Err
  }

  function DecodeParts(parts: seq<string>): Result<seq<DeviceInfo>> {
    DecodeAll(parts, DecodePart)
  }

  function Decoded(str: string): Result<seq<DeviceInfo>> {
    if ':' !in str then Err else DecodeParts(Split(str, ':'))
  }

  method EncodeNodeDevices(dlist: seq<DeviceInfo>) returns (tmp: string)
    ensures tmp == Terminated(Records(dlist), ':')
  {
    tmp := "";
    for i := 0 to |dlist|
      invariant tmp == Terminated(Records(dlist[..i]), ':')
    {
      var record := Join(Fields(dlist[i]), ',');
      assert dlist[..i + 1] == dlist[..i] + [dlist[i]];
      RecordsSnoc(dlist[..i], dlist[i]);
      TerminatedSnoc(Records(dlist[..i]), record, ':');
      tmp := tmp + (record + ":");
    }
    assert dlist[..|dlist|] == dlist;
  }

  method DecodeNodeDevices(str: string) returns (r: Result<seq<DeviceInfo>>)
    ensures r == Decoded(str)
  {
    if ':' !in str {
      return Err;
    }
    var tmp := Split(str, ':');
    var retval: seq<DeviceInfo> := [];
    for i := 0 to |tmp|
      invariant DecodeParts(tmp[..i]) == Ok(retval)
    {
      assert tmp[..i + 1] == tmp[..i] + [tmp[i]] && tmp[..i + 1][..i] == tmp[..i];
      if ',' in tmp[i] {
        var items := Split(tmp[i], ',');
        if |items| == 7 {
          DecodeAllSnoc(tmp[..i], DecodePart, tmp[i], retval, [Parsed(items)]);
          retval := retval + [Parsed(items)];
        } else {
          ErrorStays(tmp, DecodePart, i + 1);
          return Err;
        }
      } else {
        DecodeAllSkip(tmp[..i], DecodePart, tmp[i]);
      }
    }
    assert tmp[..|tmp|] == tmp;
    return Ok(retval);
  }

  // ---- round trip ----

  /** The values Go's field types can hold. */
  predicate Representable(d: DeviceInfo) {
    InInt32(d.count) && InInt32(d.devmem) && InInt32(d.devcore) && MIN_INT64 <= d.numa <= MAX_INT64
  }

  ghost predicate Clean(d: DeviceInfo) {
    Free(d.id, ",:") && Free(d.kind, ",:")
  }

  function Unindexed(dlist: seq<DeviceInfo>): seq<DeviceInfo> {
    seq(|dlist|, i requires 0 <= i < |dlist| => dlist[i].(index := 0))
  }

  lemma FieldsClean(d: DeviceInfo)
    requires Clean(d)
    ensures forall f :: f in Fields(d) ==> Free(f, ",:")
  {
    forall c | c in ",:"
      ensures forall f :: f in Fields(d) ==> c !in f
    {
      ItoaFree(d.count, c);
      ItoaFree(d.devmem, c);
      ItoaFree(d.devcore, c);
      ItoaFree(d.numa, c);
      BoolRoundTrip(d.health);
    }
  }

  lemma RecordRoundTrip(d: DeviceInfo)
    requires Representable(d) && Clean(d)
    ensures var record := Join(Fields(d), ',');
      && ',' in record && ':' !in record
      && Split(record, ',') == Fields(d)
    ensures Parsed(Fields(d)) == d.(index := 0)
  {
    RecordSplits(d);
    FieldsParsed(d);
  }

  lemma RecordsSnoc(dlist: seq<DeviceInfo>, d: DeviceInfo)
    ensures Records(dlist + [d]) == Records(dlist) + [Join(Fields(d), ',')]
    ensures Unindexed(dlist + [d]) == Unindexed(dlist) + [d.(index := 0)]
  {
  }

  lemma DecodeSnoc(parts: seq<string>, record: string, done: seq<DeviceInfo>)
    requires DecodeParts(parts) == Ok(done) && ',' in record && |Split(record, ',')| == 7
    ensures DecodeParts(parts + [record]) == Ok(done + [Parsed(Split(record, ','))])
  {
    DecodeAllSnoc(parts, DecodePart, record, done, [Parsed(Split(record, ','))]);
  }

  lemma {:induction false} PartsRoundTrip(dlist: seq<DeviceInfo>)
    requires forall d :: d in dlist ==> Representable(d) && Clean(d)
    ensures DecodeParts(Records(dlist)) == Ok(Unindexed(dlist))
  {
    if dlist == [] {
      assert Records(dlist) == [] && Unindexed(dlist) == [];
    } else {
      var n := |dlist| - 1;
      var before, d := dlist[..n], dlist[n];
      assert dlist == before + [d];
      PartsRoundTrip(before);
      assert DecodeParts(Records(before) + [Join(Fields(d), ',')]) == Ok(Unindexed(before) + [d.(index := 0)]) by {
        RecordRoundTrip(d);
        DecodeSnoc(Records(before), Join(Fields(d), ','), Unindexed(before));
      }
      RecordsSnoc(before, d);
    }
  }

  lemma RecordsClean(dlist: seq<DeviceInfo>)
    requires forall d :: d in dlist ==> Representable(d) && Clean(d)
    ensures forall r :: r in Records(dlist) ==> ':' !in r
  {
    forall i | 0 <= i < |dlist|
      ensures ':' !in Records(dlist)[i]
    {
      RecordRoundTrip(dlist[i]);
    }
  }

  /** Whatever is decoded has separators in no identifier and in no type. */
  lemma {:induction false} DecodedIsClean(parts: seq<string>, d: DeviceInfo)
    requires forall p :: p in parts ==> ':' !in p
    requires DecodeParts(parts).Ok? && d in DecodeParts(parts).value
    ensures Clean(d)
  {
    var n := |parts| - 1;
    var before := DecodeParts(parts[..n]).value;
    if d in before {
      DecodedIsClean(parts[..n], d);
    } else {
      var items := Split(parts[n], ',');
      forall part, x | part in items && x in part
        ensures x != ',' && x != ':'
      {
        SplitParts(parts[n], ',', part, x);
      }
      assert d.id == items[0] && d.kind == items[4];
    }
  }

  lemma CleanListSurvives(dlist: seq<DeviceInfo>)
    requires dlist != [] && forall d :: d in dlist ==> Representable(d) && Clean(d)
    ensures Decoded(Terminated(Records(dlist), ':')) == Ok(Unindexed(dlist))
  {
    var str := Terminated(Records(dlist), ':');
    PartsRoundTrip(dlist);
    RecordsClean(dlist);
    SplitTerminated(Records(dlist), ':');
    assert str[|Records(dlist)[0]|] == ':';
    DecodeAllSkip(Records(dlist), DecodePart, "");
  }

  lemma SurvivorIsClean(dlist: seq<DeviceInfo>, str: string, d: DeviceInfo)
    requires Decoded(str) == Ok(Unindexed(dlist)) && d in dlist
    ensures Clean(d)
  {
    assert d.(index := 0) in Unindexed(dlist) by {
      var i :| 0 <= i < |dlist| && dlist[i] == d;
      assert Unindexed(dlist)[i] == d.(index := 0);
    }
    forall p | p in Split(str, ':')
      ensures ':' !in p
    {
      if ':' in p {
        SplitParts(str, ':', p, ':');
      }
    }
    DecodedIsClean(Split(str, ':'), d.(index := 0));
  }

  /**
    Registration survives the annotation in every field but the index, exactly for
    non-empty lists whose identifiers and types contain no comma and no colon.
   */
  lemma NodeRoundTrip(dlist: seq<DeviceInfo>)
    requires forall d :: d in dlist ==> Representable(d)
    ensures Decoded(Terminated(Records(dlist), ':')) == Ok(Unindexed(dlist)) <==>
            (dlist != [] && forall d :: d in dlist ==> Clean(d))
  {
    var str := Terminated(Records(dlist), ':');
    if dlist != [] && forall d :: d in dlist ==> Clean(d) {
      CleanListSurvives(dlist);
    } else if Decoded(str) == Ok(Unindexed(dlist)) {
      assert dlist != [];
      forall d | d in dlist
        ensures Clean(d)
      {
        SurvivorIsClean(dlist, str, d);
      }
    }
  }

  // ---- the text itself ----

  /** A card as the registration protocol writes it: identifier, slots, memory, cores, type, NUMA node, health. */
  function Registered(id: string, count: int, mem: int, cores: int, kind: string, numa: int, health: bool): string {
    id + "," + (Itoa(count) + "," + (Itoa(mem) + "," + (Itoa(cores) + "," + (kind + "," + (Itoa(numa) + "," +
      (if health then "true" else "false")))))) + ":"
  }

  lemma {:induction false} JoinFields(d: DeviceInfo)
    ensures Join(Fields(d), ',') + ":" == Registered(d.id, d.count, d.devmem, d.devcore, d.kind, d.numa, d.health)
  {
    var n, m, c, x, b := Itoa(d.count), Itoa(d.devmem), Itoa(d.devcore), Itoa(d.numa), FormatBool(d.health);
    var l := Fields(d);
    assert l == [d.id, n, m, c, d.kind, x, b];
    assert l[1..] == [n, m, c, d.kind, x, b] && [n, m, c, d.kind, x, b][1..] == [m, c, d.kind, x, b];
    assert [m, c, d.kind, x, b][1..] == [c, d.kind, x, b] && [c, d.kind, x, b][1..] == [d.kind, x, b];
    assert [d.kind, x, b][1..] == [x, b] && [x, b][1..] == [b];
    assert Join([x, b], ',') == x + "," + b;
    assert Join([d.kind, x, b], ',') == d.kind + "," + (x + "," + b);
    assert Join([c, d.kind, x, b], ',') == c + "," + (d.kind + "," + (x + "," + b));
    assert Join([m, c, d.kind, x, b], ',') == m + "," + (c + "," + (d.kind + "," + (x + "," + b)));
  }

  /** Encoding writes that text, for one card and for each further one. */
  lemma EncodesProtocol(dlist: seq<DeviceInfo>, d: DeviceInfo)
    ensures Terminated(Records([]), ':') == ""
    ensures Terminated(Records(dlist + [d]), ':') ==
            Terminated(Records(dlist), ':') + Registered(d.id, d.count, d.devmem, d.devcore, d.kind, d.numa, d.health)
  {
    RecordsSnoc(dlist, d);
    TerminatedSnoc(Records(dlist), Join(Fields(d), ','), ':');
    JoinFields(d);
  }

  lemma OneCardText(d: DeviceInfo)
    ensures Terminated(Records([d]), ':') == Registered(d.id, d.count, d.devmem, d.devcore, d.kind, d.numa, d.health)
  {
    var none: seq<DeviceInfo> := [];
    EncodesProtocol(none, d);
    assert none + [d] == [d];
    assert "" + Registered(d.id, d.count, d.devmem, d.devcore, d.kind, d.numa, d.health) ==
           Registered(d.id, d.count, d.devmem, d.devcore, d.kind, d.numa, d.health);
  }

  /** Decoding reads it back, field by field; counts and sizes keep their low 32 bits. */
  lemma DecodesProtocol(id: string, count: int, mem: int, cores: int, kind: string, numa: int, health: bool)
    requires Free(id, ",:") && Free(kind, ",:") && InInt64(count) && InInt64(mem) && InInt64(cores) && InInt64(numa)
    ensures Decoded(Registered(id, count, mem, cores, kind, numa, health)) ==
            Ok([DeviceInfo(id, 0, Wrap32(count), Wrap32(mem), Wrap32(cores), kind, numa, health)])
  {
    var d := DeviceInfo(id, 0, count, mem, cores, kind, numa, health);
    OneCardText(d);
    FieldsParsed(d);
    OneCardDecodes(d);
  }

  predicate InInt64(x: int) {
    MIN_INT64 <= x <= MAX_INT64
  }

  lemma FieldsParsed(d: DeviceInfo)
    requires InInt64(d.count) && InInt64(d.devmem) && InInt64(d.devcore) && InInt64(d.numa)
    ensures Parsed(Fields(d)) ==
            DeviceInfo(d.id, 0, Wrap32(d.count), Wrap32(d.devmem), Wrap32(d.devcore), d.kind, d.numa, d.health)
  {
    ItoaRoundTrip(d.count, MIN_INT64, MAX_INT64);
    ItoaRoundTrip(d.devmem, MIN_INT64, MAX_INT64);
    ItoaRoundTrip(d.devcore, MIN_INT64, MAX_INT64);
    ItoaRoundTrip(d.numa, MIN_INT64, MAX_INT64);
    BoolRoundTrip(d.health);
  }

  lemma OneCardDecodes(d: DeviceInfo)
    requires Clean(d)
    ensures Decoded(Terminated(Records([d]), ':')) == Ok([Parsed(Fields(d))])
  {
    var record := Join(Fields(d), ',');
    RecordSplits(d);
    assert Records([d]) == [record];
    OneRecordDecodes(record, Parsed(Fields(d)));
  }

  lemma OneRecordDecodes(record: string, d: DeviceInfo)
    requires ':' !in record && DecodePart(record) == Ok([d])
    ensures Decoded(Terminated([record], ':')) == Ok([d])
  {
    var str := Terminated([record], ':');
    assert Split(str, ':') == [record] + [""] by {
      SplitTerminated([record], ':');
    }
    assert str[|record|] == ':';
    DecodeOnePart(DecodePart, record, [d]);
  }

  lemma RecordSplits(d: DeviceInfo)
    requires Clean(d)
    ensures var record := Join(Fields(d), ',');
      ',' in record && ':' !in record && Split(record, ',') == Fields(d)
  {
    FieldsClean(d);
    assert ',' in ",:" && ':' in ",:";
    SplitJoin(Fields(d), ',');
    JoinFree(Fields(d), ',', ':');
    assert Join(Fields(d), ',')[|Fields(d)[0]|] == ',';
  }

  /** A text is refused if and only if it has no colon, or a part with commas has not exactly six. */
  lemma RefusedExactly(str: string)
    ensures Decoded(str) == Err <==>
      ':' !in str || exists p :: p in Split(str, ':') && Occurs(p, ',') > 0 && Occurs(p, ',') != 6
  {
    if ':' in str {
      var parts := Split(str, ':');
      if Decoded(str) == Err {
        var p := FailingPart(parts, DecodePart);
        SplitCounts(p, ',');
      }
      if p :| p in parts && Occurs(p, ',') > 0 && Occurs(p, ',') != 6 {
        SplitCounts(p, ',');
        PartFails(parts, DecodePart, p);
      }
    }
  }

  /** A card in the digits of the documented example. */
  lemma ExampleCard()
    ensures Decoded("G,10,32768,100,K,0,true:") ==
            Ok([DeviceInfo("G", 0, 10, 32768, 100, "K", 0, true)])
  {
    ExampleDigits();
    assert Registered("G", 10, 32768, 100, "K", 0, true) == "G,10,32768,100,K,0,true:";
    DecodesProtocol("G", 10, 32768, 100, "K", 0, true);
  }

  lemma ExampleDigits()
    ensures Itoa(0) == "0" && Itoa(10) == "10" && Itoa(100) == "100" && Itoa(32768) == "32768"
  {
    ItoaText(0, 0);
    assert Itoa(1) == "1" && Itoa(10) == "10" by {
      ItoaText(0, 1);
      ItoaText(1, 0);
    }
    ItoaText(10, 0);
    assert Itoa(32) == "32" by {
      ItoaText(0, 3);
      ItoaText(3, 2);
    }
    assert Itoa(327) == "327" by {
      ItoaText(32, 7);
    }
    assert Itoa(3276) == "3276" by {
      ItoaText(327, 6);
    }
    ItoaText(3276, 8);
  }
}
