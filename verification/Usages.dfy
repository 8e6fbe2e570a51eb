/**
  Usage of one card, as a sum over recorded shares. `whole` counts the shares that hold
  all 100 core units.
 */
module Usages {
  import opened Devices

  datatype Usage = Usage(slots: int, mem: int, cores: int, whole: int) {
    function Plus(that: Usage): Usage {
      Usage(slots + that.slots, mem + that.mem, cores + that.cores, whole + that.whole)
    }
  }

  const ZERO := Usage(0, 0, 0, 0)

  lemma PlusAssociates(a: Usage, b: Usage, c: Usage)
    ensures a.Plus(b).Plus(c) == a.Plus(b.Plus(c))
  {
  }

  lemma PlusZero(u: Usage)
    ensures u.Plus(ZERO) == u
  {
  }

  function Share(e: ContainerDevice): Usage {
    Usage(1, e.usedmem, e.usedcores, if e.usedcores == 100 then 1 else 0)
  }

  /** What a list of shares takes of card `id`. */
  function ListUsage(es: ContainerDevices, id: string): Usage {
    if es == [] then ZERO
    else
      var e := es[|es| - 1];
      var rest := ListUsage(es[..|es| - 1], id);
      if e.uuid == id then rest.Plus(Share(e)) else rest
  }

  lemma {:induction false} ListUsageAppend(es: ContainerDevices, fs: ContainerDevices, id: string)
    ensures ListUsage(es + fs, id) == ListUsage(es, id).Plus(ListUsage(fs, id))
  {
    if fs == [] {
      assert es + fs == es;
    } else {
      var n := |fs| - 1;
      assert (es + fs)[..|es + fs| - 1] == es + fs[..n];
      ListUsageAppend(es, fs[..n], id);
    }
  }

  lemma ListUsageOne(e: ContainerDevice, id: string)
    ensures ListUsage([e], id) == if e.uuid == id then Share(e) else ZERO
  {
  }

  /** A card none of the shares names is not charged. */
  lemma {:induction false} ListUsageAbsent(es: ContainerDevices, id: string)
    requires forall e :: e in es ==> e.uuid != id
    ensures ListUsage(es, id) == ZERO
  {
    if es != [] {
      ListUsageAbsent(es[..|es| - 1], id);
    }
  }

  lemma {:induction false} SlotsNonNegative(es: ContainerDevices, id: string)
    ensures ListUsage(es, id).slots >= 0
  {
    if es != [] {
      SlotsNonNegative(es[..|es| - 1], id);
    }
  }

  // ---- concatenation ----

  function Concat<T>(ss: seq<seq<T>>): seq<T> {
    if ss == [] then [] else Concat(ss[..|ss| - 1]) + ss[|ss| - 1]
  }

  lemma ConcatSnoc<T>(ss: seq<seq<T>>, s: seq<T>)
    ensures Concat(ss + [s]) == Concat(ss) + s
  {
  }

  lemma ConcatOne<T>(x: seq<T>)
    ensures Concat([x]) == x
  {
    assert [x][..0] == [];
  }

  lemma {:induction false} ConcatAppend<T>(ss: seq<seq<T>>, ts: seq<seq<T>>)
    ensures Concat(ss + ts) == Concat(ss) + Concat(ts)
  {
    if ts == [] {
      assert ss + ts == ss;
    } else {
      var n := |ts| - 1;
      assert ss + ts == (ss + ts[..n]) + [ts[n]];
      ConcatSnoc(ss + ts[..n], ts[n]);
      ConcatAppend(ss, ts[..n]);
    }
  }

  // ---- sums over finite sets of keys, whatever the order of iteration ----

  lemma {:induction false} InConcat<T>(ss: seq<seq<T>>, x: T) returns (i: nat)
    requires x in Concat(ss)
    ensures i < |ss| && x in ss[i]
    decreases |ss|
  {
    var n := |ss| - 1;
    if x in ss[n] {
      i := n;
    } else {
      i := InConcat(ss[..n], x);
    }
  }

  lemma {:induction false} ConcatMember<T>(ss: seq<seq<T>>, i: nat, x: T)
    requires i < |ss| && x in ss[i]
    ensures x in Concat(ss)
    decreases |ss|
  {
    var n := |ss| - 1;
    if i < n {
      ConcatMember(ss[..n], i, x);
    }
  }

  ghost function SumOver<K(!new)>(keys: set<K>, f: K -> Usage): Usage {
    if keys == {} then ZERO
    else
      var k :| k in keys;
      SumOver(keys - {k}, f).Plus(f(k))
  }

  /** Any key may be taken out first. */
  lemma {:induction false} SumRemove<K(!new)>(keys: set<K>, f: K -> Usage, k: K)
    requires k in keys
    ensures SumOver(keys, f) == SumOver(keys - {k}, f).Plus(f(k))
    decreases keys
  {
    var h :| h in keys && SumOver(keys, f) == SumOver(keys - {h}, f).Plus(f(h));
    if h != k {
      assert keys - {h} - {k} == keys - {k} - {h};
      SumRemove(keys - {h}, f, k);
      SumRemove(keys - {k}, f, h);
      calc {
        SumOver(keys, f);
        SumOver(keys - {h} - {k}, f).Plus(f(k)).Plus(f(h));
        SumOver(keys - {k} - {h}, f).Plus(f(h)).Plus(f(k));
        SumOver(keys - {k}, f).Plus(f(k));
      }
    }
  }

  lemma {:induction false} SumCongruent<K(!new)>(keys: set<K>, f: K -> Usage, g: K -> Usage)
    requires forall k :: k in keys ==> f(k) == g(k)
    ensures SumOver(keys, f) == SumOver(keys, g)
    decreases keys
  {
    if keys != {} {
      var k :| k in keys;
      SumRemove(keys, f, k);
      SumRemove(keys, g, k);
      SumCongruent(keys - {k}, f, g);
    }
  }

  /** A sum splits over any division of the keys. */
  lemma {:induction false} SumSplit<K(!new)>(keys: set<K>, part: set<K>, f: K -> Usage)
    ensures SumOver(keys, f) == SumOver(keys * part, f).Plus(SumOver(keys - part, f))
    decreases keys
  {
    if keys == {} {
      assert keys * part == {} && keys - part == {};
    } else {
      var k :| k in keys;
      var rest := keys - {k};
      var a, b, c := SumOver(rest * part, f), SumOver(rest - part, f), f(k);
      assert SumOver(keys, f) == a.Plus(b).Plus(c) by {
        SumRemove(keys, f, k);
        SumSplit(rest, part, f);
      }
      if k in part {
        assert rest * part == keys * part - {k} && rest - part == keys - part;
        SumRemove(keys * part, f, k);
      } else {
        assert rest * part == keys * part && rest - part == keys - part - {k};
        SumRemove(keys - part, f, k);
      }
    }
  }

  /** The sum of `f` over the entries of a map. */
  ghost function SumMap<V(!new)>(m: map<string, V>, f: V -> Usage): Usage {
    SumOver(m.Keys, k => if k in m then f(m[k]) else ZERO)
  }

  lemma SumMapAdd<V(!new)>(m: map<string, V>, k: string, v: V, f: V -> Usage)
    requires k !in m
    ensures SumMap(m[k := v], f) == SumMap(m, f).Plus(f(v))
  {
    var after := m[k := v];
    var before := (h: string) => if h in m then f(m[h]) else ZERO;
    var now := (h: string) => if h in after then f(after[h]) else ZERO;
    SumRemove(after.Keys, now, k);
    assert after.Keys - {k} == m.Keys;
    SumCongruent(m.Keys, before, now);
  }

  lemma SumMapRemove<V(!new)>(m: map<string, V>, k: string, f: V -> Usage)
    requires k in m
    ensures SumMap(m, f) == SumMap(m - {k}, f).Plus(f(m[k]))
  {
    SumMapAdd(m - {k}, k, m[k], f);
    assert (m - {k})[k := m[k]] == m;
  }

  lemma SumMapCongruent<V(!new)>(m: map<string, V>, n: map<string, V>, f: V -> Usage)
    requires m.Keys == n.Keys && forall k :: k in m ==> f(m[k]) == f(n[k])
    ensures SumMap(m, f) == SumMap(n, f)
  {
    var before := (h: string) => if h in m then f(m[h]) else ZERO;
    var after := (h: string) => if h in n then f(n[h]) else ZERO;
    SumCongruent(m.Keys, before, after);
  }

  lemma SumMapSplit<V(!new)>(m: map<string, V>, part: set<string>, f: V -> Usage)
    ensures SumMap(m, f) == SumMap(map k | k in m && k in part :: m[k], f).Plus(SumMap(m - part, f))
  {
    var within := map k | k in m && k in part :: m[k];
    var all := (h: string) => if h in m then f(m[h]) else ZERO;
    var some := (h: string) => if h in within then f(within[h]) else ZERO;
    var others := (h: string) => if h in m - part then f((m - part)[h]) else ZERO;
    SumSplit(m.Keys, part, all);
    assert within.Keys == m.Keys * part && (m - part).Keys == m.Keys - part;
    SumCongruent(m.Keys * part, all, some);
    SumCongruent(m.Keys - part, all, others);
  }

  lemma SumMapEmpty<V(!new)>(f: V -> Usage)
    ensures SumMap(map[], f) == ZERO
  {
  }

  /** What a pod's record takes of card `id`: a sum over kinds and containers. */
  ghost function PodUsage(pd: PodDevices, id: string): Usage {
    SumMap(pd, lists => ListUsage(Concat(lists), id))
  }

  /** What one recorded pod takes of card `id` on `node`. */
  ghost function RecordUsage(p: PodInfo, node: string, id: string): Usage {
    if p.nodeId == node then PodUsage(p.devices, id) else ZERO
  }

  /** What all recorded pods take of card `id` on `node`. */
  ghost function PodsUsage(pods: map<string, PodInfo>, node: string, id: string): Usage {
    SumMap(pods, p => RecordUsage(p, node, id))
  }

  lemma ReplaceEntry<V>(m: map<string, V>, k: string, v: V)
    ensures (m - {k})[k := v] == m[k := v]
    ensures k !in m ==> m - {k} == m
  {
  }

  /** Appending one container's list under `kind` adds exactly that list. */
  lemma PodUsageRecord(pd: PodDevices, kind: string, lists: PodSingleDevice, cd: ContainerDevices,
                       id: string)
    requires lists == if kind in pd then pd[kind] else []
    ensures PodUsage(pd[kind := lists + [cd]], id) == PodUsage(pd, id).Plus(ListUsage(cd, id))
  {
    var f := (ls: PodSingleDevice) => ListUsage(Concat(ls), id);
    var others, longer := pd - {kind}, lists + [cd];
    var a, b, c := SumMap(others, f), f(lists), ListUsage(cd, id);
    assert f(longer) == b.Plus(c) by {
      ConcatSnoc(lists, cd);
      ListUsageAppend(Concat(lists), cd, id);
    }
    assert SumMap(pd[kind := longer], f) == a.Plus(b.Plus(c)) by {
      SumMapAdd(others, kind, longer, f);
      ReplaceEntry(pd, kind, longer);
    }
    assert SumMap(pd, f) == a.Plus(b) by {
      if kind in pd {
        SumMapRemove(pd, kind, f);
      } else {
        ReplaceEntry(pd, kind, longer);
        PlusZero(a);
      }
    }
    PlusAssociates(a, b, c);
  }

  lemma PodsUsageAdd(pods: map<string, PodInfo>, uid: string, p: PodInfo, node: string, id: string)
    requires uid !in pods
    ensures PodsUsage(pods[uid := p], node, id) == PodsUsage(pods, node, id).Plus(RecordUsage(p, node, id))
  {
    SumMapAdd(pods, uid, p, q => RecordUsage(q, node, id));
  }

  lemma NoPodsUsage(node: string, id: string)
    ensures PodsUsage(map[], node, id) == ZERO
  {
    SumMapEmpty((p: PodInfo) => RecordUsage(p, node, id));
  }

  lemma EmptyPodUsage(id: string)
    ensures PodUsage(map[], id) == ZERO
  {
    SumMapEmpty((lists: PodSingleDevice) => ListUsage(Concat(lists), id));
  }

  /** Replacing a pod's record by a larger one adds the difference. */
  lemma PodsUsageGrow(pods: map<string, PodInfo>, uid: string, more: PodInfo, u: Usage, node: string, id: string)
    requires uid in pods && RecordUsage(more, node, id) == RecordUsage(pods[uid], node, id).Plus(u)
    ensures PodsUsage(pods[uid := more], node, id) == PodsUsage(pods, node, id).Plus(u)
  {
    var others := pods - {uid};
    assert others[uid := pods[uid]] == pods && others[uid := more] == pods[uid := more];
    PodsUsageAdd(others, uid, pods[uid], node, id);
    PodsUsageAdd(others, uid, more, node, id);
    PlusAssociates(PodsUsage(others, node, id), RecordUsage(pods[uid], node, id), u);
  }

  lemma PodsUsageRemove(pods: map<string, PodInfo>, uid: string, node: string, id: string)
    requires uid in pods
    ensures PodsUsage(pods, node, id) == PodsUsage(pods - {uid}, node, id).Plus(RecordUsage(pods[uid], node, id))
  {
    SumMapRemove(pods, uid, q => RecordUsage(q, node, id));
  }
}
