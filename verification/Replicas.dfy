/**
  Distributing replicas over physical GPUs: a greedy choice, always from the GPU with
  the fewest replicas in use, and why no other choice is better.
 */
module Replicas {
  import opened Sorting
  import opened Sets
  import opened Results
  import opened AnnotatedIds

  datatype Device = Device(id: string, index: string)

  type Devices = map<string, Device>

  ghost predicate KeyedById(ds: Devices) {
    forall k :: k in ds ==> ds[k].id == k
  }

  method Subset(ds: Devices, ids: seq<string>) returns (res: Devices)
    ensures res == map k | k in ds && k in ids :: ds[k]
  {
    res := map[];
    for i := 0 to |ids|
      invariant res == map k | k in ds && k in ids[..i] :: ds[k]
    {
      assert ids[..i + 1] == ids[..i] + [ids[i]];
      if ids[i] in ds {
        res := res[ids[i] := ds[ids[i]]];
      }
    }
    assert ids[..|ids|] == ids;
  }

  method Difference(ds: Devices, ods: Devices) returns (res: Devices)
    ensures res == map k | k in ds && k !in ods :: ds[k]
  {
    res := map[];
    var todo := ds.Keys;
    while todo != {}
      invariant todo <= ds.Keys
      invariant res == map k | k in ds && k !in ods && k !in todo :: ds[k]
    {
      var id :| id in todo;
      if id !in ods {
        res := res[id := ds[id]];
      }
      todo := todo - {id};
    }
  }

  method GetIDs(ds: Devices) returns (res: seq<string>)
    requires KeyedById(ds)
    ensures Elems(res) == ds.Keys && Distinct(res)
  {
    res := [];
    var todo := ds.Keys;
    while todo != {}
      invariant todo <= ds.Keys && Elems(res) == ds.Keys - todo && Distinct(res)
    {
      var k :| k in todo;
      assert k !in Elems(res);
      ElemsSnoc(res, k);
      res := res + [ds[k].id];
      todo := todo - {k};
    }
  }

  // ---- loads ----

  /** The members of `s` that are replicas of GPU `g`. */
  ghost function On(s: set<string>, g: string): set<string> {
    set x | x in s && GetID(x) == g
  }

  ghost function Gpus(s: set<string>): set<string> {
    set x | x in s :: GetID(x)
  }

  /** The replicas of `g` in use once `chosen` is taken from the candidates. */
  ghost function Load(all: set<string>, candidates: set<string>, chosen: set<string>, g: string): int {
    |On(all, g)| - |On(candidates - chosen, g)|
  }

  lemma OnAdd(s: set<string>, x: string, g: string)
    requires x !in s
    ensures |On(s + {x}, g)| == |On(s, g)| + if GetID(x) == g then 1 else 0
  {
    if GetID(x) == g {
      assert On(s + {x}, g) == On(s, g) + {x};
    } else {
      assert On(s + {x}, g) == On(s, g);
    }
  }

  /** The replicas of `g` that are no candidates, or are taken. */
  ghost function InUse(all: set<string>, candidates: set<string>, chosen: set<string>, g: string): set<string> {
    set x | x in all && GetID(x) == g && (x in candidates ==> x in chosen)
  }

  /** The load of a GPU is the number of its replicas that are not free candidates. */
  lemma LoadCounts(all: set<string>, candidates: set<string>, chosen: set<string>, g: string)
    requires candidates <= all
    ensures Load(all, candidates, chosen, g) == |InUse(all, candidates, chosen, g)|
  {
    var free, held := On(candidates - chosen, g), InUse(all, candidates, chosen, g);
    assert On(all, g) == held + free && held !! free;
    assert |held + free| == |held| + |free|;
  }

  /** Taking candidates raises the load by as many as are taken on that GPU. */
  lemma LoadSplits(all: set<string>, candidates: set<string>, chosen: set<string>, g: string)
    requires chosen <= candidates
    ensures Load(all, candidates, chosen, g) == Load(all, candidates, {}, g) + |On(chosen, g)|
  {
    assert On(candidates, g) == On(candidates - chosen, g) + On(chosen, g);
    assert candidates - {} == candidates;
  }

  /** The larger of two sets has more members on some GPU. */
  lemma {:induction false} SomeGpuHasMore(s: set<string>, t: set<string>) returns (g: string)
    requires |s| < |t|
    ensures |On(s, g)| < |On(t, g)|
    decreases |t|
  {
    var x :| x in t;
    g := GetID(x);
    if |On(s, g)| >= |On(t, g)| {
      var s', t' := s - On(s, g), t - On(t, g);
      assert |s'| == |s| - |On(s, g)| && |t'| == |t| - |On(t, g)|;
      assert x in On(t, g);
      assert On(t', g) == {};
      var h := SomeGpuHasMore(s', t');
      assert h != g;
      assert On(s', h) == On(s, h) && On(t', h) == On(t, h);
      g := h;
    }
  }

  /** No choice of at least as many candidates has a lower maximum load. */
  ghost predicate MinMax(all: set<string>, candidates: set<string>, chosen: set<string>) {
    forall other, g :: other <= candidates && |other| >= |chosen| && g in Gpus(candidates) ==>
      Dominated(all, candidates, chosen, other, g)
  }

  ghost predicate Dominated(all: set<string>, candidates: set<string>, chosen: set<string>, other: set<string>,
                            g: string) {
    exists h :: h in Gpus(candidates) && Load(all, candidates, chosen, g) <= Load(all, candidates, other, h)
  }

  /** A GPU that received a replica is at most one above any GPU that still has one to give. */
  ghost predicate Balanced(all: set<string>, candidates: set<string>, chosen: set<string>) {
    forall g, h :: On(chosen, g) != {} && On(candidates - chosen, h) != {} ==>
      Load(all, candidates, chosen, g) <= Load(all, candidates, chosen, h) + 1
  }

  /** The picked candidate is free and no free candidate is on a less loaded GPU. */
  ghost predicate LeastLoaded(all: set<string>, candidates: set<string>, chosen: set<string>, c: string) {
    && c in candidates - chosen
    && forall x :: x in candidates - chosen ==>
         Load(all, candidates, chosen, GetID(c)) <= Load(all, candidates, chosen, GetID(x))
  }

  lemma LoadStep(all: set<string>, candidates: set<string>, chosen: set<string>, c: string,
                 g: string)
    requires chosen <= candidates && c in candidates - chosen
    ensures Load(all, candidates, chosen + {c}, g) ==
            Load(all, candidates, chosen, g) + if GetID(c) == g then 1 else 0
  {
    assert candidates - chosen == (candidates - (chosen + {c})) + {c};
    OnAdd(candidates - (chosen + {c}), c, g);
  }

  /** The greedy pick keeps the choice optimal, by an exchange with any other choice. */
  lemma PickStaysOptimal(all: set<string>, candidates: set<string>, chosen: set<string>, c: string,
                         other: set<string>, g: string)
    requires chosen <= candidates && LeastLoaded(all, candidates, chosen, c) && MinMax(all, candidates, chosen)
    requires other <= candidates && |other| >= |chosen| + 1 && g in Gpus(candidates)
    ensures Dominated(all, candidates, chosen + {c}, other, g)
  {
    LoadStep(all, candidates, chosen, c, g);
    if g != GetID(c) {
      assert Dominated(all, candidates, chosen, other, g);
      var h :| h in Gpus(candidates) && Load(all, candidates, chosen, g) <= Load(all, candidates, other, h);
    } else {
      var h := SomeGpuHasMore(chosen, other);
      LoadSplits(all, candidates, chosen, h);
      LoadSplits(all, candidates, other, h);
      var x := FreeOn(candidates, chosen, other, h);
      assert h in Gpus(candidates);
      assert Load(all, candidates, chosen, g) <= Load(all, candidates, chosen, GetID(x));
    }
  }

  lemma FreeOn(candidates: set<string>, chosen: set<string>, other: set<string>, h: string)
    returns (x: string)
    requires chosen <= candidates && other <= candidates && |On(chosen, h)| < |On(other, h)|
    ensures x in candidates - chosen && GetID(x) == h
  {
    if On(other, h) <= On(chosen, h) {
      SubsetSize(On(other, h), On(chosen, h));
      assert false;
    }
    x :| x in On(other, h) && x !in On(chosen, h);
  }

  lemma PickKeepsMinMax(all: set<string>, candidates: set<string>, chosen: set<string>, c: string)
    requires chosen <= candidates && LeastLoaded(all, candidates, chosen, c) && MinMax(all, candidates, chosen)
    ensures MinMax(all, candidates, chosen + {c})
  {
    forall other, g | other <= candidates && |other| >= |chosen + {c}| && g in Gpus(candidates)
      ensures Dominated(all, candidates, chosen + {c}, other, g)
    {
      PickStaysOptimal(all, candidates, chosen, c, other, g);
    }
  }

  lemma PickKeepsBalance(all: set<string>, candidates: set<string>, chosen: set<string>, c: string)
    requires chosen <= candidates && LeastLoaded(all, candidates, chosen, c) && Balanced(all, candidates, chosen)
    ensures Balanced(all, candidates, chosen + {c})
  {
    var next := chosen + {c};
    forall g, h | On(next, g) != {} && On(candidates - next, h) != {}
      ensures Load(all, candidates, next, g) <= Load(all, candidates, next, h) + 1
    {
      PairStaysBalanced(all, candidates, chosen, c, g, h);
    }
  }

  lemma PairStaysBalanced(all: set<string>, candidates: set<string>, chosen: set<string>, c: string,
                          g: string, h: string)
    requires chosen <= candidates && LeastLoaded(all, candidates, chosen, c) && Balanced(all, candidates, chosen)
    requires On(chosen + {c}, g) != {} && On(candidates - (chosen + {c}), h) != {}
    ensures Load(all, candidates, chosen + {c}, g) <= Load(all, candidates, chosen + {c}, h) + 1
  {
    var x :| x in On(candidates - (chosen + {c}), h);
    assert x in On(candidates - chosen, h);
    assert Load(all, candidates, chosen, GetID(c)) <= Load(all, candidates, chosen, h);
    if g != GetID(c) {
      assert On(chosen + {c}, g) == On(chosen, g);
      assert Load(all, candidates, chosen, g) <= Load(all, candidates, chosen, h) + 1;
    }
    LoadStep(all, candidates, chosen, c, g);
    LoadStep(all, candidates, chosen, c, h);
  }

  lemma NothingChosen(all: set<string>, candidates: set<string>)
    ensures MinMax(all, candidates, {}) && Balanced(all, candidates, {})
  {
    forall other, g | other <= candidates && g in Gpus(candidates)
      ensures Dominated(all, candidates, {}, other, g)
    {
      LoadSplits(all, candidates, other, g);
    }
  }

  // ---- the allocator ----

  datatype Replica = Replica(total: int, available: int)

  /** The counters of the given GPUs: replicas among `all`, and among those still `free`. */
  ghost function Tally(gpus: set<string>, all: set<string>, free: set<string>): map<string, Replica> {
    map g | g in gpus :: Replica(|On(all, g)|, |On(free, g)|)
  }

  lemma TallyFree(gpus: set<string>, all: set<string>, free: set<string>, x: string)
    requires x !in free && GetID(x) in gpus
    ensures var id := GetID(x);
      var before := Tally(gpus, all, free);
      Tally(gpus, all, free + {x}) == before[id := Replica(before[id].total, before[id].available + 1)]
  {
    forall g | g in gpus
      ensures |On(free + {x}, g)| == |On(free, g)| + if GetID(x) == g then 1 else 0
    {
      OnAdd(free, x, g);
    }
  }

  lemma TallyAll(gpus: set<string>, all: set<string>, free: set<string>, x: string)
    requires x !in all
    ensures var id := GetID(x);
      var before := Tally(gpus, all, free);
      Tally(gpus, all + {x}, free) ==
        if id in gpus then before[id := Replica(before[id].total + 1, before[id].available)] else before
  {
    forall g | g in gpus
      ensures |On(all + {x}, g)| == |On(all, g)| + if GetID(x) == g then 1 else 0
    {
      OnAdd(all, x, g);
    }
  }

  /** A GPU met for the first time starts with empty counters. */
  lemma TallyNew(s: set<string>, id: string)
    requires id !in Gpus(s)
    ensures Tally(Gpus(s) + {id}, {}, s) == Tally(Gpus(s), {}, s)[id := Replica(0, 0)]
  {
  }

  method CountAvailable(candidates: seq<string>) returns (replicas: map<string, Replica>)
    requires Distinct(candidates)
    ensures replicas == Tally(Gpus(Elems(candidates)), {}, Elems(candidates))
  {
    replicas := map[];
    ghost var done: set<string> := {};
    assert Gpus({}) == {};
    for i := 0 to |candidates|
      invariant done == Elems(candidates[..i]) && replicas == Tally(Gpus(done), {}, done)
    {
      var c := candidates[i];
      NotYetSeen(candidates, i);
      var id := GetID(c);
      if id !in replicas {
        TallyNew(done, id);
        replicas := replicas[id := Replica(0, 0)];
      }
      TallyFree(Gpus(done + {c}), {}, done, c);
      replicas := replicas[id := Replica(replicas[id].total, replicas[id].available + 1)];
      done := done + {c};
    }
    assert candidates[..|candidates|] == candidates;
  }

  lemma NotYetSeen(s: seq<string>, i: nat)
    requires Distinct(s) && i < |s|
    ensures s[i] !in Elems(s[..i]) && Elems(s[..i + 1]) == Elems(s[..i]) + {s[i]}
    ensures var done := Elems(s[..i]);
      Gpus(done + {s[i]}) == (if GetID(s[i]) in Gpus(done) then Gpus(done) else Gpus(done) + {GetID(s[i])})
  {
  }

  method CountTotals(all: set<string>, counted: map<string, Replica>, ghost gpus: set<string>, ghost free: set<string>)
    returns (replicas: map<string, Replica>)
    requires counted == Tally(gpus, {}, free)
    ensures replicas == Tally(gpus, all, free)
  {
    replicas := counted;
    var todo := all;
    ghost var done: set<string> := {};
    while todo != {}
      invariant todo <= all && done == all - todo
      invariant replicas == Tally(gpus, done, free)
    {
      var d :| d in todo;
      TallyAll(gpus, done, free, d);
      var id := GetID(d);
      if id in replicas {
        replicas := replicas[id := Replica(replicas[id].total + 1, replicas[id].available)];
      }
      todo := todo - {d};
      done := done + {d};
    }
    assert done == all;
  }

  /** The load the sort compares, by the counters. */
  function Used(replicas: map<string, Replica>, c: string): int {
    if GetID(c) in replicas then replicas[GetID(c)].total - replicas[GetID(c)].available else 0
  }

  /** The candidates the allocation starts from. */
  ghost function Candidates(ds: Devices, available: seq<string>, required: seq<string>): set<string> {
    set id | id in ds && id in available && id !in required
  }

  method PickEvenly(all: set<string>, candidates: seq<string>, needed: nat) returns (devices: seq<string>)
    requires Distinct(candidates) && needed <= |candidates|
    ensures |devices| == needed && Distinct(devices) && Elems(devices) <= Elems(candidates)
    ensures MinMax(all, Elems(candidates), Elems(devices))
    ensures Balanced(all, Elems(candidates), Elems(devices))
  {
    ghost var pool := Elems(candidates);
    var counted := CountAvailable(candidates);
    var replicas := CountTotals(all, counted, Gpus(pool), pool);
    var left := candidates;
    devices := [];
    NothingChosen(all, pool);
    for i := 0 to needed
      invariant |devices| == i && |left| == |candidates| - i
      invariant Picking(all, pool, left, devices) && replicas == Tally(Gpus(pool), all, Elems(left))
    {
      var r := replicas;
      var sorted := SortList(left, (x: string, y: string) => Used(r, x) < Used(r, y));
      var c := sorted[0];
      SortedLeast(all, pool, Elems(devices), r, left, sorted);
      PickStep(all, pool, left, devices, sorted);
      TakeFirst(all, pool, sorted, replicas);
      var id := GetID(c);
      replicas := replicas[id := Replica(replicas[id].total, replicas[id].available - 1)];
      devices := devices + [c];
      left := sorted[1..];
    }
  }

  /** The loop state: what is picked is an even choice, what is left are the other candidates. */
  ghost predicate Picking(all: set<string>, pool: set<string>, left: seq<string>, devices: seq<string>) {
    && Distinct(devices) && Elems(devices) <= pool
    && Distinct(left) && Elems(left) == pool - Elems(devices)
    && MinMax(all, pool, Elems(devices)) && Balanced(all, pool, Elems(devices))
  }

  lemma PickStep(all: set<string>, pool: set<string>, left: seq<string>, devices: seq<string>,
                 sorted: seq<string>)
    requires Picking(all, pool, left, devices)
    requires sorted != [] && Distinct(sorted) && Elems(sorted) == Elems(left)
    requires LeastLoaded(all, pool, Elems(devices), sorted[0])
    ensures Picking(all, pool, sorted[1..], devices + [sorted[0]])
  {
    var c, chosen := sorted[0], Elems(devices);
    assert Distinct(sorted[1..]) && Elems(sorted[1..]) == pool - (chosen + {c}) by {
      ElemsTail(sorted);
    }
    assert Distinct(devices + [c]) && Elems(devices + [c]) == chosen + {c} by {
      ElemsSnoc(devices, c);
    }
    PickKeepsMinMax(all, pool, chosen, c);
    PickKeepsBalance(all, pool, chosen, c);
  }

  lemma ElemsTail(s: seq<string>)
    requires s != [] && Distinct(s)
    ensures Distinct(s[1..]) && s[0] !in Elems(s[1..])
    ensures Elems(s) == Elems(s[1..]) + {s[0]} && Elems(s[1..]) == Elems(s) - {s[0]}
  {
  }

  /** After the sort, the first candidate is on a least loaded GPU, whatever the order of ties. */
  lemma SortedLeast(all: set<string>, pool: set<string>, chosen: set<string>,
                    replicas: map<string, Replica>, left: seq<string>, sorted: seq<string>)
    requires chosen <= pool && Elems(left) == pool - chosen && left != [] && Distinct(left)
    requires replicas == Tally(Gpus(pool), all, Elems(left)) && multiset(sorted) == multiset(left)
    requires forall i, j :: 0 <= i < j < |sorted| ==> !(Used(replicas, sorted[j]) < Used(replicas, sorted[i]))
    ensures |sorted| == |left| && Distinct(sorted) && Elems(sorted) == Elems(left)
    ensures LeastLoaded(all, pool, chosen, sorted[0])
  {
    DistinctPermutation(left, sorted);
    assert sorted[0] in Elems(sorted);
    forall x | x in pool
      ensures Used(replicas, x) == Load(all, pool, chosen, GetID(x))
    {
      assert GetID(x) in Gpus(pool);
    }
    forall x | x in pool - chosen
      ensures Used(replicas, sorted[0]) <= Used(replicas, x)
    {
      assert x in Elems(sorted);
      var j :| 0 <= j < |sorted| && sorted[j] == x;
    }
  }

  lemma TakeFirst(all: set<string>, pool: set<string>, sorted: seq<string>,
                  replicas: map<string, Replica>)
    requires sorted != [] && Distinct(sorted) && Elems(sorted) <= pool
    requires replicas == Tally(Gpus(pool), all, Elems(sorted))
    ensures GetID(sorted[0]) in replicas
    ensures var id := GetID(sorted[0]);
      replicas[id := Replica(replicas[id].total, replicas[id].available - 1)] ==
      Tally(Gpus(pool), all, Elems(sorted[1..]))
  {
    ElemsTail(sorted);
    assert sorted[0] in pool;
    TallyFree(Gpus(pool), all, Elems(sorted[1..]), sorted[0]);
  }

  /** The greedy allocation, with its error case and its guarantees. */
  method DistributedAlloc(ds: Devices, available: seq<string>, required: seq<string>, size: int)
    returns (r: Result<seq<string>>, ghost chosen: seq<string>)
    requires KeyedById(ds)
    ensures r.Err? <==> |Candidates(ds, available, required)| < size - |required|
    ensures r.Ok? ==>
      var pool := Candidates(ds, available, required);
      && r.value == required + chosen
      && |chosen| == (if size > |required| then size - |required| else 0)
      && Distinct(chosen) && Elems(chosen) <= pool
      && MinMax(ds.Keys, pool, Elems(chosen)) && Balanced(ds.Keys, pool, Elems(chosen))
  {
    var have := Subset(ds, available);
    var must := Subset(ds, required);
    var rest := Difference(have, must);
    var candidates := GetIDs(rest);
    ghost var pool := Candidates(ds, available, required);
    assert Elems(candidates) == pool;
    ElemsSize(candidates);
    var needed := size - |required|;
    if |candidates| < needed {
      return Err, [];
    }
    var devices := PickEvenly(ds.Keys, candidates, if needed > 0 then needed else 0);
    r, chosen := Ok(required + devices), devices;
  }
}
