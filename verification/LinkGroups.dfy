/**
  The MLU-link groups: a breadth-first search from slot 0 that marks a slot only when it
  is taken off the queue, so that a slot may be queued and expanded several times.
 */
module LinkGroups {
  import opened Sets
  import opened Results

  /** What a slot's ports report: the identifiers at the other ends, or a read error. */
  type Links = nat -> Result<set<string>>

  function Linked(slots: map<string, nat>, devs: set<string>): set<nat> {
    set u | u in devs && u in slots :: slots[u]
  }

  /** The known slots linked to `s`. */
  function Neighbours(slots: map<string, nat>, links: Links, s: nat): set<nat> {
    match links(s)
    case Ok(devs) => Linked(slots, devs)
    case Err => {}
  }

  ghost predicate Path(slots: map<string, nat>, links: Links, p: seq<nat>) {
    p != [] && p[0] == 0 && forall i :: 0 < i < |p| ==> p[i] in Neighbours(slots, links, p[i - 1])
  }

  /** Slot `s` is linked to slot 0, directly or through other slots. */
  ghost predicate Reachable(slots: map<string, nat>, links: Links, s: nat) {
    exists p :: Path(slots, links, p) && p[|p| - 1] == s
  }

  lemma ReachableStep(slots: map<string, nat>, links: Links, s: nat, t: nat)
    requires Reachable(slots, links, s) && t in Neighbours(slots, links, s)
    ensures Reachable(slots, links, t)
  {
    var p :| Path(slots, links, p) && p[|p| - 1] == s;
    var q := p + [t];
    assert Path(slots, links, q) && q[|q| - 1] == t;
  }

  lemma StartIsReachable(slots: map<string, nat>, links: Links)
    ensures Reachable(slots, links, 0)
  {
    assert Path(slots, links, [0]);
  }

  ghost predicate Closed(slots: map<string, nat>, links: Links, s: set<nat>) {
    forall x :: x in s ==> Neighbours(slots, links, x) <= s
  }

  /** A closed set that holds slot 0 holds everything reachable. */
  lemma {:induction false} ClosedHoldsPath(slots: map<string, nat>, links: Links, s: set<nat>, p: seq<nat>)
    requires Closed(slots, links, s) && 0 in s && Path(slots, links, p)
    ensures p[|p| - 1] in s
    decreases |p|
  {
    if |p| > 1 {
      var n := |p| - 1;
      assert Path(slots, links, p[..n]);
      ClosedHoldsPath(slots, links, s, p[..n]);
      assert p[n] in Neighbours(slots, links, p[n - 1]);
    }
  }

  lemma ClosedIsReachable(slots: map<string, nat>, links: Links, s: set<nat>)
    requires Closed(slots, links, s) && 0 in s
    requires forall x :: x in s ==> Reachable(slots, links, x)
    ensures forall x: nat :: x in s <==> Reachable(slots, links, x)
  {
    forall x: nat | Reachable(slots, links, x)
      ensures x in s
    {
      var p :| Path(slots, links, p) && p[|p| - 1] == x;
      ClosedHoldsPath(slots, links, s, p);
    }
  }

  // ---- termination ----

  /** How far the queue is from its first unvisited entry, or its length when it has none. */
  ghost function Distance(queue: seq<nat>, visited: set<nat>): nat {
    if queue == [] || queue[0] !in visited then 0 else 1 + Distance(queue[1..], visited)
  }

  /** Queueing unvisited slots at the end never moves the first unvisited entry away. */
  lemma {:induction false} DistanceKept(queue: seq<nat>, more: seq<nat>, visited: set<nat>)
    requires forall x :: x in more ==> x !in visited
    ensures Distance(queue + more, visited) == Distance(queue, visited)
    decreases |queue|
  {
    if queue == [] {
      assert queue + more == more;
      if more != [] {
        assert more[0] in more;
      }
    } else if queue[0] in visited {
      assert (queue + more)[1..] == queue[1..] + more;
      DistanceKept(queue[1..], more, visited);
    }
  }

  // ---- the search ----

  /** The state of the search between two expansions. */
  ghost predicate Searching(slots: map<string, nat>, links: Links, visited: set<nat>, queue: seq<nat>) {
    && (0 in visited || 0 in queue)
    && (forall x :: x in visited ==> x in Universe(slots) && Reachable(slots, links, x) && links(x).Ok?)
    && (forall x :: x in queue ==> x in Universe(slots) && Reachable(slots, links, x))
    && (forall x, y :: x in visited && y in Neighbours(slots, links, x) ==> y in visited || y in queue)
  }

  ghost function Universe(slots: map<string, nat>): set<nat> {
    slots.Values + {0}
  }

  /** Queues the unvisited neighbours among the linked devices, in any order. */
  method Expand(slots: map<string, nat>, devs: set<string>, visited: set<nat>, queue: seq<nat>)
    returns (longer: seq<nat>, ghost more: seq<nat>)
    ensures longer == queue + more
    ensures forall x :: x in more <==> x !in visited && x in Linked(slots, devs)
  {
    longer, more := queue, [];
    var todo := devs;
    while todo != {}
      invariant todo <= devs && longer == queue + more
      invariant forall x :: x in more ==> x !in visited && x in Linked(slots, devs)
      invariant forall u :: u in devs - todo && u in slots && slots[u] !in visited ==> slots[u] in more
    {
      var dev :| dev in todo;
      todo := todo - {dev};
      if dev in slots && slots[dev] !in visited {
        longer := longer + [slots[dev]];
        more := more + [slots[dev]];
      }
    }
  }

  /** What expanding `slot` queues: its neighbours that are not marked yet. */
  ghost predicate NewlyFound(slots: map<string, nat>, links: Links, visited: set<nat>, slot: nat, more: seq<nat>) {
    forall x :: x in more <==> x !in visited + {slot} && x in Neighbours(slots, links, slot)
  }

  lemma SearchStep(slots: map<string, nat>, links: Links, visited: set<nat>, queue: seq<nat>,
                   more: seq<nat>)
    requires Searching(slots, links, visited, queue) && queue != [] && links(queue[0]).Ok?
    requires NewlyFound(slots, links, visited, queue[0], more)
    ensures Searching(slots, links, visited + {queue[0]}, queue[1..] + more)
  {
    var slot, next := queue[0], queue[1..] + more;
    assert slot in queue;
    assert forall x :: x in queue ==> x == slot || x in queue[1..];
    forall x | x in next
      ensures x in Universe(slots) && Reachable(slots, links, x)
    {
      if x in more {
        ReachableStep(slots, links, slot, x);
        InUniverse(slots, links, slot, x);
      } else {
        assert x in queue;
      }
    }
    forall x, y | x in visited + {slot} && y in Neighbours(slots, links, x)
      ensures y in visited + {slot} || y in next
    {
      if x == slot && y !in visited + {slot} {
        assert y in more;
      }
    }
  }

  lemma InUniverse(slots: map<string, nat>, links: Links, s: nat, x: nat)
    requires x in Neighbours(slots, links, s)
    ensures x in Universe(slots)
  {
  }

  /** An expansion either visits a new slot or brings the first unvisited entry closer. */
  lemma {:induction false} StepDecreases(slots: map<string, nat>, links: Links, visited: set<nat>, queue: seq<nat>,
                                         more: seq<nat>)
    requires queue != [] && queue[0] in Universe(slots)
    requires NewlyFound(slots, links, visited, queue[0], more)
    ensures queue[0] in visited ==>
      visited + {queue[0]} == visited && Distance(queue[1..] + more, visited) < Distance(queue, visited)
    ensures queue[0] !in visited ==> |Universe(slots) - (visited + {queue[0]})| < |Universe(slots) - visited|
  {
    if queue[0] in visited {
      DistanceKept(queue[1..], more, visited);
    } else {
      assert Universe(slots) - visited == (Universe(slots) - (visited + {queue[0]})) + {queue[0]};
    }
  }

  /** The slots reachable from slot 0, or an error when a reachable slot cannot be read. */
  method Search(slots: map<string, nat>, links: Links) returns (r: Result<set<nat>>)
    ensures r.Ok? ==> r.value <= Universe(slots)
    ensures r.Ok? ==> forall x: nat :: x in r.value <==> Reachable(slots, links, x)
    ensures r.Err? <==> exists x: nat :: Reachable(slots, links, x) && links(x).Err?
  {
    var queue: seq<nat> := [0];
    var visited: set<nat> := {};
    StartIsReachable(slots, links);
    while |queue| != 0
      invariant Searching(slots, links, visited, queue)
      decreases |Universe(slots) - visited|, Distance(queue, visited)
    {
      var slot := queue[0];
      var devs := links(slot);
      assert slot in queue;
      if devs.Err? {
        return Err;
      }
      var longer;
      ghost var more;
      longer, more := Expand(slots, devs.value, visited + {slot}, queue[1..]);
      assert NewlyFound(slots, links, visited, slot, more);
      SearchStep(slots, links, visited, queue, more);
      StepDecreases(slots, links, visited, queue, more);
      visited := visited + {slot};
      queue := longer;
    }
    SearchEnds(slots, links, visited);
    r := Ok(visited);
  }

  lemma SearchEnds(slots: map<string, nat>, links: Links, visited: set<nat>)
    requires Searching(slots, links, visited, [])
    ensures visited <= Universe(slots)
    ensures forall x: nat :: x in visited <==> Reachable(slots, links, x)
    ensures forall x: nat :: Reachable(slots, links, x) ==> links(x).Ok?
  {
    ClosedIsReachable(slots, links, visited);
  }

  // ---- the groups ----

  ghost predicate Grouped(groups: seq<seq<nat>>, x: nat) {
    exists k :: 0 <= k < |groups| && x in groups[k]
  }

  ghost predicate Partition(num: nat, groups: seq<seq<nat>>) {
    && (forall x: nat :: x < num <==> Grouped(groups, x))
    && (forall k, l, x :: 0 <= k < l < |groups| && x in groups[k] ==> x !in groups[l])
  }

  /** The slot an identifier stands for: the last one that reports it. */
  function SlotsOf(uuids: seq<Result<string>>): map<string, nat> {
    if uuids == [] then map[]
    else
      var n := |uuids| - 1;
      var before := SlotsOf(uuids[..n]);
      if uuids[n].Ok? then before[uuids[n].value := n] else before
  }

  lemma {:induction false} SlotsInRange(uuids: seq<Result<string>>)
    ensures forall u :: u in SlotsOf(uuids) ==> SlotsOf(uuids)[u] < |uuids|
    decreases |uuids|
  {
    if uuids != [] {
      SlotsInRange(uuids[..|uuids| - 1]);
    }
  }

  method ReadSlots(uuids: seq<Result<string>>) returns (r: Result<map<string, nat>>)
    ensures r.Err? <==> exists i :: 0 <= i < |uuids| && uuids[i].Err?
    ensures r.Ok? ==> r.value == SlotsOf(uuids)
  {
    var slots: map<string, nat> := map[];
    for i := 0 to |uuids|
      invariant forall j :: 0 <= j < i ==> uuids[j].Ok?
      invariant slots == SlotsOf(uuids[..i])
    {
      if uuids[i].Err? {
        return Err;
      }
      assert uuids[..i + 1][..i] == uuids[..i];
      slots := slots[uuids[i].value := i];
    }
    assert uuids[..|uuids|] == uuids;
    r := Ok(slots);
  }

  method Listed(s: set<nat>) returns (l: seq<nat>)
    ensures forall x :: x in l <==> x in s
    ensures Distinct(l)
  {
    l := [];
    var todo := s;
    while todo != {}
      invariant todo <= s && Distinct(l)
      invariant forall x :: x in l <==> x in s - todo
    {
      var x :| x in todo;
      assert x !in l;
      l := l + [x];
      todo := todo - {x};
    }
  }

  method Others(num: nat, group: set<nat>) returns (l: seq<nat>)
    ensures forall x :: x in l <==> 0 <= x < num && x !in group
    ensures Distinct(l)
  {
    l := [];
    for slot := 0 to num
      invariant forall x :: x in l <==> 0 <= x < slot && x !in group
      invariant Distinct(l)
    {
      if slot !in group {
        l := l + [slot];
      }
    }
  }

  /**
    The first group is exactly what slot 0 reaches, the second all other slots; an error is
    reported exactly when a device or a reached slot cannot be read.
   */
  method GetMLULinkGroups(uuids: seq<Result<string>>, links: Links) returns (r: Result<seq<seq<nat>>>)
    ensures r.Err? <==>
      || (exists i :: 0 <= i < |uuids| && uuids[i].Err?)
      || (exists x: nat :: Reachable(SlotsOf(uuids), links, x) && links(x).Err?)
    ensures r.Ok? ==> 1 <= |r.value| <= 2 && (|r.value| == 2 ==> r.value[1] != [])
    ensures r.Ok? ==> forall k :: 0 <= k < |r.value| ==> Distinct(r.value[k])
    ensures r.Ok? ==> forall x: nat :: x in r.value[0] <==> Reachable(SlotsOf(uuids), links, x)
    ensures r.Ok? ==> (Partition(|uuids|, r.value) <==> |uuids| > 0)
  {
    var found := ReadSlots(uuids);
    if found.Err? {
      return Err;
    }
    var slots := found.value;
    var group := Search(slots, links);
    if group.Err? {
      return Err;
    }
    var group1 := Listed(group.value);
    var group2 := Others(|uuids|, group.value);
    StartIsReachable(slots, links);
    SlotsInRange(uuids);
    if |group2| != 0 {
      r := Ok([group1, group2]);
    } else {
      r := Ok([group1]);
    }
    GroupsPartition(|uuids|, group1, group2, r.value);
  }

  /** Without any device, slot 0 is listed all the same: the groups then divide nothing. */
  lemma GroupsPartition(num: nat, group1: seq<nat>, group2: seq<nat>, groups: seq<seq<nat>>)
    requires groups == if group2 != [] then [group1, group2] else [group1]
    requires 0 in group1 && forall x :: x in group1 ==> x == 0 || x < num
    requires forall x :: x in group2 <==> 0 <= x < num && x !in group1
    ensures Partition(num, groups) <==> num > 0
  {
    assert groups[0] == group1;
    if num > 0 {
      forall x: nat
        ensures x < num <==> Grouped(groups, x)
      {
        if x < num && x !in group1 {
          assert x in group2 && groups[1] == group2;
        }
      }
    } else {
      assert 0 in groups[0];
      assert Grouped(groups, 0);
    }
  }
}
