/**
  The monitor's feedback round over the shared regions of the running containers: who has
  launched kernels lately, who is blocked because of it, and whose core limit is enforced.
 */
module Feedback {
  import opened Sets

  /** What the monitor reads and writes in a container's shared region; priority 0 is the higher one. */
  datatype Region = Region(uuids: seq<string>, priority: int, recentKernel: int, utilizationSwitch: int)

  datatype Entry = Missing | Mapped(sr: Region)

  type Regions = map<string, Entry>

  /** The priorities a task can ask for. */
  ghost predicate TwoPriorities(rs: Regions) {
    forall c :: c in rs && rs[c].Mapped? ==> IsLevel(rs[c].sr.priority)
  }

  /** The switches of a device have one entry for each of these priorities. */
  predicate IsLevel(priority: int) {
    priority == 0 || priority == 1
  }

  predicate IsNull(uuid: string) {
    uuid == "" || uuid[0] == '\0'
  }

  // ---- what a round means ----

  /** The container has launched kernels that this round does not forget. */
  ghost predicate Active(rs: Regions, c: string) {
    c in rs && rs[c].Mapped? && rs[c].sr.recentKernel > 1
  }

  type Use = (string, nat)

  /** The devices in use: for each of the given active containers, the positions of its devices. */
  ghost function Uses(rs: Regions, cs: set<string>): set<Use> {
    set c, i | c in cs && Active(rs, c) && 0 <= i < |rs[c].sr.uuids| && !IsNull(rs[c].sr.uuids[i]) :: (c, i)
  }

  /** The uses of one device by containers of one priority. */
  ghost function UsesOf(rs: Regions, uses: set<Use>, uuid: string, priority: int): set<Use> {
    set u | u in uses && u.0 in rs && rs[u.0].Mapped? && rs[u.0].sr.priority == priority
            && u.1 < |rs[u.0].sr.uuids| && rs[u.0].sr.uuids[u.1] == uuid
  }

  /** How often active containers of the given priority use the device. */
  ghost function UseCount(rs: Regions, uuid: string, priority: int): nat {
    |UsesOf(rs, Uses(rs, rs.Keys), uuid, priority)|
  }

  ghost predicate InUse(rs: Regions, uuid: string) {
    UseCount(rs, uuid, 0) > 0 || UseCount(rs, uuid, 1) > 0
  }

  /** The device is used by a container of higher priority, that is, of a lower number. */
  ghost predicate Higher(rs: Regions, uuid: string, priority: int) {
    (priority >= 1 && UseCount(rs, uuid, 0) > 0) || (priority >= 2 && UseCount(rs, uuid, 1) > 0)
  }

  /** The first of the devices that anyone uses is used by a container of higher priority. */
  ghost predicate Blocked(rs: Regions, sr: Region) {
    exists i :: FirstInUse(rs, sr.uuids, i) && Higher(rs, sr.uuids[i], sr.priority)
  }

  ghost predicate FirstInUse(rs: Regions, uuids: seq<string>, i: int) {
    0 <= i < |uuids| && InUse(rs, uuids[i]) && forall j :: 0 <= j < i ==> !InUse(rs, uuids[j])
  }

  /** Some device is used by a container of higher priority, or twice at the same priority. */
  ghost predicate Contended(rs: Regions, sr: Region) {
    exists i :: 0 <= i < |sr.uuids| && Shared(rs, sr.priority, sr.uuids[i])
  }

  ghost predicate Shared(rs: Regions, priority: int, uuid: string) {
    Higher(rs, uuid, priority) || (IsLevel(priority) && UseCount(rs, uuid, priority) > 1)
  }

  // ---- when a round panics ----

  /** An active container whose priority has no switch lists a device. */
  ghost predicate BadUse(rs: Regions, c: string) {
    Active(rs, c) && !IsLevel(rs[c].sr.priority) && exists i :: 0 <= i < |rs[c].sr.uuids| && !IsNull(rs[c].sr.uuids[i])
  }

  /** A container of negative priority lists a device in use. */
  ghost predicate BadLook(rs: Regions, c: string) {
    c in rs && rs[c].Mapped? && LooksBelow(rs, rs[c].sr)
  }

  ghost predicate LooksBelow(rs: Regions, sr: Region) {
    sr.priority < 0 && exists i :: 0 <= i < |sr.uuids| && InUse(rs, sr.uuids[i])
  }

  ghost predicate Panics(rs: Regions) {
    exists c :: BadUse(rs, c) || BadLook(rs, c)
  }

  ghost function Decayed(sr: Region): Region {
    if sr.recentKernel > 0 then sr.(recentKernel := sr.recentKernel - 1) else sr
  }

  ghost function Judged(rs: Regions, sr: Region): Region {
    sr.(recentKernel := if Blocked(rs, sr) then (if sr.recentKernel >= 0 then -1 else sr.recentKernel)
                        else if sr.recentKernel < 0 then 0 else sr.recentKernel,
        utilizationSwitch := if Contended(rs, sr) then 1 else 0)
  }

  /** The regions after a round. */
  ghost function AfterRound(rs: Regions): Regions {
    map c | c in rs :: if rs[c].Missing? then Missing else Mapped(Judged(rs, Decayed(rs[c].sr)))
  }

  // ---- the switches ----

  type Switches = map<string, seq<int>>

  /** The switches count the given uses. */
  ghost predicate Counts(rs: Regions, uses: set<Use>, on: Switches) {
    forall u {:trigger u in on} ::
      var high, low := |UsesOf(rs, uses, u, 0)|, |UsesOf(rs, uses, u, 1)|;
      && (u in on <==> high > 0 || low > 0)
      && (u in on ==> on[u] == [high, low])
  }

  ghost predicate Pairs(on: Switches) {
    forall u :: u in on ==> |on[u]| == 2
  }

  /** The switches of a device show a use at a higher priority. */
  predicate HigherOn(pair: seq<int>, p: int)
    requires |pair| == 2
  {
    (p >= 1 && pair[0] > 0) || (p >= 2 && pair[1] > 0)
  }

  /** The first device that has switches. */
  ghost predicate FirstOn(on: Switches, uuids: seq<string>, i: int) {
    0 <= i < |uuids| && uuids[i] in on && forall j :: 0 <= j < i ==> uuids[j] !in on
  }

  ghost predicate HighOnFirst(on: Switches, p: int, uuids: seq<string>)
    requires Pairs(on)
  {
    exists i :: FirstOn(on, uuids, i) && HigherOn(on[uuids[i]], p)
  }

  /** The first device that has switches shows no use at a higher priority. */
  ghost predicate LowOnFirst(on: Switches, p: int, uuids: seq<string>)
    requires Pairs(on)
  {
    exists i :: FirstOn(on, uuids, i) && !HigherOn(on[uuids[i]], p)
  }

  ghost predicate SharedOnSome(on: Switches, p: int, uuids: seq<string>)
    requires Pairs(on)
  {
    exists i :: 0 <= i < |uuids| && uuids[i] in on && SharedOn(on[uuids[i]], p)
  }

  predicate SharedOn(pair: seq<int>, p: int)
    requires |pair| == 2
  {
    HigherOn(pair, p) || (IsLevel(p) && pair[p] > 1)
  }

  /** Looks through the switches above `p`; running past them panics. */
  method LookAbove(pair: seq<int>, p: int) returns (panicked: bool, r: bool)
    requires |pair| == 2
    ensures panicked <==> p > 2 && !HigherOn(pair, p)
    ensures !panicked ==> (r <==> HigherOn(pair, p))
  {
    var i := 0;
    while i < p
      invariant 0 <= i <= 2 && (i > 0 ==> pair[0] <= 0) && (i > 1 ==> pair[1] <= 0) && (i > 0 ==> i <= p)
    {
      if i >= |pair| {
        return true, false;
      }
      if pair[i] > 0 {
        return false, true;
      }
      i := i + 1;
    }
    return false, false;
  }

  method CheckBlocking(on: Switches, p: int, uuids: seq<string>) returns (panicked: bool, r: bool)
    requires Pairs(on)
    ensures panicked <==> p > 2 && LowOnFirst(on, p, uuids)
    ensures !panicked ==> (r <==> HighOnFirst(on, p, uuids))
  {
    for k := 0 to |uuids|
      invariant forall j :: 0 <= j < k ==> uuids[j] !in on
    {
      if uuids[k] in on {
        assert FirstOn(on, uuids, k) && forall i :: FirstOn(on, uuids, i) ==> i == k;
        panicked, r := LookAbove(on[uuids[k]], p);
        return;
      }
    }
    panicked, r := false, false;
  }

  method CheckPriority(on: Switches, p: int, uuids: seq<string>) returns (panicked: bool, r: bool)
    requires Pairs(on)
    ensures panicked <==> !IsLevel(p) && LowOnFirst(on, p, uuids)
    ensures !panicked ==> (r <==> SharedOnSome(on, p, uuids))
  {
    for k := 0 to |uuids|
      invariant forall j :: 0 <= j < k && uuids[j] in on ==> IsLevel(p) && !SharedOn(on[uuids[j]], p)
    {
      if uuids[k] in on {
        var pair := on[uuids[k]];
        panicked, r := LookAbove(pair, p);
        if panicked || r {
          PriorityEnds(on, p, uuids, k);
          return;
        }
        if !(0 <= p < |pair|) {
          PriorityEnds(on, p, uuids, k);
          return true, false;
        }
        if pair[p] > 1 {
          return false, true;
        }
      }
    }
    panicked, r := false, false;
  }

  /** With any other priority the look ends at the first device that has switches. */
  lemma PriorityEnds(on: Switches, p: int, uuids: seq<string>, k: nat)
    requires Pairs(on) && k < |uuids| && uuids[k] in on
    requires forall j :: 0 <= j < k && uuids[j] in on ==> IsLevel(p)
    ensures !IsLevel(p) ==> (LowOnFirst(on, p, uuids) <==> !HigherOn(on[uuids[k]], p))
  {
    if !IsLevel(p) {
      assert FirstOn(on, uuids, k) && forall i :: FirstOn(on, uuids, i) ==> i == k;
    }
  }

  lemma UsesOfAdd(rs: Regions, uses: set<Use>, u: Use, uuid: string, priority: int)
    requires u !in uses && u.0 in rs && rs[u.0].Mapped? && u.1 < |rs[u.0].sr.uuids|
    ensures |UsesOf(rs, uses + {u}, uuid, priority)| == |UsesOf(rs, uses, uuid, priority)|
      + if rs[u.0].sr.priority == priority && rs[u.0].sr.uuids[u.1] == uuid then 1 else 0
  {
    if rs[u.0].sr.priority == priority && rs[u.0].sr.uuids[u.1] == uuid {
      assert UsesOf(rs, uses + {u}, uuid, priority) == UsesOf(rs, uses, uuid, priority) + {u};
    } else {
      assert UsesOf(rs, uses + {u}, uuid, priority) == UsesOf(rs, uses, uuid, priority);
    }
  }

  function Bumped(on: Switches, uuid: string, priority: int): Switches
    requires IsLevel(priority) && (uuid in on ==> |on[uuid]| == 2)
  {
    var before := if uuid in on then on[uuid] else [0, 0];
    on[uuid := before[priority := before[priority] + 1]]
  }

  lemma CountsAdd(rs: Regions, uses: set<Use>, on: Switches, u: Use)
    requires Counts(rs, uses, on)
    requires u !in uses && u.0 in rs && rs[u.0].Mapped? && u.1 < |rs[u.0].sr.uuids| && IsLevel(rs[u.0].sr.priority)
    ensures Counts(rs, uses + {u}, Bumped(on, rs[u.0].sr.uuids[u.1], rs[u.0].sr.priority))
  {
    var uuid, p := rs[u.0].sr.uuids[u.1], rs[u.0].sr.priority;
    var next := Bumped(on, uuid, p);
    forall v
      ensures var high, low := |UsesOf(rs, uses + {u}, v, 0)|, |UsesOf(rs, uses + {u}, v, 1)|;
        (v in next <==> high > 0 || low > 0) && (v in next ==> next[v] == [high, low])
    {
      UsesOfAdd(rs, uses, u, v, 0);
      UsesOfAdd(rs, uses, u, v, 1);
      assert v in on <==> |UsesOf(rs, uses, v, 0)| > 0 || |UsesOf(rs, uses, v, 1)| > 0;
    }
  }

  // ---- the monitor ----

  /** The uses of the first `n` positions of one active container. */
  ghost function UsesUpTo(rs: Regions, c: string, n: nat): set<Use>
    requires c in rs && rs[c].Mapped? && n <= |rs[c].sr.uuids|
  {
    set i | 0 <= i < n && !IsNull(rs[c].sr.uuids[i]) :: (c, i)
  }

  /** Counts the devices of one active container; a priority without a switch panics at the first device. */
  method CountDevices(sr: Region, on0: Switches, ghost rs: Regions, ghost c: string, ghost cs: set<string>)
    returns (panicked: bool, on: Switches)
    requires Active(rs, c) && rs[c].sr == sr && c !in cs && Counts(rs, Uses(rs, cs), on0)
    ensures panicked <==> BadUse(rs, c)
    ensures !panicked ==> Counts(rs, Uses(rs, cs + {c}), on)
  {
    on := on0;
    ghost var before := Uses(rs, cs);
    ghost var uses := before;
    for i := 0 to |sr.uuids|
      invariant uses == before + UsesUpTo(rs, c, i) && Counts(rs, uses, on)
      invariant !IsLevel(sr.priority) ==> forall j :: 0 <= j < i ==> IsNull(sr.uuids[j])
    {
      if IsNull(sr.uuids[i]) {
        assert UsesUpTo(rs, c, i + 1) == UsesUpTo(rs, c, i);
        continue;
      }
      if !(0 <= sr.priority < 2) {
        return true, on;
      }
      ghost var use: Use := (c, i);
      assert use !in before && use !in UsesUpTo(rs, c, i);
      assert UsesUpTo(rs, c, i + 1) == UsesUpTo(rs, c, i) + {use};
      CountsAdd(rs, uses, on, use);
      assert sr.uuids[i] in on ==> |on[sr.uuids[i]]| == 2;
      on := Bumped(on, sr.uuids[i], sr.priority);
      uses := uses + {use};
    }
    assert Uses(rs, cs + {c}) == before + UsesUpTo(rs, c, |sr.uuids|);
    panicked := false;
  }

  lemma InactiveUses(rs: Regions, cs: set<string>, c: string)
    requires !Active(rs, c)
    ensures Uses(rs, cs + {c}) == Uses(rs, cs)
  {
  }

  /** Counts the devices of a container whose counter stays above 0 in this round. */
  method CountIfActive(entry: Entry, on0: Switches, ghost rs: Regions, ghost c: string, ghost cs: set<string>)
    returns (panicked: bool, on: Switches)
    requires c in rs && rs[c] == entry && c !in cs && Counts(rs, Uses(rs, cs), on0)
    ensures panicked <==> BadUse(rs, c)
    ensures !panicked ==> Counts(rs, Uses(rs, cs + {c}), on)
  {
    if entry.Mapped? && entry.sr.recentKernel > 0 && entry.sr.recentKernel - 1 > 0 {
      panicked, on := CountDevices(entry.sr, on0, rs, c, cs);
    } else {
      InactiveUses(rs, cs, c);
      panicked, on := false, on0;
    }
  }

  /** The full switches have the devices in use, each with a use. */
  lemma SwitchesShow(rs: Regions, on: Switches)
    requires Counts(rs, Uses(rs, rs.Keys), on)
    ensures Pairs(on) && forall u :: u in on <==> InUse(rs, u)
    ensures forall u :: u in on ==> on[u] == [UseCount(rs, u, 0), UseCount(rs, u, 1)]
  {
  }

  /** The full switches tell who is blocked, who is contended and who panics. */
  lemma SwitchesTell(rs: Regions, on: Switches, sr: Region)
    requires Counts(rs, Uses(rs, rs.Keys), on)
    ensures Pairs(on)
    ensures Blocked(rs, sr) <==> HighOnFirst(on, sr.priority, sr.uuids)
    ensures Contended(rs, sr) <==> SharedOnSome(on, sr.priority, sr.uuids)
    ensures LowOnFirst(on, sr.priority, sr.uuids) && !IsLevel(sr.priority) <==> LooksBelow(rs, sr)
  {
    SwitchesShow(rs, on);
    assert Blocked(rs, sr) <==> HighOnFirst(on, sr.priority, sr.uuids) by {
      assert forall i :: FirstOn(on, sr.uuids, i) <==> FirstInUse(rs, sr.uuids, i);
    }
    LookTells(rs, on, sr);
  }

  lemma LookTells(rs: Regions, on: Switches, sr: Region)
    requires Counts(rs, Uses(rs, rs.Keys), on)
    ensures Pairs(on)
    ensures LowOnFirst(on, sr.priority, sr.uuids) && !IsLevel(sr.priority) <==> LooksBelow(rs, sr)
  {
    SwitchesShow(rs, on);
    assert forall i :: FirstOn(on, sr.uuids, i) <==> FirstInUse(rs, sr.uuids, i);
    if LooksBelow(rs, sr) {
      var k :| 0 <= k < |sr.uuids| && InUse(rs, sr.uuids[k]);
      var i := SomeFirstInUse(rs, sr.uuids, k);
      assert FirstOn(on, sr.uuids, i) && !HigherOn(on[sr.uuids[i]], sr.priority);
    }
  }

  /** Marks one region by the switches. */
  method JudgeRegion(on: Switches, sr0: Region, ghost rs: Regions) returns (panicked: bool, sr: Region)
    requires Counts(rs, Uses(rs, rs.Keys), on)
    ensures panicked <==> LooksBelow(rs, sr0)
    ensures sr == if panicked then Marked(rs, sr0) else Judged(rs, sr0)
  {
    SwitchesTell(rs, on, sr0);
    sr := sr0;
    var blocking, contended;
    panicked, blocking := CheckBlocking(on, sr.priority, sr.uuids);
    if panicked {
      return;
    }
    if blocking {
      if sr.recentKernel >= 0 {
        sr := sr.(recentKernel := -1);
      }
    } else {
      if sr.recentKernel < 0 {
        sr := sr.(recentKernel := 0);
      }
    }
    panicked, contended := CheckPriority(on, sr.priority, sr.uuids);
    if panicked {
      return;
    }
    if contended {
      if sr.utilizationSwitch != 1 {
        sr := sr.(utilizationSwitch := 1);
      }
    } else {
      if sr.utilizationSwitch != 0 {
        sr := sr.(utilizationSwitch := 0);
      }
    }
  }

  /** A region whose mark is set while its switch is not. */
  ghost function Marked(rs: Regions, sr: Region): Region {
    Judged(rs, sr).(utilizationSwitch := sr.utilizationSwitch)
  }

  /** The regions once the given containers are decayed. */
  ghost function DecayedIn(rs: Regions, cs: set<string>): Regions {
    map c | c in rs :: if c in cs && rs[c].Mapped? then Mapped(Decayed(rs[c].sr)) else rs[c]
  }

  /** The regions once all are decayed and the given containers are judged. */
  ghost function JudgedIn(rs: Regions, cs: set<string>): Regions {
    map c | c in rs ::
      if rs[c].Missing? then Missing
      else if c in cs then Mapped(Judged(rs, Decayed(rs[c].sr))) else Mapped(Decayed(rs[c].sr))
  }

  /** The regions when judging container `c` panics after those of `cs`: its mark is set already. */
  ghost function HalfJudged(rs: Regions, cs: set<string>, c: string): Regions
    requires c in rs && rs[c].Mapped?
  {
    JudgedIn(rs, cs)[c := Mapped(Marked(rs, Decayed(rs[c].sr)))]
  }

  lemma DecayedMore(rs: Regions, cs: set<string>, c: string)
    requires c in rs && c !in cs
    ensures DecayedIn(rs, cs)[c] == rs[c]
    ensures DecayedIn(rs, cs + {c}) ==
      if rs[c].Mapped? then DecayedIn(rs, cs)[c := Mapped(Decayed(rs[c].sr))] else DecayedIn(rs, cs)
  {
  }

  lemma JudgedMore(rs: Regions, cs: set<string>, c: string)
    requires c in rs && rs[c].Mapped?
    ensures JudgedIn(rs, cs + {c}) == JudgedIn(rs, cs)[c := Mapped(Judged(rs, Decayed(rs[c].sr)))]
  {
  }

  /** What a panic leaves: some containers decayed, or all decayed, some judged and one half judged. */
  ghost predicate PanickedAt(rs: Regions, now: Regions) {
    || (exists cs :: now == DecayedIn(rs, cs))
    || (exists cs, c :: BadLook(rs, c) && now == HalfJudged(rs, cs, c))
  }

  class Monitor {
    var regions: Regions

    constructor (rs: Regions)
      ensures regions == rs
    {
      regions := rs;
    }

    method Decay() returns (panicked: bool, on: Switches)
      modifies this
      ensures panicked <==> exists c :: BadUse(old(regions), c)
      ensures panicked ==> exists cs :: regions == DecayedIn(old(regions), cs)
      ensures !panicked ==> regions == DecayedIn(old(regions), old(regions).Keys)
      ensures !panicked ==> Counts(old(regions), Uses(old(regions), old(regions).Keys), on)
    {
      on := map[];
      ghost var rs := regions;
      var todo := regions.Keys;
      ghost var cs: set<string> := {};
      assert Uses(rs, cs) == {};
      while todo != {}
        invariant todo <= rs.Keys && cs == rs.Keys - todo
        invariant forall c :: c in cs ==> !BadUse(rs, c)
        invariant regions == DecayedIn(rs, cs) && Counts(rs, Uses(rs, cs), on)
      {
        var c :| c in todo;
        DecayedMore(rs, cs, c);
        var entry := regions[c];
        if entry.Mapped? && entry.sr.recentKernel > 0 {
          regions := regions[c := Mapped(entry.sr.(recentKernel := entry.sr.recentKernel - 1))];
        } else {
          assert regions[c := regions[c]] == regions;
        }
        panicked, on := CountIfActive(entry, on, rs, c, cs);
        if panicked {
          return;
        }
        todo := todo - {c};
        cs := cs + {c};
      }
      assert cs == rs.Keys;
      panicked := false;
    }

    method Judge(on: Switches, ghost rs: Regions) returns (panicked: bool)
      requires regions == DecayedIn(rs, rs.Keys) && Counts(rs, Uses(rs, rs.Keys), on)
      modifies this
      ensures panicked <==> exists c :: BadLook(rs, c)
      ensures panicked ==> exists cs, c :: BadLook(rs, c) && regions == HalfJudged(rs, cs, c)
      ensures !panicked ==> regions == AfterRound(rs)
    {
      var todo := regions.Keys;
      ghost var cs: set<string> := {};
      while todo != {}
        invariant todo <= rs.Keys && cs == rs.Keys - todo
        invariant forall c :: c in cs ==> !BadLook(rs, c)
        invariant regions == JudgedIn(rs, cs)
      {
        var c :| c in todo;
        if regions[c].Mapped? {
          assert regions[c].sr == Decayed(rs[c].sr);
          DecayedLooks(rs, rs[c].sr);
          var sr;
          panicked, sr := JudgeRegion(on, regions[c].sr, rs);
          JudgedMore(rs, cs, c);
          regions := regions[c := Mapped(sr)];
          if panicked {
            assert BadLook(rs, c) && regions == HalfJudged(rs, cs, c);
            return;
          }
        } else {
          assert JudgedIn(rs, cs + {c}) == JudgedIn(rs, cs);
        }
        todo := todo - {c};
        cs := cs + {c};
      }
      assert cs == rs.Keys;
      panicked := false;
    }

    /** One round: it panics exactly on the regions named above, and otherwise judges every container. */
    method Observe() returns (panicked: bool)
      modifies this
      ensures panicked <==> Panics(old(regions))
      ensures panicked ==> PanickedAt(old(regions), regions)
      ensures !panicked ==> regions == AfterRound(old(regions))
    {
      var on;
      panicked, on := Decay();
      if panicked {
        return;
      }
      panicked := Judge(on, old(regions));
    }
  }

  lemma DecayedLooks(rs: Regions, sr: Region)
    ensures LooksBelow(rs, Decayed(sr)) <==> LooksBelow(rs, sr)
  {
  }

  // ---- what rounds guarantee ----

  ghost function Rounds(rs: Regions, n: nat): Regions {
    if n == 0 then rs else AfterRound(Rounds(rs, n - 1))
  }

  /** Rounds keep the containers, their devices and their priorities. */
  lemma {:induction false} RoundsKeep(rs: Regions, n: nat)
    ensures Rounds(rs, n).Keys == rs.Keys
    ensures forall c :: c in rs ==> Rounds(rs, n)[c].Mapped? == rs[c].Mapped?
    ensures forall c :: c in rs && rs[c].Mapped? ==>
      Rounds(rs, n)[c].sr.uuids == rs[c].sr.uuids && Rounds(rs, n)[c].sr.priority == rs[c].sr.priority
    decreases n
  {
    if n > 0 {
      RoundsKeep(rs, n - 1);
    }
  }

  /** With the priorities a task can ask for, no round panics. */
  lemma TwoPrioritiesAreQuiet(rs: Regions)
    requires TwoPriorities(rs)
    ensures !Panics(rs)
  {
  }

  /** Without new kernels fewer devices are in use from round to round. */
  lemma UsesShrink(rs: Regions, uuid: string, priority: int)
    ensures UseCount(AfterRound(rs), uuid, priority) <= UseCount(rs, uuid, priority)
  {
    var next := AfterRound(rs);
    assert Uses(next, next.Keys) <= Uses(rs, rs.Keys);
    SubsetSize(UsesOf(next, Uses(next, next.Keys), uuid, priority), UsesOf(rs, Uses(rs, rs.Keys), uuid, priority));
  }

  /** Hence a round that does not panic is followed by rounds that do not. */
  lemma QuietStaysQuiet(rs: Regions)
    requires !Panics(rs)
    ensures !Panics(AfterRound(rs))
  {
    var next := AfterRound(rs);
    forall c | BadUse(next, c) || BadLook(next, c)
      ensures BadUse(rs, c) || BadLook(rs, c)
    {
      if !BadUse(next, c) {
        var i :| 0 <= i < |next[c].sr.uuids| && InUse(next, next[c].sr.uuids[i]);
        UsesShrink(rs, next[c].sr.uuids[i], 0);
        UsesShrink(rs, next[c].sr.uuids[i], 1);
        assert InUse(rs, rs[c].sr.uuids[i]);
      }
    }
  }

  /**
    After a round a container is marked blocked exactly when the round's uses block it, which
    never happens to the highest priority.
   */
  lemma MarkedExactly(rs: Regions, c: string)
    requires c in rs && rs[c].Mapped?
    ensures var sr := AfterRound(rs)[c].sr;
      && (sr.recentKernel < 0 <==> Blocked(rs, rs[c].sr))
      && (Blocked(rs, rs[c].sr) ==> sr.recentKernel == Min(rs[c].sr.recentKernel, -1))
      && (!Blocked(rs, rs[c].sr) ==> sr.recentKernel == Max(rs[c].sr.recentKernel - 1, 0))
      && (rs[c].sr.priority <= 0 ==> sr.recentKernel >= 0)
      && (sr.utilizationSwitch == 1 <==> Contended(rs, rs[c].sr))
      && (sr.utilizationSwitch == 0 <==> !Contended(rs, rs[c].sr))
  {
  }

  /** In this round the container uses the device, at position `i` of its list. */
  ghost predicate UsesAt(rs: Regions, c: string, i: nat, uuid: string) {
    && c in rs && rs[c].Mapped? && rs[c].sr.recentKernel - 1 > 0
    && i < |rs[c].sr.uuids| && rs[c].sr.uuids[i] == uuid && uuid != "" && uuid[0] != '\0'
  }

  lemma UseIs(rs: Regions, uuid: string, priority: int)
    ensures forall u: Use ::
      u in UsesOf(rs, Uses(rs, rs.Keys), uuid, priority) <==> UsesWith(rs, u.0, u.1, uuid, priority)
  {
  }

  /** A device is in use at a priority exactly when some container of that priority uses it. */
  lemma UsedBySome(rs: Regions, uuid: string, priority: int)
    ensures UseCount(rs, uuid, priority) > 0 <==>
      exists c, i: nat :: UsesWith(rs, c, i, uuid, priority)
  {
    var uses := UsesOf(rs, Uses(rs, rs.Keys), uuid, priority);
    UseIs(rs, uuid, priority);
    if UseCount(rs, uuid, priority) > 0 {
      var u :| u in uses;
      assert UsesWith(rs, u.0, u.1, uuid, priority);
    }
    if c, i: nat :| UsesWith(rs, c, i, uuid, priority) {
      var u: Use := (c, i);
      assert u in uses;
    }
  }

  /** Two different uses of the device at the same priority. */
  ghost predicate UsedTwice(rs: Regions, uuid: string, priority: int) {
    exists c, i: nat, d, j: nat ::
      (c, i) != (d, j) && UsesWith(rs, c, i, uuid, priority) && UsesWith(rs, d, j, uuid, priority)
  }

  ghost predicate UsesWith(rs: Regions, c: string, i: nat, uuid: string, priority: int) {
    UsesAt(rs, c, i, uuid) && rs[c].sr.priority == priority
  }

  lemma UsedByTwo(rs: Regions, uuid: string, priority: int)
    ensures UseCount(rs, uuid, priority) > 1 <==> UsedTwice(rs, uuid, priority)
  {
    var uses := UsesOf(rs, Uses(rs, rs.Keys), uuid, priority);
    UseIs(rs, uuid, priority);
    if |uses| > 1 {
      var u :| u in uses;
      assert |uses - {u}| >= 1;
      var v :| v in uses - {u};
      assert UsesWith(rs, u.0, u.1, uuid, priority) && UsesWith(rs, v.0, v.1, uuid, priority);
    }
    if UsedTwice(rs, uuid, priority) {
      var c, i: nat, d, j: nat :|
        (c, i) != (d, j) && UsesWith(rs, c, i, uuid, priority) && UsesWith(rs, d, j, uuid, priority);
      var u: Use, v: Use := (c, i), (d, j);
      assert u in uses && v in uses;
      SubsetSize({u, v}, uses);
    }
  }

  /** Some container whose priority is a smaller number, 0 or 1, uses the device. */
  ghost predicate UsedAbove(rs: Regions, uuid: string, priority: int) {
    exists d, j: nat :: UsesAt(rs, d, j, uuid) && 0 <= rs[d].sr.priority <= 1 && rs[d].sr.priority < priority
  }

  lemma HigherExactly(rs: Regions, uuid: string, priority: int)
    ensures Higher(rs, uuid, priority) <==> UsedAbove(rs, uuid, priority)
  {
    UsedBySome(rs, uuid, 0);
    UsedBySome(rs, uuid, 1);
    if d, j: nat :| UsesAt(rs, d, j, uuid) && 0 <= rs[d].sr.priority <= 1 && rs[d].sr.priority < priority {
      assert UsesWith(rs, d, j, uuid, rs[d].sr.priority);
    }
    if priority >= 1 && UseCount(rs, uuid, 0) > 0 {
      var d, j: nat :| UsesWith(rs, d, j, uuid, 0);
      assert UsesAt(rs, d, j, uuid);
    }
    if priority >= 2 && UseCount(rs, uuid, 1) > 0 {
      var d, j: nat :| UsesWith(rs, d, j, uuid, 1);
      assert UsesAt(rs, d, j, uuid);
    }
  }

  /**
    After a round the core limit of a container is enforced if and only if one of its devices is
    used at a higher priority, or by two uses at its own.
   */
  lemma SwitchedOnExactly(rs: Regions, c: string)
    requires c in rs && rs[c].Mapped? && 0 <= rs[c].sr.priority <= 1
    ensures var p, uuids := rs[c].sr.priority, rs[c].sr.uuids;
      AfterRound(rs)[c].sr.utilizationSwitch == 1 <==>
        exists i :: 0 <= i < |uuids| && (UsedAbove(rs, uuids[i], p) || UsedTwice(rs, uuids[i], p))
  {
    var p, uuids := rs[c].sr.priority, rs[c].sr.uuids;
    MarkedExactly(rs, c);
    forall i | 0 <= i < |uuids|
      ensures Shared(rs, p, uuids[i]) <==> UsedAbove(rs, uuids[i], p) || UsedTwice(rs, uuids[i], p)
    {
      HigherExactly(rs, uuids[i], p);
      UsedByTwo(rs, uuids[i], p);
    }
  }

  function Min(a: int, b: int): int {
    if a < b then a else b
  }

  function Max(a: int, b: int): int {
    if a > b then a else b
  }

  /** Without new kernels a priority-0 container counts down to 0, whatever the others do. */
  lemma {:induction false} CountsDown(rs: Regions, n: nat, c: string)
    requires c in rs && rs[c].Mapped? && rs[c].sr.priority == 0 && n > 0
    ensures c in Rounds(rs, n) && Rounds(rs, n)[c].Mapped?
    ensures Rounds(rs, n)[c].sr.recentKernel == Max(rs[c].sr.recentKernel - n, 0)
    decreases n
  {
    RoundsKeep(rs, n);
    RoundsKeep(rs, n - 1);
    if n > 1 {
      CountsDown(rs, n - 1, c);
    }
    MarkedExactly(Rounds(rs, n - 1), c);
  }

  /** What `n` rounds without new kernels leave of a container; any container counts down at least as fast. */
  ghost predicate LaterRegion(sr: Region, now: Region, n: nat) {
    && now.uuids == sr.uuids && now.priority == sr.priority
    && now.recentKernel <= Max(sr.recentKernel - n, 0)
    && (sr.priority == 0 && sr.recentKernel > n ==> now.recentKernel == sr.recentKernel - n)
  }

  ghost predicate Later(rs: Regions, now: Regions, n: nat) {
    && now.Keys == rs.Keys
    && forall c :: c in rs ==>
         if rs[c].Mapped? then now[c].Mapped? && LaterRegion(rs[c].sr, now[c].sr, n) else now[c].Missing?
  }

  lemma {:induction false} LaterRounds(rs: Regions, n: nat)
    ensures Later(rs, Rounds(rs, n), n)
    decreases n
  {
    if n > 0 {
      LaterRounds(rs, n - 1);
      LaterStep(rs, Rounds(rs, n - 1), n - 1);
    }
  }

  lemma LaterStep(rs: Regions, now: Regions, n: nat)
    requires Later(rs, now, n)
    ensures Later(rs, AfterRound(now), n + 1)
  {
    forall c | c in rs && rs[c].Mapped?
      ensures LaterRegion(rs[c].sr, AfterRound(now)[c].sr, n + 1)
    {
      MarkedExactly(now, c);
    }
  }

  /** In the `n`-th round a device is in use at priority 0 exactly when someone had more than `n` kernels left. */
  ghost predicate HeldAt(rs: Regions, uuid: string, n: nat) {
    !IsNull(uuid) && exists c :: Holder(rs, uuid, n, c)
  }

  ghost predicate Holder(rs: Regions, uuid: string, n: nat, c: string) {
    c in rs && rs[c].Mapped? && rs[c].sr.priority == 0 && uuid in rs[c].sr.uuids && rs[c].sr.recentKernel > n
  }

  lemma HeldExactly(rs: Regions, uuid: string, n: nat)
    requires n > 0
    ensures UseCount(Rounds(rs, n - 1), uuid, 0) > 0 <==> HeldAt(rs, uuid, n)
  {
    LaterRounds(rs, n - 1);
    HeldNow(rs, Rounds(rs, n - 1), uuid, n);
  }

  lemma HeldNow(rs: Regions, now: Regions, uuid: string, n: nat)
    requires n > 0 && Later(rs, now, n - 1)
    ensures UseCount(now, uuid, 0) > 0 <==> HeldAt(rs, uuid, n)
  {
    if UseCount(now, uuid, 0) > 0 {
      var c := UsedAt(rs, now, uuid, n, 0);
      assert Holder(rs, uuid, n, c);
    }
    if HeldAt(rs, uuid, n) {
      var c :| Holder(rs, uuid, n, c);
      HolderUses(rs, now, uuid, n, c);
    }
  }

  /** Who uses a device in the `n`-th round started above `n`. */
  lemma UsedAt(rs: Regions, now: Regions, uuid: string, n: nat, priority: int) returns (c: string)
    requires n > 0 && Later(rs, now, n - 1) && UseCount(now, uuid, priority) > 0
    ensures c in rs && rs[c].Mapped? && rs[c].sr.priority == priority && uuid in rs[c].sr.uuids
    ensures rs[c].sr.recentKernel > n && !IsNull(uuid)
  {
    c := SomeUser(now, uuid, priority);
    assert LaterRegion(rs[c].sr, now[c].sr, n - 1);
  }

  lemma HolderUses(rs: Regions, now: Regions, uuid: string, n: nat, c: string)
    requires n > 0 && Later(rs, now, n - 1) && Holder(rs, uuid, n, c) && !IsNull(uuid)
    ensures UseCount(now, uuid, 0) > 0
  {
    assert LaterRegion(rs[c].sr, now[c].sr, n - 1);
    UserCounts(now, uuid, c);
  }

  lemma SomeUser(rs: Regions, uuid: string, priority: int) returns (c: string)
    requires UseCount(rs, uuid, priority) > 0
    ensures Active(rs, c) && rs[c].sr.priority == priority && uuid in rs[c].sr.uuids && !IsNull(uuid)
  {
    var u :| u in UsesOf(rs, Uses(rs, rs.Keys), uuid, priority);
    c := u.0;
  }

  lemma UserCounts(rs: Regions, uuid: string, c: string)
    requires Active(rs, c) && uuid in rs[c].sr.uuids && !IsNull(uuid)
    ensures UseCount(rs, uuid, rs[c].sr.priority) > 0
  {
    var i :| 0 <= i < |rs[c].sr.uuids| && rs[c].sr.uuids[i] == uuid;
    var u: Use := (c, i);
    assert u in Uses(rs, rs.Keys);
    assert u in UsesOf(rs, Uses(rs, rs.Keys), uuid, rs[c].sr.priority);
  }

  // ---- who is blocked, from the starting regions ----

  /** In the `n`-th round the container still counts: it started above `n` and no earlier round blocked it. */
  ghost predicate ActiveIn(rs: Regions, d: string, n: nat)
    decreases n, 0
  {
    d in rs && rs[d].Mapped? && rs[d].sr.recentKernel > n && forall m: nat :: 1 <= m < n ==> !BlockedIn(rs, d, m)
  }

  /** In the `n`-th round the device is used by a container of the given priority. */
  ghost predicate UsedIn(rs: Regions, uuid: string, n: nat, priority: int)
    decreases n, 1
  {
    !IsNull(uuid) && exists d :: ActiveIn(rs, d, n) && rs[d].sr.priority == priority && uuid in rs[d].sr.uuids
  }

  ghost predicate InUseIn(rs: Regions, uuid: string, n: nat)
    decreases n, 2
  {
    UsedIn(rs, uuid, n, 0) || UsedIn(rs, uuid, n, 1)
  }

  ghost predicate HigherIn(rs: Regions, uuid: string, n: nat, priority: int)
    decreases n, 2
  {
    (priority >= 1 && UsedIn(rs, uuid, n, 0)) || (priority >= 2 && UsedIn(rs, uuid, n, 1))
  }

  ghost predicate FirstIn(rs: Regions, uuids: seq<string>, n: nat, i: int)
    decreases n, 3
  {
    0 <= i < |uuids| && InUseIn(rs, uuids[i], n) && forall j :: 0 <= j < i ==> !InUseIn(rs, uuids[j], n)
  }

  /** The `n`-th round blocks the container: its first device in use is used at a higher priority. */
  ghost predicate BlockedIn(rs: Regions, c: string, n: nat)
    decreases n, 4
  {
    c in rs && rs[c].Mapped? &&
    exists i :: FirstIn(rs, rs[c].sr.uuids, n, i) && HigherIn(rs, rs[c].sr.uuids[i], n, rs[c].sr.priority)
  }

  /** Priority 0 is never blocked, so its uses are those of the containers that started above `n`. */
  lemma HeldFromStart(rs: Regions, uuid: string, n: nat)
    ensures UsedIn(rs, uuid, n, 0) <==> HeldAt(rs, uuid, n)
  {
    if HeldAt(rs, uuid, n) {
      var c :| Holder(rs, uuid, n, c);
      assert ActiveIn(rs, c, n);
    }
    if UsedIn(rs, uuid, n, 0) {
      var c :| ActiveIn(rs, c, n) && rs[c].sr.priority == 0 && uuid in rs[c].sr.uuids;
      assert Holder(rs, uuid, n, c);
    }
  }

  /** A counter above 1 after a round was above 2 before it, and only a mark keeps it from dropping by one. */
  lemma OneRound(now: Regions, c: string)
    requires c in now && now[c].Mapped?
    ensures var before, after := now[c].sr.recentKernel, AfterRound(now)[c].sr.recentKernel;
      && (after > 1 ==> before > 2 && after == before - 1)
      && (after >= 0 && before > 1 ==> after == before - 1)
  {
  }

  ghost predicate Unmarked(rs: Regions, c: string, n: nat) {
    forall m: nat :: 1 <= m < n ==>
      c in Rounds(rs, m) && Rounds(rs, m)[c].Mapped? && Rounds(rs, m)[c].sr.recentKernel >= 0
  }

  /** In the `n`-th round a container counts exactly when it started above `n` and was never marked. */
  lemma {:induction false} ActiveMarks(rs: Regions, c: string, n: nat)
    requires n > 0 && c in rs && rs[c].Mapped?
    ensures c in Rounds(rs, n - 1) && Rounds(rs, n - 1)[c].Mapped?
    ensures Active(Rounds(rs, n - 1), c) <==> rs[c].sr.recentKernel > n && Unmarked(rs, c, n)
    ensures Active(Rounds(rs, n - 1), c) ==> Rounds(rs, n - 1)[c].sr.recentKernel == rs[c].sr.recentKernel - (n - 1)
    decreases n
  {
    if n == 1 {
      assert Rounds(rs, 0) == rs;
    } else {
      ActiveMarks(rs, c, n - 1);
      OneRound(Rounds(rs, n - 2), c);
      UnmarkedStep(rs, c, n);
    }
  }

  lemma UnmarkedStep(rs: Regions, c: string, n: nat)
    requires n > 1 && c in Rounds(rs, n - 1) && Rounds(rs, n - 1)[c].Mapped?
    ensures Unmarked(rs, c, n) <==> Unmarked(rs, c, n - 1) && Rounds(rs, n - 1)[c].sr.recentKernel >= 0
  {
  }

  /** With the same containers counting, a round blocks whom the starting regions say. */
  lemma RoundFromStart(rs: Regions, now: Regions, n: nat, c: string)
    requires n > 0 && Later(rs, now, n - 1) && c in rs && rs[c].Mapped?
    requires forall d :: d in rs && rs[d].Mapped? ==> (Active(now, d) <==> ActiveIn(rs, d, n))
    ensures Blocked(now, rs[c].sr) <==> BlockedIn(rs, c, n)
  {
    var uuids := rs[c].sr.uuids;
    forall u, p
      ensures UseCount(now, u, p) > 0 <==> UsedIn(rs, u, n, p)
    {
      UsedFromStart(rs, now, n, u, p);
    }
    assert forall i :: FirstInUse(now, uuids, i) <==> FirstIn(rs, uuids, n, i);
    assert forall u :: Higher(now, u, rs[c].sr.priority) <==> HigherIn(rs, u, n, rs[c].sr.priority);
  }

  lemma UsedFromStart(rs: Regions, now: Regions, n: nat, u: string, p: int)
    requires n > 0 && Later(rs, now, n - 1)
    requires forall d :: d in rs && rs[d].Mapped? ==> (Active(now, d) <==> ActiveIn(rs, d, n))
    ensures UseCount(now, u, p) > 0 <==> UsedIn(rs, u, n, p)
  {
    if UseCount(now, u, p) > 0 {
      var d := SomeUser(now, u, p);
      assert d in rs && rs[d].Mapped? && LaterRegion(rs[d].sr, now[d].sr, n - 1);
    }
    if UsedIn(rs, u, n, p) {
      var d :| ActiveIn(rs, d, n) && rs[d].sr.priority == p && u in rs[d].sr.uuids;
      assert LaterRegion(rs[d].sr, now[d].sr, n - 1);
      UserCounts(now, u, d);
    }
  }

  /**
    Who is blocked after `n` rounds without new kernels, read off the starting regions, for any
    devices and any priority.
   */
  lemma {:induction false} BlockedAfter(rs: Regions, n: nat, c: string)
    requires n > 0 && c in rs && rs[c].Mapped?
    ensures c in Rounds(rs, n) && Rounds(rs, n)[c].Mapped?
    ensures Rounds(rs, n)[c].sr.recentKernel < 0 <==> BlockedIn(rs, c, n)
    decreases n
  {
    var now := Rounds(rs, n - 1);
    LaterRounds(rs, n - 1);
    forall d | d in rs && rs[d].Mapped?
      ensures Active(now, d) <==> ActiveIn(rs, d, n)
    {
      forall m: nat | 1 <= m < n
        ensures d in Rounds(rs, m) && Rounds(rs, m)[d].Mapped?
        ensures Rounds(rs, m)[d].sr.recentKernel < 0 <==> BlockedIn(rs, d, m)
      {
        BlockedAfter(rs, m, d);
      }
      ActiveMarks(rs, d, n);
    }
    RoundFromStart(rs, now, n, c);
    MarkNext(rs, now, n, c);
  }

  lemma MarkNext(rs: Regions, now: Regions, n: nat, c: string)
    requires n > 0 && Later(rs, now, n - 1) && c in rs && rs[c].Mapped?
    ensures c in AfterRound(now) && AfterRound(now)[c].Mapped?
    ensures AfterRound(now)[c].sr.recentKernel < 0 <==> Blocked(now, rs[c].sr)
  {
    MarkedExactly(now, c);
  }

  /** A container that counts, of a higher priority. */
  ghost predicate Above(rs: Regions, d: string, priority: int) {
    d in rs && rs[d].Mapped? && IsLevel(rs[d].sr.priority) && rs[d].sr.priority < priority
  }

  /**
    Bounded unblocking: once every container of higher priority has run out of recent kernels,
    a container is not blocked, whatever its priority.
   */
  lemma Unblocked(rs: Regions, n: nat, c: string)
    requires n > 0 && c in rs && rs[c].Mapped?
    requires forall d :: Above(rs, d, rs[c].sr.priority) ==> rs[d].sr.recentKernel <= n
    ensures c in Rounds(rs, n) && Rounds(rs, n)[c].Mapped? && Rounds(rs, n)[c].sr.recentKernel >= 0
  {
    LaterRounds(rs, n - 1);
    UnblockedNext(rs, Rounds(rs, n - 1), n, c);
  }

  lemma UnblockedNext(rs: Regions, now: Regions, n: nat, c: string)
    requires n > 0 && Later(rs, now, n - 1) && c in rs && rs[c].Mapped?
    requires forall d :: Above(rs, d, rs[c].sr.priority) ==> rs[d].sr.recentKernel <= n
    ensures c in AfterRound(now) && AfterRound(now)[c].Mapped? && AfterRound(now)[c].sr.recentKernel >= 0
  {
    var sr := rs[c].sr;
    MarkedExactly(now, c);
    forall i | 0 <= i < |sr.uuids|
      ensures !Higher(now, sr.uuids[i], sr.priority)
    {
      if sr.priority >= 1 && UseCount(now, sr.uuids[i], 0) > 0 {
        var d := UsedAt(rs, now, sr.uuids[i], n, 0);
        assert Above(rs, d, sr.priority);
      }
      if sr.priority >= 2 && UseCount(now, sr.uuids[i], 1) > 0 {
        var d := UsedAt(rs, now, sr.uuids[i], n, 1);
        assert Above(rs, d, sr.priority);
      }
    }
  }

  /** The container lists no other device. */
  ghost predicate OnlyDevice(sr: Region, uuid: string) {
    forall v :: v in sr.uuids ==> v == uuid || IsNull(v)
  }

  /**
    The bound is exact: a priority-1 container is blocked after `n` rounds if and only if a
    priority-0 container that started above `n` holds the first of its devices in use. With one
    device, that is as long as a priority-0 container has kernels left there.
   */
  lemma BlockedExactly(rs: Regions, n: nat, c: string)
    requires n > 0 && c in rs && rs[c].Mapped? && rs[c].sr.priority == 1
    ensures c in Rounds(rs, n) && Rounds(rs, n)[c].Mapped?
    ensures Rounds(rs, n)[c].sr.recentKernel < 0 <==> FirstIsHeld(rs, rs[c].sr.uuids, n)
    ensures forall uuid :: OnlyDevice(rs[c].sr, uuid) ==>
      (Rounds(rs, n)[c].sr.recentKernel < 0 <==> uuid in rs[c].sr.uuids && HeldAt(rs, uuid, n))
  {
    BlockedAfter(rs, n, c);
    HeldBlocks(rs, n, c);
    forall uuid | OnlyDevice(rs[c].sr, uuid)
      ensures FirstIsHeld(rs, rs[c].sr.uuids, n) <==> uuid in rs[c].sr.uuids && HeldAt(rs, uuid, n)
    {
      OneDevice(rs, rs[c].sr, n, uuid);
    }
  }

  /** In the `n`-th round the first of the devices that is in use is held at priority 0. */
  ghost predicate FirstIsHeld(rs: Regions, uuids: seq<string>, n: nat) {
    exists i :: FirstIn(rs, uuids, n, i) && HeldAt(rs, uuids[i], n)
  }

  lemma HeldBlocks(rs: Regions, n: nat, c: string)
    requires c in rs && rs[c].Mapped? && rs[c].sr.priority == 1
    ensures BlockedIn(rs, c, n) <==> FirstIsHeld(rs, rs[c].sr.uuids, n)
  {
    var uuids := rs[c].sr.uuids;
    forall i | FirstIn(rs, uuids, n, i)
      ensures HigherIn(rs, uuids[i], n, 1) <==> HeldAt(rs, uuids[i], n)
    {
      HeldFromStart(rs, uuids[i], n);
    }
  }

  lemma OneDevice(rs: Regions, sr: Region, n: nat, uuid: string)
    requires OnlyDevice(sr, uuid)
    ensures FirstIsHeld(rs, sr.uuids, n) <==> uuid in sr.uuids && HeldAt(rs, uuid, n)
  {
    if uuid in sr.uuids && HeldAt(rs, uuid, n) {
      var i := FirstOf(sr.uuids, uuid);
      HeldFromStart(rs, uuid, n);
      forall j | 0 <= j < i
        ensures !InUseIn(rs, sr.uuids[j], n)
      {
        assert sr.uuids[j] in sr.uuids[..i] && sr.uuids[j] in sr.uuids;
      }
      assert FirstIn(rs, sr.uuids, n, i);
    }
    if i :| FirstIn(rs, sr.uuids, n, i) && HeldAt(rs, sr.uuids[i], n) {
      assert sr.uuids[i] in sr.uuids;
    }
  }

  lemma {:induction false} FirstOf(uuids: seq<string>, uuid: string) returns (i: nat)
    requires uuid in uuids
    ensures i < |uuids| && uuids[i] == uuid && uuid !in uuids[..i]
    decreases |uuids|
  {
    if uuids[0] == uuid {
      return 0;
    }
    var k := FirstOf(uuids[1..], uuid);
    i := k + 1;
    assert uuids[..i] == [uuids[0]] + uuids[1..][..k];
  }

  /** Some device of the container is used by a container of higher priority. */
  ghost predicate Outranked(rs: Regions, sr: Region) {
    exists i :: 0 <= i < |sr.uuids| && Higher(rs, sr.uuids[i], sr.priority)
  }

  /**
    Only the first device in use is looked at: an outranked container goes on unblocked
    exactly when its first device in use is not used at a higher priority.
   */
  lemma OverlookedExactly(rs: Regions, sr: Region)
    ensures Blocked(rs, sr) ==> Outranked(rs, sr)
    ensures Outranked(rs, sr) && !Blocked(rs, sr) <==>
      Outranked(rs, sr) && exists i :: FirstInUse(rs, sr.uuids, i) && !Higher(rs, sr.uuids[i], sr.priority)
  {
    if Outranked(rs, sr) {
      var k :| 0 <= k < |sr.uuids| && Higher(rs, sr.uuids[k], sr.priority);
      var i := SomeFirstInUse(rs, sr.uuids, k);
    }
  }

  lemma {:induction false} SomeFirstInUse(rs: Regions, uuids: seq<string>, k: nat) returns (i: nat)
    requires k < |uuids| && InUse(rs, uuids[k])
    ensures FirstInUse(rs, uuids, i)
    decreases k
  {
    if j :| 0 <= j < k && InUse(rs, uuids[j]) {
      i := SomeFirstInUse(rs, uuids, j);
    } else {
      i := k;
    }
  }

  /** It happens: a busy equal on the first device hides a busy higher priority on the second. */
  lemma SecondDeviceOverlooked() returns (rs: Regions, sr: Region)
    ensures TwoPriorities(rs) && Mapped(sr) in rs.Values
    ensures Outranked(rs, sr) && !Blocked(rs, sr)
  {
    sr := Region(["gpu-1", "gpu-2"], 1, 0, 0);
    var equal, higher := Region(["gpu-1"], 1, 5, 0), Region(["gpu-2"], 0, 5, 0);
    rs := map["c" := Mapped(sr), "equal" := Mapped(equal), "higher" := Mapped(higher)];
    assert rs["c"] == Mapped(sr);
    var uses := Uses(rs, rs.Keys);
    var u: Use, v: Use := ("equal", 0), ("higher", 0);
    assert u in uses && v in uses;
    assert u in UsesOf(rs, uses, "gpu-1", 1) && v in UsesOf(rs, uses, "gpu-2", 0);
    assert UsesOf(rs, uses, "gpu-1", 0) == {};
    assert sr.uuids[1] == "gpu-2" && FirstInUse(rs, sr.uuids, 0);
    OverlookedExactly(rs, sr);
  }
}
