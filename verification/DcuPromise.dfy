/**
  Why at most 100 percent of a DCU card is promised at any time: the shares the plugin holds
  are recorded by the scheduler, which keeps their sum within the card's 100 cores.
 */
module DcuPromise {
  import opened Usages
  import opened Schedulers
  import opened SchedulerRuns
  import DcuRuns
  import opened HandOff

  /** What the containers of one pod hold of the card. */
  datatype Group = Group(uid: string, held: seq<DcuRuns.Held>)

  function AllHeld(groups: seq<Group>): seq<DcuRuns.Held> {
    if groups == [] then [] else AllHeld(groups[..|groups| - 1]) + groups[|groups| - 1].held
  }

  /** Each group belongs to another recorded pod, and holds no more of the card than the pod's record. */
  ghost predicate Backed(pods: Pods, node: string, id: string, groups: seq<Group>) {
    && (forall i, j :: 0 <= i < j < |groups| ==> groups[i].uid != groups[j].uid)
    && (forall g :: g in groups ==>
          && g.uid in pods && pods[g.uid].nodeId == node
          && DcuRuns.Percents(g.held) <= PodUsage(pods[g.uid].devices, id).cores)
  }

  lemma {:induction false} PercentsAppend(a: seq<DcuRuns.Held>, b: seq<DcuRuns.Held>)
    ensures DcuRuns.Percents(a + b) == DcuRuns.Percents(a) + DcuRuns.Percents(b)
    decreases |b|
  {
    if b == [] {
      assert a + b == a;
    } else {
      var n := |b| - 1;
      PercentsAppend(a, b[..n]);
      assert (a + b)[..|a + b| - 1] == a + b[..n];
    }
  }

  lemma {:induction false} BackedSum(pods: Pods, node: string, id: string, groups: seq<Group>)
    requires NonNegativePods(pods) && Backed(pods, node, id, groups)
    ensures DcuRuns.Percents(AllHeld(groups)) <= PodsUsage(pods, node, id).cores
    decreases |groups|
  {
    if groups == [] {
      PodsPlausible(pods, node, id);
    } else {
      var n := |groups| - 1;
      var g, rest := groups[n], pods - {groups[n].uid};
      assert g in groups;
      assert Backed(rest, node, id, groups[..n]) by {
        forall h | h in groups[..n]
          ensures h in groups && h.uid in rest
        {
          var i :| 0 <= i < n && groups[..n][i] == h;
          assert groups[i].uid != groups[n].uid;
        }
      }
      BackedSum(rest, node, id, groups[..n]);
      PodsUsageRemove(pods, g.uid, node, id);
      PercentsAppend(AllHeld(groups[..n]), g.held);
    }
  }

  /**
    In every state of every run of the scheduler, the shares held of a card that registers 100
    cores, as DCU cards do, sum to at most 100 percent.
   */
  lemma HeldWithinCard(caps: Capacities, support: Annotations, states: seq<State>,
                       events: seq<Event>, k: nat, node: string, id: string, groups: seq<Group>)
    requires ValidCapacities(caps) && Run(caps, support, states, events) && k < |states|
    requires node in caps && id in caps[node] && caps[node][id].devcore <= 100
    requires Backed(states[k].pods, node, id, groups)
    ensures DcuRuns.Percents(AllHeld(groups)) <= 100
  {
    RunIsSafe(caps, support, states, events, k);
    BackedSum(states[k].pods, node, id, groups);
  }

  /** So an allocation whose share is recorded is allowed, next to all live containers whose shares are. */
  lemma RecordedIsAllowed(caps: Capacities, support: Annotations, states: seq<State>,
                          events: seq<Event>, k: nat, node: string, id: string,
                          groups: seq<Group>, live: seq<DcuRuns.Held>, percent: nat)
    requires ValidCapacities(caps) && Run(caps, support, states, events) && k < |states|
    requires node in caps && id in caps[node] && caps[node][id].devcore <= 100
    requires Backed(states[k].pods, node, id, groups)
    requires DcuRuns.Percents(AllHeld(groups)) == DcuRuns.Percents(live) + percent
    ensures DcuRuns.Allowed(live, DcuRuns.Allocate(percent))
  {
    HeldWithinCard(caps, support, states, events, k, node, id, groups);
  }
}
