# A verified model of the vGPU scheduler and its device plugins

This project models, in Dafny, the parts of a Kubernetes vGPU scheduler that decide who gets
which share of which accelerator, and proves what those decisions guarantee:

- the scheduler extender's allocator (`pkg/scheduler`): the greedy NUMA-aware search, the
  placement of a whole pod, the choice of a node, the pod and node maps, and safety over whole
  runs of filters, failed patches, deletions, registrations and restarts;
- the annotation codec and the hand-off to the device plugins (`pkg/util`);
- the DCU compute-unit masks (`pkg/device-plugin/hygon/dcu`);
- the distribution of NVIDIA replicas over GPUs (`pkg/device-plugin/nvidiadevice`);
- the MLU-link groups and the two MLU slot allocators (`pkg/device-plugin/mlu`);
- the monitor's priority feedback (`cmd/vGPUmonitor`).

Code that works by changing things step by step is modelled by methods with loops, arrays and
classes (`Scheduler`, `Plugin`, `Monitor`), each proved against a specification that does not
repeat its body; the results about that specification are lemmas. Go's unstable sort, its random
map order and the order of directory listings are arbitrary: a sort promises a permutation ordered
by `Less` and nothing more, and every iteration over a map picks its next key arbitrarily, so all
results hold for every order.

## Layout

| file | content |
|---|---|
| `Sorting.dfy`, `Sets.dfy`, `Text.dfy`, `Results.dfy` | sorting, finite sets, splitting and joining text, decimal numbers, failure |
| `Devices.dfy`, `Usages.dfy` | cards, requests and shares; sums of shares over containers, kinds and pods |
| `Fitting.dfy`, `Placement.dfy`, `Scoring.dfy`, `PodScoring.dfy` | one request, its charges, one container, one pod |
| `ScoreSums.dfy`, `Recording.dfy` | the sums the score divides, what is recorded for a pod, and what a recorded share counts for |
| `Schedulers.dfy`, `SchedulerRuns.dfy` | the scheduler's state and filter, safety over runs |
| `Decisions.dfy`, `NodeChoice.dfy` | what a decision contains in terms of requests and cards, and which node wins |
| `SchedulerLimits.dfy`, `Completeness.dfy`, `Crashes.dfy`, `OneCardRuns.dfy` | which pods are accepted, when they are served, when the filter panics, and runs that show where the promises end |
| `NodeAnnotations.dfy`, `PodAnnotations.dfy`, `HandOff.dfy`, `Deliveries.dfy` | the annotation formats, restart, hand-off, and which container is served |
| `Numerals.dfy`, `CoreMask.dfy`, `Dcu.dfy`, `DcuRuns.dfy`, `DcuPromise.dfy` | hexadecimal text, masks, the plugin that keeps them, runs on one card, and why at most 100 percent is promised |
| `AnnotatedIds.dfy`, `Replicas.dfy` | replica identifiers and their even distribution |
| `LinkGroups.dfy`, `MluBoards.dfy`, `MluRings.dfy`, `SpiderAllocator.dfy`, `BoardAllocator.dfy` | MLU topology |
| `Feedback.dfy` | the monitor's feedback rounds |

## Main results

- **No overcommit, in any run** (`SchedulerRuns.RunIsSafe`): slots, memory and cores, summed over all
  recorded pods, stay within every card's capacity. No counter wraps, even in the middle of a filter
  (`CountersStayInRange`), nor do the sums the score divides, whose denominator is positive
  (`ScoreSumsStayInRange`).
- **A card given out whole is never shared, if and only if** it registers at most 100 cores or has one
  slot (`OneCardRuns.ExclusiveExactly`).
- **The search is sound and complete** (`Fitting.FitInCertainDevice`), with NUMA binding and without, and
  so is the filter for pods with at most one kind per container, when no card type is accepted for two
  kinds (`Completeness.ScheduledExactly`); which pods a node accepts, whatever their containers ask for, is
  `Completeness.AcceptedApart`.
- **A decision says what was asked** (`Decisions.RecordedAsAsked`): every recorded share is on a card of the
  chosen node and holds the cores and the memory of a request. A pod that wants one card is scheduled if and
  only if some card has room next to what is recorded on it (`Decisions.OneCardScheduledExactly`).
- **Which cards and which node**: the cards taken are those on the highest NUMA node with the most free slots
  (`Fitting.ChosenAreHighest`, in every run through `Scoring.FitRequest`); a node with more cards, or whose
  taken cards have fewer free slots, wins over one that is otherwise alike (`NodeChoice.BetterNodeWins`).
- **The filter panics if and only if** some considered node can serve everything up to a request-less
  container that follows a requesting one (`Crashes.FilterCrashesExactly`), whatever the map orders.
- **What is charged while filtering is what is recomputed later, if and only if** no container was
  served for two kinds; for a pod served in full, if and only if none asks for two
  (`SchedulerRuns.TentativeAgreesExactly`).
- **Restarts lose nothing, if and only if** every kind in use has an annotation (`HandOff.RestartExactly`),
  **and add nothing, if and only if** no dropped pod keeps shares in its annotations
  (`SchedulerRuns.RestartKeepsUsage`).
- **A request is delivered once** (`HandOff.DeliveredOnce`), **to the right container if and only if** it is
  the first and no other asks for the kind (`Deliveries.RightForRequests`).
- **DCU grants are exact and disjoint in every run** (`DcuRuns.RunIsExact`), because the scheduler's runs
  promise at most 100 percent of a card (`DcuPromise.RecordedIsAllowed`).
- **Replica distribution is min-max optimal** (`Replicas.DistributedAlloc`).
- **The MLU-link search terminates and finds exactly the reachable slots**
  (`LinkGroups.GetMLULinkGroups`); **ring-less allocation keeps the largest possible block of slots
  together** (`SpiderAllocator.Allocate` with `MluBoards.LargestFreeBoard`).
- **Blocked containers are released in bounded time, and the bound is exact** (`Feedback.Unblocked`,
  `Feedback.BlockedExactly`); who is blocked after n rounds is read off the starting regions
  (`Feedback.BlockedAfter`); a round panics exactly on the regions `Feedback.Panics` describes.

## Where the code departs from what it is for

Each of these is a lemma with a concrete input or an exact condition.

- A container that asks for two kinds has the first kind's cards recorded twice, because one list is
  reused across kinds: recorded and charged usage differ (`Recording.RecordAgreesExactly`), and the
  recorded sums can exceed a card (`SchedulerLimits.TwoKindsOvercommit`).
- A pod is accepted when the number of recorded kinds equals the number of containers: two containers
  that ask for the same kind are never accepted, nor is a pod with a request-less container when the others
  ask for one kind each (`SchedulerLimits.AcceptedExactly`), and a container
  that asks for two kinds is accepted if and only if the first one visited can be served and the other
  cannot (`Completeness.PartlyServedIsAccepted`; such a run is `OneCardRuns.PartlyServedRun`).
- A container without requests, after one that was served, makes the padding index a list out of range
  (`PodScoring.PaddingOutOfRange`): the filter of such a pod has no other outcome than a panic
  (`OneCardRuns.PaddingCrashes`). No pod whose request-less containers come first panics
  (`Crashes.EmptiesFirstIsSafe`), and `Crashes.FilterCrashesExactly` says exactly which do on which nodes.
- Where a card is accepted for two kinds, the 32-bit sums of the score can exceed the node's slots
  (`OneCardRuns.SharedCardRun`).
- An informer event is safe if and only if its pod is recorded (`OneCardRuns.SyncSafeExactly`); a run in which
  a pod is scheduled, dropped by a second filter and brought back by such an event overcommits a card
  (`OneCardRuns.StaleSyncOvercommits`).
- A request for 100 cores is not exclusive on a card with scaled-up cores, although `docs/config.md:22`
  promises it for every card (`OneCardRuns.SharedRun`).
- The percentage of a card's memory is exact if and only if the product fits 32 bits
  (`Devices.PercentageExactly`); one that wraps can be negative (`Devices.PercentageWraps`).
- An annotation whose only shares stand behind as many semicolons as the pod has containers makes the plugin
  index out of range (`HandOff.OutOfRangeExactly`, with such texts in `HandOff.ForeignTextPanics`). The filter
  writes no such text: what it writes is found under the first container (`HandOff.HandedOver`).
- A container of a priority that has no switch panics the feedback round when it is active on a device, and
  one of negative priority when it lists a device in use (`Feedback.Monitor.Observe`).
- The semicolon between containers is written once, after all of them, so the per-container lists
  expected by `pkg/util/util_test.go:49-64` survive only in one shape
  (`PodAnnotations.ListsSurviveExactly`). The record of a kind has a list only for the containers that ask
  for it, so shares reach the wrong container whenever that is not the first (`Deliveries.RightContainerExactly`,
  with a scheduled pod in `Deliveries.WrongContainer`).
- A card whose unit count is not a multiple of four cannot be granted whole
  (`DcuRuns.WholeCardExactly`); two grants without a refresh between them overlap
  (`DcuRuns.UnrefreshedOverlap`).
- Replica identifiers that contain a mark do not survive (`AnnotatedIds.AnnotatedRoundTrip`).
- With no MLU at all, slot 0 is still reported as a group (the partition clause of
  `LinkGroups.GetMLULinkGroups`).
- Blocking looks only at a container's first device in use (`Feedback.OverlookedExactly`,
  `Feedback.SecondDeviceOverlooked`).

## Model

| member | source | states |
|---|---|---|
| `Devices.ProductExactly` | pkg/scheduler/score.go:120-120 | the percentage of two 32-bit numbers, as Go computes it, is the exact floor if and only if the product fits 32 bits |
| `Devices.PercentageExactly` | pkg/scheduler/score.go:118-121 | for 32-bit totals and percentages, the share is the exact floor of the percentage if and only if the product fits 32 bits |
| `Devices.BelowZeroExactly` | pkg/scheduler/score.go:118-121 | a share is priced below zero if and only if the product, modulo 2^32, lies between 2^31 and 2^32 - 100 |
| `Devices.PercentageIsExact` | pkg/scheduler/score.go:115-121 | hence on cards up to 21474836 MiB every percentage up to 100 is exact, between 0 and the card |
| `Devices.PercentageWraps` | pkg/scheduler/score.go:118-121 | and one MiB more prices a request for the whole card below zero |
| `Fitting.LessIsStrictWeakOrder` | pkg/scheduler/score.go:45-50 | the comparison of cards is a strict weak order, so sorting by it is meaningful |
| `Fitting.NewGroup` | pkg/scheduler/score.go:100-105 | because the sort makes NUMA groups contiguous, a group met for the first time has no usable card already passed: resetting the list loses nothing |
| `Fitting.Examine` | pkg/scheduler/score.go:107-139 | the tests of one card, in order: it fits if and only if a slot is free, memory and cores suffice and no exclusive use is broken |
| `Decisions.PriceMeans` | pkg/scheduler/score.go:111-121 | a request's own memory figure is taken as it is, whatever the percentage; without figure and percentage nothing is taken; otherwise the floor of the percentage |
| `Decisions.RoomExactly` | pkg/scheduler/score.go:107-139 | a card has room for a share if and only if slots, memory and cores stay within the card with it, it asks for at most 100 cores, no whole 100-core card in use is asked for, and no share without cores goes to a card all of whose cores are given |
| `Decisions.RecordedAsAsked` | pkg/scheduler/score.go:142-150 | every share a filter records is on a card of the chosen node and holds the kind, the cores and the memory some request of the pod asks for |
| `Decisions.OneCardScheduledExactly` | pkg/scheduler/scheduler.go:354-407 | a pod that wants one card is scheduled if and only if some card of a named and registered node is accepted and has room next to what is recorded on it, written out in capacities and sums |
| `Decisions.UnusedCardServes` | pkg/scheduler/score.go:107-139 | a card on which nothing is recorded serves every request within its memory and cores, the whole card included |
| `Decisions.PassedThroughExactly` | pkg/scheduler/scheduler.go:354-366 | a pod is passed through untouched if and only if no container asks for anything |
| `Decisions.OnlyOwnRecord` | pkg/scheduler/scheduler.go:354-407 | a filter touches no other pod's record; its own is there afterwards if and only if it was scheduled or passed through; the failed nodes it reports are the unregistered ones |
| `Fitting.FitInCertainDevice` | pkg/scheduler/score.go:86-157 | succeeds if and only if some group (all cards, or one NUMA node under numa-bind) holds enough usable cards; then returns that many different usable cards of one group, each at its index, and no usable card of the group above a chosen one is left out; under numa-bind the group is the highest NUMA node with enough usable cards |
| `Fitting.ChosenAreHighest` | pkg/scheduler/score.go:45-50 | in a sorted list every chosen card is on a higher NUMA node than each usable card that is left, or on the same one with at least as many free slots; with NUMA binding, than those of its own node |
| `Placement.PicksAreLegal` | pkg/scheduler/score.go:175-181 | the shares of one request are chosen together, yet each still has room after the ones before it are charged |
| `Placement.FreeSlotsPositive` | pkg/scheduler/score.go:175-189 | every share meets a free slot, so the score's denominator is at least the number of shares (that the 32-bit sum is this number is `SchedulerRuns.ScoreSumsStayInRange`) |
| `Placement.TakeShares` | pkg/scheduler/score.go:175-181 | charging by index in the sorted list charges exactly the cards the shares name, and sums their slots and free slots |
| `Scoring.FitRequest` | pkg/scheduler/score.go:166-186 | sort, search and charge one request: fits if and only if the cards as charged so far can serve it; the cards taken are ahead of all usable ones that are left, in NUMA node and free slots, and under numa-bind from the highest node with enough; afterwards the list is a permutation of the cards charged with exactly the new shares |
| `Scoring.ServeOne` | pkg/scheduler/score.go:167-187 | one turn of the loop over requests: what it charges, records and sums when the request can be served, and that it changes nothing otherwise |
| `Scoring.ServeRequests` | pkg/scheduler/score.go:161-188 | the loop over a container's requests: what is served, charged, recorded and summed for the score, and that the first unserved request cannot be served |
| `Scoring.FitInDevices` | pkg/scheduler/score.go:159-190 | serves requests in order, stops at the first that cannot be served, leaves the list charged with exactly what was served, records the accumulated list for each kind, and scores |
| `NodeChoice.ScoreBounds` | pkg/scheduler/score.go:189-189 | a served container scores the cards it leaves, plus at least 1 and at most the slots of the cards it takes |
| `NodeChoice.SlotsOfOne` | pkg/scheduler/score.go:176-177 | a share counts the slots of its card, and those free when it is given |
| `NodeChoice.ScoreIsSum` | pkg/scheduler/score.go:213-216 | a pod's score is the sum over its containers; one without requests or not served in full adds nothing |
| `NodeChoice.BetterScoresHigher` | pkg/scheduler/score.go:189-189 | where the cards taken have equally many slots, a node with more cards scores higher, and so does one with as many cards whose taken cards have fewer free slots |
| `NodeChoice.BetterNodeWins` | pkg/scheduler/scheduler.go:380-391 | the filter does not choose the other of two such nodes |
| `Scoring.ServedIsLegal` | pkg/scheduler/score.go:166-187 | every share of a run goes to a card that has room for it at that moment |
| `ScoreSums.TotalOfDistinct` | pkg/scheduler/score.go:175-177 | shares on different cards sum exactly the slots of those cards |
| `ScoreSums.ContainerSums` | pkg/scheduler/score.go:162-181 | after any number of a container's shares: at least as many free slots as shares, at most as many as slots, at most the node's slots per request, and at most the node's slots when the shares are on different cards |
| `ScoreSums.SeparateKindsDiffer` | pkg/scheduler/score.go:71-84 | a container's shares are on different cards when no card type is accepted for two kinds |
| `ScoreSums.SharedCardCountsTwice` | pkg/scheduler/score.go:175-177 | two shares of the same card count its slots twice (a run that does so is `OneCardRuns.SharedCardRun`) |
| `PodScoring.ScoreContainers` | pkg/scheduler/score.go:199-220 | the loop over containers: record, score and charged usage are those of the requests served before the first that cannot be; it panics if and only if all containers so far were served, something is recorded and the next container asks for nothing; otherwise it went through all containers or stopped at a request that cannot be served |
| `PodScoring.ScoreNode` | pkg/scheduler/score.go:194-224 | a node is accepted if and only if it has as many recorded kinds as the pod has containers; otherwise rejected, and it panics if and only if the run reaches a crash point |
| `PodScoring.PaddingOutOfRange` | pkg/scheduler/score.go:205-208 | no recorded kind has a list at the current container's position, so the padding access panics if and only if anything is recorded (before the call: `Crashes.CrashExactly`) |
| `Recording.RecordAgrees` | pkg/scheduler/score.go:182-187 | with at most one served kind per container the record charges every card exactly what was placed on it |
| `Recording.SecondKindCountsTwice` | pkg/scheduler/score.go:161-187 | a container served for two kinds is recorded with one slot too many on its first card |
| `Recording.RecordAgreesExactly` | pkg/scheduler/score.go:161-187 | record and placement agree on all cards if and only if no container was served for two kinds; for a run that serves everything, if and only if no container asks for two |
| `Recording.ShareIsCounted` | pkg/scheduler/scheduler.go:283-295 | one more recorded share adds one slot, its memory and its cores to its own card on the pod's node, and nothing to any other card or node |
| `Recording.NothingIsCounted` | pkg/scheduler/scheduler.go:278-297 | no pods, and pods without shares, take nothing |
| `Schedulers.ChargePod` | pkg/scheduler/scheduler.go:283-295 | charging a recorded pod, kinds in any order, adds to each card the sum of the pod's shares on it |
| `Schedulers.OverallUsage` | pkg/scheduler/scheduler.go:257-297 | every registered node's table shows each card with the sum over all recorded pods, whatever the map orders; pods on unknown nodes are ignored |
| `Schedulers.TryNode` | pkg/scheduler/score.go:194-224 | the try of one node, each container's requests in any order: accepted with the record and score of that order, rejected, or panicked, the last if and only if that order reaches a crash point |
| `Schedulers.CalcScore` | pkg/scheduler/score.go:192-226 | every considered node is tried, its requests in an order of its own, and the score list holds exactly the accepted ones with their records and scores |
| `Schedulers.BestScore` | pkg/scheduler/scheduler.go:389-390 | the last entry of the sorted list is one whose score no entry exceeds |
| `Schedulers.Choose` | pkg/scheduler/scheduler.go:380-391 | no node is chosen only if none is accepted; a chosen node is accepted and has the highest score |
| `Schedulers.DecisionAnnotations` | pkg/scheduler/scheduler.go:392-398 | the annotations of a decision name the node and carry the record under both annotation families |
| `Schedulers.Scheduler.constructor` | pkg/scheduler/scheduler.go:56-65 | a scheduler starts with no nodes and no pods |
| `Schedulers.Scheduler.AddNode` | pkg/scheduler/nodes.go:59-74 | an empty list changes nothing; otherwise the cards are appended to the node's |
| `Schedulers.Scheduler.RmNodeDevice` | pkg/scheduler/nodes.go:76-101 | keeps, in order, the cards that are not named and have an identifier; panics, changing nothing, when more cards are named than a non-empty node has |
| `Schedulers.RemainingExactly` | pkg/scheduler/nodes.go:84-97 | a card is kept if and only if it has an identifier and is not named, and the kept cards stay in order |
| `Schedulers.Scheduler.AddPod` | pkg/scheduler/pods.go:46-55 | records the pod unless its identifier is already recorded |
| `Schedulers.Scheduler.DelPod` | pkg/scheduler/pods.go:57-65 | drops the pod's record and no other |
| `Schedulers.Scheduler.GetNodesUsage` | pkg/scheduler/scheduler.go:247-310 | for each registered named node, every card in its place with its identifier, type, NUMA node, health and capacities, and with the sums over all recorded pods; the failed nodes are exactly the unregistered ones |
| `Schedulers.Scheduler.Filter` | pkg/scheduler/scheduler.go:354-407 | the whole effect on the pod map by outcome: untouched without requests; the old record dropped when nothing fits or the patch fails; otherwise replaced by the record of an accepted node of highest score, tried on usage without the pod; it panics only if some considered node's run reaches a crash point, and every other outcome means that all considered nodes were tried to the end (before the call: `Crashes.FilterCrashesExactly`); the annotations carry that record |
| `SchedulerRuns.LegalIsSafe` | pkg/scheduler/score.go:107-139 | legal shares keep a card within capacity in all dimensions and keep a whole share alone |
| `SchedulerRuns.SingleKindIsAllowed` | pkg/scheduler/scheduler.go:354-407 | a filter for a pod whose containers ask for one kind each never records a container served for two kinds |
| `SchedulerRuns.EventKeeps` | pkg/scheduler/scheduler.go:73-106 | every allowed event (filter, removal, repeated informer event, registration, unregistration, restart) keeps the invariant |
| `SchedulerRuns.RunIsSafe` | pkg/scheduler/scheduler.go:354-407 | in every state of every run from the empty state whose filters record no container served for two kinds, recorded slots, memory and cores of every card are within capacity, each a sum over all recorded pods |
| `SchedulerRuns.ExclusiveStaysExclusive` | docs/config.md:22 | in every state of every run, a recorded share of 100 cores on a card with at most 100 cores or one slot is the only share on it |
| `SchedulerRuns.CountersStayInRange` | pkg/scheduler/score.go:107-122 | in every state of every run, after any number of tentative shares, every counter of every card is between 0 and the card's capacity, hence within 32 bits |
| `SchedulerRuns.ScoreSumsStayInRange` | pkg/scheduler/score.go:162-189 | in every state of every run, on every node, after any number of a container's shares, the sums of slots and free slots satisfy: shares <= free <= total <= the node's slots, hence within 32 bits when these are - for one request, for requests of different kinds when no card type is accepted for two, and for any requests on different cards; otherwise total <= the node's slots times the requests |
| `SchedulerRuns.RereadUsage` | pkg/scheduler/scheduler.go:87-88 | usage rebuilt from all pods that carry the node annotation is the recorded usage plus what dropped pods bring back, for every node and card |
| `SchedulerRuns.RestartKeepsUsage` | pkg/scheduler/scheduler.go:73-89 | a restart changes the usage of no card if and only if no dropped pod keeps shares in its annotations |
| `SchedulerRuns.TentativeAgreesExactly` | pkg/scheduler/score.go:172-187 | the node's usage as charged during the filter equals the usage rebuilt with the new pod recorded if and only if no container was served for two kinds; for a pod served in full, if and only if no container asks for two |
| `SchedulerLimits.AcceptedExactly` | pkg/scheduler/score.go:221-223 | when no container asks for two kinds, acceptance means: every container asks for one, all are served and all kinds are different |
| `Completeness.ServedExactly` | pkg/scheduler/score.go:166-187 | requests for different kinds, when no card type is accepted for two, are all served if and only if each alone can be served by the cards as they are |
| `Completeness.RecordKinds` | pkg/scheduler/score.go:182-220 | the recorded kinds are those of the requests served, in the order of containers and requests |
| `Completeness.AcceptedApart` | pkg/scheduler/score.go:199-223 | a pod whose requests do not compete for cards, however they are spread over its containers, is accepted on a node if and only if, in the order visited, as many requests as it has containers can be served and the next one, if any, cannot |
| `Completeness.PodAccepted` | pkg/scheduler/score.go:199-223 | a pod whose containers ask for one kind each, all different, is accepted on a node if and only if each container alone can be served |
| `Completeness.TwoKindsAccepted` | pkg/scheduler/score.go:221-223 | the acceptance test lets one container with two kinds pass if and only if exactly one is served |
| `Completeness.PartlyServedIsAccepted` | pkg/scheduler/score.go:221-223 | one container asking for two kinds is accepted if and only if the first one visited can be served and the second cannot |
| `Completeness.ScheduledExactly` | pkg/scheduler/scheduler.go:354-407 | for pods whose containers ask for at most one kind each, and no card type accepted for two kinds, the filter finds a node if and only if every container asks for a kind, the kinds are all different and some named and registered node can serve each request next to all other recorded pods; one container needs no condition on card types |
| `Crashes.EmptiesFirstIsSafe` | pkg/scheduler/score.go:205-208 | a pod whose request-less containers come before all others never reaches the padding with anything recorded, on any node and in any order |
| `Crashes.PitfallStops` | pkg/scheduler/score.go:199-220 | when everything before a request-less container that follows a requesting one can be served, no run stops before that container and none gets past it |
| `Crashes.CrashExactly` | pkg/scheduler/score.go:205-208 | when the requests before request-less containers do not compete for cards, a node's run crashes if and only if a request-less container follows one with requests and everything before it can be served; then no run ends otherwise |
| `Crashes.FilterCrashesExactly` | pkg/scheduler/scheduler.go:354-407 | under the same condition on the requests, the filter panics if and only if some named and registered node can serve everything before such a container next to all other recorded pods, whatever the order of nodes and requests; the pod's record is then gone |
| `SchedulerLimits.TwoKindsOvercommit` | pkg/scheduler/score.go:161-187 | the first filter after a node is registered can record more slots on a card than it has, when a container asks for two kinds |
| `OneCardRuns.ExclusiveExactly` | pkg/scheduler/score.go:130-139 | over all runs, a recorded share of 100 cores is alone on its card if and only if the card has at most 100 cores or one slot |
| `OneCardRuns.SharedRun` | pkg/device-plugin/nvidiadevice/nvinternal/plugin/register.go:149-157 | for any card with more than 100 cores and two slots, a run that puts a share next to a share of 100 cores |
| `OneCardRuns.SyncSafeExactly` | pkg/scheduler/pods.go:46-55 | in any safe state, an informer event for a pod keeps safety whatever it carries if and only if the pod is recorded |
| `OneCardRuns.StaleSyncOvercommits` | pkg/scheduler/scheduler.go:73-89 | for any card with one slot, a run that schedules a pod, drops it by a second filter and gives its slot away, after which the informer event with the pod's own annotations records two shares on the slot |
| `OneCardRuns.PaddingCrashes` | pkg/scheduler/score.go:205-208 | for any card with room, every possible outcome of the first filter of a pod with a request-less second container is a panic |
| `OneCardRuns.PartlyServedRun` | pkg/scheduler/score.go:221-223 | a container that asks for two kinds is scheduled on a node that has only the first |
| `OneCardRuns.SharedCardRun` | pkg/scheduler/score.go:175-177 | for any card with two slots accepted for two kinds, a served container whose slots sum to more than the node's |
| `NodeAnnotations.EncodeNodeDevices` | pkg/util/util.go:111-118 | the text is the comma-joined fields of each card, each record ended by a colon |
| `NodeAnnotations.DecodeNodeDevices` | pkg/util/util.go:78-109 | parts without a comma are skipped; a part without exactly seven fields fails the whole text |
| `NodeAnnotations.NodeRoundTrip` | pkg/util/util.go:78-118 | decoding an encoded list returns it, index aside, if and only if the list is not empty and no identifier or type contains a separator |
| `NodeAnnotations.EncodesProtocol` | docs/develop/protocol.md:14-17 | each card is written as identifier, slots, memory, cores, type, NUMA node and health, in that order |
| `NodeAnnotations.DecodesProtocol` | docs/develop/protocol.md:14-17 | the text of a card in that order, free of separators and with 64-bit numbers, decodes to exactly these fields, slots, memory and cores cut to their low 32 bits |
| `NodeAnnotations.RefusedExactly` | pkg/util/util.go:79-106 | a text is refused if and only if it has no colon, or some part with commas has not exactly six |
| `NodeAnnotations.ExampleCard` | docs/develop/protocol.md:19-25 | a card of 10 slots, 32768 MiB and 100 cores, in digits |
| `Text.ItoaText` | pkg/util/util.go:114-114 | numbers are written in decimal digits without leading zeros, a minus sign first |
| `Text.ItoaNearest` | pkg/util/util.go:182-185 | a number that is written and read back comes to the nearest one in range |
| `Text.ReadsSigns` | pkg/util/util.go:88-92 | a plus sign is read over, and text that is not a number reads as zero |
| `Text.ReadsBools` | pkg/util/util.go:91-91 | the six texts that read as true |
| `PodAnnotations.EncodeContainerDevices` | pkg/util/util.go:120-128 | the text is the comma-joined fields of each share, each record ended by a colon |
| `PodAnnotations.DecodeContainerDevices` | pkg/util/util.go:162-191 | parts without a comma are skipped; a part with fewer than four fields fails the list |
| `PodAnnotations.ListRoundTrip` | pkg/util/util.go:120-191 | one list of shares survives, positions aside |
| `PodAnnotations.EncodesShares` | pkg/util/util.go:122-124 | each share is written as identifier, type, memory and cores, in that order |
| `PodAnnotations.DecodesShares` | pkg/util/util.go:175-187 | the text of a share in that order, free of separators, decodes to exactly these fields, memory and cores as the nearest 32-bit numbers |
| `PodAnnotations.ListRefusedExactly` | pkg/util/util.go:174-179 | a list is refused if and only if some part has one or two commas |
| `PodAnnotations.AnnotationRefusedExactly` | pkg/util/util.go:204-208 | an annotation is refused if and only if some list between its semicolons is |
| `PodAnnotations.EncodePodSingleDevice` | pkg/util/util.go:142-150 | all containers' shares are written one after the other, with one semicolon at the end |
| `PodAnnotations.SingleRoundTrip` | pkg/util/util.go:142-214 | decoding gives all shares flattened into one list, followed by an empty list |
| `PodAnnotations.ListsSurviveExactly` | pkg/util/util_test.go:49-64 | the per-container lists survive if and only if there are two and the second is empty |
| `PodAnnotations.TwoContainersMerge` | pkg/util/util_test.go:49-64 | two containers with one share each come back as one container with two |
| `HandOff.EncodePodDevices` | pkg/util/util.go:152-160 | one entry per annotation, each written from a kind that belongs to it, whatever the map order |
| `HandOff.PatchCarries` | pkg/util/util.go:152-160 | patched into a pod without such annotations, the entries make it carry its record for every supported kind |
| `HandOff.DecodePodDevices` | pkg/util/util.go:193-214 | every supported kind present is decoded; one malformed entry makes the pod read as empty |
| `HandOff.RefusedTextEmptiesPod` | pkg/util/util.go:204-208 | one part with too few fields, under any supported kind, makes the whole pod read as empty |
| `HandOff.CarriedPod` | pkg/util/util.go:193-214 | a pod that carries its record decodes to that record with the containers of each supported kind merged |
| `HandOff.RestartUsage` | pkg/scheduler/scheduler.go:278-297 | usage of the record equals usage of the decoded annotations plus that of the unsupported kinds |
| `HandOff.RestartExactly` | pkg/scheduler/scheduler.go:87-88 | a restarted scheduler counts every card as before if and only if every kind that holds shares is supported |
| `HandOff.GetNextDeviceRequest` | pkg/util/util.go:216-234 | the first container that still holds shares of the kind, and those shares; out of range when the pod has no container at that position; not found when the kind is missing or empty |
| `HandOff.OutOfRangeExactly` | pkg/util/util.go:228-232 | the lookup panics if and only if shares are listed, but none within the pod's containers |
| `HandOff.ForeignTextPanics` | pkg/util/util.go:228-232 | for every number of containers, a text with shares behind as many semicolons panics the lookup |
| `HandOff.EraseNextDeviceType` | pkg/util/util.go:244-271 | rewrites only the kind's annotation, with the first list that holds shares emptied |
| `HandOff.ErasedExactly` | pkg/util/util.go:254-264 | erasing empties the first list that holds shares and leaves every other as it is |
| `HandOff.HandedOver` | pkg/util/util.go:216-234 | what is handed over is the full list of shares the filter chose, in order, memory and cores intact, to the first container |
| `HandOff.DeliveredOnce` | pkg/util/util.go:244-271 | after one erase and re-encoding no request of the kind is found |
| `Deliveries.RecordIsParts` | pkg/scheduler/score.go:182-187 | the record of a kind is, one after the other, what each container served for it adds |
| `Deliveries.RightContainerExactly` | pkg/util/util.go:228-232 | a container is handed exactly its own shares of a kind if and only if it is the pod's first, the kind was its first request, and no other container was served for the kind |
| `Deliveries.RightForRequests` | pkg/util/util.go:228-232 | for a pod served in full with one kind per container: if and only if it is the first and no other container asks for the kind |
| `Deliveries.WrongContainer` | pkg/util/util.go:228-232 | an accepted pod with two containers of different kinds whose second container's shares are handed to the first |
| `CoreMask.InitCoreUsage` | pkg/device-plugin/hygon/dcu/corealloc.go:8-16 | the character 0 for every four units; a remainder is dropped |
| `CoreMask.AddCoreUsage` | pkg/device-plugin/hygon/dcu/corealloc.go:18-36 | lower-case text in which a unit is set if and only if it is set in either mask, as far as the first is written (reading stops at a NUL); panics if and only if the second is shorter |
| `CoreMask.ByteAlloc` | pkg/device-plugin/hygon/dcu/corealloc.go:38-58 | takes the first free units of one digit, most significant first, and returns what is still missing |
| `CoreMask.AllocCoreUsage` | pkg/device-plugin/hygon/dcu/corealloc.go:60-77 | lower-case text in which a unit is set if and only if it is free in the mask and fewer than the request are free before it; refines "take the first free units" on the flat vector of units |
| `CoreMask.ReadsNumerals` | pkg/device-plugin/hygon/dcu/corealloc.go:25-28 | the numerals 0-9, a-f and A-F are read as the numbers they stand for, anything else as zero, and digits are written in lower case |
| `CoreMask.UnitIsBit` | pkg/device-plugin/hygon/dcu/corealloc.go:43-56 | unit 4i + j of a mask is bit 3 - j of the numeral at position i |
| `CoreMask.UnitsDetermineText` | pkg/device-plugin/hygon/dcu/corealloc.go:69-71 | so the units determine the text that is written |
| `CoreMask.TakeFreeAvoids` | pkg/device-plugin/hygon/dcu/corealloc.go:60-77 | the grant shares no unit with the current mask |
| `CoreMask.TakeFreeCount` | pkg/device-plugin/hygon/dcu/corealloc.go:60-77 | the grant has exactly the smaller of the request and the free units |
| `CoreMask.TakeFreeFirst` | pkg/device-plugin/hygon/dcu/corealloc.go:38-77 | no free unit is skipped before one that is taken |
| `CoreMask.CountOr` | pkg/device-plugin/hygon/dcu/corealloc.go:18-36 | joining disjoint masks adds their sizes |
| `Dcu.Plugin.RefreshContainerDevices` | pkg/device-plugin/hygon/dcu/server.go:274-316 | an unreadable directory changes nothing; otherwise every card's mask becomes the union of the masks of the directories whose pod was found, up to the first failed lookup of the pods, and success means there was none |
| `Dcu.LiveExactly` | pkg/device-plugin/hygon/dcu/server.go:283-313 | when every lookup sees the same pods, the kept directories are exactly theirs |
| `Dcu.Plugin.Grant` | pkg/device-plugin/hygon/dcu/server.go:428-437 | the mask written for a share is the first free units, as many as percent times units / 100 gives in 32-bit arithmetic; the plugin's own masks stay as they are |
| `DcuRuns.RequestedExactly` | pkg/device-plugin/hygon/dcu/server.go:435-435 | that number is the exact floor if and only if the product fits 32 bits |
| `Dcu.RefreshIsOrderFree` | pkg/device-plugin/hygon/dcu/server.go:283-313 | refreshes that see the same directories in any order give the same units |
| `DcuRuns.RefreshIsUnion` | pkg/device-plugin/hygon/dcu/server.go:279-297 | a refresh that sees exactly the live containers rebuilds the union of their masks |
| `DcuRuns.FloorSum` | pkg/device-plugin/hygon/dcu/server.go:435-436 | the units promised to the live containers never exceed the floor for the sum of their percentages |
| `DcuRuns.GrantIsExact` | pkg/device-plugin/hygon/dcu/server.go:435-436 | with at most 100 percent promised and a unit count divisible by four, a grant has exactly its floor of units and is disjoint from every live mask |
| `DcuRuns.RunIsExact` | pkg/device-plugin/hygon/dcu/server.go:428-454 | in every run in which each allocation follows a refresh, on a card of up to 21474836 units, live masks are pairwise disjoint and each has its promised size |
| `DcuPromise.HeldWithinCard` | pkg/device-plugin/hygon/dcu/register.go:35-51 | in every state of every run of the scheduler, shares recorded on a card that registers 100 cores sum to at most 100 percent |
| `DcuPromise.RecordedIsAllowed` | pkg/device-plugin/hygon/dcu/register.go:35-51 | so an allocation whose share is recorded fits next to all live containers whose shares are |
| `DcuRuns.WholeCardExactly` | pkg/device-plugin/hygon/dcu/corealloc.go:8-16 | an empty card is granted whole if and only if its unit count is divisible by four |
| `DcuRuns.UnrefreshedOverlap` | pkg/device-plugin/hygon/dcu/server.go:435-437 | two grants from the same mask without a refresh between are disjoint if and only if no unit was free |
| `AnnotatedIds.AnnotatedRoundTrip` | pkg/device-plugin/nvidiadevice/nvinternal/rm/devices.go:222-249 | splitting an annotated identifier returns identifier and replica if and only if no mark starts inside the identifier |
| `AnnotatedIds.UnmarkedId` | pkg/device-plugin/nvidiadevice/nvinternal/rm/devices.go:222-249 | an identifier without two colons in a row is its own, with replica number 0 |
| `Replicas.Subset` | pkg/device-plugin/nvidiadevice/nvinternal/rm/devices.go:113-121 | the devices named by the identifiers, unknown ones ignored |
| `Replicas.Difference` | pkg/device-plugin/nvidiadevice/nvinternal/rm/devices.go:124-132 | the devices that are not in the other set |
| `Replicas.GetIDs` | pkg/device-plugin/nvidiadevice/nvinternal/rm/devices.go:135-141 | every identifier once, in any order |
| `Replicas.LoadCounts` | pkg/device-plugin/nvidiadevice/nvinternal/rm/allocate.go:84-107 | the load of a GPU is the number of its replicas that are not free candidates |
| `Replicas.SomeGpuHasMore` | pkg/device-plugin/nvidiadevice/nvinternal/rm/allocate.go:103-115 | of two choices the larger has more replicas on some GPU (the exchange step) |
| `Replicas.PickKeepsMinMax` | pkg/device-plugin/nvidiadevice/nvinternal/rm/allocate.go:103-115 | picking from a least loaded GPU keeps the choice min-max optimal |
| `Replicas.PickKeepsBalance` | pkg/device-plugin/nvidiadevice/nvinternal/rm/allocate.go:103-115 | picking from a least loaded GPU keeps every GPU that received a replica at most one above any that still has one to give |
| `Replicas.PickEvenly` | pkg/device-plugin/nvidiadevice/nvinternal/rm/allocate.go:79-115 | the loop picks the needed number of different candidates, min-max optimal and balanced, whatever order the sort gives ties |
| `Replicas.DistributedAlloc` | pkg/device-plugin/nvidiadevice/nvinternal/rm/allocate.go:68-121 | fails if and only if there are too few candidates; otherwise the required replicas followed by an optimal and balanced choice |
| `LinkGroups.DistanceKept` | pkg/device-plugin/mlu/cndev/bindings.go:84-103 | queueing unvisited slots at the end does not move the first unvisited entry away |
| `LinkGroups.StepDecreases` | pkg/device-plugin/mlu/cndev/bindings.go:84-103 | each expansion visits a new slot or brings the first unvisited entry closer, although slots are marked only when dequeued |
| `LinkGroups.Search` | pkg/device-plugin/mlu/cndev/bindings.go:83-103 | terminates with exactly the slots reachable from slot 0; fails if and only if a reachable slot cannot be read |
| `LinkGroups.GetMLULinkGroups` | pkg/device-plugin/mlu/cndev/bindings.go:70-119 | the first group is what slot 0 reaches, the second the rest, neither with repetitions; the groups partition the slots if and only if there is a device |
| `MluBoards.SplitByBoards` | pkg/device-plugin/mlu/allocator/spider.go:118-136 | every board with an available slot is listed once with exactly its available slots, smallest board first |
| `MluBoards.AllocateRemainingFrom` | pkg/device-plugin/mlu/allocator/spider.go:63-75 | takes the slots not taken yet, in order, and reports full exactly when the wanted number is reached |
| `MluBoards.GreedyKeepsBoardsWhole` | pkg/device-plugin/mlu/allocator/spider.go:76-80 | with one device per slot, at most one board is partly used and every untouched board is at least as large as each touched one |
| `MluBoards.LargestFreeBoard` | pkg/device-plugin/mlu/allocator/spider.go:76-80 | no other choice of as many slots leaves more free slots together on one board |
| `MluRings.BestRings` | pkg/device-plugin/mlu/allocator/spider.go:92-98 | the candidates are exactly the rings with the most non-conflicting rings |
| `MluRings.PickRing` | pkg/device-plugin/mlu/allocator/spider.go:92-108 | returns a best ring; if a best ring lies inside a group, one inside that or an earlier group |
| `SpiderAllocator.MotherBoardSlots` | pkg/device-plugin/mlu/allocator/spider.go:118-126 | a motherboard's slots are the available ones of the devices that name it |
| `SpiderAllocator.Allocate` | pkg/device-plugin/mlu/allocator/spider.go:42-109 | every error has its exact condition: without rings and with a policy other than best-effort, sizes 2 to 8 fail; the "should not be here" error happens only if the size is below 1 or above the number of usable slots; without rings the result has exactly size different usable slots and keeps motherboards whole; with rings it is a best ring |
| `BoardAllocator.FilterByGroup` | pkg/device-plugin/mlu/allocator/board.go:130-151 | nothing unless there are two groups covering the available slots; otherwise the slots inside and outside the first, the shorter part first |
| `BoardAllocator.SerialNumberSlots` | pkg/device-plugin/mlu/allocator/board.go:163-171 | a board's slots are the available ones of the devices with its serial number |
| `BoardAllocator.TakeFromGroups` | pkg/device-plugin/mlu/allocator/board.go:68-103 | without rings, succeeds if and only if the size is between 1 and the number of different available slots, working through whole boards group by group before loose slots |
| `BoardAllocator.Allocate` | pkg/device-plugin/mlu/allocator/board.go:44-128 | every error has its exact condition: without rings and with a policy other than best-effort, sizes 2, 4, 6 and 8 fail; without rings otherwise exactly size different available slots in that order; with rings a best ring, inside the earliest possible group |
| `BoardAllocator.SmallerGroupFirst` | pkg/device-plugin/mlu/allocator/board.go:91-99 | the result stays inside the boards of the group with fewer slots if and only if they are large enough, and uses them up if and only if they are not larger than the size; these boards hold the whole group when every available slot is known and no board straddles the groups |
| `BoardAllocator.OneBoardPartly` | pkg/device-plugin/mlu/allocator/board.go:84-99 | with one device per slot, at most one of the boards that do not straddle the groups is partly used |
| `Feedback.CheckBlocking` | cmd/vGPUmonitor/feedback.go:164-177 | true if and only if the first device that has switches is used at a higher priority; for which switches and priorities the index runs out of range |
| `Feedback.CheckPriority` | cmd/vGPUmonitor/feedback.go:179-195 | true if and only if some device is used at a higher priority or twice at the same one; for which switches and priorities the index runs out of range |
| `Feedback.Monitor.Decay` | cmd/vGPUmonitor/feedback.go:198-222 | panics if and only if a container that stays active lists a device and has a priority other than 0 and 1, with some containers decayed and the others untouched; otherwise every counter above 0 drops by one, and the switches count, per device and priority, the uses by containers whose counter is still above 0 |
| `Feedback.Monitor.Observe` | cmd/vGPUmonitor/feedback.go:197-255 | panics if and only if a container that stays active lists a device and has a priority other than 0 and 1, or a container of negative priority lists a device in use, and what the regions then are; otherwise the regions become those of a round specified without the switches, whatever the map orders |
| `Feedback.TwoPrioritiesAreQuiet` | cmd/vGPUmonitor/feedback.go:215-218 | no round panics when all priorities are 0 or 1 |
| `Feedback.QuietStaysQuiet` | cmd/vGPUmonitor/feedback.go:197-255 | without new kernels, a round that does not panic is followed by one that does not |
| `Feedback.MarkedExactly` | cmd/vGPUmonitor/feedback.go:223-253 | after a round a counter is negative if and only if the round's uses block the container, never at priority 0: -1 or what it was when blocked, otherwise one less and at least 0; the utilization switch is on if and only if a device is contended |
| `Feedback.HigherExactly` | cmd/vGPUmonitor/feedback.go:164-177 | a device is used at a higher priority if and only if a container of a smaller priority number, 0 or 1, whose counter stays above 0, lists it |
| `Feedback.SwitchedOnExactly` | cmd/vGPUmonitor/feedback.go:180-195 | after a round the core limit of a container is enforced if and only if one of its devices is used at a higher priority, or by two uses at its own |
| `Feedback.CountsDown` | cmd/vGPUmonitor/feedback.go:200-222 | without new kernels a priority-0 counter after n rounds is its start minus n, or 0, whatever the others do |
| `Feedback.HeldExactly` | cmd/vGPUmonitor/feedback.go:207-220 | in the n-th round a device is in use at priority 0 if and only if a priority-0 container on it started above n |
| `Feedback.HeldFromStart` | cmd/vGPUmonitor/feedback.go:207-220 | read off the starting regions, a device is used at priority 0 in the n-th round if and only if a priority-0 container on it started above n |
| `Feedback.BlockedAfter` | cmd/vGPUmonitor/feedback.go:223-239 | who is blocked after n rounds without new kernels, read off the starting regions, for any devices and priorities: a container counts in a round if and only if it started above it and no earlier round blocked it |
| `Feedback.Unblocked` | cmd/vGPUmonitor/feedback.go:223-239 | after at least one round and as many as the largest counter among higher priorities, a container of any priority is not blocked |
| `Feedback.BlockedExactly` | cmd/vGPUmonitor/feedback.go:223-239 | a priority-1 container, on any devices, is blocked after n rounds if and only if a priority-0 container that started above n holds the first of its devices in use; on one device, if and only if a priority-0 container on it started above n: the bound is tight |
| `Feedback.OverlookedExactly` | cmd/vGPUmonitor/feedback.go:164-177 | a container with a device in use at higher priority stays unblocked if and only if its first device in use is not used at a higher priority |
| `Feedback.SecondDeviceOverlooked` | cmd/vGPUmonitor/feedback.go:164-177 | such a container exists |

## Left out

- Kubernetes clients, informers, the webhook, HTTP and gRPC servers: only their effect on the state is
  modelled (an informer event, a patch that succeeds or fails, the living pods).
- When a DCU refresh happens: it is called periodically and its error is ignored
  (`pkg/device-plugin/hygon/dcu/register.go:79`); `DcuRuns.RunIsExact` assumes one that succeeds before each allocation.
- Goroutine races on the pod and node maps, and the metrics view that shares usage objects with a filter
  in progress: a filter is one step.
- The registration loop (`pkg/scheduler/scheduler.go:132-238`): it depends on wall-clock time; the registry is
  modelled by `AddNode` and `RmNodeDevice`.
- The node lock and `Bind`: locking failures are not acted on, so there is no mutual exclusion to state.
- Card-type matching (`pkg/device/nvidia/device.go:64-96`): an arbitrary predicate of the card's kind, whether it
  is in use, and the request; only the NUMA flag is kept.
- `GenerateResourceRequests` and its defaults (`pkg/device/nvidia/device.go:116-177`): requests are arbitrary. That each
  wants at least one card is what `pkg/k8sutil/pod.go:33-35` keeps, and that a container asks for a kind once is
  what its map of requests guarantees.
- Floating point: scores are real numbers, so ties that rounding would create or break are not modelled.
- 32-bit width: only the two percentage products are truncated. That no other sum needs it is
  `SchedulerRuns.CountersStayInRange` and `ScoreSumsStayInRange`; a container two of whose requests take the same card
  is bounded by the node's slots times its requests only (`OneCardRuns.SharedCardRun`).
- The time annotation of a decision, and log output.
- Only NVIDIA is registered in `InRequestDevices` and `SupportDevices`; the model takes both tables as given
  and writes other kinds under the empty key, as the code does.
- `getDeviceMLULinkDevs`, CNDEV, NVML, hwloc, and the ring search: the link graph and the rings are given. `alignedAlloc`
  and the default MLU allocator only call such libraries.
- The `required` slots of the MLU allocators: the code does not read them.
- DCU virtual-device and pipe numbers: the directory name does not carry the allocated number
  (`pkg/device-plugin/hygon/dcu/server.go:442`). A directory is given as its pod, card and mask; one pod per directory.
- DCU containers with more than one device: the code refuses them before any mask is cut.
- SchedulerRuns.RunIsSafe: assumes that a card's capacity does not change over the run, as the registry promises; that no
  request is priced below zero (exactly when it is: `Devices.BelowZeroExactly`); that no recorded container was served for two
  kinds, informer events only for pods that are still recorded, and restarts at which no dropped pod brings shares back,
  without which it fails (`TwoKindsOvercommit`, `StaleSyncOvercommits`, `RestartKeepsUsage`).
- Feedback.BlockedExactly: states priority 1, the lowest a task can ask for; any priority is `Feedback.BlockedAfter`.
- Crashes.CrashExactly: requests that compete for the same cards before a request-less container are not covered, since the
  order the unstable sort gives equal cards then decides what is served; for them `EmptiesFirstIsSafe` is the condition to check.
- Crashes.FilterCrashesExactly: the same.
- Completeness.ScheduledExactly: for a container with two kinds, the order in which a node visits them decides; per order that
  is `Completeness.AcceptedApart`. Card types accepted for two kinds are not covered.
- DcuRuns.RunIsExact: cards of more than 21474836 units, on which the 32-bit product can wrap (`DcuRuns.RequestedExactly`).
- BoardAllocator.OneBoardPartly: says nothing about the sizes of untouched boards, since the preferred group comes first.
