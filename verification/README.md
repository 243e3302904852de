# vSphere capacity manager: a verified model of the lease scheduler

The capacity manager hands out vSphere pools (a vCenter, its vCPUs and memory) and networks (port
groups with a VLAN) to CI jobs. A job asks with a *lease*: how many pools, on at least and at most how
many vCenters, how many networks in each pool. A single controller works through the leases one step at
a time under one lock, picks pools by free share, picks networks so that all pools of a job can talk to
each other, and keeps the phase (`Pending`, `Partial`, `Fulfilled`, `Failed`) and the conditions of each
lease up to date.

The model follows the program file by file. What the program computes by loops and in-place changes is a
method with loop invariants or a method of the class `LeaseController`, proved against a specification;
what the specification promises is then proved as lemmas over every choice the program leaves open
(map iteration order, shuffles, sort ties) and over every run of the controller.

| module | what it covers |
|---|---|
| `Types`, `Sorting` | the resources, and sorting by a comparison with arbitrary ties |
| `Combinations` | counting pools by vCenter: top-k sums, the exchange argument, drawing a set with a given spread |
| `Scheduling` | `pkg/utils/pools.go`: structural match, the exact satisfiability test, fitting pools, scoring |
| `Completion` | why picking pools one at a time reaches a completion whenever there is one |
| `FirstPick`, `PoolLoop` | the three vCenter filters and the pool loop |
| `LoopResults` | the pool loop has a result wherever it may start |
| `Limits`, `Exactness`, `Stranded` | an inventory in which picking one at a time misses a completion, for exactly which requests there is one, and what becomes of the lease over a whole run |
| `Accounting` | availability figures of the pools |
| `NetworkTables`, `NetworkAssignment`, `NetworkLoop` | which networks a lease may take, filling one pool, all pools |
| `Conditions` | the sorted condition list |
| `DelayGate` | which leases wait for which |
| `LeaseStates`, `Lifecycle`, `Invariants`, `Theorems`, `NetworkCounts`, `TopUp` | references and statuses, the state machine, its invariant, and what holds in every run |
| `Releases`, `Siblings`, `Shortages`, `Statuses`, `Fulfilment` | runs seen from outside, by the fields of requests, pools, networks and references: when a lease keeps its pools and when it gives them back, which networks it takes ahead of its siblings, when it is left short of networks, what its status says, and when one reconcile fulfils it |
| `Controller` | the controller class with its tables and its two kinds of write; each method takes a step of the machine |

## Assumptions

- Reads from the API server are fresh, writes succeed, and the controller is not restarted within a run.
- There is one namespace; names are unique; specs of leases, pools and networks do not change; `Kind` is
  set on stored objects. Pools and networks may be added, not removed.
- A pool's server is not empty (the CRD demands it, `config/crd/bases/vspherecapacitymanager.splat.io_pools.yaml:204-210`);
  requests are not negative; a lease's network type is not empty (it has a default).
- A pod and a port group name identify at most one network; otherwise the networks of a pool depend on
  map order (`pkg/controller/leases.go:109-115`).
- The over-committed number of vCPUs of a pool is a natural number, `Pool.capacity`.
- A lease is created holding no pool and no network and with an empty status.
- Clock readings and message texts come in as parameters (`now`, `note`) of a reconcile.

## Where the code and its comments differ

- When a stuck lease gives its pools back, the log says the lease is PENDING
  (`pkg/controller/leases.go:1246-1284`); the phase is left as it is, and the model leaves it too. The
  metadata write in between also resets the status in memory, so the cleared `Delayed` condition of that
  reconcile is lost; `Controller.LeaseController.GiveBack` states this.
- The comment on the filter for the first pick says that only vCenters that take part in no valid
  combination are excluded (`pkg/controller/leases.go:1106-1108`). With slack under the cap every vCenter
  takes part in one, and the code still excludes those that hold less than an even share.
  `FirstPick.SparesJoiningExactly` says exactly when the comment is right: when one vCenter fewer than the
  cap is not enough, or all vCenters with a fitting pool are needed, or none of them lacks its share.
  `FirstPick.ExcludesJoining` gives inventories in which it is not.
- The comment on later pools speaks of matching the VLANs of the first pool
  (`pkg/controller/leases.go:1467-1468`); the code matches every VLAN the lease owns, and so does the model.
- The comments on the filters suggest that a lease is never led into a dead end by its own picks
  (`pkg/controller/leases.go:1101-1108`). `Exactness.CompleteExactlyWithRoom` gives the exact condition,
  which a caller can read off the request: the pool loop can miss pools that fit if and only if
  `2 <= MinVCenters <= VCenters`, `Pools` is more than twice `VCenters` minus `MinVCenters`, and no pool is
  required by name. For each of these requests `Limits.PendingMinimumStrands` describes inventories in
  which every run of the loop ends stuck although fitting pools for the lease exist.
- A stuck lease is said to release its pools in order to try again with different ones
  (`pkg/controller/leases.go:1228-1232`). In those inventories it never does:
  `Stranded.RetriesForEver` shows that it takes and gives back the same pools for ever.

## Model

| member | source | states |
|---|---|---|
| Combinations.TopIsBest | pkg/utils/pools.go:180-206 | No k vCenters hold more pools than the k best-filled ones, whatever the order of ties: the exchange argument behind every top-k sum of the scheduler. |
| Combinations.DrawSpread | pkg/utils/pools.go:212-235 | From vCenters that together hold enough pools, a set of exactly the wanted size on at least `low` and at most `cap` of them can be drawn. |
| Scheduling.StructuralPoolsPerVCenter | pkg/utils/pools.go:155-164 | The map has a key exactly for the vCenters with a structurally matching pool, and each value is the number of such pools there. |
| Scheduling.StructuralByField | pkg/utils/pools.go:31-151 | The structural match, field by field and in both directions: open for scheduling, named by the lease if excluded or if the lease names one, every selected label, every taint covered by a toleration in effect, key and value. |
| Scheduling.MaxAchievablePools | pkg/utils/pools.go:180-206 | The result is the size of some structurally matching set on at most `VCenters` vCenters, and no such set is larger. |
| Scheduling.MaxAchievableMonotone | pkg/utils/pools.go:180-206 | Adding pools to the inventory never lowers that maximum. |
| Scheduling.MinVCentersUnsatisfiableReason | pkg/utils/pools.go:247-273 | No reason is given exactly when the minimum fits the requested pools, the cap and the vCenters that have matching pools; a reason given is true. |
| Scheduling.RequiredPoolUnsatisfiableReason | pkg/utils/pools.go:281-298 | "Missing" exactly when no pool has the required name, "disabled" exactly when the pool of that name is not schedulable. |
| Scheduling.IsLeaseSatisfiable | pkg/utils/pools.go:212-235 | Accepts exactly the leases for which some set of structurally matching pools of the inventory has `Pools` members (one if `Pools` is 0) and spans at least `MinVCenters` and, if capped, at most `VCenters` vCenters; on rejection the reason is true. |
| Scheduling.ReasonIsConclusive | pkg/utils/pools.go:212-298 | Each rejection reason, being true, is by itself a proof that no set of pools could satisfy the lease. |
| Scheduling.SatisfiableMonotone | pkg/utils/pools.go:212-235 | A lease that is satisfiable stays so when the inventory grows. |
| Scheduling.GetVCentersInUse | pkg/utils/pools.go:99-107 | The distinct non-empty servers of the assigned pools. |
| Scheduling.GetDiversityExcludedVCenters | pkg/utils/pools.go:116-125 | A set is returned exactly while the assigned pools span fewer vCenters than the minimum, and it is the set of vCenters in use. |
| Scheduling.GetFittingPools | pkg/utils/pools.go:307-389 | Partitions the input: each pool is in exactly one result; it fits exactly when it matches structurally, is not owned, is on no excluded vCenter and has room; each rejected pool carries the reason of the first check, in the scheduler's order, that it does not pass; fitting pools come in descending order of free share. |
| Scheduling.GetPoolWithStrategy | pkg/utils/pools.go:412-447 | Fails exactly when no pool fits; otherwise returns a fitting pool and adds exactly its reference to the lease; when under-utilized pools are preferred, no fitting pool has a larger sum of available over total vCPUs and available over total memory. |
| Completion.PickKeepsCompletion | pkg/controller/leases.go:1015-1209 | For every request that leaves room to spread, and for every other one once its minimum is met, no pick that the filters let through loses the possibility of a completion: neither the ceiling filter nor the diversity rule strands the lease. |
| Completion.AllowedPickExists | pkg/controller/leases.go:1024-1100 | As long as a completion exists and pools are missing, some fitting pool obeys the vCenter rules, whatever the request. |
| Completion.PickKeepsSpread | pkg/controller/leases.go:1015-1060 | Every pick keeps the lease within the cap and on a new vCenter while the minimum is pending. |
| FirstPick.TopIsCombination | pkg/controller/leases.go:1134-1148 | The test on the top vCenters decides whether any combination of at most `VCenters` vCenters reaches `Pools`. |
| FirstPick.FirstPickExclusions | pkg/controller/leases.go:1101-1209 | Nothing is excluded when no combination exists; otherwise the survivors contain one; without slack exactly the vCenters that lie in no combination are excluded; with slack the best-filled of the smallest combinations is kept and outside it exactly the vCenters below an even share are excluded. |
| FirstPick.SurvivorsJoin | pkg/controller/leases.go:1101-1209 | If there is a combination, every vCenter that survives the filter is part of one, with or without slack. |
| FirstPick.SparesJoiningExactly | pkg/controller/leases.go:1160-1209 | The filter excludes no vCenter that is part of a combination if and only if there is no slack, or no vCenter with a fitting pool can be spared, or none of them lacks its share: a condition on the fitting pools, the cap and the request alone. |
| FirstPick.ExcludesJoining | pkg/controller/leases.go:1163-1179 | An instance: beside a vCenter that has all the pools wanted, a single-pool vCenter is excluded although the two together are a combination. |
| PoolLoop.CapExclusions | pkg/controller/leases.go:1050-1060 | At the cap exactly the vCenters not in use are excluded. |
| PoolLoop.DynamicExclusions | pkg/controller/leases.go:1061-1100 | The excluded vCenters are exactly the unused ones whose fitting pools, times the open slots, fall short of the missing pools (the program's ceiling division decides this). |
| PoolLoop.VCenterExclusions | pkg/controller/leases.go:1041-1209 | Which of the three filters is in force, in the program's order, and what it excludes. |
| PoolLoop.PickPool | pkg/controller/leases.go:1015-1317 | A pick obeys the vCenter rules and no allowed pool scores higher; there is none only if the rules allow none; what then becomes of the lease is settled, as `PoolLoop.OutcomeByNumbers` says in numbers. |
| PoolLoop.OutcomeByNumbers | pkg/controller/leases.go:1216-1317 | The end of the loop in numbers: all pools exactly when none is missing; stuck exactly when some are missing, some held, and the cap is used up, or the minimum is met, more pools are missing than vCenters may be opened and some unused vCenter has less than an even share; nothing exactly when none is held or no spread was asked for; waiting otherwise. |
| PoolLoop.CompleteByRules | pkg/controller/leases.go:1015-1328 | Any picks made by the rules until none is allowed end with all pools if and only if a completion by fitting pools exists, for every request that leaves room to spread or whose minimum is met. |
| PoolLoop.AssignPools | pkg/controller/leases.go:990-1328 | Picks are distinct fitting pools, each the best the rules allow; cap and spread are kept; the loop does not give up while a pick is allowed; it ends with all pools exactly when the lease has `Pools` of them (one if `Pools` is 0); short of that it gives back only under a cap that is used up, or once the minimum is met with more pools missing than vCenters to open, and it waits only with a pool in hand and the cap not used up; where picking one by one is complete it ends with all pools if and only if a completion exists. |
| LoopResults.LoopHasResult | pkg/controller/leases.go:1015-1328 | Wherever the loop may start, some result meets its specification, so that what is said of every result is said of something. |
| Limits.PendingMinimumStrands | pkg/controller/leases.go:1061-1284 | With a cap, a minimum of two or more and too many pools wanted: where the single-pool vCenters have the larger free share, fitting pools for the lease exist and every result of the loop is to be stuck. |
| Exactness.SceneExists | pkg/controller/leases.go:1061-1284 | For every such request there is an inventory of that kind. |
| Exactness.CompleteExactlyWithRoom | pkg/controller/leases.go:1015-1328 | For every request: picking by the rules finds all pools whenever fitting pools exist, in every inventory and whatever it picks, unless `2 <= MinVCenters <= VCenters`, `Pools` is more than twice `VCenters` minus `MinVCenters`, and no pool is required by name; and for each of those requests it does not. |
| Exactness.AllAssignedCompletes | pkg/controller/leases.go:1015-1328 | Conversely, when the loop ends with all pools they are such a completion, unless the lease asks for more vCenters than pools. |
| Stranded.NeverFulfilledInScene | pkg/controller/leases.go:1228-1284 | In every run, whatever else happens: as long as the inventory and the free shares have that shape, the lease holds nothing and is not fulfilled. |
| Stranded.RetriesForEver | pkg/controller/leases.go:1228-1284 | In every run, as long as only that lease is reconciled, it stays where it is, and each reconcile waits its turn or takes the same single pools and gives everything back. |
| Accounting.ReconcilePoolStates | pkg/controller/leases.go:191-239 | For every pool, available plus the requests of the leases that own it equals its capacity, for vCPUs and memory, and the lease count is the number of owners. |
| Accounting.BalancedByField | pkg/controller/leases.go:191-239 | The same by fields: available vCPUs are the over-committed number less the sum of the vCPUs of the leases that refer to the pool, memory likewise, and the lease count is the number of these leases. |
| Accounting.AssigningLowers | pkg/controller/leases.go:191-239 | Assigning pools lowers exactly the newly owned pools, each by the request; all other figures stay. |
| Accounting.DeletionRestores | pkg/controller/leases.go:876-880 | Deleting a lease brings back the figures from before it came. |
| Conditions.Set | pkg/utils/conditions/gettersetter.go:53-92 | The in-place update and sort of a sorted list leaves exactly one entry of the type with the status, reason, severity and message of the argument; its transition time stays exactly when all four were the same before; entries of other types are unchanged; the result is sorted whatever the list was. |
| Conditions.WriteByField | pkg/utils/conditions/gettersetter.go:53-92 | One setting, field by field: the four fields come from the argument; the time is kept if the four are unchanged, set to now if one differs, and for a new type it is the argument's unless that is zero. |
| Conditions.LessIsLexicographic | pkg/utils/conditions/gettersetter.go:33-37 | The order of the list is that of strings: a type comes first if it begins the other, or has the smaller character where they first differ. |
| Conditions.LookupAfterApply | pkg/utils/conditions/gettersetter.go:53-92 | Setting one condition leaves every other one as it was, and changes the transition time of its own only when its state changed. |
| Conditions.ListIsLastWriterMap | pkg/utils/conditions/gettersetter.go:41-92 | After any sequence of settings from the empty list, the list is strictly sorted by type and holds, for each type set so far, the status, reason, severity and message of the last setting, with the time at which that state was entered. |
| DelayGate.ShouldLeaseBeDelayed | pkg/controller/leases.go:671-723 | The loop over the lease table answers whether some other lease has priority. |
| DelayGate.SomeLeaseNotDelayed | pkg/controller/leases.go:671-723 | Among the unfinished leases of a network type, if there are any, one is not delayed. |
| DelayGate.WaitChainsAreShort | pkg/controller/leases.go:671-723 | Waiting is well-founded: no chain of leases, each waiting for the next, comes back to one of them. |
| NetworkTables.GetNetworksForPool | pkg/controller/leases.go:104-118 | Exactly the networks of the pool's pod whose port group is in the pool's topology. |
| NetworkTables.GetAvailableNetworks | pkg/controller/leases.go:151-178 | Exactly the pool's networks of the wanted type that no lease in the table owns. |
| NetworkTables.GetCommonNetworksForLease | pkg/controller/leases.go:428-477 | Fails exactly when no other lease of the boskos id asks for vCPUs or memory and owns a network, always for a lease that asks for neither or has no boskos id; otherwise returns exactly the networks of one such sibling, which has the same boskos id and asks for vCPUs or memory. |
| NetworkTables.ResolveCommonNetworksForPool | pkg/controller/leases.go:494-516 | The sibling's own networks in the pool, and if there are none, exactly the available ones of its non-empty port groups. |
| NetworkTables.CommonPortGroupNames | pkg/controller/leases.go:523-546 | Exactly the port groups of which every one of the pools has a network on offer. |
| NetworkTables.ResolveSiblingPools | pkg/controller/leases.go:591-635 | Exactly the inventory pools that some sibling, not marked for deletion, owns, or requires while it owns none. |
| NetworkAssignment.FillFirstPool | pkg/controller/leases.go:1469-1483 | Adds only available networks of VLANs new to the lease in this pool, no two alike, never more than wanted; ends short only when every available network's VLAN is already there. |
| NetworkAssignment.FillMatchingPool | pkg/controller/leases.go:1484-1510 | Adds only available networks of the lease's VLANs, never more than wanted; ends short only when each such VLAN that is available is already in the pool. |
| NetworkAssignment.CountOwned | pkg/controller/leases.go:1398-1406 | The count over the references is the number of the pool's networks that the lease owns. |
| NetworkLoop.CandidateNetworks | pkg/controller/leases.go:1414-1458 | What a pool is served from: what one networked sibling binds it to if there is such a sibling, and otherwise what the pool has on offer, within the common port groups for the first pool; all of it the lease may take. |
| NetworkLoop.AssignNetworks | pkg/controller/leases.go:1346-1515 | What is added is new, lies in the lease's pools and was free or a sibling's; unless a sibling binds the lease, what is added for the first pool is of port groups that every pool of the lease and of its siblings offers, for a lease with one pool as well; later pools take only VLANs that the lease owned or took for the first; a pool ends short only when it was left no candidate; pools without common networks get no more than the lease asks for and no VLAN twice; a lease whose first pool is full takes no new VLANs; and for a lease that chooses freely, with port groups fixing VLANs and one datacenter a pool, every pool ends with at least as many networks as the first. |
| NetworkLoop.EnoughCommonVlans | pkg/controller/leases.go:1378-1481 | With as many VLANs common to all pools concerned as networks are wanted, the first pool gets all its networks, whatever the shuffle. |
| LeaseStates.AdmittedCoherent | pkg/controller/leases.go:787-836 | In the initial status phase and conditions agree. |
| LeaseStates.FailedCoherent | pkg/controller/leases.go:640-668 | In the failed status none of the three phase conditions is true. |
| LeaseStates.WaitingCoherent | pkg/controller/leases.go:956-988 | Delaying a pending lease, ending its delay and reporting that no pool is available keep phase and conditions in agreement. |
| LeaseStates.AssignedCoherent | pkg/controller/leases.go:1643-1697 | The fulfilled and the partial status agree with their conditions, provided the delay was cleared. |
| Invariants.NewPoolHasRoom | pkg/utils/pools.go:362-364 | A pool a lease comes to own had room for the request at that moment. |
| Invariants.NextKeepsInv | pkg/controller/leases.go:772-1737 | Every step (create, delete, reconcile in each branch, growing inventory) keeps the invariant: references, statuses, spread, exclusivity and capacity. |
| Invariants.InvAlways | pkg/controller/context.go:9-14 | The invariant holds in every state of every run. |
| Theorems.FulfilledIsSound | pkg/controller/leases.go:1606-1661 | In every state of every run a fulfilled lease owns exactly `Pools` distinct pools, one if `Pools` is 0, on at least `MinVCenters` and, if capped, at most `VCenters` vCenters, and at least `Networks` networks in each of them. |
| NetworkCounts.NeverTooManyNetworks | pkg/controller/leases.go:1398-1510 | In every state of every run a lease whose pools have no networks in common owns at most `Networks` networks in each of them, and no two there of one VLAN and datacenter. |
| NetworkCounts.FulfilledIsExact | pkg/controller/leases.go:1606-1661 | In every state of every run a fulfilled lease whose pools have no networks in common owns exactly `Networks` networks in each of them. |
| Theorems.FulfilledNeverChanges | pkg/controller/leases.go:889-892 | A fulfilled lease stays as it is for the rest of the run, until it is deleted. |
| Theorems.PhaseMatchesConditions | pkg/controller/leases.go:1643-1710 | In every stored status of every run at most one of Fulfilled, Partial and Pending is true and it names the phase, none when failed; Delayed only while pending; a failed lease owns no pool and no network. |
| Theorems.NothingLeaks | pkg/controller/leases.go:1246-1284 | In every state of every run no pool or network is referred to twice, and each owned network has the pod, and a port group, of a pool the lease still owns, releases included. |
| Theorems.HeldPoolsMatch | pkg/utils/pools.go:31-151 | In every state of every run each pool that a lease owns is open for scheduling, is the required one if it is excluded or one is required, has every selected label with its value, and has no taint that none of the tolerations covers in effect, key and value. |
| Theorems.NetworksAreExclusive | pkg/controller/leases.go:151-178 | In every state of every run two leases own one network only if both carry the same boskos id and each of them asks for vCPUs or memory. |
| Theorems.NeverOverAllocated | pkg/controller/leases.go:191-239 | In every state of every run the requests of the leases that refer to a pool add up to no more than its over-committed vCPUs, and no more than its memory. |
| Theorems.OwnershipChanges | pkg/controller/leases.go:956-983 | A lease's references change only in its own reconcile, when it is unfinished, and then it gives everything back or, not being delayed, only gains: a delayed reconcile changes no ownership. |
| Theorems.NoOvertaking | pkg/controller/leases.go:671-723 | In every run a lease that has waited so far is assigned nothing while a partial lease of its network type has the pool it is after (any pool, if it requires none), nor ahead of an older pending one that is after the same pool or takes any; a lease that requires no pool but wants several networks counts for the pool its status shows. |
| Theorems.WaysPart | pkg/controller/leases.go:889-988 | In every run the way a reconcile takes is decided in this order: a fulfilled or failed lease is left alone; one that no set of pools of the inventory can satisfy fails; one that is pending while a partial or older pending lease of its network type is ahead of it in the table is held back, and only that; every other one goes on to pools and networks. |
| Theorems.FailsOnlyWhenUnsatisfiable | pkg/controller/leases.go:894-917 | In every run a lease enters Failed only in a state whose inventory holds no set of pools that could satisfy it. |
| Theorems.SatisfiableNeverFails | pkg/controller/leases.go:640-668 | Once satisfiable and not failed, a lease never fails later in the run. |
| Theorems.CompletedIsWitness | pkg/controller/leases.go:1015-1328 | Any assignment the pool loop completes is a witness that the lease was satisfiable, if and only if the lease does not ask for more vCenters than pools. |
| Theorems.SiblingsConverge | pkg/controller/leases.go:1411-1458 | In every run, the set of port groups owned by a boskos group gains a name only in a reconcile of a member while no other member, by boskos id and requested vCPUs or memory, owns a network. |
| Theorems.OneReconcileFulfils | pkg/controller/leases.go:985-1661 | For a lease that is not delayed and has no networks and no networked sibling: if a completion exists where the pool loop is complete, and enough VLANs are offered by all pools concerned, one reconcile fulfils it, whatever it happens to pick. |
| Fulfilment.ReconcileFulfils | pkg/controller/leases.go:985-1661 | The same over runs and by fields: an unfinished lease for which no lease in the table has priority is fulfilled by its next reconcile if open pools complete it to `Pools`, at least `MinVCenters` and at most `VCenters` vCenters, where picking one by one finds them, no lease of its job owns a network, and as many VLANs as it wants networks come with port groups that are free in every pool that matches it or that a lease of its job needs. |
| Releases.KeepsOrGivesBack | pkg/controller/leases.go:1216-1317 | In every run a reconcile past the delay gate leaves the lease with all it held and picked when nothing is missing, or no vCenter rule is in the way; it releases exactly the pools and networks when pools are missing and one is; and it changes no reference when nothing is at hand or no spread was asked for. |
| Releases.LosesOnlyUnderCap | pkg/controller/leases.go:1228-1284 | In every run a satisfiable lease loses a reference only in its own reconcile, short of pools under a cap that its pools span, or once they span the minimum, more pools are missing than vCenters may be opened, and some unused vCenter has less than an even share of them open: while its minimum is pending below the cap it loses nothing. |
| Releases.UncappedLosesNothing | pkg/controller/leases.go:1233-1296 | A satisfiable lease without a cap never loses a pool or a network until it is deleted. |
| Siblings.GainsWhatAllCanShare | pkg/controller/leases.go:548-635 | In every run, while no lease of its job owns a network, a lease gains only free networks of its type in its pools, and only of VLANs that it owned or that came with a network whose port group was on offer, at that moment, in each of its pools and in each pool that a living lease of its job owns or requires; with one pool, every network it gains is of such a port group. |
| Shortages.ShortOnlyWhenNoneIsLeft | pkg/controller/leases.go:1395-1515 | In every run, when a lease is assigned something while no lease of its job owns a network, each of its pools ends with all its networks, or already has one of the VLAN of each network that is still free there afterwards, suits the type, and is of a port group shared by all pools concerned (first pool, datacenter included) or of a VLAN the lease owns (later pools). |
| Shortages.BoundShortOnlyWhenNoneIsLeft | pkg/controller/leases.go:1411-1515 | Likewise when some lease of its job owns a network: each pool ends with all its networks, or some such sibling leaves nothing for it: no network of the sibling's in this pool, nor, if it has none there, a free one of its non-empty port groups, whose VLAN the pool lacks. |
| Statuses.StatusTells | pkg/controller/leases.go:787-988 | In every run the status that a reconcile stores tells how it ended: phase, failure domain, and each condition with its status, reason, severity and message, for a lease that failed, was delayed, got no pool, gave back, is partial or fulfilled, and for the initial status. |
| Statuses.FulfilledShowsFirstPool | pkg/controller/leases.go:1330-1336 | In every state of every run the status of a fulfilled lease shows the failure domain of the first pool among its references. |
| TopUp.TopUpFulfilsExactly | pkg/controller/leases.go:1346-1661 | In every run, for a lease that has a completion at hand, already owns all networks of its first pool and has no networked sibling: it is fulfilled in that reconcile if and only if each of its pools can be served with `Networks` of the VLANs it owns (pools without common networks, one datacenter each). |
| Controller.GetAssignedPools | pkg/controller/leases.go:996-1010 | The pools the references name, in their order; fails exactly when one of them does not exist. |
| Controller.ListSiblingPools | pkg/controller/leases.go:568-589 | The sibling pools that restrict the choice, none for a network-only lease. |
| Controller.PoolMissingNetworks | pkg/controller/leases.go:132-148 | The name of the first assigned pool that has no network of the lease at all, and none exactly when every pool has one. |
| Controller.Decide | pkg/controller/leases.go:1538-1643 | The decision at the end: nothing while a pool has no network, complete exactly with all pools and all networks in each. |
| Controller.PlaceLease | pkg/controller/leases.go:1346-1697 | Networks and verdict together are an assignment step of the machine. |
| Controller.LeaseController.CreateLease | pkg/controller/leases.go:780-785 | A new lease is stored and in no table yet; the invariant is kept. |
| Controller.LeaseController.MarkForDeletion | pkg/controller/leases.go:847-848 | A lease that is to go stays in the table, with all it owns, until its next reconcile. |
| Controller.LeaseController.DeleteLease | pkg/controller/leases.go:847-882 | A marked lease leaves table and store, the figures of all pools balance again, and nothing else changes. |
| Controller.LeaseController.PersistMetadata | pkg/controller/leases.go:1252-1261 | After the metadata write memory and store agree on the lease with its new references and its old stored status: a status set in memory is lost. |
| Controller.LeaseController.PersistStatus | pkg/controller/leases.go:973-975 | After the status write memory and store agree on the lease with its new status and its old stored references: references added in memory are lost. |
| Controller.LeaseController.PersistBoth | pkg/controller/leases.go:1699-1710 | Keeping the status aside during the metadata write, both references and status reach the store. |
| Controller.LeaseController.Fail | pkg/controller/leases.go:896-917 | Everything is given back and the failed status survives the first write. |
| Controller.LeaseController.Delay | pkg/controller/leases.go:956-983 | Only the two conditions change; references and phase stay. |
| Controller.LeaseController.ReportNoPool | pkg/controller/leases.go:1298-1312 | Picks made in memory are lost with the status write; only conditions change. |
| Controller.LeaseController.GiveBack | pkg/controller/leases.go:1246-1284 | Pools and networks are given back in the store as well; the phase stays. |
| Controller.LeaseController.Place | pkg/controller/leases.go:1330-1710 | Networks, decision and the final one or two writes leave memory and store agreeing on an allowed result. |
| Controller.LeaseController.GatherPools | pkg/controller/leases.go:990-1328 | The pools of the lease in the order of its references and the picks of the loop over the current figures: a pool step of the machine. |
| Controller.LeaseController.AssignResources | pkg/controller/leases.go:985-1707 | Everything after the delay gate is one of the machine's branches, with memory and store in agreement. |
| Controller.LeaseController.ReconcileLease | pkg/controller/leases.go:772-1737 | One reconcile is one step of the machine (the removal of a marked lease, or one branch of the life cycle), touches no other lease, and keeps the invariant. |

## Left out

- Client calls, caches, watches, requeue timers, finalizers, logging and metrics: I/O around the core; only the two kinds of write are modelled.
- Environment variables, job links, short names, the placeholder texts of a pending status, and the status fields that only repeat owned resources (pool info, topology paths).
- The `NetworkAvailable` counters of pools, which are keyed by the first pool found for a lease's single server (`pkg/controller/leases.go:180-187`).
- Network deletion: the networks table never shrinks (`pkg/controller/networks.go:75` deletes from another table), so the inventory only grows.
- UIDs and API versions of references; the kinds that are neither Pool nor Network are kept as they are.
- Parsing of the over-commit ratio, and rounding in scores: scores are real numbers, and the free ratio of a total of 0 is taken as 0.
- Message texts, including the counts they mention; they come in as a parameter, so when a text changes is not modelled.
- Only the last component of a port group path is kept, and a condition type is compared character by character, not byte by byte.
- PoolLoop.AssignPools: for a request that leaves no room to spread it promises, while the minimum is pending, safety and that no allowed pick is passed over, not completeness, because the code does not have it (see `Exactness.CompleteExactlyWithRoom`).
- Liveness of siblings that want several networks: a sibling can be bound to port groups its pools lack.
- Distinct VLANs across the pools of one lease: the code looks at the pool being filled only (`pkg/controller/leases.go:726-743`).
- The `oc-vcm` plugin, the manifests, the generated code and the pool and network reconcilers, which only maintain the inventory tables.
