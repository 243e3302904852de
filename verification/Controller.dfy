/**
 The lease controller (pkg/controller/leases.go, 772-1737; pkg/controller/context.go, 9-14): the
 tables it keeps, the two kinds of write to the API server, and the steps it takes under its lock.
 Each method is proved to take a step of the state machine and so to keep its invariant.
 */
module Controller {
  import opened Types
  import opened Scheduling
  import opened PoolLoop
  import opened Accounting
  import opened Conditions
  import opened DelayGate
  import opened NetworkTables
  import opened NetworkAssignment
  import opened NetworkLoop
  import opened LeaseStates
  import opened Lifecycle
  import Invariants

  // ---- Reading and deciding ----------------------------------------------------------------

  /** The pools of the inventory in some order. */
  method ListPools(pools: map<string, Pool>, names: set<string>) returns (listed: seq<Pool>)
    requires ValidPools(pools) && names <= pools.Keys
    ensures forall p :: p in listed <==> p.name in names && pools[p.name] == p
    ensures forall i, j :: 0 <= i < j < |listed| ==> listed[i].name != listed[j].name
  {
    listed := [];
    var left := names;
    while left != {}
      invariant left <= names
      invariant forall p :: p in listed <==> p.name in names && p.name !in left && pools[p.name] == p
      invariant forall i, j :: 0 <= i < j < |listed| ==> listed[i].name != listed[j].name
      decreases |left|
    {
      var n :| n in left;
      assert forall i :: 0 <= i < |listed| ==> listed[i] in listed;
      listed := listed + [pools[n]];
      left := left - {n};
    }
  }

  /** Looks up the pools the lease refers to, in order; fails if one of them does not exist. */
  method GetAssignedPools(pools: map<string, Pool>, refs: seq<OwnerRef>) returns (found: Option<seq<Pool>>)
    ensures found.None? <==> exists n :: PoolRef(n) in refs && n !in pools
    ensures found.Some? ==> found.value == HeldPools(pools, refs)
  {
    var held := [];
    for i := 0 to |refs|
      invariant held == HeldPools(pools, refs[..i])
      invariant forall n :: PoolRef(n) in refs[..i] ==> n in pools
    {
      assert refs[..i + 1][..i] == refs[..i];
      if refs[i].PoolRef? {
        if refs[i].name !in pools {
          assert PoolRef(refs[i].name) in refs;
          return None;
        }
        held := held + [pools[refs[i].name]];
      }
    }
    assert refs[..|refs|] == refs;
    return Some(held);
  }

  /** Drops the references to pools and networks. */
  method ReleaseAll(refs: seq<OwnerRef>) returns (kept: seq<OwnerRef>)
    ensures kept == OtherRefs(refs)
  {
    kept := [];
    for i := 0 to |refs|
      invariant kept + OtherRefs(refs[i..]) == OtherRefs(refs)
    {
      assert refs[i..][1..] == refs[i + 1..];
      if refs[i].OtherRef? {
        assert kept + OtherRefs(refs[i..]) == kept + [refs[i]] + OtherRefs(refs[i + 1..]);
        kept := kept + [refs[i]];
      }
    }
  }

  /** The first pool that has no network of the lease at all. */
  method PoolMissingNetworks(networks: map<string, Network>, held: seq<Pool>, refs: seq<OwnerRef>)
    returns (missing: Option<string>)
    requires ValidTable(networks) && DistinctRefs(refs)
    ensures missing.None? <==> forall p :: p in held ==> NetworksIn(networks, refs, p) > 0
    ensures missing.Some? ==>
              exists i :: 0 <= i < |held| && held[i].name == missing.value && NetworksIn(networks, refs, held[i]) == 0
                       && forall k :: 0 <= k < i ==> NetworksIn(networks, refs, held[k]) > 0
  {
    for i := 0 to |held|
      invariant forall k :: 0 <= k < i ==> NetworksIn(networks, refs, held[k]) > 0
    {
      var poolNetworks := GetNetworksForPool(held[i], networks);
      var count := CountOwned(refs, poolNetworks);
      if count == 0 {
        assert held[i] in held && NetworksIn(networks, refs, held[i]) == 0;
        return Some(held[i].name);
      }
    }
    return None;
  }

  method AllPoolsHaveNetworks(spec: LeaseSpec, networks: map<string, Network>, held: seq<Pool>, refs: seq<OwnerRef>)
    returns (all: bool)
    requires ValidTable(networks) && DistinctRefs(refs)
    ensures all <==> forall p :: p in held ==> NetworksIn(networks, refs, p) >= spec.networks
  {
    all := true;
    for i := 0 to |held|
      invariant all <==> forall k :: 0 <= k < i ==> NetworksIn(networks, refs, held[k]) >= spec.networks
    {
      var poolNetworks := GetNetworksForPool(held[i], networks);
      var count := CountOwned(refs, poolNetworks);
      if count < spec.networks {
        all := false;
      }
    }
    if all {
      forall p | p in held ensures NetworksIn(networks, refs, p) >= spec.networks {
        var k :| 0 <= k < |held| && held[k] == p;
      }
    }
  }

  /** The phase decision. */
  method Decide(spec: LeaseSpec, networks: map<string, Network>, held: seq<Pool>, refs: seq<OwnerRef>)
    returns (v: Verdict)
    requires ValidTable(networks) && DistinctRefs(refs)
    ensures VerdictIs(spec, networks, held, refs, v)
  {
    var missing := PoolMissingNetworks(networks, held, refs);
    if missing.Some? {
      return NetworksMissing;
    }
    var poolsFulfilled := |held| >= RequiredPools(spec);
    var allPoolsHaveNetworks := AllPoolsHaveNetworks(spec, networks, held, refs);
    if poolsFulfilled && allPoolsHaveNetworks {
      return Complete;
    }
    return Incomplete;
  }

  // ---- Writing statuses --------------------------------------------------------------------

  method SetAdmitted(status: LeaseStatus, now: nat) returns (status': LeaseStatus)
    requires StrictlySorted(status.conditions)
    ensures status' == AdmittedStatus(status, now)
  {
    var c := Set(status.conditions, FalseCondition(FULFILLED), now);
    c := Set(c, FalseCondition(DELAYED), now);
    c := Set(c, TrueCondition(PENDING), now);
    c := Set(c, FalseCondition(PARTIAL), now);
    status' := LeaseStatus(Pending, "pending", c);
  }

  method SetFailed(status: LeaseStatus, now: nat, note: string) returns (status': LeaseStatus)
    requires StrictlySorted(status.conditions)
    ensures status' == FailedStatus(status, now, note)
  {
    var c := Set(status.conditions, FalseConditionWithReason(FULFILLED, "Unschedulable", "Error", note), now);
    c := Set(c, FalseCondition(PENDING), now);
    c := Set(c, FalseCondition(PARTIAL), now);
    c := Set(c, FalseCondition(DELAYED), now);
    status' := status.(phase := Failed, conditions := c);
  }

  method SetDelayed(status: LeaseStatus, now: nat) returns (status': LeaseStatus)
    requires StrictlySorted(status.conditions)
    ensures status' == DelayedStatus(status, now)
  {
    var c := Set(status.conditions, TrueCondition(DELAYED), now);
    c := Set(c, FalseConditionWithReason(FULFILLED, "LeaseDelayed", "Info", DELAY_NOTE), now);
    status' := status.(conditions := c);
  }

  method SetNotDelayed(status: LeaseStatus, now: nat) returns (status': LeaseStatus)
    requires StrictlySorted(status.conditions)
    ensures status' == NotDelayedStatus(status, now) && StrictlySorted(status'.conditions)
  {
    var c := Set(status.conditions, FalseCondition(DELAYED), now);
    status' := status.(conditions := c);
  }

  method SetNoPool(status: LeaseStatus, now: nat, note: string) returns (status': LeaseStatus)
    requires StrictlySorted(status.conditions)
    ensures status' == NoPoolStatus(status, now, note)
  {
    var c := Set(status.conditions, FalseConditionWithReason(FULFILLED, "NoAvailablePool", "Warning", note), now);
    status' := status.(conditions := c);
  }

  method SetVerdict(lease: Lease, held: seq<Pool>, v: Verdict, now: nat, note: string) returns (status': LeaseStatus)
    requires StrictlySorted(lease.status.conditions) && held != []
    ensures status' == StatusAfter(lease, held, v, now, note)
  {
    if v == NetworksMissing {
      return lease.status;
    }
    var status := SetNotDelayed(lease.status, now);
    status := status.(failureDomain := held[0].failureDomain);
    if v == Complete {
      var c := Set(status.conditions, TrueCondition(FULFILLED), now);
      c := Set(c, FalseCondition(PENDING), now);
      c := Set(c, FalseCondition(PARTIAL), now);
      status' := status.(phase := Fulfilled, conditions := c);
    } else {
      var c := Set(status.conditions, FalseCondition(PENDING), now);
      c := Set(c, FalseConditionWithReason(FULFILLED, "LeasePartial", "Info", note), now);
      c := Set(c, TrueCondition(PARTIAL), now);
      status' := status.(phase := Partial, conditions := c);
    }
  }

  // ---- Networks and phase ------------------------------------------------------------------

  method ListSiblingPools(lease: Lease, stored: map<string, Lease>, marked: set<string>, pools: map<string, Pool>)
    returns (listed: seq<Pool>)
    requires ValidPools(pools) && lease.name in stored && stored[lease.name] == lease
    ensures ToSet(listed) == SiblingPools(pools, stored - marked - {lease.name}, lease)
  {
    if NetworkOnly(lease) {
      return [];
    }
    var names := ResolveSiblingPools(lease, stored, marked, pools);
    listed := ListPools(pools, names);
    forall n | n in names ensures UsedBySibling(stored - marked - {lease.name}, lease, n) {
      var k :| k in stored && k !in marked && stored[k].name != lease.name && SameGroup(lease, stored[k])
          && KnownFor(stored[k], n);
      assert (stored - marked - {lease.name})[k] == stored[k];
    }
  }

  /** Networks for the pools of the lease, and what its status becomes. */
  method PlaceLease(ghost s: State, lease: Lease, ghost picks: seq<Pool>, refs: seq<OwnerRef>, held: seq<Pool>,
      others: map<string, Lease>, networks: map<string, Network>, multiUsesSingle: bool, siblingPools: seq<Pool>,
      now: nat, note: string)
    returns (ghost adds: seq<Network>, result: Lease, v: Verdict)
    requires s.networks == networks && s.multiUsesSingle == multiUsesSingle && others == s.leases - {lease.name}
    requires ValidTable(networks) && StrictlySorted(lease.status.conditions) && held != [] && DistinctRefs(refs)
    requires refs == lease.refs + PoolRefsOf(picks) && held == HeldPools(s.pools, lease.refs) + picks
    requires ToSet(siblingPools) == SiblingPools(s.pools, LivingOthers(s, lease), lease)
    ensures AssignStep(s, lease, now, note, picks, adds, result)
    ensures result == lease.(refs := result.refs, status := StatusAfter(lease, held, v, now, note))
  {
    var placed := lease.(refs := refs);
    var added, refs' := AssignNetworks(placed, others, networks, multiUsesSingle, held, siblingPools);
    adds := added;
    v := Decide(lease.spec, networks, held, refs');
    var st := SetVerdict(lease, held, v, now, note);
    result := lease.(refs := refs', status := st);
  }

  // ---- The controller ----------------------------------------------------------------------

  class LeaseController {
    var pools: map<string, Pool>
    var status: map<string, PoolStatus>
    var networks: map<string, Network>
    var leases: map<string, Lease>
    var stored: map<string, Lease>
    var marked: set<string>
    const multiUsesSingle: bool

    ghost function View(): State
      reads this
    {
      State(pools, networks, leases, stored, marked, multiUsesSingle)
    }

    ghost predicate Valid()
      reads this
    {
      Inv(View())
    }

    constructor (multiUsesSingle: bool)
      ensures Init(View()) && Valid()
      ensures pools == map[] && networks == map[] && this.multiUsesSingle == multiUsesSingle
    {
      this.pools, this.status, this.networks := map[], map[], map[];
      this.leases, this.stored, this.marked := map[], map[], {};
      this.multiUsesSingle := multiUsesSingle;
      new;
      InitInv(View());
    }

    // ---- Steps of the environment ----------------------------------------------------------

    method CreateLease(lease: Lease)
      requires Valid() && Untouched(lease) && lease.name !in stored
      modifies this`stored
      ensures Next(old(View()), Create(lease), View()) && Valid()
    {
      ghost var before := View();
      stored := stored[lease.name := lease];
      Invariants.NextKeepsInv(before, Create(lease), View());
    }

    method AddPool(pool: Pool)
      requires Valid() && pool.name !in pools && pool.server != ""
      modifies this`pools, this`status
      ensures Next(old(View()), Action.AddPool(pool), View()) && Valid()
      ensures status.Keys == pools.Keys && forall n :: n in pools ==> Balanced(pools[n], status[n], leases)
    {
      ghost var before := View();
      pools := pools[pool.name := pool];
      Invariants.NextKeepsInv(before, Action.AddPool(pool), View());
      status := ReconcilePoolStates(pools, leases);
    }

    method AddNetwork(network: Network)
      requires Valid() && network.name !in networks && ValidTable(networks[network.name := network])
      modifies this`networks
      ensures Next(old(View()), Action.AddNetwork(network), View()) && Valid()
    {
      ghost var before := View();
      networks := networks[network.name := network];
      Invariants.NextKeepsInv(before, Action.AddNetwork(network), View());
    }

    /** A user deletes the lease: it is marked, and goes away with its next reconcile. */
    method MarkForDeletion(name: string)
      requires Valid() && name in stored
      modifies this`marked
      ensures Next(old(View()), Mark(name), View()) && Valid()
    {
      ghost var before := View();
      marked := marked + {name};
      Invariants.NextKeepsInv(before, Mark(name), View());
    }

    /** Deletion: the lease leaves the table and the figures of its pools are recomputed. */
    method DeleteLease(name: string)
      requires Valid() && name in stored && name in marked
      modifies this`leases, this`stored, this`marked, this`status
      ensures Next(old(View()), Delete(name), View()) && Valid()
      ensures status.Keys == pools.Keys && forall n :: n in pools ==> Balanced(pools[n], status[n], leases)
    {
      ghost var before := View();
      ghost var after := Removal(before, name);
      leases := leases - {name};
      stored := stored - {name};
      marked := marked - {name};
      assert View() == after;
      status := ReconcilePoolStates(pools, leases);
    }

    // ---- Writes to the API server ----------------------------------------------------------

    /** No other lease is touched by a write to `name`. */
    twostate predicate OthersUntouched(name: string)
      reads this
    {
      && stored.Keys == old(stored.Keys) && leases.Keys == old(leases.Keys)
      && (forall k :: k in stored && k != name ==> stored[k] == old(stored)[k])
      && (forall k :: k in leases && k != name ==> leases[k] == old(leases)[k])
    }

    /** Stores the references; the answer overwrites the lease in memory, status included. The caller
        loses a status that it has set in memory, and nothing else. */
    method UpdateMetadata(name: string)
      requires name in leases && name in stored
      modifies this`leases, this`stored
      ensures OthersUntouched(name) && leases[name] == stored[name]
      ensures stored[name].refs == old(leases[name].refs) && stored[name].status == old(stored[name].status)
      ensures old(leases[name] == stored[name]) ==> View() == old(View())
      ensures stored[name] == old(stored[name]).(refs := stored[name].refs)
    {
      stored := stored[name := stored[name].(refs := leases[name].refs)];
      leases := leases[name := stored[name]];
    }

    /** Stores the status, which has to be coherent; the answer overwrites the lease in memory,
        references included. The caller loses references that it has added in memory, and nothing
        else. */
    method UpdateStatus(name: string)
      requires name in leases && name in stored && Coherent(leases[name].status)
      modifies this`leases, this`stored
      ensures OthersUntouched(name) && leases[name] == stored[name] && Coherent(stored[name].status)
      ensures stored[name].status == old(leases[name].status) && stored[name].refs == old(stored[name].refs)
      ensures stored[name] == old(stored[name]).(status := stored[name].status)
      ensures old(leases[name] == stored[name]) ==> View() == old(View())
    {
      stored := stored[name := stored[name].(status := leases[name].status)];
      leases := leases[name := stored[name]];
    }

    // ---- Reconcile -------------------------------------------------------------------------

    /** Since `before`, nothing but this lease has changed, and memory and store agree on it. */
    ghost predicate AtWork(before: State, lease: Lease)
      reads this
    {
      View() == before.(leases := before.leases[lease.name := lease], stored := before.stored[lease.name := lease])
    }

    /** Status write only: whatever references were added in memory are lost. */
    method PersistStatus(ghost before: State, lease: Lease, refs: seq<OwnerRef>, st: LeaseStatus)
      requires AtWork(before, lease) && Coherent(st)
      modifies this`leases, this`stored
      ensures AtWork(before, lease.(status := st))
    {
      leases := leases[lease.name := lease.(refs := refs, status := st)];
      UpdateStatus(lease.name);
      MapUpdated(leases, before.leases, lease.name, lease.(status := st));
      MapUpdated(stored, before.stored, lease.name, lease.(status := st));
    }

    /** Metadata write only: whatever status was set in memory is lost. */
    method PersistMetadata(ghost before: State, lease: Lease, refs: seq<OwnerRef>, st: LeaseStatus)
      requires AtWork(before, lease)
      modifies this`leases, this`stored
      ensures AtWork(before, lease.(refs := refs))
    {
      leases := leases[lease.name := lease.(refs := refs, status := st)];
      UpdateMetadata(lease.name);
      MapUpdated(leases, before.leases, lease.name, lease.(refs := refs));
      MapUpdated(stored, before.stored, lease.name, lease.(refs := refs));
    }

    /** Both writes, with the status kept aside during the first. */
    method PersistBoth(ghost before: State, lease: Lease, refs: seq<OwnerRef>, st: LeaseStatus)
      requires AtWork(before, lease) && Coherent(st)
      modifies this`leases, this`stored
      ensures AtWork(before, lease.(refs := refs, status := st))
    {
      PersistMetadata(before, lease, refs, st);
      PersistStatus(before, lease.(refs := refs), refs, st);
    }

    method Fail(ghost before: State, lease: Lease, now: nat, note: string)
      requires AtWork(before, lease) && Coherent(lease.status)
      modifies this`leases, this`stored
      ensures AtWork(before, lease.(refs := OtherRefs(lease.refs), status := FailedStatus(lease.status, now, note)))
    {
      var kept := ReleaseAll(lease.refs);
      var failed := SetFailed(lease.status, now, note);
      FailedCoherent(lease.status, now, note);
      PersistBoth(before, lease, kept, failed);
    }

    method Delay(ghost before: State, lease: Lease, now: nat)
      requires AtWork(before, lease) && Coherent(lease.status) && lease.status.phase == Pending
      modifies this`leases, this`stored
      ensures AtWork(before, lease.(status := DelayedStatus(lease.status, now)))
    {
      var delayed := SetDelayed(lease.status, now);
      WaitingCoherent(lease.status, now, "");
      PersistStatus(before, lease, lease.refs, delayed);
    }

    /** No pool: the picks so far live in memory only and are lost with the status write. */
    method ReportNoPool(ghost before: State, lease: Lease, refs: seq<OwnerRef>, now: nat, note: string)
      requires AtWork(before, lease) && Coherent(lease.status)
          && (lease.status.phase == Pending || lease.status.phase == Partial)
      modifies this`leases, this`stored
      ensures AtWork(before, lease.(status := NoPoolStatus(NotDelayedStatus(lease.status, now), now, note)))
    {
      var st := SetNotDelayed(lease.status, now);
      st := SetNoPool(st, now, note);
      WaitingCoherent(lease.status, now, note);
      WaitingCoherent(NotDelayedStatus(lease.status, now), now, note);
      PersistStatus(before, lease, refs, st);
    }

    /** Stuck: pools and networks are given back; the metadata write resets the status in memory,
        and the condition is set on top of that. */
    method GiveBack(ghost before: State, lease: Lease, refs: seq<OwnerRef>, now: nat, note: string)
      requires AtWork(before, lease) && Coherent(lease.status)
          && (lease.status.phase == Pending || lease.status.phase == Partial)
      requires OtherRefs(refs) == OtherRefs(lease.refs)
      modifies this`leases, this`stored
      ensures AtWork(before, lease.(refs := OtherRefs(lease.refs), status := NoPoolStatus(lease.status, now, note)))
    {
      var kept := ReleaseAll(refs);
      var st := SetNotDelayed(lease.status, now);
      PersistMetadata(before, lease, kept, st);
      var current := leases[lease.name];
      st := SetNoPool(current.status, now, note);
      WaitingCoherent(lease.status, now, note);
      PersistStatus(before, current, current.refs, st);
    }

    /** Networks for the pools, the decision, and the final two writes (one if a pool has no
        network yet). */
    method Place(ghost before: State, lease: Lease, refs: seq<OwnerRef>, held: seq<Pool>, ghost picks: seq<Pool>,
        now: nat, note: string)
      returns (ghost adds: seq<Network>, ghost result: Lease)
      requires AtWork(before, lease) && ValidPools(pools) && ValidTable(networks)
      requires Coherent(lease.status) && !Finished(lease) && lease.status.phase != Unset
      requires held != [] && DistinctRefs(refs)
      requires refs == lease.refs + PoolRefsOf(picks) && held == HeldPools(pools, lease.refs) + picks
      modifies this`leases, this`stored
      ensures AtWork(before, result) && result.name == lease.name
      ensures AssignStep(before, lease, now, note, picks, adds, result)
    {
      var siblingPools := ListSiblingPools(lease, stored, marked, pools);
      assert stored - marked - {lease.name} == LivingOthers(before, lease);
      var others := leases - {lease.name};
      assert others == before.leases - {lease.name};
      var adds', result', v :=
        PlaceLease(before, lease, picks, refs, held, others, networks, multiUsesSingle, siblingPools, now, note);
      adds, result := adds', result';
      AssignedStatusOk(lease, held, now, note);
      if v == NetworksMissing {
        PersistMetadata(before, lease, result'.refs, lease.status);
      } else {
        PersistBoth(before, lease, result'.refs, result'.status);
      }
    }

    /** The pools the lease has, and those picked for it now. */
    method GatherPools(ghost before: State, lease: Lease, inventory: seq<Pool>)
      returns (held: seq<Pool>, picks: seq<Pool>, refs: seq<OwnerRef>, outcome: PoolOutcome)
      requires AtWork(before, lease) && ValidPools(pools) && LeaseOk(pools, networks, lease)
      requires Listing(inventory, status) && ToSet(inventory) == AllPools(pools)
      requires status == Figures(pools, leases)
      ensures held == HeldPools(pools, lease.refs) && refs == lease.refs + PoolRefsOf(picks)
      ensures ValidPools(before.pools) && PoolStep(before, lease, picks, outcome)
      ensures outcome == NoPool || outcome == Stuck || held + picks != []
    {
      var found := GetAssignedPools(pools, lease.refs);
      assert found.Some?;
      held := found.value;
      HeldIsHolding(pools, networks, lease);
      picks, refs, outcome := AssignPools(lease, inventory, status, held);
    }

    /** Everything after the delay gate: pools, then networks. */
    method AssignResources(ghost before: State, lease: Lease, inventory: seq<Pool>, now: nat, note: string)
      returns (ghost branch: Branch, ghost result: Lease)
      requires AtWork(before, lease) && ValidPools(pools) && ValidTable(networks)
      requires LeaseOk(pools, networks, lease) && !Finished(lease)
      requires Satisfiable(lease.spec, AllPools(pools)) && !IsDelayed(lease, leases)
      requires Listing(inventory, status) && ToSet(inventory) == AllPools(pools)
      requires status == Figures(pools, leases)
      modifies this`leases, this`stored
      ensures AtWork(before, result) && result.name == lease.name
      ensures ValidPools(before.pools) && Outcome(before, lease, now, note, branch, result)
    {
      var held, picks, refs, outcome := GatherPools(before, lease, inventory);
      if outcome == NoPool {
        ReportNoPool(before, lease, refs, now, note);
        branch := NoPoolFound(picks);
        result := lease.(status := NoPoolStatus(NotDelayedStatus(lease.status, now), now, note));
      } else if outcome == Stuck {
        ReleasedPicks(lease.refs, picks);
        GiveBack(before, lease, refs, now, note);
        branch := GaveBack(picks);
        result := lease.(refs := OtherRefs(lease.refs), status := NoPoolStatus(lease.status, now, note));
      } else {
        PickedRefsDistinct(before, lease, picks, outcome);
        var adds, result' := Place(before, lease, refs, held + picks, picks, now, note);
        branch, result := Assigned(picks, outcome, adds), result';
      }
    }

    /** What is done with an unfinished lease: it fails, waits, or is given resources. */
    method Proceed(ghost before: State, lease: Lease, now: nat, note: string)
      returns (ghost branch: Branch, ghost result: Lease)
      requires AtWork(before, lease) && ValidPools(pools) && ValidTable(networks)
      requires LeaseOk(pools, networks, lease) && !Finished(lease)
      modifies this`leases, this`stored, this`status
      ensures AtWork(before, result) && result.name == lease.name
      ensures ValidPools(before.pools) && Outcome(before, lease, now, note, branch, result)
    {
      status := ReconcilePoolStates(pools, leases);
      BalancedFigures(pools, status, leases);
      var inventory := ListPools(pools, pools.Keys);
      InventoryListed(pools, status, inventory);
      var satisfiable, _ := IsLeaseSatisfiable(lease.spec, inventory);
      if !satisfiable {
        Fail(before, lease, now, note);
        branch, result := Unsatisfiable,
            lease.(refs := OtherRefs(lease.refs), status := FailedStatus(lease.status, now, note));
        return;
      }
      var delayed := ShouldLeaseBeDelayed(lease, leases);
      if delayed {
        Delay(before, lease, now);
        branch, result := HeldBack, lease.(status := DelayedStatus(lease.status, now));
        return;
      }
      branch, result := AssignResources(before, lease, inventory, now, note);
    }

    /** Reads the lease, gives it its initial status if it has none, and enters it in the table. */
    method Enter(name: string, now: nat) returns (lease: Lease)
      requires Valid() && name in stored
      modifies this`leases, this`stored
      ensures lease == Admit(old(stored)[name], now) && lease.name == name
      ensures AtWork(old(View()), lease)
    {
      lease := stored[name];
      if lease.status.phase == Unset {
        var st := SetAdmitted(lease.status, now);
        lease := lease.(status := st);
      }
      stored := stored[name := lease];
      leases := leases[name := lease];
    }

    /** One reconcile of one lease: a lease that is gone is none of its business, one that is marked is
        removed, and any other takes one of the branches. */
    method ReconcileLease(name: string, now: nat, note: string) returns (ghost branch: Branch)
      requires Valid()
      modifies this`leases, this`stored, this`marked, this`status
      ensures name in old(stored) && name !in old(marked) ==>
                Next(old(View()), Reconcile(name, now, note, branch), View())
      ensures name in old(stored) && name in old(marked) ==> Next(old(View()), Delete(name), View())
      ensures name !in old(stored) ==> View() == old(View())
      ensures Valid()
    {
      branch := Settled;
      if name !in stored {
        return;
      }
      if name in marked {
        DeleteLease(name);
        return;
      }
      ghost var before := View();
      AdmittedOk(before, name, now);
      var lease := Enter(name, now);
      ghost var result := lease;
      if !(lease.status.phase == Fulfilled || lease.status.phase == Failed) {
        branch, result := Proceed(before, lease, now, note);
      }
      StepTaken(before, lease, now, note, branch, result);
    }
  }

  /** A reconcile that made the lease into an allowed result was a step of the machine. */
  lemma StepTaken(before: State, lease: Lease, now: nat, note: string, branch: Branch, result: Lease)
    requires Inv(before) && lease.name in before.stored && lease.name !in before.marked
    requires lease == Admit(before.stored[lease.name], now)
    requires result.name == lease.name && Outcome(before, lease, now, note, branch, result)
    ensures var after := before.(leases := before.leases[result.name := result],
        stored := before.stored[result.name := result]);
            Next(before, Reconcile(lease.name, now, note, branch), after) && Inv(after)
  {
    var after := before.(leases := before.leases[result.name := result],
        stored := before.stored[result.name := result]);
    Invariants.NextKeepsInv(before, Reconcile(lease.name, now, note, branch), after);
  }

  // ---- Lemmas used by the methods ----------------------------------------------------------

  lemma Removal(s: State, name: string) returns (after: State)
    requires Inv(s) && name in s.stored && name in s.marked
    ensures after == s.(leases := s.leases - {name}, stored := s.stored - {name}, marked := s.marked - {name})
    ensures Next(s, Delete(name), after) && Inv(after)
  {
    after := s.(leases := s.leases - {name}, stored := s.stored - {name}, marked := s.marked - {name});
    Invariants.NextKeepsInv(s, Delete(name), after);
  }

  lemma MapUpdated<K, V>(m': map<K, V>, m: map<K, V>, k: K, v: V)
    requires m'.Keys == m.Keys + {k} && m'[k] == v && forall x :: x in m && x != k ==> m'[x] == m[x]
    ensures m' == m[k := v]
  {
  }

  lemma BalancedFigures(pools: map<string, Pool>, status: map<string, PoolStatus>, leases: map<string, Lease>)
    requires ValidPools(pools) && status.Keys == pools.Keys && forall n :: n in pools ==>
        Balanced(pools[n], status[n], leases)
    ensures status == Figures(pools, leases)
  {
    forall n | n in pools ensures status[n] == Figures(pools, leases)[n] {
      BalancedFigure(pools[n], status[n], leases);
    }
  }

  lemma BalancedFigure(pool: Pool, figures: PoolStatus, leases: map<string, Lease>)
    requires Balanced(pool, figures, leases)
    ensures figures == Figure(pool, leases, pool.name)
  {
    assert Available(figures, Cpu) + Used(leases, pool.name, Cpu) == Capacity(pool, Cpu);
    assert Available(figures, Memory) + Used(leases, pool.name, Memory) == Capacity(pool, Memory);
  }

  lemma InventoryListed(pools: map<string, Pool>, status: map<string, PoolStatus>, inventory: seq<Pool>)
    requires ValidPools(pools) && status.Keys == pools.Keys
    requires forall p :: p in inventory <==> p.name in pools && pools[p.name] == p
    requires forall i, j :: 0 <= i < j < |inventory| ==> inventory[i].name != inventory[j].name
    ensures Listing(inventory, status) && ToSet(inventory) == AllPools(pools)
  {
  }

  lemma HeldIsHolding(pools: map<string, Pool>, networks: map<string, Network>, lease: Lease)
    requires ValidPools(pools) && LeaseOk(pools, networks, lease)
    ensures Distinct(HeldPools(pools, lease.refs))
    ensures Holds(lease, AllPools(pools), ToSet(HeldPools(pools, lease.refs)))
  {
    HeldDistinct(pools, lease.refs);
    HeldMembers(pools, lease.refs);
  }

  lemma {:induction false} NothingElse(refs: seq<OwnerRef>)
    requires forall r :: r in refs ==> !r.OtherRef?
    ensures OtherRefs(refs) == []
  {
    if refs != [] {
      NothingElse(refs[1..]);
    }
  }

  lemma {:induction false} ReleasedPicks(refs: seq<OwnerRef>, picks: seq<Pool>)
    ensures OtherRefs(refs + PoolRefsOf(picks)) == OtherRefs(refs)
  {
    if refs == [] {
      assert refs + PoolRefsOf(picks) == PoolRefsOf(picks);
      NothingElse(PoolRefsOf(picks));
    } else {
      assert (refs + PoolRefsOf(picks))[1..] == refs[1..] + PoolRefsOf(picks);
      ReleasedPicks(refs[1..], picks);
    }
  }

  lemma PickedRefsDistinct(s: State, lease: Lease, picks: seq<Pool>, outcome: PoolOutcome)
    requires ValidPools(s.pools) && RefsOk(s.pools, s.networks, lease.refs) && PoolStep(s, lease, picks, outcome)
    ensures DistinctRefs(lease.refs + PoolRefsOf(picks))
  {
    PicksAreNew(s, lease, picks, outcome);
    NewRefsDistinct(s.pools, lease.refs, picks);
  }

  lemma NewRefsDistinct(pools: map<string, Pool>, refs: seq<OwnerRef>, picks: seq<Pool>)
    requires ValidPools(pools) && DistinctRefs(refs) && Distinct(picks)
    requires forall p :: p in picks ==> p in AllPools(pools) && PoolRef(p.name) !in refs
    ensures DistinctRefs(refs + PoolRefsOf(picks))
  {
    assert forall i :: 0 <= i < |picks| ==> picks[i] in picks;
    forall i, j | 0 <= i < j < |picks| ensures picks[i].name != picks[j].name {
      assert pools[picks[i].name] == picks[i] && pools[picks[j].name] == picks[j];
    }
  }
}
