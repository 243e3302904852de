/**
 Leases of one job share their networks across pools, so a lease that comes first must not settle on
 networks that the pools of the others lack (pkg/controller/leases.go, 548-635, 1378-1458). What a lease
 gains while no lease of its job owns a network, stated over runs.
 */
module Siblings {
  import opened Types
  import opened PoolLoop
  import opened NetworkTables
  import opened NetworkAssignment
  import opened NetworkLoop
  import opened LeaseStates
  import opened Lifecycle
  import opened Invariants
  import opened Theorems
  import opened Releases

  /** Another lease that carries the same boskos id, both asking for vCPUs or memory. */
  ghost predicate OfOneJob(s: State, k: string, sib: string) {
    && k in s.stored && sib in s.stored && sib != k
    && s.stored[k].boskosId.Some? && s.stored[sib].boskosId == s.stored[k].boskosId
    && (s.stored[k].spec.vcpus > 0 || s.stored[k].spec.memory > 0)
    && (s.stored[sib].spec.vcpus > 0 || s.stored[sib].spec.memory > 0)
  }

  /** No lease of the job owns a network yet. */
  ghost predicate FirstOfJob(s: State, k: string) {
    forall sib, m :: OfOneJob(s, k, sib) && m in s.networks ==> NetworkRef(m) !in s.stored[sib].refs
  }

  /** A lease of the job that is not to be deleted owns the pool, or owns none and requires this one. */
  ghost predicate NeededBy(s: State, k: string, sib: string, pool: string) {
    && OfOneJob(s, k, sib) && sib !in s.marked
    && (|| PoolRef(pool) in s.stored[sib].refs
        || (&& pool != "" && pool == s.stored[sib].spec.requiredPool
            && forall q :: PoolRef(q) !in s.stored[sib].refs))
  }

  /** The pool has a network of the port group that nobody owns and whose label suits the type. */
  ghost predicate OffersNow(s: State, networkType: string, pool: string, portGroup: string) {
    exists m :: m in s.networks && OfferedNow(s, networkType, pool, portGroup, m)
  }

  ghost predicate OfferedNow(s: State, networkType: string, pool: string, portGroup: string, m: string)
    requires m in s.networks
  {
    var n := s.networks[m];
    && pool in s.pools && n.pod == s.pools[pool].pod && n.portGroup == portGroup
    && portGroup in s.pools[pool].portGroups
    && (|| n.typeLabel == Some(networkType)
        || (n.typeLabel == None && networkType == "single-tenant")
        || (s.multiUsesSingle && networkType == "multi-tenant" && n.typeLabel in {None, Some("single-tenant")}))
    && forall x :: x in s.stored ==> NetworkRef(m) !in s.stored[x].refs
  }

  /** Every pool that the lease has after the step, and every pool that a lease of its job needs, offers
      the port group. */
  ghost predicate SharedByAll(s: State, s': State, k: string, portGroup: string)
    requires k in s.stored && k in s'.stored
  {
    && (forall p :: PoolRef(p) in s'.stored[k].refs ==> OffersNow(s, s.stored[k].spec.networkType, p, portGroup))
    && (forall p, sib :: p in s.pools && NeededBy(s, k, sib, p) ==>
          OffersNow(s, s.stored[k].spec.networkType, p, portGroup))
  }

  ghost predicate Gains(s: State, s': State, k: string, n: string) {
    && k in s.stored && k in s'.stored && n in s.networks
    && NetworkRef(n) in s'.stored[k].refs && NetworkRef(n) !in s.stored[k].refs
  }

  // ---- One reconcile -----------------------------------------------------------------------

  lemma PlacedTakesNothing(s: State, lease: Lease, picks: seq<Pool>, m: string)
    requires Inv(s) && lease.name in s.stored && s.stored[lease.name].refs == lease.refs
    requires Free(TableWith(s.leases - {lease.name}, lease.(refs := lease.refs + PoolRefsOf(picks)),
        lease.refs + PoolRefsOf(picks)), m)
    ensures forall x :: x in s.stored ==> NetworkRef(m) !in s.stored[x].refs
  {
    var placed := lease.(refs := lease.refs + PoolRefsOf(picks));
    FreeAmongOthers(s.leases - {lease.name}, placed, placed.refs, m);
    forall x | x in s.stored ensures NetworkRef(m) !in s.stored[x].refs {
      if x in s.leases && x != lease.name {
        assert (s.leases - {lease.name})[x] == s.stored[x];
      }
    }
  }

  lemma OfferedIsOffered(s: State, lease: Lease, picks: seq<Pool>, p: Pool, portGroup: string)
    requires Inv(s) && lease.name in s.stored && s.stored[lease.name].refs == lease.refs && p in AllPools(s.pools)
    requires var placed := lease.(refs := lease.refs + PoolRefsOf(picks));
             OffersPortGroup(p, lease.spec.networkType, s.multiUsesSingle, s.networks,
                 TableWith(s.leases - {lease.name}, placed, placed.refs), portGroup)
    ensures OffersNow(s, lease.spec.networkType, p.name, portGroup)
  {
    var placed := lease.(refs := lease.refs + PoolRefsOf(picks));
    var n :| Offered(p, lease.spec.networkType, s.multiUsesSingle, s.networks,
        TableWith(s.leases - {lease.name}, placed, placed.refs), n) && n.portGroup == portGroup;
    PlacedTakesNothing(s, lease, picks, n.name);
    assert OfferedNow(s, lease.spec.networkType, p.name, portGroup, n.name);
  }

  /** The pools of the reconciled lease are those it refers to afterwards. */
  lemma RefersToHeld(s: State, lease: Lease, picks: seq<Pool>, outcome: PoolOutcome, adds: seq<Network>, p: string)
    requires ValidPools(s.pools) && LeaseOk(s.pools, s.networks, lease)
    requires PoolStep(s, lease, picks, outcome) && NetworkStep(s, lease, picks, adds)
    requires PoolRef(p) in lease.refs + PoolRefsOf(picks) + NetworkRefsOf(adds)
    ensures p in s.pools && s.pools[p].name == p && s.pools[p] in HeldPools(s.pools, lease.refs) + picks
  {
    var refs := lease.refs + PoolRefsOf(picks) + NetworkRefsOf(adds);
    PoolsArePlaced(s, lease, picks, outcome);
    PlacedRefsOk(s, lease, picks, adds);
    HeldMembers(s.pools, refs);
    assert s.pools[p] in HeldPools(s.pools, refs);
  }

  lemma NeededIsSiblingPool(s: State, lease: Lease, sib: string, p: string)
    requires Inv(s) && lease.name in s.stored && p in s.pools && NeededBy(s, lease.name, sib, p)
    requires lease.spec == s.stored[lease.name].spec && lease.boskosId == s.stored[lease.name].boskosId
    ensures s.pools[p] in SiblingPools(s.pools, LivingOthers(s, lease), lease)
  {
    var others := LivingOthers(s, lease);
    assert others[sib] == s.stored[sib] && s.stored[sib].name == sib;
    assert KnownFor(others[sib], p);
    assert UsedBySibling(others, lease, p);
  }

  /** ... and the other way round. */
  lemma SiblingPoolIsNeeded(s: State, lease: Lease, p: Pool)
    requires Inv(s) && lease.name in s.stored && p in SiblingPools(s.pools, LivingOthers(s, lease), lease)
    requires lease.spec == s.stored[lease.name].spec && lease.boskosId == s.stored[lease.name].boskosId
    ensures p.name in s.pools && s.pools[p.name] == p && exists sib :: NeededBy(s, lease.name, sib, p.name)
  {
    var others := LivingOthers(s, lease);
    var n :| n in s.pools && UsedBySibling(others, lease, n) && s.pools[n] == p;
    var sib :| sib in others && others[sib].name != lease.name && SameGroup(lease, others[sib])
        && KnownFor(others[sib], n);
    assert others[sib] == s.stored[sib];
    assert NeededBy(s, lease.name, sib, n);
  }

  lemma OfferedToLoop(s: State, lease: Lease, p: Pool, portGroup: string)
    requires Inv(s) && lease.name in s.stored && lease.refs == s.stored[lease.name].refs && p in AllPools(s.pools)
    requires OffersNow(s, lease.spec.networkType, p.name, portGroup)
    ensures OffersPortGroup(p, lease.spec.networkType, s.multiUsesSingle, s.networks, s.leases[lease.name := lease],
        portGroup)
  {
    var m :| m in s.networks && OfferedNow(s, lease.spec.networkType, p.name, portGroup, m);
    var table := s.leases[lease.name := lease];
    forall x | x in table ensures NetworkRef(m) !in table[x].refs {
      if x != lease.name {
        assert table[x] == s.stored[x];
      }
    }
    assert Offered(p, lease.spec.networkType, s.multiUsesSingle, s.networks, table, s.networks[m]);
  }

  lemma NobodyBinds(s: State, lease: Lease, picks: seq<Pool>)
    requires Inv(s) && lease.name in s.stored && FirstOfJob(s, lease.name)
    requires lease.spec == s.stored[lease.name].spec && lease.boskosId == s.stored[lease.name].boskosId
    ensures !HasNetworkedSibling(s.leases - {lease.name}, lease.(refs := lease.refs + PoolRefsOf(picks)), s.networks)
  {
    var others, placed := s.leases - {lease.name}, lease.(refs := lease.refs + PoolRefsOf(picks));
    forall k ensures !NetworkedSibling(others, placed, s.networks, k) {
      if NetworkedSibling(others, placed, s.networks, k) {
        assert others[k] == s.stored[k] && OfOneJob(s, lease.name, k);
      }
    }
  }

  /** Whatever leads the choice of networks is shared by all pools. */
  lemma LeaderIsShared(s: State, lease: Lease, picks: seq<Pool>, outcome: PoolOutcome, adds: seq<Network>, first: nat,
      m: Network, s': State)
    requires Inv(s) && lease.name in s.stored && FirstOfJob(s, lease.name) && LeaseOk(s.pools, s.networks, lease)
    requires lease.spec == s.stored[lease.name].spec && lease.boskosId == s.stored[lease.name].boskosId
        && lease.refs == s.stored[lease.name].refs
    requires PoolStep(s, lease, picks, outcome) && NetworkStep(s, lease, picks, adds)
    requires lease.name in s'.stored
        && s'.stored[lease.name].refs == lease.refs + PoolRefsOf(picks) + NetworkRefsOf(adds)
    requires Leads(s, lease, picks, adds, first) && m in adds[..first]
    ensures SharedByAll(s, s', lease.name, m.portGroup)
  {
    var held := HeldPools(s.pools, lease.refs) + picks;
    var siblings := SiblingPools(s.pools, LivingOthers(s, lease), lease);
    NobodyBinds(s, lease, picks);
    forall p | PoolRef(p) in s'.stored[lease.name].refs ensures OffersNow(s, lease.spec.networkType, p, m.portGroup) {
      RefersToHeld(s, lease, picks, outcome, adds, p);
      OfferedIsOffered(s, lease, picks, s.pools[p], m.portGroup);
    }
    forall p, sib | p in s.pools && NeededBy(s, lease.name, sib, p)
      ensures OffersNow(s, lease.spec.networkType, p, m.portGroup)
    {
      NeededIsSiblingPool(s, lease, sib, p);
      OfferedIsOffered(s, lease, picks, s.pools[p], m.portGroup);
    }
  }

  ghost predicate Leads(s: State, lease: Lease, picks: seq<Pool>, adds: seq<Network>, first: nat) {
    LedBy(lease.(refs := lease.refs + PoolRefsOf(picks)), s.leases - {lease.name}, s.networks, s.multiUsesSingle,
        HeldPools(s.pools, lease.refs) + picks, SiblingPools(s.pools, LivingOthers(s, lease), lease), adds, first)
  }

  /** The VLAN of the gained network was the lease's already, or came with a network gained in the same
      step that all pools can share. */
  ghost predicate GainedInStep(s: State, s': State, k: string, n: string)
    requires Gains(s, s', k, n)
  {
    || (exists o :: o in s.networks && NetworkRef(o) in s.stored[k].refs && s.networks[o].vlan == s.networks[n].vlan)
    || (exists m :: Gains(s, s', k, m) && s.networks[m].vlan == s.networks[n].vlan
                 && SharedByAll(s, s', k, s.networks[m].portGroup))
  }

  lemma AddedNetwork(s: State, lease: Lease, now: nat, note: string, branch: Branch, result: Lease, n: string)
    returns (j: nat)
    requires ValidPools(s.pools) && Outcome(s, lease, now, note, branch, result)
    requires NetworkRef(n) in result.refs && NetworkRef(n) !in lease.refs
    ensures branch.Assigned? && j < |branch.adds| && branch.adds[j].name == n
    ensures PoolStep(s, lease, branch.picks, branch.outcome) && NetworkStep(s, lease, branch.picks, branch.adds)
    ensures result.refs == lease.refs + PoolRefsOf(branch.picks) + NetworkRefsOf(branch.adds)
    ensures forall i :: 0 <= i < |branch.adds| ==>
              && InTable(s.networks, branch.adds[i])
              && NetworkRef(branch.adds[i].name) in result.refs && NetworkRef(branch.adds[i].name) !in lease.refs
  {
    NewRefs(s, lease, now, note, branch, result, NetworkRef(n));
    j :| 0 <= j < |branch.adds| && NetworkRefsOf(branch.adds)[j] == NetworkRef(n);
    AddsAreNew(s, lease, branch.picks, branch.adds);
  }

  lemma AddsAreNew(s: State, lease: Lease, picks: seq<Pool>, adds: seq<Network>)
    requires NetworkStep(s, lease, picks, adds)
    ensures forall i :: 0 <= i < |adds| ==>
              && InTable(s.networks, adds[i])
              && NetworkRef(adds[i].name) in lease.refs + PoolRefsOf(picks) + NetworkRefsOf(adds)
              && NetworkRef(adds[i].name) !in lease.refs
  {
    StepIsSafe(s, lease, picks, adds);
    NewRefsAreNew(lease.refs, PoolRefsOf(picks), adds);
  }

  lemma StepIsSafe(s: State, lease: Lease, picks: seq<Pool>, adds: seq<Network>)
    requires NetworkStep(s, lease, picks, adds)
    ensures DistinctRefs(lease.refs + PoolRefsOf(picks) + NetworkRefsOf(adds))
    ensures forall i :: 0 <= i < |adds| ==> InTable(s.networks, adds[i])
  {
    forall i | 0 <= i < |adds| ensures InTable(s.networks, adds[i]) {
      assert adds[i] in adds;
    }
  }

  lemma NewRefsAreNew(refs: seq<OwnerRef>, more: seq<OwnerRef>, adds: seq<Network>)
    requires DistinctRefs(refs + more + NetworkRefsOf(adds))
    ensures forall i :: 0 <= i < |adds| ==>
              && NetworkRef(adds[i].name) in refs + more + NetworkRefsOf(adds)
              && NetworkRef(adds[i].name) !in refs
  {
    var all := refs + more + NetworkRefsOf(adds);
    forall i | 0 <= i < |adds| ensures NetworkRef(adds[i].name) in all && NetworkRef(adds[i].name) !in refs {
      assert all[|refs| + |more| + i] == NetworkRef(adds[i].name);
      assert forall x :: 0 <= x < |refs| ==> all[x] == refs[x];
    }
  }

  // ---- All runs ----------------------------------------------------------------------------

  /** In every run: while no lease of its job owns a network, a lease gains a network only if it lies in
      one of its pools, suits its type and is nobody's; and only of a VLAN that it owned already, or that
      came with a network gained in the same step whose port group was on offer at that moment in each of
      the lease's pools and in each pool that a living lease of its job owns, or requires. A lease with one
      pool gains every network in that way itself. */
  lemma GainsWhatAllCanShare(states: seq<State>, actions: seq<Action>, i: nat, k: string, n: string)
    requires Run(states, actions) && i < |actions|
    requires Gains(states[i], states[i + 1], k, n) && FirstOfJob(states[i], k)
    ensures exists p :: PoolRef(p) in states[i + 1].stored[k].refs
                     && OfferedNow(states[i], states[i].stored[k].spec.networkType, p,
                                   states[i].networks[n].portGroup, n)
    ensures GainedInStep(states[i], states[i + 1], k, n)
    ensures (forall p, q :: PoolRef(p) in states[i + 1].stored[k].refs && PoolRef(q) in states[i + 1].stored[k].refs ==>
               p == q) ==>
              SharedByAll(states[i], states[i + 1], k, states[i].networks[n].portGroup)
  {
    InvAlways(states, actions, i);
    assert StepAt(states, actions, i);
    NewMemberNetwork(states[i], actions[i], states[i + 1], k, n);
    StepGainsShared(states[i], actions[i], states[i + 1], n);
  }

  lemma StepGainsShared(s: State, a: Action, s': State, n: string)
    requires Inv(s) && Next(s, a, s') && a.Reconcile? && Gains(s, s', a.name, n) && FirstOfJob(s, a.name)
    ensures exists p :: PoolRef(p) in s'.stored[a.name].refs
                     && OfferedNow(s, s.stored[a.name].spec.networkType, p, s.networks[n].portGroup, n)
    ensures GainedInStep(s, s', a.name, n)
    ensures OnePool(s'.stored[a.name].refs) ==> SharedByAll(s, s', a.name, s.networks[n].portGroup)
  {
    var lease := Admit(s.stored[a.name], a.now);
    AdmittedOk(s, a.name, a.now);
    var j := AddedNetwork(s, lease, a.now, a.note, a.branch, s'.stored[a.name], n);
    var picks, adds := a.branch.picks, a.branch.adds;
    AssignmentGainsShared(s, lease, picks, a.branch.outcome, adds, j, s');
    AssignmentWasOnOffer(s, lease, picks, a.branch.outcome, adds, j);
  }

  lemma AssignmentWasOnOffer(s: State, lease: Lease, picks: seq<Pool>, outcome: PoolOutcome, adds: seq<Network>, j: nat)
    requires Inv(s) && lease.name in s.stored && FirstOfJob(s, lease.name)
    requires lease.spec == s.stored[lease.name].spec && lease.boskosId == s.stored[lease.name].boskosId
        && lease.refs == s.stored[lease.name].refs
    requires PoolStep(s, lease, picks, outcome) && NetworkStep(s, lease, picks, adds)
    requires j < |adds| && InTable(s.networks, adds[j])
    ensures exists p :: PoolRef(p) in lease.refs + PoolRefsOf(picks) + NetworkRefsOf(adds)
                     && OfferedNow(s, lease.spec.networkType, p, adds[j].portGroup, adds[j].name)
  {
    AtHandNamed(s, lease, picks, outcome);
    assert forall q :: q in HeldPools(s.pools, lease.refs) + picks ==>
        q in ToSet(HeldPools(s.pools, lease.refs) + picks);
    var p := WasOnOffer(s, lease, picks, adds, j);
    AllIsKept(s.pools, lease.refs, picks, adds);
    assert PoolRef(p) in lease.refs + PoolRefsOf(picks) + NetworkRefsOf(adds);
  }

  /** An added network lies in one of the pools, suits the type, and is nobody's. */
  lemma WasOnOffer(s: State, lease: Lease, picks: seq<Pool>, adds: seq<Network>, j: nat) returns (p: string)
    requires Inv(s) && lease.name in s.stored && FirstOfJob(s, lease.name) && NetworkStep(s, lease, picks, adds)
    requires lease.spec == s.stored[lease.name].spec && lease.boskosId == s.stored[lease.name].boskosId
        && lease.refs == s.stored[lease.name].refs
    requires forall q :: q in HeldPools(s.pools, lease.refs) + picks ==> q in AllPools(s.pools)
    requires j < |adds| && InTable(s.networks, adds[j])
    ensures exists q :: q in HeldPools(s.pools, lease.refs) + picks && q.name == p
    ensures OfferedNow(s, lease.spec.networkType, p, adds[j].portGroup, adds[j].name)
  {
    AddsAreNew(s, lease, picks, adds);
    NobodyBinds(s, lease, picks);
    var placed := lease.(refs := lease.refs + PoolRefsOf(picks));
    assert adds[j] in adds;
    assert Eligible(s.leases - {lease.name}, placed, s.networks, s.multiUsesSingle, adds[j]);
    var q :| q in HeldPools(s.pools, lease.refs) + picks && InPool(q, adds[j]);
    p := q.name;
    FreeAmongOthers(s.leases - {lease.name}, placed, placed.refs, adds[j].name);
    PlacedTakesNothing(s, lease, picks, adds[j].name);
  }

  lemma SomeLead(s: State, lease: Lease, picks: seq<Pool>, adds: seq<Network>) returns (first: nat)
    requires NetworkStep(s, lease, picks, adds)
    ensures Leads(s, lease, picks, adds, first)
  {
    first :| LedBy(lease.(refs := lease.refs + PoolRefsOf(picks)), s.leases - {lease.name}, s.networks,
        s.multiUsesSingle, HeldPools(s.pools, lease.refs) + picks,
        SiblingPools(s.pools, LivingOthers(s, lease), lease), adds, first);
  }

  lemma AssignmentGainsShared(s: State, lease: Lease, picks: seq<Pool>, outcome: PoolOutcome, adds: seq<Network>,
      j: nat, s': State)
    requires Inv(s) && lease.name in s.stored && FirstOfJob(s, lease.name) && LeaseOk(s.pools, s.networks, lease)
    requires lease.spec == s.stored[lease.name].spec && lease.boskosId == s.stored[lease.name].boskosId
        && lease.refs == s.stored[lease.name].refs
    requires PoolStep(s, lease, picks, outcome) && NetworkStep(s, lease, picks, adds)
    requires lease.name in s'.stored
        && s'.stored[lease.name].refs == lease.refs + PoolRefsOf(picks) + NetworkRefsOf(adds)
    requires j < |adds| && InTable(s.networks, adds[j]) && Gains(s, s', lease.name, adds[j].name)
    ensures GainedInStep(s, s', lease.name, adds[j].name)
    ensures OnePool(s'.stored[lease.name].refs) ==> SharedByAll(s, s', lease.name, adds[j].portGroup)
  {
    var first := SomeLead(s, lease, picks, adds);
    if j < first {
      assert adds[j] in adds[..first];
      LeaderIsShared(s, lease, picks, outcome, adds, first, adds[j], s');
    } else {
      LaterFollows(s, lease, picks, outcome, adds, first, j, s');
      if OnePool(s'.stored[lease.name].refs) {
        OnePoolHeld(s, lease, picks, outcome, adds);
        assert false;
      }
    }
  }

  ghost predicate OnePool(refs: seq<OwnerRef>) {
    forall p, q :: PoolRef(p) in refs && PoolRef(q) in refs ==> p == q
  }

  lemma OnePoolHeld(s: State, lease: Lease, picks: seq<Pool>, outcome: PoolOutcome, adds: seq<Network>)
    requires Inv(s) && LeaseOk(s.pools, s.networks, lease)
    requires PoolStep(s, lease, picks, outcome) && NetworkStep(s, lease, picks, adds)
    requires OnePool(lease.refs + PoolRefsOf(picks) + NetworkRefsOf(adds))
    ensures |HeldPools(s.pools, lease.refs) + picks| <= 1
  {
    var refs := lease.refs + PoolRefsOf(picks) + NetworkRefsOf(adds);
    PoolsArePlaced(s, lease, picks, outcome);
    PlacedRefsOk(s, lease, picks, adds);
    HeldMembers(s.pools, refs);
    HeldDistinct(s.pools, refs);
    if |HeldPools(s.pools, refs)| > 1 {
      TwoDiffer(HeldPools(s.pools, refs));
      assert false;
    }
  }

  lemma TwoDiffer<T>(s: seq<T>)
    requires Distinct(s) && |s| > 1
    ensures exists x, y :: x in s && y in s && x != y
  {
    assert s[0] in s && s[1] in s;
  }

  lemma LaterFollows(s: State, lease: Lease, picks: seq<Pool>, outcome: PoolOutcome, adds: seq<Network>, first: nat,
      j: nat, s': State)
    requires Inv(s) && lease.name in s.stored && FirstOfJob(s, lease.name) && LeaseOk(s.pools, s.networks, lease)
    requires lease.spec == s.stored[lease.name].spec && lease.boskosId == s.stored[lease.name].boskosId
        && lease.refs == s.stored[lease.name].refs
    requires PoolStep(s, lease, picks, outcome) && NetworkStep(s, lease, picks, adds)
    requires lease.name in s'.stored
        && s'.stored[lease.name].refs == lease.refs + PoolRefsOf(picks) + NetworkRefsOf(adds)
    requires Leads(s, lease, picks, adds, first) && first <= j < |adds| && adds[j].name in s.networks
    requires Gains(s, s', lease.name, adds[j].name)
    ensures GainedInStep(s, s', lease.name, adds[j].name)
  {
    AddsAreNew(s, lease, picks, adds);
    var m := FollowedNetwork(s, lease, picks, adds, first, j);
    if m.Some? {
      LeaderIsShared(s, lease, picks, outcome, adds, first, adds[m.value], s');
      assert Gains(s, s', lease.name, adds[m.value].name);
    }
  }

  /** What a network taken for a later pool follows: one taken for the first pool, or one the lease had. */
  lemma FollowedNetwork(s: State, lease: Lease, picks: seq<Pool>, adds: seq<Network>, first: nat, j: nat)
    returns (m: Option<nat>)
    requires Leads(s, lease, picks, adds, first) && first <= j < |adds|
    ensures m.Some? ==> m.value < first && adds[m.value] in adds[..first] && adds[m.value].vlan == adds[j].vlan
    ensures m.None? ==>
              exists o :: o in s.networks && NetworkRef(o) in lease.refs && s.networks[o].vlan == adds[j].vlan
  {
    assert adds[j] in adds[first..];
    if OwnsVlan(s.networks, lease.refs + PoolRefsOf(picks), adds[j].vlan) {
      m := None;
      var o :| o in s.networks && NetworkRef(o) in lease.refs + PoolRefsOf(picks)
          && s.networks[o].vlan == adds[j].vlan;
      assert NetworkRef(o) in lease.refs;
    } else {
      var n :| n in adds[..first] && n.vlan == adds[j].vlan;
      var x :| 0 <= x < first && adds[x] == n;
      m := Some(x);
    }
  }
}
