/**
 A pool of a lease falls short of its networks only when nothing is left to give it
 (pkg/controller/leases.go, 1395-1515), stated over runs of what is left once the reconcile is over.
 */
module Shortages {
  import opened Types
  import opened PoolLoop
  import opened NetworkTables
  import opened NetworkAssignment
  import opened NetworkLoop
  import opened LeaseStates
  import opened Lifecycle
  import opened Invariants
  import opened Theorems
  import opened Releases
  import opened Siblings

  ghost predicate LiesIn(s: State, n: string, pool: string) {
    && n in s.networks && pool in s.pools
    && s.networks[n].pod == s.pools[pool].pod && s.networks[n].portGroup in s.pools[pool].portGroups
  }

  /** The networks of the pool among the references. */
  ghost function NetworksThere(s: State, refs: seq<OwnerRef>, pool: string): set<string> {
    set n | n in s.networks && NetworkRef(n) in refs && LiesIn(s, n, pool)
  }

  /** The references name a network of the pool with the VLAN of `m`, and if asked for the datacenter. */
  ghost predicate HasLike(s: State, refs: seq<OwnerRef>, pool: string, m: string, sameDatacenter: bool)
    requires m in s.networks
  {
    exists o :: o in NetworksThere(s, refs, pool) && s.networks[o].vlan == s.networks[m].vlan
             && (sameDatacenter ==> s.networks[o].datacenter == s.networks[m].datacenter)
  }

  ghost predicate IsFirst(s: State, refs: seq<OwnerRef>, pool: string) {
    var held := HeldPools(s.pools, refs);
    held != [] && held[0].name == pool
  }

  /** The VLAN is one of those that the references name. */
  ghost predicate NamesVlan(s: State, refs: seq<OwnerRef>, vlan: string) {
    vlan != "" && exists o :: o in s.networks && NetworkRef(o) in refs && s.networks[o].vlan == vlan
  }

  /** Once the reconcile is over the network is still on offer in the pool: of a port group that all pools
      concerned offered, if it is the first pool, and of a VLAN that the lease owns, if it is a later one. */
  ghost predicate StillOnOffer(s: State, s': State, k: string, pool: string, m: string)
    requires k in s.stored && k in s'.stored && m in s.networks && m in s'.networks
  {
    && OfferedNow(s', s.stored[k].spec.networkType, pool, s.networks[m].portGroup, m)
    && (if IsFirst(s, s'.stored[k].refs, pool) then SharedByAll(s, s', k, s.networks[m].portGroup)
        else NamesVlan(s, s'.stored[k].refs, s.networks[m].vlan))
  }

  /** A lease of the job that owns a network. */
  ghost predicate Binds(s: State, k: string, sib: string) {
    OfOneJob(s, k, sib) && exists x :: x in s.networks && NetworkRef(x) in s.stored[sib].refs
  }

  /** Once the reconcile is over the sibling still allows the network: it owns it or, if it owns none in this
      pool, owns one of the same port group, and this one is of the lease's type and nobody's. In a later
      pool the VLAN is one that the lease owns. */
  ghost predicate StillAllowed(s: State, s': State, k: string, sib: string, pool: string, m: string)
    requires k in s.stored && sib in s.stored && k in s'.stored && m in s.networks
  {
    var n, theirs := s.networks[m], s.stored[sib].refs;
    && LiesIn(s, m, pool)
    && (if NetworksThere(s, theirs, pool) != {} then NetworkRef(m) in theirs
        else
          && (n.typeLabel == Some(s.stored[k].spec.networkType)
              || (n.typeLabel == None && s.stored[k].spec.networkType == "single-tenant"))
          && n.portGroup != ""
          && (exists x :: x in s.networks && NetworkRef(x) in theirs && s.networks[x].portGroup == n.portGroup)
          && forall x :: x in s'.stored ==> NetworkRef(m) !in s'.stored[x].refs)
    && (!IsFirst(s, s'.stored[k].refs, pool) ==> NamesVlan(s, s'.stored[k].refs, n.vlan))
  }

  // ---- One assignment ----------------------------------------------------------------------

  /** The lease was assigned something: what the step made of it. */
  ghost predicate Placed(s: State, lease: Lease, picks: seq<Pool>, outcome: PoolOutcome, adds: seq<Network>,
      s': State)
  {
    && Inv(s) && lease.name in s.stored && LeaseOk(s.pools, s.networks, lease)
    && lease.spec == s.stored[lease.name].spec && lease.boskosId == s.stored[lease.name].boskosId
    && lease.refs == s.stored[lease.name].refs
    && PoolStep(s, lease, picks, outcome) && NetworkStep(s, lease, picks, adds)
    && lease.name in s'.stored && s'.stored == s.stored[lease.name := s'.stored[lease.name]]
    && s'.stored[lease.name].refs == lease.refs + PoolRefsOf(picks) + NetworkRefsOf(adds)
    && s'.networks == s.networks && s'.pools == s.pools && s'.multiUsesSingle == s.multiUsesSingle
  }

  /** Where the pool stands among those of the lease. */
  lemma PoolAt(s: State, lease: Lease, picks: seq<Pool>, outcome: PoolOutcome, adds: seq<Network>, s': State, p: string)
    returns (j: nat)
    requires Placed(s, lease, picks, outcome, adds, s') && PoolRef(p) in s'.stored[lease.name].refs
    ensures var held := HeldPools(s.pools, lease.refs) + picks;
            && j < |held| && p in s.pools && held[j] == s.pools[p] && s.pools[p].name == p
            && (IsFirst(s, s'.stored[lease.name].refs, p) <==> j == 0)
  {
    var refs := s'.stored[lease.name].refs;
    var held := HeldPools(s.pools, lease.refs) + picks;
    PoolsArePlaced(s, lease, picks, outcome);
    PlacedRefsOk(s, lease, picks, adds);
    HeldMembers(s.pools, refs);
    HeldDistinct(s.pools, refs);
    assert s.pools[p] in held;
    j :| 0 <= j < |held| && held[j] == s.pools[p];
    assert held[0] in held;
  }

  lemma OwnedThere(s: State, refs: seq<OwnerRef>, p: string)
    requires p in s.pools
    ensures Owned(refs, PoolNetworks(s.pools[p], s.networks).Keys) == NetworksThere(s, refs, p)
  {
  }

  lemma VlanThere(s: State, refs: seq<OwnerRef>, p: string, m: string, sameDatacenter: bool)
    requires p in s.pools && m in s.networks
    requires HasVlan(refs, PoolNetworks(s.pools[p], s.networks), s.networks[m].vlan)
    requires sameDatacenter ==>
               HasVlanIn(refs, PoolNetworks(s.pools[p], s.networks), s.networks[m].vlan, s.networks[m].datacenter)
    ensures HasLike(s, refs, p, m, sameDatacenter)
  {
    OwnedThere(s, refs, p);
  }

  /** What nobody owns after the step was free for the lease during it. */
  lemma UnownedIsFree(s: State, lease: Lease, picks: seq<Pool>, outcome: PoolOutcome, adds: seq<Network>, s': State,
      m: string)
    requires Placed(s, lease, picks, outcome, adds, s')
    requires forall x :: x in s'.stored ==> NetworkRef(m) !in s'.stored[x].refs
    ensures Free(TableWith(s.leases - {lease.name}, lease.(refs := lease.refs + PoolRefsOf(picks)),
        s'.stored[lease.name].refs), m)
  {
    var others := s.leases - {lease.name};
    forall x | x in others ensures NetworkRef(m) !in others[x].refs {
      assert others[x] == s.stored[x] && s'.stored[x] == s.stored[x];
    }
    FreeAmongOthers(others, lease.(refs := lease.refs + PoolRefsOf(picks)), s'.stored[lease.name].refs, m);
  }

  /** A port group shared by all is common to the pools concerned. */
  lemma SharedIsCommon(s: State, lease: Lease, picks: seq<Pool>, outcome: PoolOutcome, adds: seq<Network>, s': State,
      portGroup: string)
    requires Placed(s, lease, picks, outcome, adds, s') && SharedByAll(s, s', lease.name, portGroup)
    ensures Common(lease.(refs := lease.refs + PoolRefsOf(picks)), s.leases - {lease.name}, s.networks,
        s.multiUsesSingle, HeldPools(s.pools, lease.refs) + picks,
        SiblingPools(s.pools, LivingOthers(s, lease), lease), portGroup)
  {
    var held := HeldPools(s.pools, lease.refs) + picks;
    var siblings := SiblingPools(s.pools, LivingOthers(s, lease), lease);
    var placed := lease.(refs := lease.refs + PoolRefsOf(picks));
    AtHandNamed(s, lease, picks, outcome);
    AllIsKept(s.pools, lease.refs, picks, adds);
    forall p | p in ToSet(held) + siblings
      ensures OffersPortGroup(p, lease.spec.networkType, s.multiUsesSingle, s.networks,
          TableWith(s.leases - {lease.name}, placed, placed.refs), portGroup)
    {
      if p !in ToSet(held) {
        SiblingPoolIsNeeded(s, lease, p);
      }
      OfferedToLoop(s, lease, p, portGroup);
      OfferedWhenPlaced(s, lease, picks, p, portGroup);
    }
  }

  /** What the loop leaves a pool that is short. */
  ghost predicate NoneLeftFor(s: State, lease: Lease, picks: seq<Pool>, j: nat, refs: seq<OwnerRef>, sib: string)
    requires j < |HeldPools(s.pools, lease.refs) + picks|
  {
    NoneLeft(lease.(refs := lease.refs + PoolRefsOf(picks)), s.leases - {lease.name}, s.networks, s.multiUsesSingle,
        HeldPools(s.pools, lease.refs) + picks, SiblingPools(s.pools, LivingOthers(s, lease), lease), j, refs, sib)
  }

  lemma ShortHasNoneLeft(s: State, lease: Lease, picks: seq<Pool>, outcome: PoolOutcome, adds: seq<Network>, s': State,
      j: nat)
    returns (sib: string)
    requires Placed(s, lease, picks, outcome, adds, s') && j < |HeldPools(s.pools, lease.refs) + picks|
    requires |Owned(s'.stored[lease.name].refs,
                 PoolNetworks((HeldPools(s.pools, lease.refs) + picks)[j], s.networks).Keys)| < lease.spec.networks
    ensures NoneLeftFor(s, lease, picks, j, s'.stored[lease.name].refs, sib)
  {
    StepMissesNothing(s, lease, picks, adds, s'.stored[lease.name].refs);
    sib := MissedNowhere(lease.(refs := lease.refs + PoolRefsOf(picks)), s.leases - {lease.name}, s.networks,
        s.multiUsesSingle, HeldPools(s.pools, lease.refs) + picks,
        SiblingPools(s.pools, LivingOthers(s, lease), lease), s'.stored[lease.name].refs, j);
  }

  lemma StepMissesNothing(s: State, lease: Lease, picks: seq<Pool>, adds: seq<Network>, refs: seq<OwnerRef>)
    requires NetworkStep(s, lease, picks, adds) && refs == lease.refs + PoolRefsOf(picks) + NetworkRefsOf(adds)
    ensures NothingMissed(lease.(refs := lease.refs + PoolRefsOf(picks)), s.leases - {lease.name}, s.networks,
        s.multiUsesSingle, HeldPools(s.pools, lease.refs) + picks,
        SiblingPools(s.pools, LivingOthers(s, lease), lease), refs, |HeldPools(s.pools, lease.refs) + picks|)
  {
  }

  lemma MissedNowhere(lease: Lease, others: map<string, Lease>, networks: map<string, Network>, multiUsesSingle: bool,
      held: seq<Pool>, siblings: set<Pool>, refs: seq<OwnerRef>, j: nat)
    returns (sib: string)
    requires NothingMissed(lease, others, networks, multiUsesSingle, held, siblings, refs, |held|) && j < |held|
    requires |Owned(refs, PoolNetworks(held[j], networks).Keys)| < lease.spec.networks
    ensures NoneLeft(lease, others, networks, multiUsesSingle, held, siblings, j, refs, sib)
  {
    sib :| NoneLeft(lease, others, networks, multiUsesSingle, held, siblings, j, refs, sib);
  }

  lemma NothingOnOffer(s: State, s': State, placed: Lease, others: map<string, Lease>, held: seq<Pool>,
      siblings: set<Pool>, p: string, j: nat, sib: string, m: string)
    requires ValidTable(s.networks) && j < |held| && p in s.pools && held[j] == s.pools[p] && m in s.networks
    requires placed.name in s.stored && placed.spec == s.stored[placed.name].spec && placed.name in s'.stored
    requires s'.networks == s.networks && s'.pools == s.pools && s'.multiUsesSingle == s.multiUsesSingle
    requires !HasNetworkedSibling(others, placed, s.networks)
    requires IsFirst(s, s'.stored[placed.name].refs, p) <==> j == 0
    requires NoneLeft(placed, others, s.networks, s.multiUsesSingle, held, siblings, j, s'.stored[placed.name].refs,
                 sib)
    requires StillOnOffer(s, s', placed.name, p, m)
    requires Free(TableWith(others, placed, s'.stored[placed.name].refs), m)
    requires j == 0 ==>
               Common(placed, others, s.networks, s.multiUsesSingle, held, siblings, s.networks[m].portGroup)
    ensures HasLike(s, s'.stored[placed.name].refs, p, m, j == 0)
  {
    assert CandidateFor(others, placed, s'.stored[placed.name].refs, s.networks, s.multiUsesSingle, s.pools[p], sib,
        s.networks[m]);
    VlanThere(s, s'.stored[placed.name].refs, p, m, j == 0);
  }

  lemma SomeoneBinds(s: State, lease: Lease, picks: seq<Pool>)
    requires Inv(s) && lease.name in s.stored && !FirstOfJob(s, lease.name)
    requires lease.spec == s.stored[lease.name].spec && lease.boskosId == s.stored[lease.name].boskosId
    ensures HasNetworkedSibling(s.leases - {lease.name}, lease.(refs := lease.refs + PoolRefsOf(picks)), s.networks)
  {
    var sib, m :| OfOneJob(s, lease.name, sib) && m in s.networks && NetworkRef(m) in s.stored[sib].refs;
    StoredLease(s, sib);
    var others := s.leases - {lease.name};
    assert sib in others && others[sib] == s.stored[sib] && s.stored[sib].name == sib;
    assert NetworkedSibling(others, lease.(refs := lease.refs + PoolRefsOf(picks)), s.networks, sib);
  }

  lemma NetworkedBinds(s: State, lease: Lease, picks: seq<Pool>, sib: string)
    requires Inv(s) && lease.name in s.stored
    requires lease.spec == s.stored[lease.name].spec && lease.boskosId == s.stored[lease.name].boskosId
    requires NetworkedSibling(s.leases - {lease.name}, lease.(refs := lease.refs + PoolRefsOf(picks)), s.networks, sib)
    ensures Binds(s, lease.name, sib) && (s.leases - {lease.name})[sib] == s.stored[sib]
  {
  }

  /** What the sibling still allows is what the loop would have served the pool from. */
  lemma AllowedIsCandidate(s: State, s': State, placed: Lease, others: map<string, Lease>, p: string, sib: string,
      m: string)
    requires ValidTable(s.networks) && p in s.pools && m in s.networks
    requires placed.name in s.stored && placed.spec == s.stored[placed.name].spec && placed.name in s'.stored
    requires NetworkedSibling(others, placed, s.networks, sib) && sib in s.stored && others[sib] == s.stored[sib]
    requires StillAllowed(s, s', placed.name, sib, p, m)
    requires (forall x :: x in s'.stored ==> NetworkRef(m) !in s'.stored[x].refs) ==>
               Free(TableWith(others, placed, s'.stored[placed.name].refs), m)
    ensures SiblingCandidate(others, placed, s'.stored[placed.name].refs, s.networks, sib, s.pools[p], s.networks[m])
  {
    SiblingNetworksThere(s, s.stored[sib].refs, p);
  }

  lemma SiblingNetworksThere(s: State, refs: seq<OwnerRef>, p: string)
    requires ValidTable(s.networks) && p in s.pools
    ensures NetworksThere(s, refs, p) != {} <==>
              exists m :: InTable(s.networks, m) && InPool(s.pools[p], m) && NetworkRef(m.name) in refs
  {
    if n :| n in NetworksThere(s, refs, p) {
      assert InTable(s.networks, s.networks[n]) && InPool(s.pools[p], s.networks[n]);
    }
    if m :| InTable(s.networks, m) && InPool(s.pools[p], m) && NetworkRef(m.name) in refs {
      assert m.name in NetworksThere(s, refs, p);
    }
  }

  lemma NothingAllowed(s: State, s': State, placed: Lease, others: map<string, Lease>, held: seq<Pool>,
      siblings: set<Pool>, p: string, j: nat, sib: string, m: string)
    requires ValidTable(s.networks) && j < |held| && p in s.pools && held[j] == s.pools[p] && m in s.networks
    requires placed.name in s.stored && placed.spec == s.stored[placed.name].spec && placed.name in s'.stored
    requires NetworkedSibling(others, placed, s.networks, sib) && sib in s.stored && others[sib] == s.stored[sib]
    requires IsFirst(s, s'.stored[placed.name].refs, p) <==> j == 0
    requires NoneLeft(placed, others, s.networks, s.multiUsesSingle, held, siblings, j, s'.stored[placed.name].refs,
                 sib)
    requires StillAllowed(s, s', placed.name, sib, p, m)
    requires (forall x :: x in s'.stored ==> NetworkRef(m) !in s'.stored[x].refs) ==>
               Free(TableWith(others, placed, s'.stored[placed.name].refs), m)
    ensures HasLike(s, s'.stored[placed.name].refs, p, m, j == 0)
  {
    AllowedIsCandidate(s, s', placed, others, p, sib, m);
    assert j > 0 ==> OwnsVlan(s.networks, s'.stored[placed.name].refs, s.networks[m].vlan);
    CandidateHasVlan(placed, others, s.networks, s.multiUsesSingle, held, siblings, j, s'.stored[placed.name].refs,
        sib, s.networks[m]);
    VlanThere(s, s'.stored[placed.name].refs, p, m, j == 0);
  }

  lemma CandidateHasVlan(lease: Lease, others: map<string, Lease>, networks: map<string, Network>,
      multiUsesSingle: bool, held: seq<Pool>, siblings: set<Pool>, j: nat, refs: seq<OwnerRef>, sib: string, n: Network)
    requires j < |held| && NoneLeft(lease, others, networks, multiUsesSingle, held, siblings, j, refs, sib)
    requires NetworkedSibling(others, lease, networks, sib)
    requires SiblingCandidate(others, lease, refs, networks, sib, held[j], n)
    requires j > 0 ==> OwnsVlan(networks, refs, n.vlan)
    ensures HasVlan(refs, PoolNetworks(held[j], networks), n.vlan)
    ensures j == 0 ==> HasVlanIn(refs, PoolNetworks(held[j], networks), n.vlan, n.datacenter)
  {
    assert HasNetworkedSibling(others, lease, networks);
    assert CandidateFor(others, lease, refs, networks, multiUsesSingle, held[j], sib, n);
  }

  // ---- All runs ----------------------------------------------------------------------------

  lemma StepPlaces(s: State, a: Action, s': State)
    requires Inv(s) && Next(s, a, s') && a.Reconcile? && a.branch.Assigned?
    ensures a.name in s.stored
    ensures Placed(s, Admit(s.stored[a.name], a.now), a.branch.picks, a.branch.outcome, a.branch.adds, s')
  {
    AdmittedOk(s, a.name, a.now);
    ResultByBranch(s, Admit(s.stored[a.name], a.now), a.now, a.note, a.branch, s'.stored[a.name]);
    AssignedSteps(s, Admit(s.stored[a.name], a.now), a.now, a.note, a.branch, s'.stored[a.name]);
  }

  lemma AssignedSteps(s: State, lease: Lease, now: nat, note: string, branch: Branch, result: Lease)
    requires ValidPools(s.pools) && Outcome(s, lease, now, note, branch, result) && branch.Assigned?
    ensures NetworkStep(s, lease, branch.picks, branch.adds)
  {
  }

  /** In every run: when a lease is assigned something while no lease of its job owns a network, each of
      its pools ends with all its networks, or with one like each network that is still on offer there. */
  lemma ShortOnlyWhenNoneIsLeft(states: seq<State>, actions: seq<Action>, i: nat, p: string)
    requires Run(states, actions) && i < |actions| && actions[i].Reconcile? && actions[i].branch.Assigned?
    requires actions[i].name in states[i].stored && FirstOfJob(states[i], actions[i].name)
    requires actions[i].name in states[i + 1].stored
    requires PoolRef(p) in states[i + 1].stored[actions[i].name].refs
    ensures states[i + 1].networks == states[i].networks
    ensures var s, s', k := states[i], states[i + 1], actions[i].name;
            var refs := s'.stored[k].refs;
            || |NetworksThere(s, refs, p)| >= s.stored[k].spec.networks
            || forall m :: m in s.networks && StillOnOffer(s, s', k, p, m) ==>
                 HasLike(s, refs, p, m, IsFirst(s, refs, p))
  {
    InvAlways(states, actions, i);
    assert StepAt(states, actions, i);
    StepPlaces(states[i], actions[i], states[i + 1]);
    var s, a, s' := states[i], actions[i], states[i + 1];
    AssignmentLeavesNothing(s, Admit(s.stored[a.name], a.now), a.branch.picks, a.branch.outcome, a.branch.adds, s', p);
  }

  lemma AssignmentLeavesNothing(s: State, lease: Lease, picks: seq<Pool>, outcome: PoolOutcome, adds: seq<Network>,
      s': State, p: string)
    requires Placed(s, lease, picks, outcome, adds, s') && FirstOfJob(s, lease.name)
    requires PoolRef(p) in s'.stored[lease.name].refs
    ensures var refs := s'.stored[lease.name].refs;
            || |NetworksThere(s, refs, p)| >= lease.spec.networks
            || forall m :: m in s.networks && StillOnOffer(s, s', lease.name, p, m) ==>
                 HasLike(s, refs, p, m, IsFirst(s, refs, p))
  {
    var refs := s'.stored[lease.name].refs;
    var j := PoolAt(s, lease, picks, outcome, adds, s', p);
    OwnedThere(s, refs, p);
    if |NetworksThere(s, refs, p)| < lease.spec.networks {
      var sib := ShortHasNoneLeft(s, lease, picks, outcome, adds, s', j);
      NobodyBinds(s, lease, picks);
      forall m | m in s.networks && StillOnOffer(s, s', lease.name, p, m) ensures HasLike(s, refs, p, m, j == 0) {
        UnownedIsFree(s, lease, picks, outcome, adds, s', m);
        if j == 0 {
          SharedIsCommon(s, lease, picks, outcome, adds, s', s.networks[m].portGroup);
        }
        NothingOnOffer(s, s', lease.(refs := lease.refs + PoolRefsOf(picks)), s.leases - {lease.name},
            HeldPools(s.pools, lease.refs) + picks, SiblingPools(s.pools, LivingOthers(s, lease), lease), p, j, sib, m);
      }
    }
  }

  /** ... and when some lease of its job owns a network, each of its pools ends with all its networks, or
      there is such a sibling and the pool ends with one like each network that this sibling still allows. */
  lemma BoundShortOnlyWhenNoneIsLeft(states: seq<State>, actions: seq<Action>, i: nat, p: string)
    requires Run(states, actions) && i < |actions| && actions[i].Reconcile? && actions[i].branch.Assigned?
    requires actions[i].name in states[i].stored && !FirstOfJob(states[i], actions[i].name)
    requires actions[i].name in states[i + 1].stored
    requires PoolRef(p) in states[i + 1].stored[actions[i].name].refs
    ensures var s, s', k := states[i], states[i + 1], actions[i].name;
            var refs := s'.stored[k].refs;
            || |NetworksThere(s, refs, p)| >= s.stored[k].spec.networks
            || exists sib :: Binds(s, k, sib) && LeavesNothing(s, s', k, sib, p)
  {
    InvAlways(states, actions, i);
    assert StepAt(states, actions, i);
    StepPlaces(states[i], actions[i], states[i + 1]);
    var s, a, s' := states[i], actions[i], states[i + 1];
    SiblingLeavesNothing(s, Admit(s.stored[a.name], a.now), a.branch.picks, a.branch.outcome, a.branch.adds, s', p);
  }

  ghost predicate LeavesNothing(s: State, s': State, k: string, sib: string, p: string)
    requires k in s.stored && sib in s.stored && k in s'.stored
  {
    forall m :: m in s.networks && StillAllowed(s, s', k, sib, p, m) ==>
      HasLike(s, s'.stored[k].refs, p, m, IsFirst(s, s'.stored[k].refs, p))
  }

  lemma SiblingLeavesNothing(s: State, lease: Lease, picks: seq<Pool>, outcome: PoolOutcome, adds: seq<Network>,
      s': State, p: string)
    requires Placed(s, lease, picks, outcome, adds, s') && !FirstOfJob(s, lease.name)
    requires PoolRef(p) in s'.stored[lease.name].refs
    ensures || |NetworksThere(s, s'.stored[lease.name].refs, p)| >= lease.spec.networks
            || exists sib :: Binds(s, lease.name, sib) && LeavesNothing(s, s', lease.name, sib, p)
  {
    var refs := s'.stored[lease.name].refs;
    var j := PoolAt(s, lease, picks, outcome, adds, s', p);
    OwnedThere(s, refs, p);
    if |NetworksThere(s, refs, p)| < lease.spec.networks {
      var sib := ShortHasNoneLeft(s, lease, picks, outcome, adds, s', j);
      SomeoneBinds(s, lease, picks);
      NetworkedBinds(s, lease, picks, sib);
      forall m | m in s.networks && StillAllowed(s, s', lease.name, sib, p, m) ensures HasLike(s, refs, p, m, j == 0) {
        if forall x :: x in s'.stored ==> NetworkRef(m) !in s'.stored[x].refs {
          UnownedIsFree(s, lease, picks, outcome, adds, s', m);
        }
        NothingAllowed(s, s', lease.(refs := lease.refs + PoolRefsOf(picks)), s.leases - {lease.name},
            HeldPools(s.pools, lease.refs) + picks, SiblingPools(s.pools, LivingOthers(s, lease), lease), p, j, sib, m);
      }
      assert LeavesNothing(s, s', lease.name, sib, p);
    }
  }
}
