/**
 Leases that already own networks. A lease whose first pool has all its networks takes no new VLANs:
 every pool that joins later has to be served from the VLANs the lease owns. This module says exactly
 when such a lease is fulfilled.
 */
module TopUp {
  import opened Types
  import opened Combinations
  import opened PoolLoop
  import opened NetworkTables
  import opened NetworkAssignment
  import opened NetworkLoop
  import opened LeaseStates
  import opened Lifecycle
  import opened Invariants
  import opened Theorems
  import opened NetworkCounts

  /** The pool has a network of the lease of this name, or a free one that the lease may take and of a
      VLAN that it owns. */
  ghost predicate Serves(others: map<string, Lease>, lease: Lease, networks: map<string, Network>,
      multiUsesSingle: bool, pool: Pool, k: string)
  {
    && k in PoolNetworks(pool, networks)
    && (|| NetworkRef(k) in lease.refs
        || (&& Free(others, k) && TypeAllowed(lease.spec.networkType, multiUsesSingle, networks[k])
            && OwnsVlan(networks, lease.refs, networks[k].vlan)))
  }

  /** The VLANs the pool can be served with. */
  ghost function VlansWithin(others: map<string, Lease>, lease: Lease, networks: map<string, Network>,
      multiUsesSingle: bool, pool: Pool): set<string>
  {
    set k | k in networks && Serves(others, lease, networks, multiUsesSingle, pool, k) :: networks[k].vlan
  }

  // ---- One pool ----------------------------------------------------------------------------

  /** Networks of different VLANs are as many as their VLANs. */
  lemma {:induction false} AsManyVlans(networks: map<string, Network>, names: set<string>)
    requires forall a :: a in names ==> a in networks
    requires forall a, b :: a in names && b in names && a != b ==> networks[a].vlan != networks[b].vlan
    ensures |set a | a in names :: networks[a].vlan| == |names|
  {
    var vlans := set a | a in names :: networks[a].vlan;
    if names == {} {
      assert vlans == {};
    } else {
      var x :| x in names;
      var rest := set a | a in names - {x} :: networks[a].vlan;
      AsManyVlans(networks, names - {x});
      assert vlans == rest + {networks[x].vlan};
      assert networks[x].vlan !in rest;
    }
  }

  lemma OwnedAsManyVlans(networks: map<string, Network>, pool: Pool, refs: seq<OwnerRef>, vlans: set<string>)
    requires PoolVlansApart(networks, pool, refs) && OneDatacenter(PoolNetworks(pool, networks))
    requires forall a :: a in Owned(refs, PoolNetworks(pool, networks).Keys) ==> networks[a].vlan in vlans
    ensures |Owned(refs, PoolNetworks(pool, networks).Keys)| <= |vlans|
  {
    var owned := Owned(refs, PoolNetworks(pool, networks).Keys);
    forall a, b | a in owned && b in owned && a != b ensures networks[a].vlan != networks[b].vlan {
      assert PoolNetworks(pool, networks)[a].datacenter == PoolNetworks(pool, networks)[b].datacenter;
    }
    AsManyVlans(networks, owned);
    CardMonotone(set a | a in owned :: networks[a].vlan, vlans);
  }

  /** Whatever the lease owns in the pool in the end is of a VLAN the pool can be served with. */
  lemma OwnedIsWithin(others: map<string, Lease>, lease: Lease, networks: map<string, Network>, multiUsesSingle: bool,
      held: seq<Pool>, adds: seq<Network>, vlans: set<string>, pool: Pool, a: string)
    requires SafeAdds(lease, others, networks, multiUsesSingle, held, adds)
        && !HasNetworkedSibling(others, lease, networks)
    requires KeepsOwned(networks, lease.refs, adds, vlans)
    requires a in Owned(lease.refs + NetworkRefsOf(adds), PoolNetworks(pool, networks).Keys)
    ensures networks[a].vlan in VlansWithin(others, lease, networks, multiUsesSingle, pool)
  {
    if NetworkRef(a) !in lease.refs {
      assert NetworkRef(a) in NetworkRefsOf(adds);
      var i :| 0 <= i < |adds| && NetworkRefsOf(adds)[i] == NetworkRef(a);
      assert adds[i] in adds;
    }
    assert Serves(others, lease, networks, multiUsesSingle, pool, a);
  }

  /** A pool that ends short has a network of every VLAN it can be served with. */
  lemma ServedVlanArrives(others: map<string, Lease>, lease: Lease, networks: map<string, Network>,
      multiUsesSingle: bool, held: seq<Pool>, siblings: set<Pool>, j: nat, refs: seq<OwnerRef>, k: string, x: string)
    requires 0 < j < |held| && lease.name !in others && !HasNetworkedSibling(others, lease, networks)
    requires (forall n :: n in networks ==> networks[n].name == n) && forall r :: r in lease.refs ==> r in refs
    requires NoneLeft(lease, others, networks, multiUsesSingle, held, siblings, j, refs, k)
    requires x in networks && Serves(others, lease, networks, multiUsesSingle, held[j], x)
    ensures HasVlan(refs, PoolNetworks(held[j], networks), networks[x].vlan)
  {
    if NetworkRef(x) !in refs {
      FreeAmongOthers(others, lease, refs, x);
      assert CandidateFor(others, lease, refs, networks, multiUsesSingle, held[j], k, networks[x]);
      assert OwnsVlan(networks, refs, networks[x].vlan);
    }
  }

  lemma ShortHasAll(others: map<string, Lease>, lease: Lease, networks: map<string, Network>, multiUsesSingle: bool,
      held: seq<Pool>, siblings: set<Pool>, j: nat, refs: seq<OwnerRef>)
    requires 0 < j < |held| && lease.name !in others && !HasNetworkedSibling(others, lease, networks)
    requires (forall n :: n in networks ==> networks[n].name == n) && forall r :: r in lease.refs ==> r in refs
    requires NothingMissed(lease, others, networks, multiUsesSingle, held, siblings, refs, |held|)
    requires |Owned(refs, PoolNetworks(held[j], networks).Keys)| < lease.spec.networks
    ensures |Owned(refs, PoolNetworks(held[j], networks).Keys)| >=
              |VlansWithin(others, lease, networks, multiUsesSingle, held[j])|
  {
    var k :| NoneLeft(lease, others, networks, multiUsesSingle, held, siblings, j, refs, k);
    var vlans := VlansWithin(others, lease, networks, multiUsesSingle, held[j]);
    forall v | v in vlans ensures HasVlan(refs, PoolNetworks(held[j], networks), v) {
      var x :| x in networks && Serves(others, lease, networks, multiUsesSingle, held[j], x) && networks[x].vlan == v;
      ServedVlanArrives(others, lease, networks, multiUsesSingle, held, siblings, j, refs, k, x);
    }
    VlansNeedNetworks(refs, PoolNetworks(held[j], networks), vlans, {});
  }

  /** A pool ends with all its networks exactly when it can be served with enough VLANs. */
  lemma FullExactly(others: map<string, Lease>, lease: Lease, networks: map<string, Network>, multiUsesSingle: bool,
      held: seq<Pool>, siblings: set<Pool>, adds: seq<Network>, j: nat)
    requires j < |held| && ValidTable(networks) && lease.name !in others
        && !HasNetworkedSibling(others, lease, networks)
    requires NetworkLoopSpec(lease, others, networks, multiUsesSingle, held, siblings, adds)
    requires FirstIsFull(lease, networks, held) && OneDatacenter(PoolNetworks(held[j], networks))
    requires PoolVlansApart(networks, held[j], lease.refs + NetworkRefsOf(adds))
    ensures |Owned(lease.refs + NetworkRefsOf(adds), PoolNetworks(held[j], networks).Keys)| >= lease.spec.networks <==>
              |VlansWithin(others, lease, networks, multiUsesSingle, held[j])| >= lease.spec.networks
  {
    var refs := lease.refs + NetworkRefsOf(adds);
    var vlans :| KeepsOwned(networks, lease.refs, adds, vlans);
    forall a | a in Owned(refs, PoolNetworks(held[j], networks).Keys)
      ensures networks[a].vlan in VlansWithin(others, lease, networks, multiUsesSingle, held[j])
    {
      OwnedIsWithin(others, lease, networks, multiUsesSingle, held, adds, vlans, held[j], a);
    }
    OwnedAsManyVlans(networks, held[j], refs, VlansWithin(others, lease, networks, multiUsesSingle, held[j]));
    OwnedMonotone(lease.refs, refs, PoolNetworks(held[j], networks).Keys);
    if |Owned(refs, PoolNetworks(held[j], networks).Keys)| < lease.spec.networks {
      ShortHasAll(others, lease, networks, multiUsesSingle, held, siblings, j, refs);
    }
  }

  // ---- The whole lease ---------------------------------------------------------------------

  /** With all pools, a lease is fulfilled exactly when each has all its networks. */
  lemma FulfilledWhenFull(networks: map<string, Network>, lease: Lease, now: nat, note: string, held: seq<Pool>,
      refs: seq<OwnerRef>, result: Lease)
    requires |held| == RequiredPools(lease.spec) && lease.spec.networks > 0 && !Finished(lease)
    requires Concluded(networks, lease, now, note, held, refs, result)
    ensures result.refs == refs
    ensures result.status.phase == Fulfilled <==> forall p :: p in held ==>
        NetworksIn(networks, refs, p) >= lease.spec.networks
  {
    var v :| VerdictIs(lease.spec, networks, held, refs, v)
          && result == lease.(refs := refs, status := StatusAfter(lease, held, v, now, note));
  }

  /** The lease has its first pool with all its networks, and no sibling to follow. */
  ghost predicate Anchor(s: State, lease: Lease) {
    var held := HeldPools(s.pools, lease.refs);
    && held != [] && lease.spec.networks > 0
    && NetworksIn(s.networks, lease.refs, held[0]) >= lease.spec.networks
    && !HasNetworkedSibling(s.leases - {lease.name}, lease, s.networks)
  }

  /** The pools the lease ends up with have no networks in common, and each lies in one datacenter. */
  ghost predicate PlainPools(s: State, held: seq<Pool>) {
    Apart(s.networks, held) && forall p :: p in held ==> OneDatacenter(PoolNetworks(p, s.networks))
  }

  lemma PlacedServes(s: State, lease: Lease, picks: seq<Pool>, p: Pool)
    ensures var placed := lease.(refs := lease.refs + PoolRefsOf(picks));
            VlansWithin(s.leases - {lease.name}, placed, s.networks, s.multiUsesSingle, p) ==
              VlansWithin(s.leases - {lease.name}, lease, s.networks, s.multiUsesSingle, p)
  {
    var placed, others := lease.(refs := lease.refs + PoolRefsOf(picks)), s.leases - {lease.name};
    assert forall n :: NetworkRef(n) in placed.refs <==> NetworkRef(n) in lease.refs;
    assert forall v :: OwnsVlan(s.networks, placed.refs, v) <==> OwnsVlan(s.networks, lease.refs, v);
    assert forall k :: Serves(others, placed, s.networks, s.multiUsesSingle, p, k) <==>
                       Serves(others, lease, s.networks, s.multiUsesSingle, p, k);
  }

  /** The first pool of the lease is still the first and still full after more pools have joined. */
  lemma AnchorStays(s: State, lease: Lease, picks: seq<Pool>)
    requires Anchor(s, lease)
    ensures var placed := lease.(refs := lease.refs + PoolRefsOf(picks));
            && FirstIsFull(placed, s.networks, HeldPools(s.pools, lease.refs) + picks)
            && !HasNetworkedSibling(s.leases - {lease.name}, placed, s.networks)
  {
    var placed, others := lease.(refs := lease.refs + PoolRefsOf(picks)), s.leases - {lease.name};
    var held := HeldPools(s.pools, lease.refs);
    assert (held + picks)[0] == held[0];
    PoolRefsOwnNothing(lease.refs, picks, PoolNetworks(held[0], s.networks).Keys);
    assert forall k :: NetworkedSibling(others, placed, s.networks, k) <==>
        NetworkedSibling(others, lease, s.networks, k);
  }

  lemma AssignedFullExactly(s: State, lease: Lease, picks: seq<Pool>, adds: seq<Network>, p: Pool)
    requires ValidTable(s.networks) && RefsOk(s.pools, s.networks, lease.refs) && LeaseWithinRequest(s, lease)
    requires NetworkStep(s, lease, picks, adds) && Anchor(s, lease)
    requires PlainPools(s, HeldPools(s.pools, lease.refs) + picks) && p in HeldPools(s.pools, lease.refs) + picks
    ensures NetworksIn(s.networks, lease.refs + PoolRefsOf(picks) + NetworkRefsOf(adds), p) >= lease.spec.networks <==>
              |VlansWithin(s.leases - {lease.name}, lease, s.networks, s.multiUsesSingle, p)| >= lease.spec.networks
  {
    var held, placed := HeldPools(s.pools, lease.refs) + picks, lease.(refs := lease.refs + PoolRefsOf(picks));
    var j :| 0 <= j < |held| && held[j] == p;
    AssignedWithinRequest(s, lease, picks, adds);
    AnchorStays(s, lease, picks);
    PlacedServes(s, lease, picks, p);
    FullExactly(s.leases - {lease.name}, placed, s.networks, s.multiUsesSingle, held,
        SiblingPools(s.pools, LivingOthers(s, lease), lease), adds, j);
  }

  lemma AssignmentFulfilsExactly(s: State, lease: Lease, now: nat, note: string, picks: seq<Pool>, adds: seq<Network>,
      result: Lease)
    requires ValidPools(s.pools) && ValidTable(s.networks) && LeaseOk(s.pools, s.networks, lease) && !Finished(lease)
    requires LeaseWithinRequest(s, lease) && Anchor(s, lease)
    requires |HeldPools(s.pools, lease.refs) + picks| == RequiredPools(lease.spec)
    requires PoolsPlaced(s, lease, picks) && AssignStep(s, lease, now, note, picks, adds, result)
    requires PlainPools(s, HeldPools(s.pools, result.refs))
    ensures result.status.phase == Fulfilled <==>
              forall p :: p in HeldPools(s.pools, result.refs) ==>
                |VlansWithin(s.leases - {lease.name}, lease, s.networks, s.multiUsesSingle, p)| >= lease.spec.networks
  {
    var held, refs := HeldPools(s.pools, lease.refs) + picks, lease.refs + PoolRefsOf(picks) + NetworkRefsOf(adds);
    PlacedRefsOk(s, lease, picks, adds);
    FulfilledWhenFull(s.networks, lease, now, note, held, refs, result);
    forall p | p in held
      ensures NetworksIn(s.networks, refs, p) >= lease.spec.networks <==>
                |VlansWithin(s.leases - {lease.name}, lease, s.networks, s.multiUsesSingle, p)| >= lease.spec.networks
    {
      AssignedFullExactly(s, lease, picks, adds, p);
    }
  }

  /** In every run: when a lease whose first pool is full gets its last pools, it is fulfilled in that
      reconcile if and only if each of its pools can be served with enough of the VLANs it owns. */
  lemma TopUpFulfilsExactly(states: seq<State>, actions: seq<Action>, i: nat)
    requires Run(states, actions) && i < |actions| && actions[i].Reconcile?
    requires actions[i].name in states[i].stored && actions[i].name in states[i + 1].stored
        && ValidPools(states[i].pools)
    requires var s, lease := states[i], Admit(states[i].stored[actions[i].name], actions[i].now);
             && PoolsAtHand(s, lease) && Anchor(s, lease)
             && PlainPools(s, HeldPools(s.pools, states[i + 1].stored[actions[i].name].refs))
    ensures var s, lease, result := states[i], Admit(states[i].stored[actions[i].name], actions[i].now),
                                    states[i + 1].stored[actions[i].name];
            result.status.phase == Fulfilled <==>
              forall p :: p in HeldPools(s.pools, result.refs) ==>
                |VlansWithin(s.leases - {lease.name}, lease, s.networks, s.multiUsesSingle, p)| >= lease.spec.networks
  {
    InvAlways(states, actions, i);
    assert StepAt(states, actions, i);
    NeverTooManyNetworks(states, actions, i, actions[i].name);
    StepFulfilsExactly(states[i], actions[i], states[i + 1]);
  }

  lemma StepFulfilsExactly(s: State, a: Action, s': State)
    requires Inv(s) && a.Reconcile? && Next(s, a, s') && LeaseWithinRequest(s, s.stored[a.name])
    requires var lease := Admit(s.stored[a.name], a.now);
             PoolsAtHand(s, lease) && Anchor(s, lease) && PlainPools(s, HeldPools(s.pools, s'.stored[a.name].refs))
    ensures var lease, result := Admit(s.stored[a.name], a.now), s'.stored[a.name];
            result.status.phase == Fulfilled <==>
              forall p :: p in HeldPools(s.pools, result.refs) ==>
                |VlansWithin(s.leases - {lease.name}, lease, s.networks, s.multiUsesSingle, p)| >= lease.spec.networks
  {
    var lease, result := Admit(s.stored[a.name], a.now), s'.stored[a.name];
    AdmittedOk(s, a.name, a.now);
    AllPoolsAssigned(s, lease, a.now, a.note, a.branch, result);
    AllPoolsHeld(s, lease, a.branch.picks);
    PoolsArePlaced(s, lease, a.branch.picks, AllAssigned);
    AssignmentFulfilsExactly(s, lease, a.now, a.note, a.branch.picks, a.branch.adds, result);
  }
}
