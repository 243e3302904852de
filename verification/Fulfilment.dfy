/**
 When one reconcile is enough (pkg/controller/leases.go, 985-1661), said of what can be read off the stored
 leases and the inventory: which pools leave room, which leases have priority, and which port groups are on
 offer. It holds in every run, whatever pools and networks the reconcile happens to pick.
 */
module Fulfilment {
  import opened Types
  import opened Combinations
  import opened Scheduling
  import opened Completion
  import opened PoolLoop
  import opened DelayGate
  import opened NetworkTables
  import opened NetworkLoop
  import opened LeaseStates
  import opened Lifecycle
  import opened Invariants
  import opened Theorems
  import opened Releases
  import opened Siblings

  /** `more` completes the pools of the lease to what it asks for, with room in each of them. */
  ghost predicate Completes(s: State, spec: LeaseSpec, held: set<Pool>, more: set<Pool>) {
    && more <= OpenPools(s, spec, held)
    && |held + more| == (if spec.pools == 0 then 1 else spec.pools)
    && |ServersOf(held + more)| >= spec.minVCenters
    && (spec.vcenters > 0 ==> |ServersOf(held + more)| <= spec.vcenters)
  }

  /** Picking pools one at a time does not miss a completion: there is no cap, or at most one vCenter is a
      minimum, or the pools are few, or the minimum is met already. */
  ghost predicate FoundOneByOne(spec: LeaseSpec, held: set<Pool>) {
    || spec.vcenters <= 0 || spec.minVCenters <= 1
    || (if spec.pools == 0 then 1 else spec.pools) <= 2 * spec.vcenters - spec.minVCenters
    || |ServersOf(held)| >= spec.minVCenters
  }

  /** The port group is on offer in every pool that matches the lease, and in every pool that a lease of its
      job needs. */
  ghost predicate OfferedWherever(s: State, k: string, portGroup: string)
    requires k in s.stored
  {
    forall p | p in s.pools ::
      Structural(s.stored[k].spec, s.pools[p]) || (exists sib :: NeededBy(s, k, sib, p)) ==>
        OffersNow(s, s.stored[k].spec.networkType, p, portGroup)
  }

  /** As many VLANs as the lease wants networks come with such port groups. */
  ghost predicate VlansAbound(s: State, k: string, vlans: set<string>)
    requires k in s.stored
  {
    && |vlans| >= s.stored[k].spec.networks
    && forall v :: v in vlans ==> exists g :: CarriesVlan(s.networks, g, v) && OfferedWherever(s, k, g)
  }

  /** The lease waits for none of the leases in the table. */
  ghost predicate NobodyAhead(s: State, k: string)
    requires k in s.stored
  {
    forall o :: o in s.leases && o != k ==> !HasPriority(s.stored[k], s.leases[o])
  }

  // ---- From what can be read off to what the loops go by -----------------------------------

  lemma CompletionIsThere(s: State, lease: Lease, more: set<Pool>)
    requires Inv(s) && lease.name in s.stored && LeaseOk(s.pools, s.networks, lease)
    requires lease.name in s.leases ==> s.leases[lease.name] == lease
    requires lease.name !in s.leases ==> HoldsNothing(lease)
    requires Completes(s, lease.spec, ToSet(HeldPools(s.pools, lease.refs)), more)
    ensures var held := ToSet(HeldPools(s.pools, lease.refs));
            CompletionExists(lease.spec, FittingPools(lease.spec, Figures(s.pools, s.leases[lease.name := lease]),
                AllPools(s.pools), held), held)
  {
    var held := ToSet(HeldPools(s.pools, lease.refs));
    OpenIsFitting(s, lease, held);
    assert Spread(held + more, RequiredPools(lease.spec), lease.spec.minVCenters, lease.spec.vcenters);
  }

  lemma CompletedIsSatisfiable(s: State, lease: Lease, more: set<Pool>)
    requires ValidPools(s.pools) && LeaseOk(s.pools, s.networks, lease)
    requires Completes(s, lease.spec, ToSet(HeldPools(s.pools, lease.refs)), more)
    ensures Satisfiable(lease.spec, AllPools(s.pools))
    ensures lease.spec.minVCenters <= RequiredPools(lease.spec)
  {
    var held := ToSet(HeldPools(s.pools, lease.refs));
    HeldMembers(s.pools, lease.refs);
    assert held + more <= StructuralPools(lease.spec, AllPools(s.pools));
    assert Spread(held + more, RequiredPools(lease.spec), lease.spec.minVCenters, lease.spec.vcenters);
    SatisfiableBounds(lease.spec, AllPools(s.pools));
  }

  lemma FoundIsGuaranteed(s: State, lease: Lease)
    requires ValidPools(s.pools) && lease.spec.minVCenters <= RequiredPools(lease.spec)
    requires FoundOneByOne(lease.spec, ToSet(HeldPools(s.pools, lease.refs)))
    ensures Guaranteed(lease.spec, ToSet(HeldPools(s.pools, lease.refs)))
  {
    HeldMembers(s.pools, lease.refs);
    NamedServers(lease.spec, ToSet(HeldPools(s.pools, lease.refs)));
  }

  lemma NotHeldBack(s: State, lease: Lease)
    requires lease.name in s.stored && NobodyAhead(s, lease.name) && lease.spec == s.stored[lease.name].spec
    requires lease.created == s.stored[lease.name].created
    ensures !IsDelayed(lease, s.leases[lease.name := lease])
  {
    assert forall o :: HasPriority(lease, o) <==> HasPriority(s.stored[lease.name], o);
    if IsDelayed(lease, s.leases[lease.name := lease]) {
      SomeoneHasPriority(s.leases, lease);
      assert false;
    }
  }

  lemma PoolsAreAtHand(s: State, lease: Lease, more: set<Pool>)
    requires Inv(s) && lease.name in s.stored && LeaseOk(s.pools, s.networks, lease) && !Finished(lease)
    requires lease.spec == s.stored[lease.name].spec && lease.created == s.stored[lease.name].created
    requires lease.name in s.leases ==> s.leases[lease.name] == lease
    requires lease.name !in s.leases ==> HoldsNothing(lease)
    requires NobodyAhead(s, lease.name)
    requires Completes(s, lease.spec, ToSet(HeldPools(s.pools, lease.refs)), more)
    requires FoundOneByOne(lease.spec, ToSet(HeldPools(s.pools, lease.refs)))
    ensures PoolsAtHand(s, lease)
  {
    CompletionIsThere(s, lease, more);
    CompletedIsSatisfiable(s, lease, more);
    FoundIsGuaranteed(s, lease);
    NotHeldBack(s, lease);
  }

  lemma OfferedWhereverIsWide(s: State, lease: Lease, portGroup: string)
    requires Inv(s) && lease.name in s.stored && lease.refs == s.stored[lease.name].refs
    requires lease.spec == s.stored[lease.name].spec && lease.boskosId == s.stored[lease.name].boskosId
    requires OfferedWherever(s, lease.name, portGroup)
    ensures OfferedWidely(s, lease, portGroup)
  {
    forall p | p in AllPools(s.pools) && MattersTo(s, lease, p)
      ensures OffersPortGroup(p, lease.spec.networkType, s.multiUsesSingle, s.networks, s.leases[lease.name := lease],
          portGroup)
    {
      if !Structural(lease.spec, p) {
        SiblingPoolIsNeeded(s, lease, p);
      }
      OfferedToLoop(s, lease, p, portGroup);
    }
  }

  lemma VlansAreEnough(s: State, lease: Lease, vlans: set<string>)
    requires Inv(s) && lease.name in s.stored && lease.refs == s.stored[lease.name].refs
    requires lease.spec == s.stored[lease.name].spec && lease.boskosId == s.stored[lease.name].boskosId
    requires VlansAbound(s, lease.name, vlans)
    ensures EnoughVlans(s, lease, vlans)
  {
    forall v | v in vlans ensures exists g :: CarriesVlan(s.networks, g, v) && OfferedWidely(s, lease, g) {
      var g :| CarriesVlan(s.networks, g, v) && OfferedWherever(s, lease.name, g);
      OfferedWhereverIsWide(s, lease, g);
    }
  }

  /** The lease may choose its networks: it has none, no lease of its job has any, a port group stands for
      one VLAN, and a pool lies in one datacenter. */
  ghost predicate MayChoose(s: State, k: string)
    requires k in s.stored
  {
    && s.stored[k].spec.networks > 0
    && (forall n :: NetworkRef(n) !in s.stored[k].refs)
    && FirstOfJob(s, k)
    && PortGroupFixesVlan(s.networks)
    && forall p :: p in AllPools(s.pools) ==> OneDatacenter(PoolNetworks(p, s.networks))
  }

  lemma NetworksAreToChoose(s: State, lease: Lease)
    requires Inv(s) && lease.name in s.stored && lease.refs == s.stored[lease.name].refs && MayChoose(s, lease.name)
    requires lease.spec == s.stored[lease.name].spec && lease.boskosId == s.stored[lease.name].boskosId
    ensures NetworksToChoose(s, lease)
  {
    NobodyBinds(s, lease, []);
    assert lease.refs + PoolRefsOf([]) == lease.refs;
    forall r | r in lease.refs ensures !r.NetworkRef? {
      assert r.NetworkRef? ==> r == NetworkRef(r.name);
    }
  }

  // ---- All runs ----------------------------------------------------------------------------

  /** In every run: a lease that is neither fulfilled nor failed, that waits for no other, whose networks are
      free to choose, for which open pools exist that complete it where picking one by one finds them, and
      for which as many VLANs as it wants networks are on offer wherever it may matter, is fulfilled by its
      reconcile. */
  lemma ReconcileFulfils(states: seq<State>, actions: seq<Action>, i: nat, more: set<Pool>, vlans: set<string>)
    requires Run(states, actions) && i < |actions| && actions[i].Reconcile? && actions[i].name in states[i].stored
    requires states[i].stored[actions[i].name].status.phase in {Unset, Pending, Partial}
    requires NobodyAhead(states[i], actions[i].name) && MayChoose(states[i], actions[i].name)
    requires var s, lease := states[i], states[i].stored[actions[i].name];
             && Completes(s, lease.spec, ToSet(HeldPools(s.pools, lease.refs)), more)
             && FoundOneByOne(lease.spec, ToSet(HeldPools(s.pools, lease.refs)))
    requires VlansAbound(states[i], actions[i].name, vlans)
    ensures actions[i].name in states[i + 1].stored
    ensures states[i + 1].stored[actions[i].name].status.phase == Fulfilled
  {
    InvAlways(states, actions, i);
    assert StepAt(states, actions, i);
    StepFulfils(states[i], actions[i], states[i + 1], more, vlans);
  }

  lemma StepFulfils(s: State, a: Action, s': State, more: set<Pool>, vlans: set<string>)
    requires Inv(s) && Next(s, a, s') && a.Reconcile? && a.name in s.stored
    requires s.stored[a.name].status.phase in {Unset, Pending, Partial}
    requires NobodyAhead(s, a.name) && MayChoose(s, a.name)
    requires Completes(s, s.stored[a.name].spec, ToSet(HeldPools(s.pools, s.stored[a.name].refs)), more)
    requires FoundOneByOne(s.stored[a.name].spec, ToSet(HeldPools(s.pools, s.stored[a.name].refs)))
    requires VlansAbound(s, a.name, vlans)
    ensures a.name in s'.stored && s'.stored[a.name].status.phase == Fulfilled
  {
    var lease := Admit(s.stored[a.name], a.now);
    AdmittedOk(s, a.name, a.now);
    PoolsAreAtHand(s, lease, more);
    NetworksAreToChoose(s, lease);
    VlansAreEnough(s, lease, vlans);
    OneReconcileFulfils(s, a, s', vlans);
  }
}
