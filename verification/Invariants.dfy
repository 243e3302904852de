/**
 Every step of the controller keeps the invariant, so it holds in every state of every run.
 */
module Invariants {
  import opened Types
  import opened Combinations
  import opened Scheduling
  import opened PoolLoop
  import opened Accounting
  import opened NetworkTables
  import opened NetworkAssignment
  import opened NetworkLoop
  import opened LeaseStates
  import opened Lifecycle

  // ---- Which references a reconcile can add ------------------------------------------------

  /** After a reconcile a lease refers to nothing but what it had, what it picked and what it was
      allowed to take. */
  lemma NewRefs(s: State, lease: Lease, now: nat, note: string, branch: Branch, result: Lease, r: OwnerRef)
    requires ValidPools(s.pools) && Outcome(s, lease, now, note, branch, result)
    requires r in result.refs && r !in lease.refs
    ensures branch.Assigned?
    ensures r in PoolRefsOf(branch.picks) || r in NetworkRefsOf(branch.adds)
  {
    OtherRefsOnly(lease.refs);
  }

  // ---- Exclusive networks ------------------------------------------------------------------

  /** A network the lease may take is owned, if at all, by leases of its own group. */
  lemma EligibleIsExclusive(others: map<string, Lease>, lease: Lease, networks: map<string, Network>,
      multiUsesSingle: bool, n: Network, b: string)
    requires Exclusive(others) && Eligible(others, lease, networks, multiUsesSingle, n)
    requires b in others && NetworkRef(n.name) in others[b].refs
    ensures SameGroup(lease, others[b])
  {
    if HasNetworkedSibling(others, lease, networks) {
      var k :| FollowsSibling(others, lease, networks, k, n);
      if k != b && NetworkRef(n.name) in others[k].refs {
        assert SameGroup(others[k], others[b]);
      }
    }
  }

  lemma NewNetworkIsEligible(s: State, lease: Lease, now: nat, note: string, branch: Branch, result: Lease, n: string)
    returns (network: Network)
    requires ValidPools(s.pools) && Outcome(s, lease, now, note, branch, result)
    requires NetworkRef(n) in result.refs && NetworkRef(n) !in lease.refs
    ensures network.name == n && InTable(s.networks, network)
    ensures branch.Assigned?
        && Eligible(s.leases - {lease.name}, lease.(refs := lease.refs + PoolRefsOf(branch.picks)), s.networks,
        s.multiUsesSingle, network)
  {
    NewRefs(s, lease, now, note, branch, result, NetworkRef(n));
    var i :| 0 <= i < |branch.adds| && NetworkRefsOf(branch.adds)[i] == NetworkRef(n);
    network := branch.adds[i];
    assert network in branch.adds;
  }

  /** Every network that the reconcile added was the lease's to take. */
  ghost predicate TookEligible(s: State, lease: Lease, placed: Lease, result: Lease) {
    && placed == lease.(refs := placed.refs)
    && forall n :: NetworkRef(n) in result.refs && NetworkRef(n) !in lease.refs ==>
         && n in s.networks && s.networks[n].name == n
         && Eligible(s.leases - {lease.name}, placed, s.networks, s.multiUsesSingle, s.networks[n])
  }

  lemma OutcomeTookEligible(s: State, lease: Lease, now: nat, note: string, branch: Branch, result: Lease)
    returns (placed: Lease)
    requires ValidPools(s.pools) && Outcome(s, lease, now, note, branch, result)
    ensures TookEligible(s, lease, placed, result)
  {
    placed := if branch.Assigned? then lease.(refs := lease.refs + PoolRefsOf(branch.picks)) else lease;
    forall n | NetworkRef(n) in result.refs && NetworkRef(n) !in lease.refs
      ensures n in s.networks && s.networks[n].name == n
      ensures Eligible(s.leases - {lease.name}, placed, s.networks, s.multiUsesSingle, s.networks[n])
    {
      var network := NewNetworkIsEligible(s, lease, now, note, branch, result, n);
    }
  }

  lemma PairExclusive(s: State, lease: Lease, placed: Lease, result: Lease, b: string, n: string)
    requires Exclusive(s.leases) && TookEligible(s, lease, placed, result)
    requires lease.name in s.leases ==> s.leases[lease.name] == lease
    requires lease.name !in s.leases ==> HoldsNothing(lease)
    requires result.spec == lease.spec && result.boskosId == lease.boskosId
    requires b in s.leases && b != lease.name && NetworkRef(n) in result.refs && NetworkRef(n) in s.leases[b].refs
    ensures SameGroup(result, s.leases[b])
  {
    if NetworkRef(n) in lease.refs {
      assert SameGroup(s.leases[lease.name], s.leases[b]);
    } else {
      ExclusiveAfterDelete(s.leases, lease.name);
      EligibleIsExclusive(s.leases - {lease.name}, placed, s.networks, s.multiUsesSingle, s.networks[n], b);
    }
  }

  lemma ExclusiveWith(leases: map<string, Lease>, name: string, result: Lease)
    requires Exclusive(leases)
    requires forall b, n ::
               (b in leases && b != name && NetworkRef(n) in result.refs && NetworkRef(n) in leases[b].refs) ==>
               SameGroup(result, leases[b])
    ensures Exclusive(leases[name := result])
  {
  }

  lemma StaysExclusive(s: State, lease: Lease, now: nat, note: string, branch: Branch, result: Lease)
    requires ValidPools(s.pools) && Exclusive(s.leases) && Outcome(s, lease, now, note, branch, result)
    requires lease.name in s.leases ==> s.leases[lease.name] == lease
    requires lease.name !in s.leases ==> HoldsNothing(lease)
    requires result.spec == lease.spec && result.boskosId == lease.boskosId
    ensures Exclusive(s.leases[lease.name := result])
  {
    var placed := OutcomeTookEligible(s, lease, now, note, branch, result);
    AllPairsExclusive(s, lease, placed, result);
  }

  lemma AllPairsExclusive(s: State, lease: Lease, placed: Lease, result: Lease)
    requires Exclusive(s.leases) && TookEligible(s, lease, placed, result)
    requires lease.name in s.leases ==> s.leases[lease.name] == lease
    requires lease.name !in s.leases ==> HoldsNothing(lease)
    requires result.spec == lease.spec && result.boskosId == lease.boskosId
    ensures Exclusive(s.leases[lease.name := result])
  {
    forall b, n | b in s.leases && b != lease.name && NetworkRef(n) in result.refs && NetworkRef(n) in s.leases[b].refs
      ensures SameGroup(result, s.leases[b])
    {
      PairExclusive(s, lease, placed, result, b, n);
    }
    ExclusiveWith(s.leases, lease.name, result);
  }

  // ---- Capacity ----------------------------------------------------------------------------

  /** A pool the lease did not hold before was picked, and a picked pool has room. */
  lemma NewPoolHasRoom(s: State, lease: Lease, now: nat, note: string, branch: Branch, result: Lease, n: string,
      r: Resource)
    requires ValidPools(s.pools) && n in s.pools && Outcome(s, lease, now, note, branch, result)
    requires PoolRef(n) in result.refs && PoolRef(n) !in lease.refs
    ensures Used(s.leases[lease.name := lease], n, r) + Asks(lease.spec, r) <= Capacity(s.pools[n], r)
  {
    NewRefs(s, lease, now, note, branch, result, PoolRef(n));
    var i :| 0 <= i < |branch.picks| && PoolRefsOf(branch.picks)[i] == PoolRef(n);
    var p := branch.picks[i];
    assert p in ToSet(branch.picks);
    var figures := Figures(s.pools, s.leases[lease.name := lease]);
    assert p in FittingPools(lease.spec, figures, AllPools(s.pools), ToSet(HeldPools(s.pools, lease.refs)));
    assert HasRoom(lease.spec, figures, p);
    match r
    case Cpu =>
    case Memory =>
  }

  /** Entering the table takes nothing. */
  lemma UsedWhenAdmitted(s: State, lease: Lease, n: string, r: Resource)
    requires lease.name in s.leases ==> s.leases[lease.name] == lease
    requires lease.name !in s.leases ==> HoldsNothing(lease)
    ensures Used(s.leases[lease.name := lease], n, r) == Used(s.leases, n, r)
  {
    if lease.name in s.leases {
      assert s.leases[lease.name := lease] == s.leases;
    } else {
      UsedWith(s.leases, lease.name, lease, n, r);
    }
  }

  lemma FitsAfter(s: State, lease: Lease, result: Lease, n: string, r: Resource)
    requires lease.name in s.leases ==> s.leases[lease.name] == lease
    requires lease.name !in s.leases ==> HoldsNothing(lease)
    requires result.spec == lease.spec
    requires n in s.pools && Used(s.leases, n, r) <= Capacity(s.pools[n], r)
    requires PoolRef(n) in result.refs && PoolRef(n) !in lease.refs ==>
               Used(s.leases[lease.name := lease], n, r) + Asks(lease.spec, r) <= Capacity(s.pools[n], r)
    ensures Used(s.leases[lease.name := result], n, r) <= Capacity(s.pools[n], r)
  {
    var admitted := s.leases[lease.name := lease];
    UsedWhenAdmitted(s, lease, n, r);
    UsedAfterChange(admitted, lease.name, result, n, r);
    assert admitted[lease.name := result] == s.leases[lease.name := result];
  }

  lemma StaysWithinCapacity(s: State, lease: Lease, now: nat, note: string, branch: Branch, result: Lease)
    requires ValidPools(s.pools) && WithinCapacity(s.pools, s.leases) && Outcome(s, lease, now, note, branch, result)
    requires lease.name in s.leases ==> s.leases[lease.name] == lease
    requires lease.name !in s.leases ==> HoldsNothing(lease)
    requires result.spec == lease.spec
    ensures WithinCapacity(s.pools, s.leases[lease.name := result])
  {
    forall n, r | n in s.pools ensures Used(s.leases[lease.name := result], n, r) <= Capacity(s.pools[n], r) {
      if PoolRef(n) in result.refs && PoolRef(n) !in lease.refs {
        NewPoolHasRoom(s, lease, now, note, branch, result, n, r);
      }
      FitsAfter(s, lease, result, n, r);
    }
  }

  lemma UsedAfterDelete(leases: map<string, Lease>, name: string, n: string, r: Resource)
    ensures Used(leases - {name}, n, r) <= Used(leases, n, r)
  {
    if name in leases {
      UsedWith(leases - {name}, name, leases[name], n, r);
      assert (leases - {name})[name := leases[name]] == leases;
    } else {
      assert leases - {name} == leases;
    }
  }

  // ---- Steps -------------------------------------------------------------------------------

  lemma ReconcileKeepsInv(s: State, name: string, now: nat, note: string, branch: Branch, s': State)
    requires Inv(s) && Next(s, Reconcile(name, now, note, branch), s')
    ensures Inv(s')
  {
    var lease, result := Admit(s.stored[name], now), s'.stored[name];
    AdmittedOk(s, name, now);
    ResultOk(s, lease, now, note, branch, result);
    StaysExclusive(s, lease, now, note, branch, result);
    StaysWithinCapacity(s, lease, now, note, branch, result);
    InvWith(s, result, s');
  }

  lemma InvWith(s: State, result: Lease, s': State)
    requires Inv(s) && result.name in s.stored && LeaseOk(s.pools, s.networks, result)
    requires s' == s.(leases := s.leases[result.name := result], stored := s.stored[result.name := result])
    requires Exclusive(s'.leases) && WithinCapacity(s'.pools, s'.leases)
    ensures Inv(s')
  {
  }

  lemma CapacityAfterDelete(pools: map<string, Pool>, leases: map<string, Lease>, name: string)
    requires WithinCapacity(pools, leases)
    ensures WithinCapacity(pools, leases - {name})
  {
    forall n, r | n in pools ensures Used(leases - {name}, n, r) <= Capacity(pools[n], r) {
      UsedAfterDelete(leases, name, n, r);
    }
  }

  lemma ExclusiveAfterDelete(leases: map<string, Lease>, name: string)
    requires Exclusive(leases)
    ensures Exclusive(leases - {name})
  {
  }

  lemma DeleteKeepsInv(s: State, name: string, s': State)
    requires Inv(s) && Next(s, Delete(name), s')
    ensures Inv(s')
  {
    CapacityAfterDelete(s.pools, s.leases, name);
    ExclusiveAfterDelete(s.leases, name);
    forall k | k in s'.leases ensures LeaseOk(s'.pools, s'.networks, s'.leases[k]) {
      assert s'.leases[k] == s.leases[k];
    }
  }

  /** A larger inventory leaves everything true of a lease. */
  lemma LeaseOkGrows(pools: map<string, Pool>, networks: map<string, Network>, pools': map<string, Pool>,
      networks': map<string, Network>, lease: Lease)
    requires ValidPools(pools) && LeaseOk(pools, networks, lease)
    requires forall n :: n in pools ==> n in pools' && pools'[n] == pools[n]
    requires forall n :: n in networks ==> n in networks' && networks'[n] == networks[n]
    ensures LeaseOk(pools', networks', lease)
  {
    HeldInGrown(pools, pools', lease.refs);
    var held := HeldPools(pools, lease.refs);
    forall p | p in held ensures NetworksIn(networks', lease.refs, p) >= NetworksIn(networks, lease.refs, p) {
      CardMonotone(Owned(lease.refs, PoolNetworks(p, networks).Keys),
          Owned(lease.refs, PoolNetworks(p, networks').Keys));
    }
  }

  lemma LeasesOkGrow(s: State, s': State)
    requires Inv(s) && s'.leases == s.leases
    requires forall n :: n in s.pools ==> n in s'.pools && s'.pools[n] == s.pools[n]
    requires forall n :: n in s.networks ==> n in s'.networks && s'.networks[n] == s.networks[n]
    ensures forall k :: k in s'.leases ==> LeaseOk(s'.pools, s'.networks, s'.leases[k])
  {
    forall k | k in s.leases ensures LeaseOk(s'.pools, s'.networks, s.leases[k]) {
      LeaseOkGrows(s.pools, s.networks, s'.pools, s'.networks, s.leases[k]);
    }
  }

  lemma CapacityGrows(s: State, pool: Pool)
    requires Inv(s) && pool.name !in s.pools
    ensures WithinCapacity(s.pools[pool.name := pool], s.leases)
  {
    forall n, r | n in s.pools[pool.name := pool]
      ensures Used(s.leases, n, r) <= Capacity(s.pools[pool.name := pool][n], r) {
      if n == pool.name {
        NobodyUses(s.leases, n, r);
      }
    }
  }

  lemma AddPoolKeepsInv(s: State, pool: Pool, s': State)
    requires Inv(s) && Next(s, AddPool(pool), s')
    ensures Inv(s')
  {
    LeasesOkGrow(s, s');
    CapacityGrows(s, pool);
  }

  /** No lease takes anything from a pool that none of them holds. */
  lemma {:induction false} NobodyUses(leases: map<string, Lease>, n: string, r: Resource)
    requires forall k :: k in leases ==> PoolRef(n) !in leases[k].refs
    ensures Used(leases, n, r) == 0
  {
    ZeroTotal(Shares(leases, n, r));
  }

  lemma {:induction false} ZeroTotal(m: map<string, nat>)
    requires forall k :: k in m ==> m[k] == 0
    ensures Total(m) == 0
    decreases |m|
  {
    if m != map[] {
      var k :| k in m;
      TotalWithout(m, k);
      ZeroTotal(m - {k});
    }
  }

  lemma AddNetworkKeepsInv(s: State, network: Network, s': State)
    requires Inv(s) && Next(s, AddNetwork(network), s')
    ensures Inv(s')
  {
    LeasesOkGrow(s, s');
  }

  lemma NextKeepsInv(s: State, a: Action, s': State)
    requires Inv(s) && Next(s, a, s')
    ensures Inv(s')
  {
    match a
    case Create(lease) =>
    case Mark(name) =>
    case Delete(name) => DeleteKeepsInv(s, name, s');
    case AddPool(pool) => AddPoolKeepsInv(s, pool, s');
    case AddNetwork(network) => AddNetworkKeepsInv(s, network, s');
    case Reconcile(name, now, note, branch) => ReconcileKeepsInv(s, name, now, note, branch, s');
  }

  // ---- Runs --------------------------------------------------------------------------------

  /** A run: `actions[i]` leads from `states[i]` to `states[i + 1]`. */
  ghost predicate Run(states: seq<State>, actions: seq<Action>) {
    && |states| == |actions| + 1
    && Init(states[0])
    && forall i :: 0 <= i < |actions| ==> StepAt(states, actions, i)
  }

  ghost predicate StepAt(states: seq<State>, actions: seq<Action>, i: nat)
    requires i < |actions| && |states| == |actions| + 1
  {
    ValidPools(states[i].pools) && Next(states[i], actions[i], states[i + 1])
  }

  lemma {:induction false} InvAlways(states: seq<State>, actions: seq<Action>, i: nat)
    requires Run(states, actions) && i < |states|
    ensures Inv(states[i])
  {
    if i == 0 {
      InitInv(states[0]);
    } else {
      InvAlways(states, actions, i - 1);
      StepKeepsInv(states, actions, i - 1);
    }
  }

  lemma StepKeepsInv(states: seq<State>, actions: seq<Action>, i: nat)
    requires Run(states, actions) && i + 1 < |states| && Inv(states[i])
    ensures Inv(states[i + 1])
  {
    assert StepAt(states, actions, i);
    NextKeepsInv(states[i], actions[i], states[i + 1]);
  }
}
