/**
 Which networks a lease may use: the networks of a pool, those nobody owns, those of a sibling
 lease, and the port groups common to several pools
 (pkg/controller/leases.go, 103-178, 426-635, 725-743).
 */
module NetworkTables {
  import opened Types

  /** Networks are found by name, and a pod has at most one network for a port group. */
  ghost predicate ValidTable(networks: map<string, Network>) {
    && (forall k :: k in networks ==> networks[k].name == k)
    && (forall a, b ::
          (a in networks && b in networks && networks[a].pod == networks[b].pod
           && networks[a].portGroup == networks[b].portGroup) ==> a == b)
  }

  predicate InPool(pool: Pool, n: Network) {
    n.pod == pool.pod && n.portGroup in pool.portGroups
  }

  predicate InTable(networks: map<string, Network>, n: Network) {
    n.name in networks && networks[n.name] == n
  }

  function PoolNetworks(pool: Pool, networks: map<string, Network>): map<string, Network> {
    map k | k in networks && InPool(pool, networks[k]) :: networks[k]
  }

  /** The network of a pod with the given port group, if there is one. */
  method FindNetwork(networks: map<string, Network>, pod: string, portGroup: string) returns (found: Option<Network>)
    requires ValidTable(networks)
    ensures found.Some? ==>
        InTable(networks, found.value) && found.value.pod == pod && found.value.portGroup == portGroup
    ensures found.None? ==> forall k :: k in networks ==> networks[k].pod != pod || networks[k].portGroup != portGroup
  {
    var left := networks.Keys;
    while left != {}
      invariant left <= networks.Keys
      invariant forall k :: k in networks && k !in left ==> networks[k].pod != pod || networks[k].portGroup != portGroup
      decreases |left|
    {
      var k :| k in left;
      if networks[k].pod == pod && networks[k].portGroup == portGroup {
        return Some(networks[k]);
      }
      left := left - {k};
    }
    return None;
  }

  method GetNetworksForPool(pool: Pool, networks: map<string, Network>) returns (inPool: map<string, Network>)
    requires ValidTable(networks)
    ensures inPool == PoolNetworks(pool, networks)
  {
    inPool := map[];
    for i := 0 to |pool.portGroups|
      invariant forall k :: k in inPool <==>
          k in networks && networks[k].pod == pool.pod && networks[k].portGroup in pool.portGroups[..i]
      invariant forall k :: k in inPool ==> inPool[k] == networks[k]
    {
      assert pool.portGroups[..i + 1] == pool.portGroups[..i] + [pool.portGroups[i]];
      var found := FindNetwork(networks, pool.pod, pool.portGroups[i]);
      if found.Some? {
        inPool := inPool[found.value.name := found.value];
      }
    }
    assert pool.portGroups[..|pool.portGroups|] == pool.portGroups;
  }

  /** The type a network is labelled with; an unlabelled one is single-tenant. */
  function TypeOf(n: Network): string {
    match n.typeLabel
    case Some(t) => t
    case None => SINGLE_TENANT
  }

  ghost predicate HasType(n: Network, networkType: string) {
    n.typeLabel == Some(networkType) || (n.typeLabel == None && networkType == "single-tenant")
  }

  /** No lease owns the network. */
  predicate Free(leases: map<string, Lease>, name: string) {
    forall k <- leases :: NetworkRef(name) !in leases[k].refs
  }

  ghost predicate AvailableIn(pool: Pool, networkType: string, networks: map<string, Network>,
      leases: map<string, Lease>, n: Network) {
    InTable(networks, n) && InPool(pool, n) && HasType(n, networkType) && Free(leases, n.name)
  }

  method HasOwner(leases: map<string, Lease>, name: string) returns (owned: bool)
    ensures owned <==> !Free(leases, name)
  {
    var left := leases.Keys;
    while left != {}
      invariant left <= leases.Keys
      invariant forall k :: k in leases && k !in left ==> NetworkRef(name) !in leases[k].refs
      decreases |left|
    {
      var k :| k in left;
      if NetworkRef(name) in leases[k].refs {
        return true;
      }
      left := left - {k};
    }
    return false;
  }

  /** The networks of the pool that have the type and no owner, in any order. */
  method GetAvailableNetworks(pool: Pool, networkType: string, networks: map<string, Network>,
      leases: map<string, Lease>)
    returns (available: seq<Network>)
    requires ValidTable(networks)
    ensures forall n :: n in available <==> AvailableIn(pool, networkType, networks, leases, n)
  {
    var inPool := GetNetworksForPool(pool, networks);
    available := [];
    var left := inPool.Keys;
    while left != {}
      invariant left <= inPool.Keys
      invariant forall n :: n in available <==>
                  n.name in inPool && n.name !in left && AvailableIn(pool, networkType, networks, leases, n)
      decreases |left|
    {
      var k :| k in left;
      left := left - {k};
      var owned := HasOwner(leases, k);
      if TypeOf(inPool[k]) != networkType {
        continue;
      }
      if !owned {
        available := available + [inPool[k]];
      }
    }
  }

  // ---- Siblings ----------------------------------------------------------------------------

  /** A lease that asks for no machine at all, only for networks. */
  predicate NetworkOnly(lease: Lease) {
    lease.spec.vcpus == 0 && lease.spec.memory == 0
  }

  /** Two leases of one job: same boskos id, and both ask for vCPUs or memory. */
  ghost predicate SameGroup(a: Lease, b: Lease) {
    && (a.spec.vcpus > 0 || a.spec.memory > 0) && (b.spec.vcpus > 0 || b.spec.memory > 0)
    && a.boskosId.Some? && a.boskosId == b.boskosId
  }

  ghost predicate OwnsNetwork(lease: Lease, networks: map<string, Network>) {
    exists k :: k in networks && NetworkRef(k) in lease.refs
  }

  /** A sibling of the lease that owns a network. */
  ghost predicate NetworkedSibling(leases: map<string, Lease>, lease: Lease, networks: map<string, Network>,
      k: string) {
    && k in leases
    && leases[k].name != lease.name
    && SameGroup(lease, leases[k])
    && OwnsNetwork(leases[k], networks)
  }

  ghost predicate HasNetworkedSibling(leases: map<string, Lease>, lease: Lease, networks: map<string, Network>) {
    exists k :: NetworkedSibling(leases, lease, networks, k)
  }

  /** The networks a lease owns, in the order of its references. */
  method OwnedNetworks(lease: Lease, networks: map<string, Network>) returns (owned: seq<Network>)
    requires ValidTable(networks)
    ensures forall n :: n in owned <==> InTable(networks, n) && NetworkRef(n.name) in lease.refs
  {
    owned := [];
    for i := 0 to |lease.refs|
      invariant forall n :: n in owned <==> InTable(networks, n) && NetworkRef(n.name) in lease.refs[..i]
    {
      assert lease.refs[..i + 1] == lease.refs[..i] + [lease.refs[i]];
      var ref := lease.refs[i];
      if ref.NetworkRef? && ref.name in networks {
        owned := owned + [networks[ref.name]];
      }
    }
    assert lease.refs[..|lease.refs|] == lease.refs;
  }

  /** The networks of some networked sibling; nothing exactly when there is no such sibling. */
  method GetCommonNetworksForLease(lease: Lease, leases: map<string, Lease>, networks: map<string, Network>)
    returns (common: Option<seq<Network>>, ghost from: string)
    requires ValidTable(networks)
    ensures common.None? <==> !HasNetworkedSibling(leases, lease, networks)
    ensures lease.spec.vcpus == 0 && lease.spec.memory == 0 ==> common.None?
    ensures lease.boskosId.None? ==> common.None?
    ensures common.Some? ==>
              && from in leases && leases[from].name != lease.name && leases[from].boskosId == lease.boskosId
              && (leases[from].spec.vcpus > 0 || leases[from].spec.memory > 0)
              && common.value != []
    ensures common.Some? ==> NetworkedSibling(leases, lease, networks, from)
    ensures common.Some? ==> forall n :: n in common.value <==>
        InTable(networks, n) && NetworkRef(n.name) in leases[from].refs
  {
    from := "";
    if NetworkOnly(lease) {
      return None, from;
    }
    if lease.boskosId.None? {
      return None, from;
    }
    var left := leases.Keys;
    while left != {}
      invariant left <= leases.Keys
      invariant forall k :: k !in left ==> !NetworkedSibling(leases, lease, networks, k)
      decreases |left|
    {
      var k :| k in left;
      var other := leases[k];
      left := left - {k};
      if other.name == lease.name || NetworkOnly(other) || other.boskosId != lease.boskosId {
        continue;
      }
      var owned := OwnedNetworks(other, networks);
      if |owned| > 0 {
        assert InTable(networks, owned[0]) && NetworkRef(owned[0].name) in other.refs;
        assert NetworkedSibling(leases, lease, networks, k);
        return Some(owned), k;
      }
      assert forall m :: m in networks && NetworkRef(m) in other.refs ==> networks[m] in owned;
    }
    return None, from;
  }

  /** Usable in the pool because the sibling has it, or has one of the same port group. */
  ghost predicate MatchesCandidates(candidates: seq<Network>, pool: Pool, networkType: string,
      networks: map<string, Network>, leases: map<string, Lease>, n: Network) {
    || (n in candidates && InPool(pool, n))
    || (&& AvailableIn(pool, networkType, networks, leases, n) && n.portGroup != ""
        && exists m :: m in candidates && m.portGroup == n.portGroup)
  }

  method ResolveCommonNetworksForPool(candidates: seq<Network>, pool: Pool, poolNetworks: map<string, Network>,
      networkType: string, networks: map<string, Network>, leases: map<string, Lease>)
    returns (usable: seq<Network>)
    requires ValidTable(networks) && poolNetworks == PoolNetworks(pool, networks)
    requires forall n :: n in candidates ==> InTable(networks, n)
    ensures forall n :: n in usable ==> MatchesCandidates(candidates, pool, networkType, networks, leases, n)
    ensures (exists n :: n in candidates && InPool(pool, n)) ==>
              forall n :: n in usable <==> n in candidates && InPool(pool, n)
    ensures !(exists n :: n in candidates && InPool(pool, n)) ==>
              forall n :: n in usable <==> MatchesCandidates(candidates, pool, networkType, networks, leases, n)
  {
    usable := [];
    for i := 0 to |candidates|
      invariant forall n :: n in usable <==> n in candidates[..i] && InPool(pool, n)
    {
      assert candidates[..i + 1] == candidates[..i] + [candidates[i]];
      assert candidates[i] in candidates;
      if candidates[i].name in poolNetworks {
        usable := usable + [candidates[i]];
      }
    }
    assert candidates[..|candidates|] == candidates;
    if |usable| == 0 {
      var portGroups := set n | n in candidates && n.portGroup != "" :: n.portGroup;
      var local := GetAvailableNetworks(pool, networkType, networks, leases);
      assert forall n :: n in candidates ==> !InPool(pool, n);
      for i := 0 to |local|
        invariant forall n :: n in usable <==> n in local[..i] && n.portGroup in portGroups
      {
        assert local[..i + 1] == local[..i] + [local[i]];
        if local[i].portGroup in portGroups {
          usable := usable + [local[i]];
        }
      }
      assert local[..|local|] == local;
      forall n ensures n in usable <==> MatchesCandidates(candidates, pool, networkType, networks, leases, n) {
        assert n.portGroup in portGroups <==>
            n.portGroup != "" && exists m :: m in candidates && m.portGroup == n.portGroup;
      }
    } else {
      assert usable[0] in candidates && InPool(pool, usable[0]);
    }
  }

  // ---- Common port groups ------------------------------------------------------------------

  /** The lease's type allows the network; multi-tenant leases may fall back to single-tenant
      networks when the controller is set up so. */
  ghost predicate TypeAllowed(networkType: string, multiUsesSingle: bool, n: Network) {
    || HasType(n, networkType)
    || (multiUsesSingle && networkType == "multi-tenant" && HasType(n, "single-tenant"))
  }

  ghost predicate Offered(pool: Pool, networkType: string, multiUsesSingle: bool, networks: map<string, Network>,
      leases: map<string, Lease>, n: Network) {
    InTable(networks, n) && InPool(pool, n) && TypeAllowed(networkType, multiUsesSingle, n) && Free(leases, n.name)
  }

  method OfferedNetworks(pool: Pool, networkType: string, multiUsesSingle: bool, networks: map<string, Network>,
      leases: map<string, Lease>)
    returns (offered: seq<Network>)
    requires ValidTable(networks)
    ensures forall n :: n in offered <==> Offered(pool, networkType, multiUsesSingle, networks, leases, n)
  {
    offered := GetAvailableNetworks(pool, networkType, networks, leases);
    if multiUsesSingle && networkType == MULTI_TENANT {
      var single := GetAvailableNetworks(pool, SINGLE_TENANT, networks, leases);
      offered := offered + single;
    }
  }

  ghost predicate OffersPortGroup(pool: Pool, networkType: string, multiUsesSingle: bool,
      networks: map<string, Network>, leases: map<string, Lease>, portGroup: string) {
    exists n :: Offered(pool, networkType, multiUsesSingle, networks, leases, n) && n.portGroup == portGroup
  }

  /** The port groups of which every one of the pools offers a network. */
  method CommonPortGroupNames(pools: seq<Pool>, networkType: string, multiUsesSingle: bool,
      networks: map<string, Network>, leases: map<string, Lease>)
    returns (common: set<string>)
    requires ValidTable(networks) && pools != []
    ensures forall g :: g in common <==>
              forall p :: p in pools ==> OffersPortGroup(p, networkType, multiUsesSingle, networks, leases, g)
  {
    common := {};
    for i := 0 to |pools|
      invariant i > 0 ==>
                  forall g :: g in common <==>
                    forall k :: 0 <= k < i ==>
                        OffersPortGroup(pools[k], networkType, multiUsesSingle, networks, leases, g)
    {
      var offered := OfferedNetworks(pools[i], networkType, multiUsesSingle, networks, leases);
      var portGroups := set n | n in offered :: n.portGroup;
      assert forall g :: g in portGroups <==>
          OffersPortGroup(pools[i], networkType, multiUsesSingle, networks, leases, g);
      if i == 0 {
        common := portGroups;
      } else {
        common := common * portGroups;
      }
    }
  }

  // ---- Pools of siblings -------------------------------------------------------------------

  /** The lease holds the pool, or holds none yet and requires it. */
  ghost predicate KnownFor(lease: Lease, pool: string) {
    || PoolRef(pool) in lease.refs
    || (&& (forall r :: r in lease.refs ==> !r.PoolRef?)
        && lease.spec.requiredPool != "" && pool == lease.spec.requiredPool)
  }

  method KnownPools(lease: Lease) returns (names: set<string>)
    ensures forall p :: p in names <==> KnownFor(lease, p)
  {
    names := set r | r in lease.refs && r.PoolRef? :: r.name;
    assert names == {} <==> forall r :: r in lease.refs ==> !r.PoolRef? by {
      if r :| r in lease.refs && r.PoolRef? {
        assert r.name in names;
      }
    }
    if |names| == 0 && lease.spec.requiredPool != "" {
      names := {lease.spec.requiredPool};
    }
  }

  /** The pools that the siblings of the lease, other than those marked for deletion, are known to
      use. */
  method ResolveSiblingPools(lease: Lease, candidates: map<string, Lease>, marked: set<string>,
      pools: map<string, Pool>)
    returns (siblingPools: set<string>)
    requires lease.spec.vcpus > 0 || lease.spec.memory > 0
    ensures forall p :: p in siblingPools <==>
              p in pools && exists k :: k in candidates && k !in marked && candidates[k].name != lease.name
                                     && SameGroup(lease, candidates[k]) && KnownFor(candidates[k], p)
  {
    siblingPools := {};
    if lease.boskosId.None? {
      return;
    }
    var left := candidates.Keys;
    while left != {}
      invariant left <= candidates.Keys
      invariant forall p :: p in siblingPools <==>
                  p in pools && exists k :: k in candidates && k !in left && k !in marked
                                         && candidates[k].name != lease.name
                                         && SameGroup(lease, candidates[k]) && KnownFor(candidates[k], p)
      decreases |left|
    {
      var k :| k in left;
      var sibling := candidates[k];
      left := left - {k};
      if sibling.name == lease.name || k in marked || NetworkOnly(sibling) || sibling.boskosId != lease.boskosId {
        continue;
      }
      var known := KnownPools(sibling);
      siblingPools := siblingPools + (set p | p in known && p in pools);
    }
  }
}
