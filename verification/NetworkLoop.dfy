/**
 The network loop of a reconcile (pkg/controller/leases.go, 1346-1515): what it may take, and that
 the pools of a lease end up with the VLANs of its first pool.
 */
module NetworkLoop {
  import opened Types
  import opened NetworkTables
  import opened NetworkAssignment
  import Combinations
  import Sorting

  // ---- What a lease may take ---------------------------------------------------------------

  ghost predicate SharesPortGroup(lease: Lease, networks: map<string, Network>, portGroup: string) {
    exists m :: m in networks && NetworkRef(m) in lease.refs && networks[m].portGroup == portGroup
  }

  /** Allowed because sibling `k` has the network, or a network of the same port group while this
      one is free. */
  ghost predicate FollowsSibling(others: map<string, Lease>, lease: Lease, networks: map<string, Network>, k: string,
      n: Network) {
    && NetworkedSibling(others, lease, networks, k)
    && (|| NetworkRef(n.name) in others[k].refs
        || (&& Free(others, n.name)
            && HasType(n, lease.spec.networkType)
            && SharesPortGroup(others[k], networks, n.portGroup)))
  }

  /** What the lease may take: what a networked sibling has or matches, if there is such a sibling;
      otherwise a free network of its type. */
  ghost predicate Eligible(others: map<string, Lease>, lease: Lease, networks: map<string, Network>,
      multiUsesSingle: bool, n: Network) {
    if HasNetworkedSibling(others, lease, networks)
    then exists k :: FollowsSibling(others, lease, networks, k, n)
    else Free(others, n.name) && TypeAllowed(lease.spec.networkType, multiUsesSingle, n)
  }

  ghost predicate InSomePool(pools: seq<Pool>, n: Network) {
    exists p :: p in pools && InPool(p, n)
  }

  /** The networks added to the lease are new to it, lie in its pools and were its to take. */
  ghost predicate SafeAdds(lease: Lease, others: map<string, Lease>, networks: map<string, Network>,
      multiUsesSingle: bool, held: seq<Pool>, adds: seq<Network>) {
    && DistinctRefs(lease.refs + NetworkRefsOf(adds))
    && forall n :: n in adds ==>
         InTable(networks, n) && InSomePool(held, n) && Eligible(others, lease, networks, multiUsesSingle, n)
  }

  /** The lease table as the loop sees it: the other leases, and this one with what it has so far. */
  function TableWith(others: map<string, Lease>, lease: Lease, refs: seq<OwnerRef>): map<string, Lease> {
    others[lease.name := lease.(refs := refs)]
  }

  lemma SameSiblings(others: map<string, Lease>, lease: Lease, refs: seq<OwnerRef>, networks: map<string, Network>)
    requires lease.name !in others
    ensures forall k :: NetworkedSibling(TableWith(others, lease, refs), lease, networks, k) <==>
        NetworkedSibling(others, lease, networks, k)
    ensures HasNetworkedSibling(TableWith(others, lease, refs), lease, networks) <==>
        HasNetworkedSibling(others, lease, networks)
  {
    var table := TableWith(others, lease, refs);
    forall k ensures NetworkedSibling(table, lease, networks, k) <==> NetworkedSibling(others, lease, networks, k) {
    }
    if HasNetworkedSibling(others, lease, networks) {
      var k :| NetworkedSibling(others, lease, networks, k);
      assert NetworkedSibling(table, lease, networks, k);
    }
  }

  /** What sibling `k` binds the pool to: its own networks there, and if it has none there, the
      available ones of its port groups. */
  ghost predicate SiblingCandidate(others: map<string, Lease>, lease: Lease, refs: seq<OwnerRef>,
      networks: map<string, Network>, k: string, pool: Pool, n: Network) {
    && NetworkedSibling(others, lease, networks, k)
    && (if exists m :: InTable(networks, m) && InPool(pool, m) && NetworkRef(m.name) in others[k].refs
        then InTable(networks, n) && InPool(pool, n) && NetworkRef(n.name) in others[k].refs
        else && AvailableIn(pool, lease.spec.networkType, networks, TableWith(others, lease, refs), n)
             && n.portGroup != "" && SharesPortGroup(others[k], networks, n.portGroup))
  }

  /** The networks the pool is served from: those sibling `k` allows, or what the pool offers. */
  ghost predicate CandidateFor(others: map<string, Lease>, lease: Lease, refs: seq<OwnerRef>,
      networks: map<string, Network>, multiUsesSingle: bool, pool: Pool, k: string, n: Network) {
    if HasNetworkedSibling(others, lease, networks)
    then SiblingCandidate(others, lease, refs, networks, k, pool, n)
    else Offered(pool, lease.spec.networkType, multiUsesSingle, networks, TableWith(others, lease, refs), n)
  }

  /** With more references the lease finds fewer candidates. */
  lemma FewerCandidates(others: map<string, Lease>, lease: Lease, refs: seq<OwnerRef>, refs': seq<OwnerRef>,
      networks: map<string, Network>, multiUsesSingle: bool, pool: Pool, k: string, n: Network)
    requires lease.name !in others && forall r :: r in refs ==> r in refs'
    requires CandidateFor(others, lease, refs', networks, multiUsesSingle, pool, k, n)
    ensures CandidateFor(others, lease, refs, networks, multiUsesSingle, pool, k, n)
  {
    FreeAmongOthers(others, lease, refs, n.name);
    FreeAmongOthers(others, lease, refs', n.name);
  }

  /** The networks one pool may be given, before the shuffle. */
  method CandidateNetworks(lease: Lease, others: map<string, Lease>, refs: seq<OwnerRef>,
      networks: map<string, Network>, multiUsesSingle: bool, pool: Pool, poolNetworks: map<string, Network>,
      restrict: Option<set<string>>)
    returns (available: seq<Network>, ghost from: string)
    requires ValidTable(networks) && poolNetworks == PoolNetworks(pool, networks) && lease.name !in others
    ensures forall n :: n in available ==>
        InTable(poolNetworks, n) && Eligible(others, lease, networks, multiUsesSingle, n)
    ensures HasNetworkedSibling(others, lease, networks) ==> NetworkedSibling(others, lease, networks, from)
    ensures forall n :: n in available <==>
              && CandidateFor(others, lease, refs, networks, multiUsesSingle, pool, from, n)
              && (!HasNetworkedSibling(others, lease, networks) && restrict.Some? ==> n.portGroup in restrict.value)
  {
    var table := TableWith(others, lease, refs);
    SameSiblings(others, lease, refs, networks);
    var common;
    common, from := GetCommonNetworksForLease(lease, table, networks);
    if common.Some? {
      available := ResolveCommonNetworksForPool(common.value, pool, poolNetworks, lease.spec.networkType, networks,
          table);
      SiblingUsable(others, lease, refs, networks, common.value, pool, available, from);
      forall n | n in available
        ensures InTable(poolNetworks, n) && FollowsSibling(others, lease, networks, from, n)
      {
        CandidateFollows(others, lease, refs, networks, from, pool, n);
      }
    } else {
      available := OfferedNetworks(pool, lease.spec.networkType, multiUsesSingle, networks, table);
      if restrict.Some? {
        available := KeepPortGroups(available, restrict.value);
      }
      forall n | n in available ensures Free(others, n.name) {
        FreeAmongOthers(others, lease, refs, n.name);
      }
    }
  }

  lemma CandidateFollows(others: map<string, Lease>, lease: Lease, refs: seq<OwnerRef>, networks: map<string, Network>,
      k: string, pool: Pool, n: Network)
    requires lease.name !in others && SiblingCandidate(others, lease, refs, networks, k, pool, n)
    ensures InTable(PoolNetworks(pool, networks), n) && FollowsSibling(others, lease, networks, k, n)
  {
    FreeAmongOthers(others, lease, refs, n.name);
  }

  lemma SiblingUsable(others: map<string, Lease>, lease: Lease, refs: seq<OwnerRef>, networks: map<string, Network>,
      candidates: seq<Network>, pool: Pool, usable: seq<Network>, from: string)
    requires ValidTable(networks) && lease.name !in others && NetworkedSibling(others, lease, networks, from)
    requires forall n :: n in candidates <==> InTable(networks, n) && NetworkRef(n.name) in others[from].refs
    requires (exists n :: n in candidates && InPool(pool, n)) ==> forall n :: n in usable <==>
        n in candidates && InPool(pool, n)
    requires !(exists n :: n in candidates && InPool(pool, n)) ==>
               forall n :: n in usable <==>
                   MatchesCandidates(candidates, pool, lease.spec.networkType, networks,
                   TableWith(others, lease, refs), n)
    ensures forall n :: n in usable <==> SiblingCandidate(others, lease, refs, networks, from, pool, n)
  {
    if m :| m in candidates && InPool(pool, m) {
      assert InTable(networks, m) && InPool(pool, m) && NetworkRef(m.name) in others[from].refs;
    } else {
      assert forall m :: InTable(networks, m) && InPool(pool, m) ==> NetworkRef(m.name) !in others[from].refs;
      forall n ensures n in usable <==> SiblingCandidate(others, lease, refs, networks, from, pool, n) {
        assert (exists m :: m in candidates && m.portGroup == n.portGroup) <==>
            SharesPortGroup(others[from], networks, n.portGroup) by {
          if m :| m in candidates && m.portGroup == n.portGroup {
            assert m.name in networks && NetworkRef(m.name) in others[from].refs;
          }
          if x :| x in networks && NetworkRef(x) in others[from].refs && networks[x].portGroup == n.portGroup {
            assert InTable(networks, networks[x]) && networks[x] in candidates;
          }
        }
      }
    }
  }

  lemma FreeAmongOthers(others: map<string, Lease>, lease: Lease, refs: seq<OwnerRef>, n: string)
    requires lease.name !in others
    ensures Free(TableWith(others, lease, refs), n) <==> Free(others, n) && NetworkRef(n) !in refs
  {
    var table := TableWith(others, lease, refs);
    if Free(table, n) {
      assert NetworkRef(n) !in table[lease.name].refs;
      forall k | k in others ensures NetworkRef(n) !in others[k].refs {
        assert table[k] == others[k];
      }
    }
  }

  method KeepPortGroups(networks: seq<Network>, portGroups: set<string>) returns (kept: seq<Network>)
    ensures forall n :: n in kept <==> n in networks && n.portGroup in portGroups
  {
    kept := [];
    for i := 0 to |networks|
      invariant forall n :: n in kept <==> n in networks[..i] && n.portGroup in portGroups
    {
      assert networks[..i + 1] == networks[..i] + [networks[i]];
      if networks[i].portGroup in portGroups {
        kept := kept + [networks[i]];
      }
    }
    assert networks[..|networks|] == networks;
  }

  method Shuffle<T(!new)>(s: seq<T>) returns (r: seq<T>)
    ensures multiset(r) == multiset(s)
    ensures forall x :: x in r <==> x in s
  {
    r := s;
    var i := |r|;
    while i > 1
      invariant 0 <= i <= |r| && multiset(r) == multiset(s)
    {
      i := i - 1;
      var j :| 0 <= j <= i;
      r := r[i := r[j]][j := r[i]];
    }
    Sorting.SameElements(r, s);
  }

  // ---- One pool ----------------------------------------------------------------------------

  /** What serving one pool does to the lease's references. */
  ghost predicate Served(lease: Lease, others: map<string, Lease>, refs: seq<OwnerRef>, networks: map<string, Network>,
      multiUsesSingle: bool, pool: Pool, added: seq<Network>, refs': seq<OwnerRef>) {
    var poolNetworks := PoolNetworks(pool, networks);
    && refs' == refs + NetworkRefsOf(added)
    && DistinctRefs(refs')
    && |Owned(refs', poolNetworks.Keys)| == |Owned(refs, poolNetworks.Keys)| + |added|
    && forall n :: n in added ==>
         && InTable(poolNetworks, n)
         && !Contains(refs, poolNetworks, n.vlan, n.datacenter)
         && Eligible(others, lease, networks, multiUsesSingle, n)
  }

  ghost predicate HasVlan(refs: seq<OwnerRef>, poolNetworks: map<string, Network>, vlan: string) {
    exists k :: k in poolNetworks && NetworkRef(k) in refs && poolNetworks[k].vlan == vlan
  }

  ghost predicate HasVlanIn(refs: seq<OwnerRef>, poolNetworks: map<string, Network>, vlan: string,
      datacenter: string) {
    exists k :: k in poolNetworks && NetworkRef(k) in refs && poolNetworks[k].vlan == vlan
             && poolNetworks[k].datacenter == datacenter
  }

  /** The pool has a network of the VLAN of every candidate (of the given port groups and VLANs) that
      was found for it when the lease had `refs`; if no VLANs are given, one of the same datacenter. */
  ghost predicate AllTaken(lease: Lease, others: map<string, Lease>, refs: seq<OwnerRef>,
      networks: map<string, Network>, multiUsesSingle: bool, pool: Pool, portGroups: Option<set<string>>,
      vlans: Option<set<string>>, refs': seq<OwnerRef>, k: string) {
    && (HasNetworkedSibling(others, lease, networks) ==> NetworkedSibling(others, lease, networks, k))
    && forall n ::
         (&& CandidateFor(others, lease, refs, networks, multiUsesSingle, pool, k, n)
          && (!HasNetworkedSibling(others, lease, networks) && portGroups.Some? ==> n.portGroup in portGroups.value)
          && (vlans.Some? ==> n.vlan in vlans.value)) ==>
         && HasVlan(refs', PoolNetworks(pool, networks), n.vlan)
         && (vlans.None? ==> HasVlanIn(refs', PoolNetworks(pool, networks), n.vlan, n.datacenter))
  }

  /** The pool has enough networks, or none of its candidates was passed over. */
  ghost predicate WellServed(lease: Lease, others: map<string, Lease>, refs: seq<OwnerRef>,
      networks: map<string, Network>, multiUsesSingle: bool, pool: Pool, portGroups: Option<set<string>>,
      vlans: Option<set<string>>, refs': seq<OwnerRef>) {
    || |Owned(refs', PoolNetworks(pool, networks).Keys)| >= lease.spec.networks
    || exists k :: AllTaken(lease, others, refs, networks, multiUsesSingle, pool, portGroups, vlans, refs', k)
  }

  method ServeFirstPool(lease: Lease, others: map<string, Lease>, networks: map<string, Network>, multiUsesSingle: bool,
      pool: Pool, restrict: Option<set<string>>, vlans: set<string>)
    returns (added: seq<Network>, refs': seq<OwnerRef>, vlans': set<string>)
    requires ValidTable(networks) && lease.name !in others && DistinctRefs(lease.refs)
    ensures Served(lease, others, lease.refs, networks, multiUsesSingle, pool, added, refs')
    ensures vlans' == vlans + VlansOf(added) && ApartInVlan(added)
    ensures |Owned(lease.refs, PoolNetworks(pool, networks).Keys)| >= lease.spec.networks ==> added == []
    ensures added == [] || |Owned(refs', PoolNetworks(pool, networks).Keys)| <= lease.spec.networks
    ensures !HasNetworkedSibling(others, lease, networks) && restrict.Some? ==>
              forall n :: n in added ==> n.portGroup in restrict.value
    ensures WellServed(lease, others, lease.refs, networks, multiUsesSingle, pool, restrict, None, refs')
  {
    var poolNetworks := GetNetworksForPool(pool, networks);
    var count := CountOwned(lease.refs, poolNetworks);
    if count < lease.spec.networks {
      var available, from :=
        CandidateNetworks(lease, others, lease.refs, networks, multiUsesSingle, pool, poolNetworks, restrict);
      available := Shuffle(available);
      added, refs', vlans' := FillFirstPool(lease.refs, poolNetworks, available, count, lease.spec.networks, vlans);
      assert |Owned(refs', poolNetworks.Keys)| < lease.spec.networks ==>
               AllTaken(lease, others, lease.refs, networks, multiUsesSingle, pool, restrict, None, refs', from);
    } else {
      added, refs', vlans' := [], lease.refs, vlans;
      FillsNothing(lease.refs, poolNetworks, []);
    }
  }

  method ServeLaterPool(lease: Lease, others: map<string, Lease>, refs: seq<OwnerRef>, networks: map<string, Network>,
      multiUsesSingle: bool, pool: Pool, vlans: set<string>)
    returns (added: seq<Network>, refs': seq<OwnerRef>)
    requires ValidTable(networks) && lease.name !in others && DistinctRefs(refs)
    ensures Served(lease, others, refs, networks, multiUsesSingle, pool, added, refs')
    ensures ApartInVlan(added) && forall n :: n in added ==> n.vlan in vlans
    ensures added == [] || |Owned(refs', PoolNetworks(pool, networks).Keys)| <= lease.spec.networks
    ensures WellServed(lease, others, refs, networks, multiUsesSingle, pool, None, Some(vlans), refs')
  {
    var poolNetworks := GetNetworksForPool(pool, networks);
    var count := CountOwned(refs, poolNetworks);
    if count < lease.spec.networks {
      var available, from :=
        CandidateNetworks(lease, others, refs, networks, multiUsesSingle, pool, poolNetworks, None);
      available := Shuffle(available);
      added, refs' := FillMatchingPool(refs, poolNetworks, available, count, lease.spec.networks, vlans);
      assert |Owned(refs', poolNetworks.Keys)| < lease.spec.networks ==>
               AllTaken(lease, others, refs, networks, multiUsesSingle, pool, None, Some(vlans), refs', from);
    } else {
      added, refs' := [], refs;
      FillsNothing(refs, poolNetworks, []);
    }
  }

  lemma ServedIsSafe(lease: Lease, others: map<string, Lease>, networks: map<string, Network>, multiUsesSingle: bool,
      held: seq<Pool>, adds: seq<Network>, pool: Pool, added: seq<Network>, refs': seq<OwnerRef>)
    requires SafeAdds(lease, others, networks, multiUsesSingle, held, adds) && pool in held && ValidTable(networks)
    requires Served(lease, others, lease.refs + NetworkRefsOf(adds), networks, multiUsesSingle, pool, added, refs')
    ensures SafeAdds(lease, others, networks, multiUsesSingle, held, adds + added)
    ensures refs' == lease.refs + NetworkRefsOf(adds + added)
  {
    RefsOfBoth(lease.refs, adds, added);
    forall n | n in added ensures InTable(networks, n) && InSomePool(held, n) {
      assert InPool(pool, n);
    }
  }

  lemma RefsOfBoth(refs: seq<OwnerRef>, adds: seq<Network>, added: seq<Network>)
    ensures refs + NetworkRefsOf(adds) + NetworkRefsOf(added) == refs + NetworkRefsOf(adds + added)
  {
    assert NetworkRefsOf(adds + added) == NetworkRefsOf(adds) + NetworkRefsOf(added);
  }

  // ---- Lock-step ---------------------------------------------------------------------------

  ghost predicate OneDatacenter(poolNetworks: map<string, Network>) {
    forall a, b :: a in poolNetworks && b in poolNetworks ==> poolNetworks[a].datacenter == poolNetworks[b].datacenter
  }

  ghost predicate PortGroupFixesVlan(networks: map<string, Network>) {
    forall a, b :: a in networks && b in networks && networks[a].portGroup == networks[b].portGroup ==>
        networks[a].vlan == networks[b].vlan
  }

  ghost predicate NoNetworks(refs: seq<OwnerRef>) {
    forall r :: r in refs ==> !r.NetworkRef?
  }

  /** The situation in which a free choice of networks is made: the lease has none yet, no sibling
      binds it, and the inventory names VLANs consistently. */
  ghost predicate FreeChoice(lease: Lease, others: map<string, Lease>, networks: map<string, Network>,
      held: seq<Pool>) {
    && NoNetworks(lease.refs)
    && !HasNetworkedSibling(others, lease, networks)
    && PortGroupFixesVlan(networks)
    && forall p :: p in held ==> OneDatacenter(PoolNetworks(p, networks))
  }

  /** Every pool has at least as many networks of the lease as the first one. */
  ghost predicate InStep(networks: map<string, Network>, held: seq<Pool>, refs: seq<OwnerRef>) {
    forall p :: p in held ==>
      |Owned(refs, PoolNetworks(p, networks).Keys)| >= |Owned(refs, PoolNetworks(held[0], networks).Keys)|
  }

  /** The network of VLAN `v` in the first pool has a counterpart on offer in every pool. */
  ghost predicate Anchored(lease: Lease, others: map<string, Lease>, networks: map<string, Network>,
      multiUsesSingle: bool, held: seq<Pool>, refs: seq<OwnerRef>, vlan: string, k: string)
    requires held != []
  {
    && k in PoolNetworks(held[0], networks)
    && NetworkRef(k) in refs
    && networks[k].vlan == vlan
    && (|held| > 1 ==> forall p :: p in held ==>
          OffersPortGroup(p, lease.spec.networkType, multiUsesSingle, networks, TableWith(others, lease, lease.refs),
              networks[k].portGroup))
  }

  /** State of the free choice after `idx` pools. */
  ghost predicate LockState(lease: Lease, others: map<string, Lease>, networks: map<string, Network>,
      multiUsesSingle: bool, held: seq<Pool>, refs: seq<OwnerRef>, vlans: set<string>, idx: nat)
    requires 0 < idx <= |held|
  {
    && |Owned(refs, PoolNetworks(held[0], networks).Keys)| == |vlans| <= lease.spec.networks
    && AllAnchored(lease, others, networks, multiUsesSingle, held, refs, vlans)
    && PoolsDone(lease, networks, held, refs, vlans, idx)
  }

  ghost predicate AllAnchored(lease: Lease, others: map<string, Lease>, networks: map<string, Network>,
      multiUsesSingle: bool, held: seq<Pool>, refs: seq<OwnerRef>, vlans: set<string>)
    requires held != []
  {
    forall v :: v in vlans ==> exists k :: Anchored(lease, others, networks, multiUsesSingle, held, refs, v, k)
  }

  ghost predicate PoolsDone(lease: Lease, networks: map<string, Network>, held: seq<Pool>, refs: seq<OwnerRef>,
      vlans: set<string>, idx: nat)
    requires idx <= |held|
  {
    forall j :: 1 <= j < idx ==> PoolDone(lease, networks, held[j], refs, vlans)
  }

  ghost predicate HasVlans(refs: seq<OwnerRef>, poolNetworks: map<string, Network>, vlans: set<string>) {
    forall v :: v in vlans ==> HasVlan(refs, poolNetworks, v)
  }

  ghost predicate PoolDone(lease: Lease, networks: map<string, Network>, pool: Pool, refs: seq<OwnerRef>,
      vlans: set<string>) {
    || |Owned(refs, PoolNetworks(pool, networks).Keys)| >= lease.spec.networks
    || HasVlans(refs, PoolNetworks(pool, networks), vlans)
  }

  lemma {:induction false} VlansCard(added: seq<Network>)
    requires forall i, j :: 0 <= i < j < |added| ==> added[i].vlan != added[j].vlan
    ensures |VlansOf(added)| == |added|
  {
    if added == [] {
      assert VlansOf(added) == {};
    } else {
      var k := |added| - 1;
      VlansCard(added[..k]);
      assert added == added[..k] + [added[k]];
      assert VlansOf(added) == VlansOf(added[..k]) + {added[k].vlan};
    }
  }

  /** A pool that has a network of each VLAN has at least that many networks. */
  lemma {:induction false} VlansNeedNetworks(refs: seq<OwnerRef>, poolNetworks: map<string, Network>,
      vlans: set<string>, used: set<string>)
    requires HasVlans(refs, poolNetworks, vlans)
    requires used <= Owned(refs, poolNetworks.Keys)
    requires forall k :: k in used ==> poolNetworks[k].vlan !in vlans
    ensures |Owned(refs, poolNetworks.Keys)| >= |used| + |vlans|
    decreases |vlans|
  {
    if vlans == {} {
      Combinations.CardMonotone(used, Owned(refs, poolNetworks.Keys));
    } else {
      var v :| v in vlans;
      var k :| k in poolNetworks && NetworkRef(k) in refs && poolNetworks[k].vlan == v;
      VlansNeedNetworks(refs, poolNetworks, vlans - {v}, used + {k});
    }
  }

  lemma LockStarts(lease: Lease, others: map<string, Lease>, networks: map<string, Network>, multiUsesSingle: bool,
      held: seq<Pool>, added: seq<Network>, refs': seq<OwnerRef>)
    requires held != [] && ValidTable(networks) && FreeChoice(lease, others, networks, held)
    requires Served(lease, others, lease.refs, networks, multiUsesSingle, held[0], added, refs')
    requires ApartInVlan(added)
    requires added == [] || |Owned(refs', PoolNetworks(held[0], networks).Keys)| <= lease.spec.networks
    requires |held| > 1 ==> forall n, p :: n in added && p in held ==>
               OffersPortGroup(p, lease.spec.networkType, multiUsesSingle, networks,
                   TableWith(others, lease, lease.refs), n.portGroup)
    ensures LockState(lease, others, networks, multiUsesSingle, held, refs', VlansOf(added), 1)
  {
    var poolNetworks := PoolNetworks(held[0], networks);
    assert Owned(lease.refs, poolNetworks.Keys) == {};
    assert held[0] in held;
    OneDatacenterApart(poolNetworks, added);
    VlansCard(added);
    AddedInRefs(lease.refs, added);
    forall v | v in VlansOf(added)
      ensures exists k :: Anchored(lease, others, networks, multiUsesSingle, held, refs', v, k)
    {
      var n :| n in added && n.vlan == v;
      assert Anchored(lease, others, networks, multiUsesSingle, held, refs', v, n.name);
    }
  }

  lemma AddedInRefs(refs: seq<OwnerRef>, added: seq<Network>)
    ensures forall n :: n in added ==> NetworkRef(n.name) in refs + NetworkRefsOf(added)
  {
    forall i | 0 <= i < |added| ensures NetworkRef(added[i].name) in refs + NetworkRefsOf(added) {
      assert (refs + NetworkRefsOf(added))[|refs| + i] == NetworkRef(added[i].name);
    }
  }

  /** Within one datacenter, networks that are apart differ in their VLAN. */
  lemma OneDatacenterApart(poolNetworks: map<string, Network>, added: seq<Network>)
    requires OneDatacenter(poolNetworks) && ApartInVlan(added) && forall n :: n in added ==> InTable(poolNetworks, n)
    ensures forall i, j :: 0 <= i < j < |added| ==> added[i].vlan != added[j].vlan
  {
    forall i, j | 0 <= i < j < |added| ensures added[i].vlan != added[j].vlan {
      assert added[i] in added && added[j] in added;
    }
  }

  lemma OwnedMonotone(refs: seq<OwnerRef>, refs': seq<OwnerRef>, names: set<string>)
    requires forall r :: r in refs ==> r in refs'
    ensures |Owned(refs, names)| <= |Owned(refs', names)|
  {
    Combinations.CardMonotone(Owned(refs, names), Owned(refs', names));
  }

  /** What is added for a later pool is not a network of the first pool: if the pools share
      networks, the first pool's choice already covers the VLAN there. */
  lemma LaterAddsAreElsewhere(lease: Lease, others: map<string, Lease>, networks: map<string, Network>,
      multiUsesSingle: bool, held: seq<Pool>, refs: seq<OwnerRef>, vlan: string, k: string, idx: nat, n: Network)
    requires 1 <= idx < |held| && ValidTable(networks) && FreeChoice(lease, others, networks, held)
    requires Anchored(lease, others, networks, multiUsesSingle, held, refs, vlan, k)
    requires n.vlan == vlan && InTable(networks, n) && InPool(held[idx], n)
    requires !Contains(refs, PoolNetworks(held[idx], networks), n.vlan, n.datacenter)
    ensures !InPool(held[0], n)
  {
    assert held[idx] in held;
    var m :| Offered(held[idx], lease.spec.networkType, multiUsesSingle, networks,
        TableWith(others, lease, lease.refs), m)
          && m.portGroup == networks[k].portGroup;
    assert m.name in PoolNetworks(held[idx], networks) && n.name in PoolNetworks(held[idx], networks);
    assert held[idx].pod == held[0].pod ==> m.name == k;
  }

  /** After the pool is served it has a network of the VLAN, if it has not enough anyway. */
  lemma VlanArrives(lease: Lease, others: map<string, Lease>, networks: map<string, Network>, multiUsesSingle: bool,
      held: seq<Pool>, refs: seq<OwnerRef>, vlans: set<string>, refs': seq<OwnerRef>, vlan: string, k: string, idx: nat)
    requires 1 <= idx < |held| && ValidTable(networks) && lease.name !in others
        && FreeChoice(lease, others, networks, held)
    requires forall r :: r in refs ==> r in refs'
    requires vlan in vlans && Anchored(lease, others, networks, multiUsesSingle, held, refs, vlan, k)
    requires exists x :: AllTaken(lease, others, refs, networks, multiUsesSingle, held[idx], None, Some(vlans),
        refs', x)
    ensures HasVlan(refs', PoolNetworks(held[idx], networks), vlan)
  {
    var pool := held[idx];
    assert pool in held;
    var m :| Offered(pool, lease.spec.networkType, multiUsesSingle, networks, TableWith(others, lease, lease.refs), m)
          && m.portGroup == networks[k].portGroup;
    assert m.vlan == vlan;
    FreeAmongOthers(others, lease, lease.refs, m.name);
    FreeAmongOthers(others, lease, refs, m.name);
    assert m.name in PoolNetworks(pool, networks);
    if NetworkRef(m.name) !in refs {
      var x :| AllTaken(lease, others, refs, networks, multiUsesSingle, held[idx], None, Some(vlans), refs', x);
      assert CandidateFor(others, lease, refs, networks, multiUsesSingle, pool, x, m);
    }
  }

  lemma LockContinues(lease: Lease, others: map<string, Lease>, networks: map<string, Network>, multiUsesSingle: bool,
      held: seq<Pool>, refs: seq<OwnerRef>, vlans: set<string>, idx: nat, refs': seq<OwnerRef>)
    requires 1 <= idx < |held| && ValidTable(networks) && lease.name !in others
        && FreeChoice(lease, others, networks, held)
    requires LockState(lease, others, networks, multiUsesSingle, held, refs, vlans, idx)
    requires forall r :: r in refs ==> r in refs'
    requires Owned(refs', PoolNetworks(held[0], networks).Keys) == Owned(refs, PoolNetworks(held[0], networks).Keys)
    requires WellServed(lease, others, refs, networks, multiUsesSingle, held[idx], None, Some(vlans), refs')
    ensures LockState(lease, others, networks, multiUsesSingle, held, refs', vlans, idx + 1)
  {
    AnchorsStay(lease, others, networks, multiUsesSingle, held, refs, refs', vlans);
    MatchedIsDone(lease, others, networks, multiUsesSingle, held, refs, vlans, idx, refs');
    DoneContinues(lease, networks, held, refs, refs', vlans, idx);
  }

  lemma DoneContinues(lease: Lease, networks: map<string, Network>, held: seq<Pool>, refs: seq<OwnerRef>,
      refs': seq<OwnerRef>, vlans: set<string>, idx: nat)
    requires idx < |held| && PoolsDone(lease, networks, held, refs, vlans, idx) && forall r :: r in refs ==> r in refs'
    requires PoolDone(lease, networks, held[idx], refs', vlans)
    ensures PoolsDone(lease, networks, held, refs', vlans, idx + 1)
  {
    forall j | 1 <= j < idx ensures PoolDone(lease, networks, held[j], refs', vlans) {
      DoneStaysDone(lease, networks, held[j], refs, refs', vlans);
    }
  }

  lemma MatchedIsDone(lease: Lease, others: map<string, Lease>, networks: map<string, Network>, multiUsesSingle: bool,
      held: seq<Pool>, refs: seq<OwnerRef>, vlans: set<string>, idx: nat, refs': seq<OwnerRef>)
    requires 1 <= idx < |held| && ValidTable(networks) && lease.name !in others
        && FreeChoice(lease, others, networks, held)
    requires forall r :: r in refs ==> r in refs'
    requires AllAnchored(lease, others, networks, multiUsesSingle, held, refs, vlans)
    requires WellServed(lease, others, refs, networks, multiUsesSingle, held[idx], None, Some(vlans), refs')
    ensures PoolDone(lease, networks, held[idx], refs', vlans)
  {
    if |Owned(refs', PoolNetworks(held[idx], networks).Keys)| < lease.spec.networks {
      forall v | v in vlans ensures HasVlan(refs', PoolNetworks(held[idx], networks), v) {
        var k :| Anchored(lease, others, networks, multiUsesSingle, held, refs, v, k);
        VlanArrives(lease, others, networks, multiUsesSingle, held, refs, vlans, refs', v, k, idx);
      }
    }
  }

  lemma AnchorsStay(lease: Lease, others: map<string, Lease>, networks: map<string, Network>, multiUsesSingle: bool,
      held: seq<Pool>, refs: seq<OwnerRef>, refs': seq<OwnerRef>, vlans: set<string>)
    requires held != [] && forall r :: r in refs ==> r in refs'
    requires AllAnchored(lease, others, networks, multiUsesSingle, held, refs, vlans)
    ensures AllAnchored(lease, others, networks, multiUsesSingle, held, refs', vlans)
  {
    forall v | v in vlans ensures exists k :: Anchored(lease, others, networks, multiUsesSingle, held, refs', v, k) {
      var k :| Anchored(lease, others, networks, multiUsesSingle, held, refs, v, k);
      assert Anchored(lease, others, networks, multiUsesSingle, held, refs', v, k);
    }
  }

  lemma DoneStaysDone(lease: Lease, networks: map<string, Network>, pool: Pool, refs: seq<OwnerRef>,
      refs': seq<OwnerRef>, vlans: set<string>)
    requires PoolDone(lease, networks, pool, refs, vlans) && forall r :: r in refs ==> r in refs'
    ensures PoolDone(lease, networks, pool, refs', vlans)
  {
    OwnedMonotone(refs, refs', PoolNetworks(pool, networks).Keys);
    if HasVlans(refs, PoolNetworks(pool, networks), vlans) {
      forall v | v in vlans ensures HasVlan(refs', PoolNetworks(pool, networks), v) {
        assert HasVlan(refs, PoolNetworks(pool, networks), v);
      }
    }
  }

  lemma FirstPoolUntouched(lease: Lease, others: map<string, Lease>, networks: map<string, Network>,
      multiUsesSingle: bool, held: seq<Pool>, refs: seq<OwnerRef>, vlans: set<string>, idx: nat, added: seq<Network>,
      refs': seq<OwnerRef>)
    requires 1 <= idx < |held| && ValidTable(networks) && FreeChoice(lease, others, networks, held)
    requires LockState(lease, others, networks, multiUsesSingle, held, refs, vlans, idx)
    requires Served(lease, others, refs, networks, multiUsesSingle, held[idx], added, refs')
    requires forall n :: n in added ==> n.vlan in vlans
    ensures Owned(refs', PoolNetworks(held[0], networks).Keys) == Owned(refs, PoolNetworks(held[0], networks).Keys)
  {
    forall n | n in added ensures n.name !in PoolNetworks(held[0], networks) {
      AddIsElsewhere(lease, others, networks, multiUsesSingle, held, refs, vlans, idx, n);
    }
    OwnedElsewhere(refs, PoolNetworks(held[0], networks).Keys, added);
  }

  lemma AddIsElsewhere(lease: Lease, others: map<string, Lease>, networks: map<string, Network>, multiUsesSingle: bool,
      held: seq<Pool>, refs: seq<OwnerRef>, vlans: set<string>, idx: nat, n: Network)
    requires 1 <= idx < |held| && ValidTable(networks) && FreeChoice(lease, others, networks, held)
    requires AllAnchored(lease, others, networks, multiUsesSingle, held, refs, vlans)
    requires n.vlan in vlans && InTable(PoolNetworks(held[idx], networks), n)
    requires !Contains(refs, PoolNetworks(held[idx], networks), n.vlan, n.datacenter)
    ensures n.name !in PoolNetworks(held[0], networks)
  {
    var k :| Anchored(lease, others, networks, multiUsesSingle, held, refs, n.vlan, k);
    LaterAddsAreElsewhere(lease, others, networks, multiUsesSingle, held, refs, n.vlan, k, idx, n);
  }

  lemma LockEnds(lease: Lease, others: map<string, Lease>, networks: map<string, Network>, multiUsesSingle: bool,
      held: seq<Pool>, refs: seq<OwnerRef>, vlans: set<string>)
    requires held != [] && LockState(lease, others, networks, multiUsesSingle, held, refs, vlans, |held|)
    ensures InStep(networks, held, refs)
  {
    forall p | p in held
      ensures |Owned(refs, PoolNetworks(p, networks).Keys)| >= |Owned(refs, PoolNetworks(held[0], networks).Keys)|
    {
      var j :| 0 <= j < |held| && held[j] == p;
      if j > 0 {
        assert PoolDone(lease, networks, held[j], refs, vlans);
        if HasVlans(refs, PoolNetworks(p, networks), vlans) {
          VlansNeedNetworks(refs, PoolNetworks(p, networks), vlans, {});
        }
      }
    }
  }

  // ---- The loop ----------------------------------------------------------------------------

  /** Where a free choice has to be shared, the port group is on offer in every pool concerned. */
  ghost predicate Common(lease: Lease, others: map<string, Lease>, networks: map<string, Network>,
      multiUsesSingle: bool, held: seq<Pool>, siblings: set<Pool>, portGroup: string) {
    |held| > 1 || siblings != {} ==>
      forall p :: p in ToSet(held) + siblings ==>
        OffersPortGroup(p, lease.spec.networkType, multiUsesSingle, networks, TableWith(others, lease, lease.refs),
            portGroup)
  }

  ghost predicate OwnsVlan(networks: map<string, Network>, refs: seq<OwnerRef>, vlan: string) {
    vlan != "" && exists k :: k in networks && NetworkRef(k) in refs && networks[k].vlan == vlan
  }

  /** In the end pool `j` was left no candidate: the first pool has a network of the VLAN and datacenter of
      every common candidate, a later one of the VLAN of every candidate of a VLAN the lease owns. */
  ghost predicate NoneLeft(lease: Lease, others: map<string, Lease>, networks: map<string, Network>,
      multiUsesSingle: bool, held: seq<Pool>, siblings: set<Pool>, j: nat, refs: seq<OwnerRef>, k: string)
    requires j < |held|
  {
    && (HasNetworkedSibling(others, lease, networks) ==> NetworkedSibling(others, lease, networks, k))
    && forall n ::
         (&& CandidateFor(others, lease, refs, networks, multiUsesSingle, held[j], k, n)
          && (j == 0 && !HasNetworkedSibling(others, lease, networks) ==>
              Common(lease, others, networks, multiUsesSingle, held, siblings, n.portGroup))
          && (j > 0 ==> OwnsVlan(networks, refs, n.vlan))) ==>
         && HasVlan(refs, PoolNetworks(held[j], networks), n.vlan)
         && (j == 0 ==> HasVlanIn(refs, PoolNetworks(held[j], networks), n.vlan, n.datacenter))
  }

  /** A pool falls short of its networks only if it was left no candidate. */
  ghost predicate NothingMissed(lease: Lease, others: map<string, Lease>, networks: map<string, Network>,
      multiUsesSingle: bool, held: seq<Pool>, siblings: set<Pool>, refs: seq<OwnerRef>, upTo: nat) {
    forall j :: 0 <= j < upTo && j < |held| ==>
      || |Owned(refs, PoolNetworks(held[j], networks).Keys)| >= lease.spec.networks
      || exists k :: NoneLeft(lease, others, networks, multiUsesSingle, held, siblings, j, refs, k)
  }

  /** No network of the table lies in two of the pools. */
  ghost predicate Apart(networks: map<string, Network>, held: seq<Pool>) {
    forall i, j, n :: 0 <= i < j < |held| && n in networks ==>
        !(InPool(held[i], networks[n]) && InPool(held[j], networks[n]))
  }

  /** A pool gets no more networks than the lease asks for, unless it had more already. */
  ghost predicate NoExcess(lease: Lease, networks: map<string, Network>, held: seq<Pool>, refs: seq<OwnerRef>) {
    forall p :: p in held ==>
      || |Owned(refs, PoolNetworks(p, networks).Keys)| <= lease.spec.networks
      || |Owned(refs, PoolNetworks(p, networks).Keys)| <= |Owned(lease.refs, PoolNetworks(p, networks).Keys)|
  }

  /** In each pool the networks of the lease differ in VLAN or datacenter. */
  ghost predicate VlansApart(networks: map<string, Network>, held: seq<Pool>, refs: seq<OwnerRef>) {
    forall p :: p in held ==> PoolVlansApart(networks, p, refs)
  }

  ghost predicate PoolVlansApart(networks: map<string, Network>, p: Pool, refs: seq<OwnerRef>) {
    var owned := Owned(refs, PoolNetworks(p, networks).Keys);
    forall a, b :: a in owned && b in owned && a != b ==>
      networks[a].vlan != networks[b].vlan || networks[a].datacenter != networks[b].datacenter
  }

  /** What becomes of pools without common networks: none gets too many, and none gets a VLAN twice. */
  ghost predicate Tidy(lease: Lease, networks: map<string, Network>, held: seq<Pool>, refs: seq<OwnerRef>) {
    && NoExcess(lease, networks, held, refs)
    && (VlansApart(networks, held, lease.refs) ==> VlansApart(networks, held, refs))
  }

  /** The first pool has all its networks before the loop starts. */
  ghost predicate FirstIsFull(lease: Lease, networks: map<string, Network>, held: seq<Pool>) {
    held != [] && |Owned(lease.refs, PoolNetworks(held[0], networks).Keys)| >= lease.spec.networks
  }

  /** Every one of the pools offers a network of the port group. */
  ghost predicate OfferedByAll(lease: Lease, others: map<string, Lease>, networks: map<string, Network>,
      multiUsesSingle: bool, pools: set<Pool>, portGroup: string) {
    forall p :: p in pools ==>
      OffersPortGroup(p, lease.spec.networkType, multiUsesSingle, networks, TableWith(others, lease, lease.refs),
          portGroup)
  }

  /** The first `first` networks were taken for the first pool, and unless a sibling binds the lease
      each is of a port group that every pool concerned offers, those of siblings included; the rest
      follows the VLANs of these and of the networks that the lease had. */
  ghost predicate LedBy(lease: Lease, others: map<string, Lease>, networks: map<string, Network>, multiUsesSingle: bool,
      held: seq<Pool>, siblings: set<Pool>, adds: seq<Network>, first: nat)
  {
    && first <= |adds| && held != []
    && (|held| == 1 ==> first == |adds|)
    && (forall n :: n in adds[..first] ==> InPool(held[0], n))
    && (!HasNetworkedSibling(others, lease, networks) ==>
          forall n :: n in adds[..first] ==>
            OfferedByAll(lease, others, networks, multiUsesSingle, ToSet(held) + siblings, n.portGroup))
    && forall n :: n in adds[first..] ==> FollowsVlan(networks, lease.refs, adds[..first], n.vlan)
  }

  ghost predicate FollowsVlan(networks: map<string, Network>, refs: seq<OwnerRef>, leading: seq<Network>,
      vlan: string) {
    OwnsVlan(networks, refs, vlan) || vlan in VlansOf(leading)
  }

  /** What the network loop guarantees, whatever the orders and shuffles were. */
  ghost predicate NetworkLoopSpec(lease: Lease, others: map<string, Lease>, networks: map<string, Network>,
      multiUsesSingle: bool, held: seq<Pool>, siblings: set<Pool>, adds: seq<Network>) {
    && SafeAdds(lease, others, networks, multiUsesSingle, held, adds)
    && NothingMissed(lease, others, networks, multiUsesSingle, held, siblings, lease.refs + NetworkRefsOf(adds), |held|)
    && (FreeChoice(lease, others, networks, held) ==> InStep(networks, held, lease.refs + NetworkRefsOf(adds)))
    && (Apart(networks, held) ==> Tidy(lease, networks, held, lease.refs + NetworkRefsOf(adds)))
    && (FirstIsFull(lease, networks, held) ==> exists vlans :: KeepsOwned(networks, lease.refs, adds, vlans))
    && exists first :: LedBy(lease, others, networks, multiUsesSingle, held, siblings, adds, first)
  }

  /** What was enough for a pool when it was served still is when the lease has more. */
  lemma ServedFirstIsFinal(lease: Lease, others: map<string, Lease>, networks: map<string, Network>,
      multiUsesSingle: bool, held: seq<Pool>, siblings: set<Pool>, restrict: Option<set<string>>, refs: seq<OwnerRef>)
    requires held != [] && lease.name !in others && forall r :: r in lease.refs ==> r in refs
    requires WellServed(lease, others, lease.refs, networks, multiUsesSingle, held[0], restrict, None, refs)
    requires restrict.Some? ==> forall g :: Common(lease, others, networks, multiUsesSingle, held, siblings, g) ==>
        g in restrict.value
    ensures NothingMissed(lease, others, networks, multiUsesSingle, held, siblings, refs, 1)
  {
    if |Owned(refs, PoolNetworks(held[0], networks).Keys)| < lease.spec.networks {
      var k :| AllTaken(lease, others, lease.refs, networks, multiUsesSingle, held[0], restrict, None, refs, k);
      forall n | CandidateFor(others, lease, refs, networks, multiUsesSingle, held[0], k, n)
        ensures CandidateFor(others, lease, lease.refs, networks, multiUsesSingle, held[0], k, n)
      {
        FewerCandidates(others, lease, lease.refs, refs, networks, multiUsesSingle, held[0], k, n);
      }
      assert NoneLeft(lease, others, networks, multiUsesSingle, held, siblings, 0, refs, k);
    }
  }

  lemma ServedLaterIsFinal(lease: Lease, others: map<string, Lease>, networks: map<string, Network>,
      multiUsesSingle: bool, held: seq<Pool>, siblings: set<Pool>, idx: nat, refs: seq<OwnerRef>, vlans: set<string>,
      refs': seq<OwnerRef>)
    requires 0 < idx < |held| && lease.name !in others && forall r :: r in refs ==> r in refs'
    requires WellServed(lease, others, refs, networks, multiUsesSingle, held[idx], None, Some(vlans), refs')
    requires forall v :: OwnsVlan(networks, refs', v) ==> v in vlans
    ensures || |Owned(refs', PoolNetworks(held[idx], networks).Keys)| >= lease.spec.networks
            || exists k :: NoneLeft(lease, others, networks, multiUsesSingle, held, siblings, idx, refs', k)
  {
    if |Owned(refs', PoolNetworks(held[idx], networks).Keys)| < lease.spec.networks {
      var k :| AllTaken(lease, others, refs, networks, multiUsesSingle, held[idx], None, Some(vlans), refs', k);
      forall n | CandidateFor(others, lease, refs', networks, multiUsesSingle, held[idx], k, n)
        ensures CandidateFor(others, lease, refs, networks, multiUsesSingle, held[idx], k, n)
      {
        FewerCandidates(others, lease, refs, refs', networks, multiUsesSingle, held[idx], k, n);
      }
      assert NoneLeft(lease, others, networks, multiUsesSingle, held, siblings, idx, refs', k);
    }
  }

  lemma NoneLeftStays(lease: Lease, others: map<string, Lease>, networks: map<string, Network>, multiUsesSingle: bool,
      held: seq<Pool>, siblings: set<Pool>, j: nat, refs: seq<OwnerRef>, refs': seq<OwnerRef>, k: string)
    requires j < |held| && lease.name !in others && forall r :: r in refs ==> r in refs'
    requires NoneLeft(lease, others, networks, multiUsesSingle, held, siblings, j, refs, k)
    requires forall v :: OwnsVlan(networks, refs', v) ==> OwnsVlan(networks, refs, v)
    ensures NoneLeft(lease, others, networks, multiUsesSingle, held, siblings, j, refs', k)
  {
    forall n | CandidateFor(others, lease, refs', networks, multiUsesSingle, held[j], k, n)
      ensures CandidateFor(others, lease, refs, networks, multiUsesSingle, held[j], k, n)
    {
      FewerCandidates(others, lease, refs, refs', networks, multiUsesSingle, held[j], k, n);
    }
    assert forall v :: HasVlan(refs, PoolNetworks(held[j], networks), v) ==>
        HasVlan(refs', PoolNetworks(held[j], networks), v);
    assert forall v, d :: HasVlanIn(refs, PoolNetworks(held[j], networks), v, d) ==>
        HasVlanIn(refs', PoolNetworks(held[j], networks), v, d);
  }

  lemma MissedStays(lease: Lease, others: map<string, Lease>, networks: map<string, Network>, multiUsesSingle: bool,
      held: seq<Pool>, siblings: set<Pool>, idx: nat, refs: seq<OwnerRef>, refs': seq<OwnerRef>)
    requires idx < |held| && lease.name !in others && forall r :: r in refs ==> r in refs'
    requires NothingMissed(lease, others, networks, multiUsesSingle, held, siblings, refs, idx)
    requires forall v :: OwnsVlan(networks, refs', v) ==> OwnsVlan(networks, refs, v)
    requires || |Owned(refs', PoolNetworks(held[idx], networks).Keys)| >= lease.spec.networks
             || exists k :: NoneLeft(lease, others, networks, multiUsesSingle, held, siblings, idx, refs', k)
    ensures NothingMissed(lease, others, networks, multiUsesSingle, held, siblings, refs', idx + 1)
  {
    forall j | 0 <= j < idx
      ensures || |Owned(refs', PoolNetworks(held[j], networks).Keys)| >= lease.spec.networks
              || exists k :: NoneLeft(lease, others, networks, multiUsesSingle, held, siblings, j, refs', k)
    {
      OwnedMonotone(refs, refs', PoolNetworks(held[j], networks).Keys);
      if |Owned(refs, PoolNetworks(held[j], networks).Keys)| < lease.spec.networks {
        var k :| NoneLeft(lease, others, networks, multiUsesSingle, held, siblings, j, refs, k);
        NoneLeftStays(lease, others, networks, multiUsesSingle, held, siblings, j, refs, refs', k);
      }
    }
  }

  /** The VLANs that the lease owns, as the loop keeps track of them. */
  ghost predicate Tracks(networks: map<string, Network>, refs: seq<OwnerRef>, vlans: set<string>) {
    forall v :: OwnsVlan(networks, refs, v) <==> v != "" && v in vlans
  }

  lemma TracksMore(networks: map<string, Network>, refs: seq<OwnerRef>, vlans: set<string>, added: seq<Network>)
    requires Tracks(networks, refs, vlans) && forall n :: n in added ==> InTable(networks, n)
    ensures Tracks(networks, refs + NetworkRefsOf(added), vlans + VlansOf(added))
  {
    var refs' := refs + NetworkRefsOf(added);
    forall v | v != "" && v in vlans + VlansOf(added) ensures OwnsVlan(networks, refs', v) {
      if v in VlansOf(added) {
        var n :| n in added && n.vlan == v;
        var i :| 0 <= i < |added| && added[i] == n;
        assert refs'[|refs| + i] == NetworkRef(n.name);
        assert n.name in networks && NetworkRef(n.name) in refs' && networks[n.name].vlan == v;
      } else {
        var k :| k in networks && NetworkRef(k) in refs && networks[k].vlan == v;
        assert NetworkRef(k) in refs';
      }
    }
    forall k | NetworkRef(k) in NetworkRefsOf(added) ensures k in networks && networks[k].vlan in VlansOf(added) {
      var i :| 0 <= i < |added| && NetworkRefsOf(added)[i] == NetworkRef(k);
      assert added[i] in added;
    }
  }

  /** The VLANs of the networks the lease owns already. */
  method ExistingVlans(lease: Lease, networks: map<string, Network>) returns (vlans: set<string>)
    requires ValidTable(networks)
    ensures forall v :: v in vlans <==> OwnsVlan(networks, lease.refs, v)
  {
    vlans := set r | r in lease.refs && r.NetworkRef? && r.name in networks
        && networks[r.name].vlan != "" :: networks[r.name].vlan;
    forall k | k in networks && NetworkRef(k) in lease.refs && networks[k].vlan != ""
      ensures networks[k].vlan in vlans {
      assert NetworkRef(k).name == k;
    }
  }

  method Restriction(lease: Lease, others: map<string, Lease>, networks: map<string, Network>, multiUsesSingle: bool,
      held: seq<Pool>, siblingPools: seq<Pool>)
    returns (restrict: Option<set<string>>)
    requires ValidTable(networks) && held != []
    ensures restrict.Some? <==> |held| > 1 || siblingPools != []
    ensures restrict.Some? ==> forall g :: g in restrict.value <==>
        Common(lease, others, networks, multiUsesSingle, held, ToSet(siblingPools), g)
  {
    var commonalityPools := held + siblingPools;
    if |commonalityPools| <= 1 {
      return None;
    }
    assert siblingPools != [] ==> siblingPools[0] in ToSet(siblingPools);
    assert forall p :: p in commonalityPools <==> p in ToSet(held) + ToSet(siblingPools);
    var common := CommonPortGroupNames(commonalityPools, lease.spec.networkType, multiUsesSingle, networks,
        TableWith(others, lease, lease.refs));
    return Some(common);
  }

  /** What holds after `idx` pools have been served. */
  ghost predicate ServedSoFar(lease: Lease, others: map<string, Lease>, networks: map<string, Network>,
      multiUsesSingle: bool, held: seq<Pool>, siblings: set<Pool>, adds: seq<Network>, refs: seq<OwnerRef>,
      vlans: set<string>, idx: nat)
    requires 0 < idx <= |held|
  {
    && refs == lease.refs + NetworkRefsOf(adds)
    && SafeAdds(lease, others, networks, multiUsesSingle, held, adds)
    && Tracks(networks, refs, vlans)
    && NothingMissed(lease, others, networks, multiUsesSingle, held, siblings, refs, idx)
    && (FreeChoice(lease, others, networks, held) ==>
          LockState(lease, others, networks, multiUsesSingle, held, refs, vlans, idx))
    && (Apart(networks, held) ==> Tidy(lease, networks, held, refs))
    && (FirstIsFull(lease, networks, held) ==> KeepsOwned(networks, lease.refs, adds, vlans))
    && exists first :: LedSoFar(lease, others, networks, multiUsesSingle, held, siblings, adds, vlans, first)
  }

  /** The VLANs to be followed are those the lease had and those taken for the first pool. */
  ghost predicate LedSoFar(lease: Lease, others: map<string, Lease>, networks: map<string, Network>,
      multiUsesSingle: bool, held: seq<Pool>, siblings: set<Pool>, adds: seq<Network>, vlans: set<string>, first: nat) {
    && LedBy(lease, others, networks, multiUsesSingle, held, siblings, adds, first)
    && forall v :: v in vlans ==> FollowsVlan(networks, lease.refs, adds[..first], v)
  }

  /** What is taken for the first pool is on offer there, and, being restricted to what all offer, in
      every other pool. */
  lemma FirstIsOfferedByAll(lease: Lease, others: map<string, Lease>, networks: map<string, Network>,
      multiUsesSingle: bool, held: seq<Pool>, siblings: set<Pool>, restrict: Option<set<string>>, adds: seq<Network>,
      refs: seq<OwnerRef>, n: Network)
    requires held != [] && lease.name !in others && !HasNetworkedSibling(others, lease, networks) && n in adds
    requires |held| > 1 || siblings != {} ==> restrict.Some? && n.portGroup in restrict.value
    requires restrict.Some? ==>
               forall g :: g in restrict.value <==> Common(lease, others, networks, multiUsesSingle, held, siblings, g)
    requires Served(lease, others, lease.refs, networks, multiUsesSingle, held[0], adds, refs)
    ensures OfferedByAll(lease, others, networks, multiUsesSingle, ToSet(held) + siblings, n.portGroup)
  {
    if |held| > 1 || siblings != {} {
      assert Common(lease, others, networks, multiUsesSingle, held, siblings, n.portGroup);
    } else {
      assert ToSet(held) + siblings == {held[0]};
      FreeAmongOthers(others, lease, lease.refs, n.name);
      assert Offered(held[0], lease.spec.networkType, multiUsesSingle, networks, TableWith(others, lease, lease.refs),
          n);
    }
  }

  lemma FirstLeads(lease: Lease, others: map<string, Lease>, networks: map<string, Network>, multiUsesSingle: bool,
      held: seq<Pool>, siblings: set<Pool>, restrict: Option<set<string>>, existing: set<string>, adds: seq<Network>,
      refs: seq<OwnerRef>)
    requires held != [] && lease.name !in others
    requires forall v :: v in existing <==> OwnsVlan(networks, lease.refs, v)
    requires |held| > 1 || siblings != {} ==> restrict.Some?
    requires restrict.Some? ==>
               forall g :: g in restrict.value <==> Common(lease, others, networks, multiUsesSingle, held, siblings, g)
    requires Served(lease, others, lease.refs, networks, multiUsesSingle, held[0], adds, refs)
    requires !HasNetworkedSibling(others, lease, networks) && restrict.Some? ==>
               forall n :: n in adds ==> n.portGroup in restrict.value
    ensures LedSoFar(lease, others, networks, multiUsesSingle, held, siblings, adds, existing + VlansOf(adds), |adds|)
  {
    assert adds[..|adds|] == adds && adds[|adds|..] == [];
    if !HasNetworkedSibling(others, lease, networks) {
      forall n | n in adds
        ensures OfferedByAll(lease, others, networks, multiUsesSingle, ToSet(held) + siblings, n.portGroup)
      {
        FirstIsOfferedByAll(lease, others, networks, multiUsesSingle, held, siblings, restrict, adds, refs, n);
      }
    }
  }

  lemma NextFollows(lease: Lease, others: map<string, Lease>, networks: map<string, Network>, multiUsesSingle: bool,
      held: seq<Pool>, siblings: set<Pool>, adds: seq<Network>, vlans: set<string>, first: nat, added: seq<Network>)
    requires LedSoFar(lease, others, networks, multiUsesSingle, held, siblings, adds, vlans, first) && |held| > 1
    requires forall n :: n in added ==> n.vlan in vlans
    ensures LedSoFar(lease, others, networks, multiUsesSingle, held, siblings, adds + added, vlans, first)
  {
    assert (adds + added)[..first] == adds[..first];
    assert (adds + added)[first..] == adds[first..] + added;
  }

  /** Nothing but VLANs that the lease owns already is used. */
  ghost predicate KeepsOwned(networks: map<string, Network>, refs: seq<OwnerRef>, adds: seq<Network>,
      vlans: set<string>) {
    && (forall v :: v in vlans ==> OwnsVlan(networks, refs, v))
    && (forall n :: n in adds ==> n.vlan in vlans)
  }

  /** Assigns networks pool by pool: freely for the first pool, matching its VLANs for the others. */
  method AssignNetworks(lease: Lease, others: map<string, Lease>, networks: map<string, Network>, multiUsesSingle: bool,
      held: seq<Pool>, siblingPools: seq<Pool>)
    returns (adds: seq<Network>, refs: seq<OwnerRef>)
    requires ValidTable(networks) && lease.name !in others && DistinctRefs(lease.refs) && held != []
    ensures refs == lease.refs + NetworkRefsOf(adds)
    ensures NetworkLoopSpec(lease, others, networks, multiUsesSingle, held, ToSet(siblingPools), adds)
  {
    var vlans;
    adds, refs, vlans := StartWithFirstPool(lease, others, networks, multiUsesSingle, held, siblingPools);
    for idx := 1 to |held|
      invariant ServedSoFar(lease, others, networks, multiUsesSingle, held, ToSet(siblingPools), adds, refs, vlans, idx)
    {
      var added, refs' := ServeLaterPool(lease, others, refs, networks, multiUsesSingle, held[idx], vlans);
      ServedNext(lease, others, networks, multiUsesSingle, held, ToSet(siblingPools), adds, refs, vlans, idx, added,
          refs');
      adds, refs := adds + added, refs';
    }
    AllServed(lease, others, networks, multiUsesSingle, held, ToSet(siblingPools), adds, refs, vlans);
  }

  lemma AllServed(lease: Lease, others: map<string, Lease>, networks: map<string, Network>, multiUsesSingle: bool,
      held: seq<Pool>, siblings: set<Pool>, adds: seq<Network>, refs: seq<OwnerRef>, vlans: set<string>)
    requires held != []
    requires ServedSoFar(lease, others, networks, multiUsesSingle, held, siblings, adds, refs, vlans, |held|)
    ensures refs == lease.refs + NetworkRefsOf(adds)
    ensures NetworkLoopSpec(lease, others, networks, multiUsesSingle, held, siblings, adds)
  {
    if FreeChoice(lease, others, networks, held) {
      LockEnds(lease, others, networks, multiUsesSingle, held, refs, vlans);
    }
  }

  /** The first pool, from the port groups that all pools concerned can offer. */
  method StartWithFirstPool(lease: Lease, others: map<string, Lease>, networks: map<string, Network>,
      multiUsesSingle: bool, held: seq<Pool>, siblingPools: seq<Pool>)
    returns (adds: seq<Network>, refs: seq<OwnerRef>, vlans: set<string>)
    requires ValidTable(networks) && lease.name !in others && DistinctRefs(lease.refs) && held != []
    ensures ServedSoFar(lease, others, networks, multiUsesSingle, held, ToSet(siblingPools), adds, refs, vlans, 1)
  {
    var existing := ExistingVlans(lease, networks);
    var restrict := Restriction(lease, others, networks, multiUsesSingle, held, siblingPools);
    adds, refs, vlans := ServeFirstPool(lease, others, networks, multiUsesSingle, held[0], restrict, existing);
    ServedFirst(lease, others, networks, multiUsesSingle, held, ToSet(siblingPools), restrict, existing, adds, refs);
  }

  lemma ServedFirst(lease: Lease, others: map<string, Lease>, networks: map<string, Network>, multiUsesSingle: bool,
      held: seq<Pool>, siblings: set<Pool>, restrict: Option<set<string>>, existing: set<string>, adds: seq<Network>,
      refs: seq<OwnerRef>)
    requires ValidTable(networks) && lease.name !in others && DistinctRefs(lease.refs) && held != []
    requires forall v :: v in existing <==> OwnsVlan(networks, lease.refs, v)
    requires |held| > 1 || siblings != {} ==> restrict.Some?
    requires restrict.Some? ==>
               forall g :: g in restrict.value <==> Common(lease, others, networks, multiUsesSingle, held, siblings, g)
    requires Served(lease, others, lease.refs, networks, multiUsesSingle, held[0], adds, refs) && ApartInVlan(adds)
    requires FirstIsFull(lease, networks, held) ==> adds == []
    requires adds == [] || |Owned(refs, PoolNetworks(held[0], networks).Keys)| <= lease.spec.networks
    requires !HasNetworkedSibling(others, lease, networks) && restrict.Some? ==>
               forall n :: n in adds ==> n.portGroup in restrict.value
    requires WellServed(lease, others, lease.refs, networks, multiUsesSingle, held[0], restrict, None, refs)
    ensures ServedSoFar(lease, others, networks, multiUsesSingle, held, siblings, adds, refs,
        existing + VlansOf(adds), 1)
  {
    assert lease.refs + NetworkRefsOf([]) == lease.refs && [] + adds == adds;
    ServedIsSafe(lease, others, networks, multiUsesSingle, held, [], held[0], adds, refs);
    if FreeChoice(lease, others, networks, held) {
      NothingOwned(networks, lease.refs);
      assert existing + VlansOf(adds) == VlansOf(adds);
      RestrictedLockStarts(lease, others, networks, multiUsesSingle, held, siblings, restrict, adds, refs);
    }
    ServedFirstIsFinal(lease, others, networks, multiUsesSingle, held, siblings, restrict, refs);
    if Apart(networks, held) {
      ServedStaysTidy(lease, others, networks, multiUsesSingle, held, lease.refs, 0, adds, refs);
    }
    TracksMore(networks, lease.refs, existing, adds);
    FirstLeads(lease, others, networks, multiUsesSingle, held, siblings, restrict, existing, adds, refs);
  }

  lemma NothingOwned(networks: map<string, Network>, refs: seq<OwnerRef>)
    requires NoNetworks(refs)
    ensures forall v :: !OwnsVlan(networks, refs, v)
  {
  }

  /** The restriction to common port groups is what lets the other pools follow. */
  lemma RestrictedLockStarts(lease: Lease, others: map<string, Lease>, networks: map<string, Network>,
      multiUsesSingle: bool, held: seq<Pool>, siblings: set<Pool>, restrict: Option<set<string>>, added: seq<Network>,
      refs': seq<OwnerRef>)
    requires held != [] && ValidTable(networks) && FreeChoice(lease, others, networks, held)
    requires Served(lease, others, lease.refs, networks, multiUsesSingle, held[0], added, refs') && ApartInVlan(added)
    requires added == [] || |Owned(refs', PoolNetworks(held[0], networks).Keys)| <= lease.spec.networks
    requires |held| > 1 ==> restrict.Some?
    requires restrict.Some? ==> forall n :: n in added ==> n.portGroup in restrict.value
    requires restrict.Some? ==>
               forall g :: g in restrict.value <==> Common(lease, others, networks, multiUsesSingle, held, siblings, g)
    ensures LockState(lease, others, networks, multiUsesSingle, held, refs', VlansOf(added), 1)
  {
    if |held| > 1 {
      forall n, p | n in added && p in held
        ensures OffersPortGroup(p, lease.spec.networkType, multiUsesSingle, networks,
            TableWith(others, lease, lease.refs), n.portGroup)
      {
        assert Common(lease, others, networks, multiUsesSingle, held, siblings, n.portGroup);
        assert p in ToSet(held) + siblings;
      }
    }
    LockStarts(lease, others, networks, multiUsesSingle, held, added, refs');
  }

  lemma ServedNext(lease: Lease, others: map<string, Lease>, networks: map<string, Network>, multiUsesSingle: bool,
      held: seq<Pool>, siblings: set<Pool>, adds: seq<Network>, refs: seq<OwnerRef>, vlans: set<string>, idx: nat,
      added: seq<Network>, refs': seq<OwnerRef>)
    requires 1 <= idx < |held| && ValidTable(networks) && lease.name !in others
    requires ServedSoFar(lease, others, networks, multiUsesSingle, held, siblings, adds, refs, vlans, idx)
    requires Served(lease, others, refs, networks, multiUsesSingle, held[idx], added, refs')
    requires ApartInVlan(added) && forall n :: n in added ==> n.vlan in vlans
    requires added == [] || |Owned(refs', PoolNetworks(held[idx], networks).Keys)| <= lease.spec.networks
    requires WellServed(lease, others, refs, networks, multiUsesSingle, held[idx], None, Some(vlans), refs')
    ensures ServedSoFar(lease, others, networks, multiUsesSingle, held, siblings, adds + added, refs', vlans, idx + 1)
  {
    ServedIsSafe(lease, others, networks, multiUsesSingle, held, adds, held[idx], added, refs');
    if FreeChoice(lease, others, networks, held) {
      ServedKeepsLock(lease, others, networks, multiUsesSingle, held, refs, vlans, idx, added, refs');
    }
    ServedKeepsServed(lease, others, networks, multiUsesSingle, held, siblings, refs, vlans, idx, added, refs');
    if Apart(networks, held) {
      ServedStaysTidy(lease, others, networks, multiUsesSingle, held, refs, idx, added, refs');
    }
    var first :| LedSoFar(lease, others, networks, multiUsesSingle, held, siblings, adds, vlans, first);
    NextFollows(lease, others, networks, multiUsesSingle, held, siblings, adds, vlans, first, added);
  }

  /** In pools without common networks, serving one does not change the others. */
  lemma OthersUnchanged(lease: Lease, others: map<string, Lease>, networks: map<string, Network>, multiUsesSingle: bool,
      held: seq<Pool>, refs: seq<OwnerRef>, idx: nat, added: seq<Network>, refs': seq<OwnerRef>, j: nat)
    requires idx < |held| && j < |held| && Apart(networks, held)
    requires Served(lease, others, refs, networks, multiUsesSingle, held[idx], added, refs')
    requires j != idx || added == []
    ensures Owned(refs', PoolNetworks(held[j], networks).Keys) == Owned(refs, PoolNetworks(held[j], networks).Keys)
  {
    OwnedElsewhere(refs, PoolNetworks(held[j], networks).Keys, added);
  }

  lemma ServedStaysTidy(lease: Lease, others: map<string, Lease>, networks: map<string, Network>, multiUsesSingle: bool,
      held: seq<Pool>, refs: seq<OwnerRef>, idx: nat, added: seq<Network>, refs': seq<OwnerRef>)
    requires idx < |held| && Apart(networks, held) && Tidy(lease, networks, held, refs)
    requires Served(lease, others, refs, networks, multiUsesSingle, held[idx], added, refs') && ApartInVlan(added)
    requires added == [] || |Owned(refs', PoolNetworks(held[idx], networks).Keys)| <= lease.spec.networks
    ensures Tidy(lease, networks, held, refs')
  {
    forall j | 0 <= j < |held|
      ensures || |Owned(refs', PoolNetworks(held[j], networks).Keys)| <= lease.spec.networks
              || |Owned(refs', PoolNetworks(held[j], networks).Keys)| <=
                  |Owned(lease.refs, PoolNetworks(held[j], networks).Keys)|
      ensures VlansApart(networks, held, refs) ==> PoolVlansApart(networks, held[j], refs')
    {
      assert held[j] in held;
      if j != idx || added == [] {
        OthersUnchanged(lease, others, networks, multiUsesSingle, held, refs, idx, added, refs', j);
      } else if VlansApart(networks, held, refs) {
        ServedPoolApart(lease, others, networks, multiUsesSingle, held[idx], refs, added, refs');
      }
    }
  }

  /** A network is added to a pool only if its VLAN is new there. */
  lemma ServedPoolApart(lease: Lease, others: map<string, Lease>, networks: map<string, Network>, multiUsesSingle: bool,
      pool: Pool, refs: seq<OwnerRef>, added: seq<Network>, refs': seq<OwnerRef>)
    requires Served(lease, others, refs, networks, multiUsesSingle, pool, added, refs') && ApartInVlan(added)
    requires PoolVlansApart(networks, pool, refs)
    ensures PoolVlansApart(networks, pool, refs')
  {
    var poolNetworks := PoolNetworks(pool, networks);
    var owned := Owned(refs', poolNetworks.Keys);
    forall a | a in owned ensures NetworkRef(a) in refs || exists i :: 0 <= i < |added| && added[i] == networks[a] {
      if NetworkRef(a) !in refs {
        assert NetworkRef(a) in NetworkRefsOf(added);
        var i :| 0 <= i < |added| && NetworkRefsOf(added)[i] == NetworkRef(a);
        assert added[i] in added;
      }
    }
    forall a, b | a in owned && b in owned && a != b
      ensures networks[a].vlan != networks[b].vlan || networks[a].datacenter != networks[b].datacenter
    {
      ServedPairApart(networks, poolNetworks, refs, added, a, b);
    }
  }

  lemma ServedPairApart(networks: map<string, Network>, poolNetworks: map<string, Network>, refs: seq<OwnerRef>,
      added: seq<Network>, a: string, b: string)
    requires a in poolNetworks && b in poolNetworks && a in networks && b in networks && a != b
    requires poolNetworks[a] == networks[a] && poolNetworks[b] == networks[b]
    requires forall n :: n in added ==> InTable(poolNetworks, n) && !Contains(refs, poolNetworks, n.vlan, n.datacenter)
    requires ApartInVlan(added)
    requires NetworkRef(a) in refs || exists i :: 0 <= i < |added| && added[i] == networks[a]
    requires NetworkRef(b) in refs || exists i :: 0 <= i < |added| && added[i] == networks[b]
    requires NetworkRef(a) in refs && NetworkRef(b) in refs ==>
               networks[a].vlan != networks[b].vlan || networks[a].datacenter != networks[b].datacenter
    requires networks[a] != networks[b]
    ensures networks[a].vlan != networks[b].vlan || networks[a].datacenter != networks[b].datacenter
  {
    if NetworkRef(a) !in refs && NetworkRef(b) !in refs {
      var i :| 0 <= i < |added| && added[i] == networks[a];
      var j :| 0 <= j < |added| && added[j] == networks[b];
    }
  }

  lemma ServedKeepsServed(lease: Lease, others: map<string, Lease>, networks: map<string, Network>,
      multiUsesSingle: bool, held: seq<Pool>, siblings: set<Pool>, refs: seq<OwnerRef>, vlans: set<string>, idx: nat,
      added: seq<Network>, refs': seq<OwnerRef>)
    requires 0 < idx < |held| && lease.name !in others && Tracks(networks, refs, vlans)
    requires NothingMissed(lease, others, networks, multiUsesSingle, held, siblings, refs, idx)
    requires Served(lease, others, refs, networks, multiUsesSingle, held[idx], added, refs')
    requires forall n :: n in added ==> n.vlan in vlans
    requires WellServed(lease, others, refs, networks, multiUsesSingle, held[idx], None, Some(vlans), refs')
    ensures NothingMissed(lease, others, networks, multiUsesSingle, held, siblings, refs', idx + 1)
    ensures Tracks(networks, refs', vlans)
  {
    TracksMore(networks, refs, vlans, added);
    assert vlans + VlansOf(added) == vlans;
    ServedLaterIsFinal(lease, others, networks, multiUsesSingle, held, siblings, idx, refs, vlans, refs');
    MissedStays(lease, others, networks, multiUsesSingle, held, siblings, idx, refs, refs');
  }

  lemma ServedKeepsLock(lease: Lease, others: map<string, Lease>, networks: map<string, Network>, multiUsesSingle: bool,
      held: seq<Pool>, refs: seq<OwnerRef>, vlans: set<string>, idx: nat, added: seq<Network>, refs': seq<OwnerRef>)
    requires 1 <= idx < |held| && ValidTable(networks) && lease.name !in others
        && FreeChoice(lease, others, networks, held)
    requires LockState(lease, others, networks, multiUsesSingle, held, refs, vlans, idx)
    requires Served(lease, others, refs, networks, multiUsesSingle, held[idx], added, refs')
    requires forall n :: n in added ==> n.vlan in vlans
    requires WellServed(lease, others, refs, networks, multiUsesSingle, held[idx], None, Some(vlans), refs')
    ensures LockState(lease, others, networks, multiUsesSingle, held, refs', vlans, idx + 1)
  {
    FirstPoolUntouched(lease, others, networks, multiUsesSingle, held, refs, vlans, idx, added, refs');
    LockContinues(lease, others, networks, multiUsesSingle, held, refs, vlans, idx, refs');
  }

  // ---- When the first pool is served in full -----------------------------------------------

  /** Some network of the VLAN is on offer in the first pool and shared by all pools concerned. */
  ghost predicate CommonVlan(lease: Lease, others: map<string, Lease>, networks: map<string, Network>,
      multiUsesSingle: bool, held: seq<Pool>, siblings: set<Pool>, vlan: string)
    requires held != []
  {
    exists n :: Offered(held[0], lease.spec.networkType, multiUsesSingle, networks,
        TableWith(others, lease, lease.refs), n)
             && n.vlan == vlan && Common(lease, others, networks, multiUsesSingle, held, siblings, n.portGroup)
  }

  lemma CommonVlanArrives(lease: Lease, others: map<string, Lease>, networks: map<string, Network>,
      multiUsesSingle: bool, held: seq<Pool>, siblings: set<Pool>, refs: seq<OwnerRef>, k: string, vlan: string)
    requires held != [] && lease.name !in others && !HasNetworkedSibling(others, lease, networks)
    requires NoneLeft(lease, others, networks, multiUsesSingle, held, siblings, 0, refs, k)
    requires CommonVlan(lease, others, networks, multiUsesSingle, held, siblings, vlan)
    ensures HasVlan(refs, PoolNetworks(held[0], networks), vlan)
  {
    var n :| Offered(held[0], lease.spec.networkType, multiUsesSingle, networks,
        TableWith(others, lease, lease.refs), n)
          && n.vlan == vlan && Common(lease, others, networks, multiUsesSingle, held, siblings, n.portGroup);
    FreeAmongOthers(others, lease, lease.refs, n.name);
    FreeAmongOthers(others, lease, refs, n.name);
    assert n.name in PoolNetworks(held[0], networks);
    if NetworkRef(n.name) !in refs {
      assert CandidateFor(others, lease, refs, networks, multiUsesSingle, held[0], k, n);
    }
  }

  /** With as many common VLANs as the lease wants networks, its first pool gets them all. */
  lemma EnoughCommonVlans(lease: Lease, others: map<string, Lease>, networks: map<string, Network>,
      multiUsesSingle: bool, held: seq<Pool>, siblings: set<Pool>, adds: seq<Network>, vlans: set<string>)
    requires held != [] && lease.name !in others && !HasNetworkedSibling(others, lease, networks)
    requires NetworkLoopSpec(lease, others, networks, multiUsesSingle, held, siblings, adds)
    requires |vlans| >= lease.spec.networks
    requires forall v :: v in vlans ==> CommonVlan(lease, others, networks, multiUsesSingle, held, siblings, v)
    ensures |Owned(lease.refs + NetworkRefsOf(adds), PoolNetworks(held[0], networks).Keys)| >= lease.spec.networks
  {
    var refs := lease.refs + NetworkRefsOf(adds);
    if |Owned(refs, PoolNetworks(held[0], networks).Keys)| < lease.spec.networks {
      var k :| NoneLeft(lease, others, networks, multiUsesSingle, held, siblings, 0, refs, k);
      forall v | v in vlans ensures HasVlan(refs, PoolNetworks(held[0], networks), v) {
        CommonVlanArrives(lease, others, networks, multiUsesSingle, held, siblings, refs, k, v);
      }
      VlansNeedNetworks(refs, PoolNetworks(held[0], networks), vlans, {});
    }
  }
}
