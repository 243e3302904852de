/**
 Giving networks to the pools of a lease (pkg/controller/leases.go, 1346-1515).
 */
module NetworkAssignment {
  import opened Types
  import opened NetworkTables

  function NetworkRefsOf(networks: seq<Network>): seq<OwnerRef> {
    seq(|networks|, i requires 0 <= i < |networks| => NetworkRef(networks[i].name))
  }

  /** A lease refers to a pool or a network at most once. */
  ghost predicate DistinctRefs(refs: seq<OwnerRef>) {
    forall i, j :: 0 <= i < j < |refs| && !refs[i].OtherRef? ==> refs[i] != refs[j]
  }

  /** The networks among `names` that the references own. */
  ghost function Owned(refs: seq<OwnerRef>, names: set<string>): set<string> {
    set n | n in names && NetworkRef(n) in refs
  }

  method CountOwned(refs: seq<OwnerRef>, poolNetworks: map<string, Network>) returns (count: nat)
    requires DistinctRefs(refs)
    ensures count == |Owned(refs, poolNetworks.Keys)|
  {
    count := 0;
    assert Owned(refs[..0], poolNetworks.Keys) == {};
    for i := 0 to |refs|
      invariant count == |Owned(refs[..i], poolNetworks.Keys)|
    {
      assert refs[..i + 1] == refs[..i] + [refs[i]];
      if refs[i].NetworkRef? {
        assert refs[i] !in refs[..i];
        OwnedWith(refs[..i], poolNetworks.Keys, refs[i].name);
      } else {
        assert Owned(refs[..i + 1], poolNetworks.Keys) == Owned(refs[..i], poolNetworks.Keys);
      }
      if refs[i].NetworkRef? && refs[i].name in poolNetworks {
        count := count + 1;
      }
    }
    assert refs[..|refs|] == refs;
  }

  /** The lease already has a network of this VLAN and datacenter in the pool
      (doesLeaseContainPortGroup). */
  predicate Contains(refs: seq<OwnerRef>, poolNetworks: map<string, Network>, vlan: string, datacenter: string) {
    exists k <- poolNetworks ::
      NetworkRef(k) in refs && poolNetworks[k].vlan == vlan && poolNetworks[k].datacenter == datacenter
  }

  lemma OwnedWith(refs: seq<OwnerRef>, names: set<string>, n: string)
    ensures NetworkRef(n) !in refs && n in names ==> |Owned(refs + [NetworkRef(n)], names)| == |Owned(refs, names)| + 1
    ensures n !in names ==> Owned(refs + [NetworkRef(n)], names) == Owned(refs, names)
  {
    if n in names {
      assert Owned(refs + [NetworkRef(n)], names) == Owned(refs, names) + {n};
    } else {
      assert Owned(refs + [NetworkRef(n)], names) == Owned(refs, names);
    }
  }

  /** Networks that are not among `names` do not count there. */
  lemma OwnedElsewhere(refs: seq<OwnerRef>, names: set<string>, added: seq<Network>)
    requires forall n :: n in added ==> n.name !in names
    ensures Owned(refs + NetworkRefsOf(added), names) == Owned(refs, names)
  {
    assert forall i :: 0 <= i < |added| ==> added[i] in added;
    forall x | x in Owned(refs + NetworkRefsOf(added), names) ensures x in Owned(refs, names) {
      assert NetworkRef(x) in refs || NetworkRef(x) in NetworkRefsOf(added);
    }
  }

  // ---- Filling one pool --------------------------------------------------------------------

  /** What filling one pool from `available` may do: add networks of that pool that the lease does
      not have, of VLANs it does not have in this pool. */
  ghost predicate Fills(refs: seq<OwnerRef>, poolNetworks: map<string, Network>, available: seq<Network>,
      added: seq<Network>, refs': seq<OwnerRef>) {
    && refs' == refs + NetworkRefsOf(added)
    && DistinctRefs(refs')
    && (forall n :: n in added ==>
        n in available && InTable(poolNetworks, n) && !Contains(refs, poolNetworks, n.vlan, n.datacenter))
    && |Owned(refs', poolNetworks.Keys)| == |Owned(refs, poolNetworks.Keys)| + |added|
  }

  lemma FillsOneMore(refs: seq<OwnerRef>, poolNetworks: map<string, Network>, available: seq<Network>,
      added: seq<Network>, refs': seq<OwnerRef>, n: Network)
    requires Fills(refs, poolNetworks, available, added, refs')
    requires n in available && InTable(poolNetworks, n) && !Contains(refs', poolNetworks, n.vlan, n.datacenter)
    ensures Fills(refs, poolNetworks, available, added + [n], refs' + [NetworkRef(n.name)])
  {
    assert NetworkRef(n.name) !in refs';
    assert NetworkRefsOf(added + [n]) == NetworkRefsOf(added) + [NetworkRef(n.name)];
    OwnedWith(refs', poolNetworks.Keys, n.name);
  }

  lemma FillsNothing(refs: seq<OwnerRef>, poolNetworks: map<string, Network>, available: seq<Network>)
    requires DistinctRefs(refs)
    ensures Fills(refs, poolNetworks, available, [], refs)
  {
    assert refs + NetworkRefsOf([]) == refs;
  }

  /** No two of the networks have the same VLAN and datacenter. */
  ghost predicate ApartInVlan(networks: seq<Network>) {
    forall i, j :: 0 <= i < j < |networks| ==>
        networks[i].vlan != networks[j].vlan || networks[i].datacenter != networks[j].datacenter
  }

  lemma AddedAreContained(refs: seq<OwnerRef>, poolNetworks: map<string, Network>, available: seq<Network>,
      added: seq<Network>, refs': seq<OwnerRef>)
    requires Fills(refs, poolNetworks, available, added, refs')
    ensures forall n :: n in added ==>
        NetworkRef(n.name) in refs' && Contains(refs', poolNetworks, n.vlan, n.datacenter)
  {
    forall n | n in added ensures NetworkRef(n.name) in refs' && Contains(refs', poolNetworks, n.vlan, n.datacenter) {
      var i :| 0 <= i < |added| && added[i] == n;
      assert refs'[|refs| + i] == NetworkRef(n.name);
    }
  }

  lemma ApartWith(refs: seq<OwnerRef>, poolNetworks: map<string, Network>, available: seq<Network>, added: seq<Network>,
      refs': seq<OwnerRef>, n: Network)
    requires Fills(refs, poolNetworks, available, added, refs') && ApartInVlan(added)
    requires !Contains(refs', poolNetworks, n.vlan, n.datacenter)
    ensures ApartInVlan(added + [n])
    ensures VlansOf(added + [n]) == VlansOf(added) + {n.vlan}
  {
    AddedAreContained(refs, poolNetworks, available, added, refs');
    forall i | 0 <= i < |added| ensures added[i].vlan != n.vlan || added[i].datacenter != n.datacenter {
      assert added[i] in added;
    }
  }

  function VlansOf(networks: seq<Network>): set<string> {
    set n | n in networks :: n.vlan
  }

  /** First pool: take available networks of new VLANs until the pool has enough. It ends short
      only when every available network has a VLAN that the pool already has. */
  method FillFirstPool(refs: seq<OwnerRef>, poolNetworks: map<string, Network>, available: seq<Network>, have: nat,
      wanted: nat, vlans: set<string>)
    returns (added: seq<Network>, refs': seq<OwnerRef>, vlans': set<string>)
    requires DistinctRefs(refs) && have == |Owned(refs, poolNetworks.Keys)| < wanted
    requires forall n :: n in available ==> InTable(poolNetworks, n)
    ensures Fills(refs, poolNetworks, available, added, refs')
    ensures vlans' == vlans + VlansOf(added)
    ensures |Owned(refs', poolNetworks.Keys)| <= wanted
    ensures |Owned(refs', poolNetworks.Keys)| < wanted ==>
              forall n :: n in available ==> Contains(refs', poolNetworks, n.vlan, n.datacenter)
    ensures ApartInVlan(added)
  {
    added, refs', vlans' := [], refs, vlans;
    FillsNothing(refs, poolNetworks, available);
    var count := have;
    var idx := 0;
    while count < wanted && idx < |available|
      invariant 0 <= idx <= |available|
      invariant FirstPoolState(refs, poolNetworks, available, added, refs', idx)
      invariant vlans' == vlans + VlansOf(added)
      invariant count == have + |added| <= wanted
      decreases |available| - idx
    {
      var n := available[idx];
      if !Contains(refs', poolNetworks, n.vlan, n.datacenter) {
        FirstPoolTakes(refs, poolNetworks, available, added, refs', idx);
        assert VlansOf(added + [n]) == VlansOf(added) + {n.vlan};
        added, refs' := added + [n], refs' + [NetworkRef(n.name)];
        vlans' := vlans' + {n.vlan};
        count := count + 1;
      }
      idx := idx + 1;
    }
  }

  /** The first `idx` available networks have been looked at. */
  ghost predicate FirstPoolState(refs: seq<OwnerRef>, poolNetworks: map<string, Network>, available: seq<Network>,
      added: seq<Network>, refs': seq<OwnerRef>, idx: int) {
    && Fills(refs, poolNetworks, available, added, refs')
    && ApartInVlan(added)
    && forall k :: 0 <= k < idx && k < |available| ==>
        Contains(refs', poolNetworks, available[k].vlan, available[k].datacenter)
  }

  lemma FirstPoolTakes(refs: seq<OwnerRef>, poolNetworks: map<string, Network>, available: seq<Network>,
      added: seq<Network>, refs': seq<OwnerRef>, idx: nat)
    requires idx < |available| && FirstPoolState(refs, poolNetworks, available, added, refs', idx)
    requires InTable(poolNetworks, available[idx])
    requires !Contains(refs', poolNetworks, available[idx].vlan, available[idx].datacenter)
    ensures FirstPoolState(refs, poolNetworks, available, added + [available[idx]],
        refs' + [NetworkRef(available[idx].name)], idx + 1)
  {
    var n := available[idx];
    FillsOneMore(refs, poolNetworks, available, added, refs', n);
    ApartWith(refs, poolNetworks, available, added, refs', n);
    ContainsMore(refs', poolNetworks, n);
  }

  lemma ContainsMore(refs: seq<OwnerRef>, poolNetworks: map<string, Network>, n: Network)
    requires InTable(poolNetworks, n)
    ensures Contains(refs + [NetworkRef(n.name)], poolNetworks, n.vlan, n.datacenter)
    ensures forall v, d :: Contains(refs, poolNetworks, v, d) ==>
        Contains(refs + [NetworkRef(n.name)], poolNetworks, v, d)
  {
  }

  /** Later pools: for each VLAN of the lease find one available network, until the pool has
      enough. It ends short only when every available network of those VLANs has a VLAN that the
      pool already has. */
  method FillMatchingPool(refs: seq<OwnerRef>, poolNetworks: map<string, Network>, available: seq<Network>, have: nat,
      wanted: nat, vlans: set<string>)
    returns (added: seq<Network>, refs': seq<OwnerRef>)
    requires DistinctRefs(refs) && have == |Owned(refs, poolNetworks.Keys)| < wanted
    ensures Fills(refs, poolNetworks, available, added, refs')
    ensures forall n :: n in added ==> n.vlan in vlans
    ensures ApartInVlan(added)
    ensures |Owned(refs', poolNetworks.Keys)| <= wanted
    ensures |Owned(refs', poolNetworks.Keys)| < wanted ==>
              forall n :: n in available && n.vlan in vlans && InTable(poolNetworks, n) ==>
                exists d :: Contains(refs', poolNetworks, n.vlan, d)
  {
    added, refs' := [], refs;
    FillsNothing(refs, poolNetworks, available);
    var count := have;
    var left := vlans;
    while left != {}
      invariant left <= vlans
      invariant Fills(refs, poolNetworks, available, added, refs')
      invariant ApartInVlan(added) && forall n :: n in added ==> n.vlan in vlans
      invariant count == |Owned(refs', poolNetworks.Keys)| <= wanted
      invariant forall v :: v in vlans - left ==> VlanServed(refs', poolNetworks, available, v)
      decreases |left|
    {
      if count >= wanted {
        break;
      }
      var vlan :| vlan in left;
      left := left - {vlan};
      var found := FindMatching(refs', poolNetworks, available, vlan);
      if found.Some? {
        var n := found.value;
        ApartWith(refs, poolNetworks, available, added, refs', n);
        FillsOneMore(refs, poolNetworks, available, added, refs', n);
        ContainsMore(refs', poolNetworks, n);
        ServedMore(refs', poolNetworks, available, n);
        added, refs' := added + [n], refs' + [NetworkRef(n.name)];
        count := count + 1;
      }
    }
    if count < wanted {
      forall n | n in available && n.vlan in vlans && InTable(poolNetworks, n)
        ensures exists d :: Contains(refs', poolNetworks, n.vlan, d)
      {
        assert VlanServed(refs', poolNetworks, available, n.vlan);
      }
    }
  }

  /** Nothing available of this VLAN is left to add, or one is there already. */
  ghost predicate VlanServed(refs: seq<OwnerRef>, poolNetworks: map<string, Network>, available: seq<Network>,
      vlan: string) {
    || (exists d :: Contains(refs, poolNetworks, vlan, d))
    || (forall n :: n in available && n.vlan == vlan ==> !InTable(poolNetworks, n))
  }

  lemma ServedMore(refs: seq<OwnerRef>, poolNetworks: map<string, Network>, available: seq<Network>, n: Network)
    requires InTable(poolNetworks, n)
    ensures VlanServed(refs + [NetworkRef(n.name)], poolNetworks, available, n.vlan)
    ensures forall v :: VlanServed(refs, poolNetworks, available, v) ==>
        VlanServed(refs + [NetworkRef(n.name)], poolNetworks, available, v)
  {
    ContainsMore(refs, poolNetworks, n);
    forall v | VlanServed(refs, poolNetworks, available, v)
      ensures VlanServed(refs + [NetworkRef(n.name)], poolNetworks, available, v)
    {
      if d :| Contains(refs, poolNetworks, v, d) {
        assert Contains(refs + [NetworkRef(n.name)], poolNetworks, v, d);
      }
    }
  }

  method FindMatching(refs: seq<OwnerRef>, poolNetworks: map<string, Network>, available: seq<Network>, vlan: string)
    returns (found: Option<Network>)
    ensures found.Some? ==>
              && found.value in available && found.value.vlan == vlan && InTable(poolNetworks, found.value)
              && !Contains(refs, poolNetworks, vlan, found.value.datacenter)
    ensures found.None? ==> VlanServed(refs, poolNetworks, available, vlan)
  {
    for i := 0 to |available|
      invariant forall k :: 0 <= k < i && available[k].vlan == vlan && InTable(poolNetworks, available[k]) ==>
                  Contains(refs, poolNetworks, vlan, available[k].datacenter)
    {
      var n := available[i];
      if n.vlan == vlan && !Contains(refs, poolNetworks, n.vlan, n.datacenter) {
        if n.name in poolNetworks && poolNetworks[n.name] == n {
          return Some(n);
        }
      }
    }
    return None;
  }
}
