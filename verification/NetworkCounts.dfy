/**
 Which networks a lease ends up with. Where its pools have no networks in common, it never has more
 networks in a pool than it asked for, nor two of one VLAN and datacenter there, and a fulfilled lease
 has exactly as many as it asked for.
 */
module NetworkCounts {
  import opened Types
  import opened PoolLoop
  import opened NetworkTables
  import opened NetworkAssignment
  import opened NetworkLoop
  import opened LeaseStates
  import opened Lifecycle
  import opened Invariants
  import opened Theorems

  /** If the pools are apart, none has more networks of the lease than it asked for, or two of a kind. */
  ghost predicate WithinRequest(networks: map<string, Network>, spec: LeaseSpec, held: seq<Pool>, refs: seq<OwnerRef>) {
    Apart(networks, held) ==>
      forall p :: p in held ==> NetworksIn(networks, refs, p) <= spec.networks && PoolVlansApart(networks, p, refs)
  }

  ghost predicate LeaseWithinRequest(s: State, lease: Lease) {
    WithinRequest(s.networks, lease.spec, HeldPools(s.pools, lease.refs), lease.refs)
  }

  // ---- One assignment ----------------------------------------------------------------------

  /** References to pools own no networks. */
  lemma PoolRefsOwnNothing(refs: seq<OwnerRef>, picks: seq<Pool>, names: set<string>)
    ensures Owned(refs + PoolRefsOf(picks), names) == Owned(refs, names)
  {
    forall x | x in Owned(refs + PoolRefsOf(picks), names) ensures x in Owned(refs, names) {
      assert NetworkRef(x) in refs || NetworkRef(x) in PoolRefsOf(picks);
    }
  }

  lemma ApartPrefix(networks: map<string, Network>, held: seq<Pool>, picks: seq<Pool>)
    requires Apart(networks, held + picks)
    ensures Apart(networks, held)
  {
    assert forall i :: 0 <= i < |held| ==> (held + picks)[i] == held[i];
  }

  lemma PickIsApart(networks: map<string, Network>, held: seq<Pool>, picks: seq<Pool>, p: Pool, q: Pool, n: string)
    requires Apart(networks, held + picks) && p in picks && q in held && n in networks && InPool(p, networks[n])
    ensures !InPool(q, networks[n])
  {
    var i :| 0 <= i < |held| && held[i] == q;
    var j :| 0 <= j < |picks| && picks[j] == p;
    assert (held + picks)[i] == q && (held + picks)[|held| + j] == p;
  }

  /** Before its networks are assigned, no pool of the lease has too many: the pools it had were within
      the request, and a picked one has none, since its networks lie in no other pool. */
  lemma PlacedWithinRequest(s: State, lease: Lease, picks: seq<Pool>, p: Pool)
    requires RefsOk(s.pools, s.networks, lease.refs) && LeaseWithinRequest(s, lease)
    requires Apart(s.networks, HeldPools(s.pools, lease.refs) + picks) && p in HeldPools(s.pools, lease.refs) + picks
    ensures NetworksIn(s.networks, lease.refs + PoolRefsOf(picks), p) <= lease.spec.networks
    ensures PoolVlansApart(s.networks, p, lease.refs + PoolRefsOf(picks))
  {
    var held := HeldPools(s.pools, lease.refs);
    var names := PoolNetworks(p, s.networks).Keys;
    PoolRefsOwnNothing(lease.refs, picks, names);
    ApartPrefix(s.networks, held, picks);
    if p !in held {
      forall n | n in names ensures !InSomePool(held, s.networks[n]) {
        forall q | q in held ensures !InPool(q, s.networks[n]) {
          PickIsApart(s.networks, held, picks, p, q, n);
        }
      }
      assert Owned(lease.refs, names) == {};
    }
  }

  lemma AssignedWithinRequest(s: State, lease: Lease, picks: seq<Pool>, adds: seq<Network>)
    requires RefsOk(s.pools, s.networks, lease.refs) && LeaseWithinRequest(s, lease)
        && NetworkStep(s, lease, picks, adds)
    ensures WithinRequest(s.networks, lease.spec, HeldPools(s.pools, lease.refs) + picks,
                          lease.refs + PoolRefsOf(picks) + NetworkRefsOf(adds))
  {
    var held := HeldPools(s.pools, lease.refs) + picks;
    var refs := lease.refs + PoolRefsOf(picks) + NetworkRefsOf(adds);
    if Apart(s.networks, held) {
      forall p | p in held
        ensures NetworksIn(s.networks, lease.refs + PoolRefsOf(picks), p) <= lease.spec.networks
        ensures PoolVlansApart(s.networks, p, lease.refs + PoolRefsOf(picks))
      {
        PlacedWithinRequest(s, lease, picks, p);
      }
    }
  }

  // ---- One step ----------------------------------------------------------------------------

  lemma ReconciledWithinRequest(s: State, lease: Lease, now: nat, note: string, branch: Branch, result: Lease)
    requires ValidPools(s.pools) && LeaseOk(s.pools, s.networks, lease) && LeaseWithinRequest(s, lease)
    requires Outcome(s, lease, now, note, branch, result)
    ensures LeaseWithinRequest(s, result)
  {
    match branch
    case Settled =>
    case Unsatisfiable =>
      ReleasedWithinRequest(s, lease, result);
    case HeldBack =>
    case NoPoolFound(picks) =>
    case GaveBack(picks) =>
      ReleasedWithinRequest(s, lease, result);
    case Assigned(picks, outcome, adds) =>
      PoolsArePlaced(s, lease, picks, outcome);
      PlacedRefsOk(s, lease, picks, adds);
      AssignedWithinRequest(s, lease, picks, adds);
  }

  lemma ReleasedWithinRequest(s: State, lease: Lease, result: Lease)
    requires result.refs == OtherRefs(lease.refs)
    ensures LeaseWithinRequest(s, result)
  {
    OtherRefsOnly(lease.refs);
    HeldOfNone(s.pools, result.refs);
  }

  /** A lease that does not change is within its request in a larger inventory too. */
  lemma GrownWithinRequest(s: State, s': State, lease: Lease)
    requires ValidPools(s.pools) && RefsOk(s.pools, s.networks, lease.refs) && LeaseWithinRequest(s, lease)
    requires forall n :: n in s.pools ==> n in s'.pools && s'.pools[n] == s.pools[n]
    requires forall n :: n in s.networks ==> n in s'.networks && s'.networks[n] == s.networks[n]
    ensures LeaseWithinRequest(s', lease)
  {
    HeldInGrown(s.pools, s'.pools, lease.refs);
    var held := HeldPools(s.pools, lease.refs);
    if Apart(s'.networks, held) {
      assert Apart(s.networks, held) by {
        forall i, j, n | 0 <= i < j < |held| && n in s.networks
          ensures !(InPool(held[i], s.networks[n]) && InPool(held[j], s.networks[n]))
        {
          assert s'.networks[n] == s.networks[n];
        }
      }
      forall p | p in held
        ensures NetworksIn(s'.networks, lease.refs, p) <= lease.spec.networks
            && PoolVlansApart(s'.networks, p, lease.refs)
      {
        assert Owned(lease.refs, PoolNetworks(p, s'.networks).Keys) ==
            Owned(lease.refs, PoolNetworks(p, s.networks).Keys);
      }
    }
  }

  lemma UntouchedWithinRequest(s: State, lease: Lease)
    requires HoldsNothing(lease)
    ensures LeaseWithinRequest(s, lease)
  {
    HeldOfNone(s.pools, lease.refs);
  }

  lemma TablesGrow(s: State, a: Action, s': State)
    requires ValidPools(s.pools) && Next(s, a, s')
    ensures forall n :: n in s.pools ==> n in s'.pools && s'.pools[n] == s.pools[n]
    ensures forall n :: n in s.networks ==> n in s'.networks && s'.networks[n] == s.networks[n]
    ensures a.Reconcile? ==> s'.pools == s.pools && s'.networks == s.networks
  {
  }

  lemma StepWithinRequest(s: State, a: Action, s': State, k: string)
    requires Inv(s) && Next(s, a, s') && k in s'.stored && (k in s.stored ==> LeaseWithinRequest(s, s.stored[k]))
    ensures LeaseWithinRequest(s', s'.stored[k])
  {
    TablesGrow(s, a, s');
    if k !in s.stored {
      UntouchedWithinRequest(s', s'.stored[k]);
    } else if a.Reconcile? && a.name == k {
      OwnStepWithinRequest(s, a, s');
    } else {
      OtherStepWithinRequest(s, s', s.stored[k]);
    }
  }

  lemma OwnStepWithinRequest(s: State, a: Action, s': State)
    requires Inv(s) && a.Reconcile? && Next(s, a, s') && LeaseWithinRequest(s, s.stored[a.name])
    ensures LeaseWithinRequest(s, s'.stored[a.name])
  {
    AdmittedOk(s, a.name, a.now);
    ReconciledWithinRequest(s, Admit(s.stored[a.name], a.now), a.now, a.note, a.branch, s'.stored[a.name]);
  }

  lemma OtherStepWithinRequest(s: State, s': State, lease: Lease)
    requires Inv(s) && lease.name in s.stored && s.stored[lease.name] == lease && LeaseWithinRequest(s, lease)
    requires forall n :: n in s.pools ==> n in s'.pools && s'.pools[n] == s.pools[n]
    requires forall n :: n in s.networks ==> n in s'.networks && s'.networks[n] == s.networks[n]
    ensures LeaseWithinRequest(s', lease)
  {
    StoredLease(s, lease.name);
    if lease.name in s.leases {
      GrownWithinRequest(s, s', lease);
    } else {
      UntouchedWithinRequest(s', lease);
    }
  }

  // ---- All runs ----------------------------------------------------------------------------

  /** In every state of every run, a lease whose pools have no networks in common has at most as many
      networks in each of them as it asked for, and no two there of one VLAN and datacenter. */
  lemma {:induction false} NeverTooManyNetworks(states: seq<State>, actions: seq<Action>, i: nat, k: string)
    requires Run(states, actions) && i < |states| && k in states[i].stored
    ensures LeaseWithinRequest(states[i], states[i].stored[k])
  {
    if i > 0 {
      if k in states[i - 1].stored {
        NeverTooManyNetworks(states, actions, i - 1, k);
      }
      RunStepWithinRequest(states, actions, i - 1, k);
    }
  }

  lemma RunStepWithinRequest(states: seq<State>, actions: seq<Action>, i: nat, k: string)
    requires Run(states, actions) && i + 1 < |states| && k in states[i + 1].stored
    requires k in states[i].stored ==> LeaseWithinRequest(states[i], states[i].stored[k])
    ensures LeaseWithinRequest(states[i + 1], states[i + 1].stored[k])
  {
    InvAlways(states, actions, i);
    assert StepAt(states, actions, i);
    StepWithinRequest(states[i], actions[i], states[i + 1], k);
  }

  /** A fulfilled lease whose pools have no networks in common has exactly the networks it asked for in
      each of them. */
  lemma FulfilledIsExact(states: seq<State>, actions: seq<Action>, i: nat, k: string)
    requires Run(states, actions) && i < |states|
    requires k in states[i].stored && states[i].stored[k].status.phase == Fulfilled
    ensures var lease := states[i].stored[k];
            var held := HeldPools(states[i].pools, lease.refs);
            Apart(states[i].networks, held) ==>
              forall p :: p in held ==> NetworksIn(states[i].networks, lease.refs, p) == lease.spec.networks
  {
    FulfilledIsSound(states, actions, i, k);
    NeverTooManyNetworks(states, actions, i, k);
  }
}
