/**
 What the controller guarantees over whole runs, stated of the stored leases.
 */
module Theorems {
  import opened Types
  import opened Combinations
  import opened Scheduling
  import opened Completion
  import opened PoolLoop
  import opened Accounting
  import opened DelayGate
  import opened NetworkTables
  import opened NetworkAssignment
  import opened NetworkLoop
  import opened LeaseStates
  import opened Lifecycle
  import opened Invariants

  // ---- In every state of every run ---------------------------------------------------------

  /** A lease is either untouched or as the invariant describes it. */
  lemma StoredLease(s: State, k: string)
    requires Inv(s) && k in s.stored
    ensures k !in s.leases ==> Untouched(s.stored[k])
    ensures k in s.leases ==> LeaseOk(s.pools, s.networks, s.stored[k])
    ensures Distinct(HeldPools(s.pools, s.stored[k].refs))
  {
    if k in s.leases {
      HeldDistinct(s.pools, s.stored[k].refs);
    } else {
      HeldOfNone(s.pools, s.stored[k].refs);
    }
  }

  /** Fulfilled is sound: exactly the requested number of distinct pools, at least the minimum and at
      most the maximum number of vCenters, and for each pool all its networks. */
  lemma FulfilledIsSound(states: seq<State>, actions: seq<Action>, i: nat, k: string)
    requires Run(states, actions) && i < |states|
    requires k in states[i].stored && states[i].stored[k].status.phase == Fulfilled
    ensures var lease := states[i].stored[k];
            var held := HeldPools(states[i].pools, lease.refs);
            && Distinct(held) && |held| == (if lease.spec.pools == 0 then 1 else lease.spec.pools)
            && |ServersOf(ToSet(held))| >= lease.spec.minVCenters
            && (lease.spec.vcenters > 0 ==> |ServersOf(ToSet(held))| <= lease.spec.vcenters)
            && forall p :: p in held ==> NetworksIn(states[i].networks, lease.refs, p) >= lease.spec.networks
  {
    InvAlways(states, actions, i);
    StoredLease(states[i], k);
    DistinctCard(HeldPools(states[i].pools, states[i].stored[k].refs));
  }

  /** Phase and conditions agree in every stored status, and a failed lease holds nothing. */
  lemma PhaseMatchesConditions(states: seq<State>, actions: seq<Action>, i: nat, k: string)
    requires Run(states, actions) && i < |states| && k in states[i].stored
    ensures Coherent(states[i].stored[k].status)
    ensures states[i].stored[k].status.phase == Failed ==> HoldsNothing(states[i].stored[k])
  {
    InvAlways(states, actions, i);
    StoredLease(states[i], k);
  }

  /** References are never doubled, and every owned network lies in a pool the lease still owns. */
  lemma NothingLeaks(states: seq<State>, actions: seq<Action>, i: nat, k: string)
    requires Run(states, actions) && i < |states| && k in states[i].stored
    ensures DistinctRefs(states[i].stored[k].refs)
    ensures forall n :: NetworkRef(n) in states[i].stored[k].refs ==>
              exists p :: PoolRef(p) in states[i].stored[k].refs && p in states[i].pools && n in states[i].networks
                       && states[i].networks[n].pod == states[i].pools[p].pod
                       && states[i].networks[n].portGroup in states[i].pools[p].portGroups
  {
    InvAlways(states, actions, i);
    var s := states[i];
    StoredLease(s, k);
    if k in s.leases {
      HeldMembers(s.pools, s.stored[k].refs);
      forall n | NetworkRef(n) in s.stored[k].refs
        ensures exists p :: PoolRef(p) in s.stored[k].refs && p in s.pools && n in s.networks
                         && s.networks[n].pod == s.pools[p].pod && s.networks[n].portGroup in s.pools[p].portGroups
      {
        var p :| p in HeldPools(s.pools, s.stored[k].refs) && InPool(p, s.networks[n]);
        assert PoolRef(p.name) in s.stored[k].refs;
      }
    }
  }

  /** Two leases own one network only if both carry the same boskos id and both ask for vCPUs or memory. */
  lemma NetworksAreExclusive(states: seq<State>, actions: seq<Action>, i: nat, a: string, b: string, n: string)
    requires Run(states, actions) && i < |states|
    requires a in states[i].stored && b in states[i].stored && a != b
    requires NetworkRef(n) in states[i].stored[a].refs && NetworkRef(n) in states[i].stored[b].refs
    ensures var x, y := states[i].stored[a], states[i].stored[b];
            && x.boskosId.Some? && x.boskosId == y.boskosId
            && (x.spec.vcpus > 0 || x.spec.memory > 0) && (y.spec.vcpus > 0 || y.spec.memory > 0)
  {
    InvAlways(states, actions, i);
    StoredLease(states[i], a);
    StoredLease(states[i], b);
  }

  /** Leases that hold nothing take nothing. */
  lemma {:induction false} IdleLeasesTakeNothing(stored: map<string, Lease>, leases: map<string, Lease>, n: string,
      r: Resource)
    requires forall k :: k in leases ==> k in stored && stored[k] == leases[k]
    requires forall k :: k in stored && k !in leases ==> HoldsNothing(stored[k])
    ensures Used(stored, n, r) == Used(leases, n, r)
    decreases stored.Keys
  {
    if k :| k in stored && k !in leases {
      IdleLeasesTakeNothing(stored - {k}, leases, n, r);
      UsedWith(stored - {k}, k, stored[k], n, r);
      assert (stored - {k})[k := stored[k]] == stored;
    } else {
      assert stored == leases;
    }
  }

  /** No pool is over-allocated: the requests of the stored leases that own it together never exceed its
      over-committed vCPUs or its memory. */
  lemma NeverOverAllocated(states: seq<State>, actions: seq<Action>, i: nat, n: string)
    requires Run(states, actions) && i < |states| && n in states[i].pools
    ensures var s := states[i];
            && Total(map k | k in s.stored :: if PoolRef(n) in s.stored[k].refs then s.stored[k].spec.vcpus else 0)
                 <= s.pools[n].capacity
            && Total(map k | k in s.stored :: if PoolRef(n) in s.stored[k].refs then s.stored[k].spec.memory else 0)
                 <= s.pools[n].memory
  {
    InvAlways(states, actions, i);
    IdleLeasesTakeNothing(states[i].stored, states[i].leases, n, Cpu);
    IdleLeasesTakeNothing(states[i].stored, states[i].leases, n, Memory);
    UsedByField(states[i].stored, n);
  }

  /** A lease owns only pools that match it: open for scheduling, required by name if excluded or if the
      lease requires one, with every label it selects, and with no taint that it does not tolerate. */
  lemma HeldPoolsMatch(states: seq<State>, actions: seq<Action>, i: nat, k: string, n: string)
    requires Run(states, actions) && i < |states| && k in states[i].stored && PoolRef(n) in states[i].stored[k].refs
    ensures n in states[i].pools
    ensures var spec, pool := states[i].stored[k].spec, states[i].pools[n];
            && !pool.noSchedule
            && (pool.exclude || spec.requiredPool != "" ==> n == spec.requiredPool)
            && (forall key :: key in spec.poolSelector ==>
                  key in pool.labels && pool.labels[key] == spec.poolSelector[key])
            && (forall taint :: taint in pool.taints ==>
                  exists t :: t in spec.tolerations
                           && (t.effect == "" || t.effect == taint.effect)
                           && (t.operator == "Exists" ==> t.key == "" || t.key == taint.key)
                           && (t.operator != "Exists" ==> t.key == taint.key && t.value == taint.value))
  {
    InvAlways(states, actions, i);
    StoredLease(states[i], k);
    HeldMembers(states[i].pools, states[i].stored[k].refs);
    StructuralByField(states[i].stored[k].spec, states[i].pools[n]);
  }

  // ---- What can change, and when -----------------------------------------------------------

  /** The references of a stored lease change only in its own reconcile, when it is not finished,
      and it either gives everything back or, not being delayed, is assigned something more. */
  lemma OwnershipChanges(s: State, a: Action, s': State, k: string)
    requires Inv(s) && Next(s, a, s') && k in s.stored && k in s'.stored
    requires s.stored[k].refs != s'.stored[k].refs
    ensures a.Reconcile? && a.name == k && !Finished(s.stored[k])
    ensures HoldsNothing(s'.stored[k])
         || (&& a.branch.Assigned?
             && s.stored[k].refs <= s'.stored[k].refs
             && !IsDelayed(Admit(s.stored[k], a.now), s.leases[k := Admit(s.stored[k], a.now)]))
  {
    if a.Reconcile? && a.name == k {
      RefsAfter(s, Admit(s.stored[k], a.now), a.now, a.note, a.branch, s'.stored[k]);
    }
  }

  lemma RefsAfter(s: State, lease: Lease, now: nat, note: string, branch: Branch, result: Lease)
    requires ValidPools(s.pools) && Outcome(s, lease, now, note, branch, result) && result.refs != lease.refs
    ensures !Finished(lease)
    ensures HoldsNothing(result)
         || (branch.Assigned? && lease.refs <= result.refs && !IsDelayed(lease, s.leases[lease.name := lease]))
  {
    OtherRefsOnly(lease.refs);
  }

  lemma AssignedIsNotDelayed(s: State, lease: Lease, now: nat, note: string, branch: Branch, result: Lease)
    requires ValidPools(s.pools) && Outcome(s, lease, now, note, branch, result) && branch.Assigned?
    ensures !IsDelayed(lease, s.leases[lease.name := lease])
  {
  }

  /** A lease that has waited so far is assigned nothing while a partial lease of its network type has
      the pool it is after, nor ahead of an older pending one that is after the same or any pool. A lease
      is after the pool it requires; one that requires none but wants several networks, after the pool
      its status shows. */
  lemma NoOvertaking(states: seq<State>, actions: seq<Action>, i: nat, k: string)
    requires Run(states, actions) && i < |actions| && actions[i].Reconcile? && actions[i].branch.Assigned?
    requires k in states[i].leases && k != actions[i].name
    ensures actions[i].name in states[i].stored
    ensures var lease, other := states[i].stored[actions[i].name], states[i].leases[k];
            var wanted := if other.spec.requiredPool == "" && other.spec.networks > 1 then other.status.failureDomain
                          else other.spec.requiredPool;
            lease.status.phase in {Pending, Unset} && other.spec.networkType == lease.spec.networkType ==>
              && (other.status.phase == Partial ==> lease.spec.requiredPool != "" && lease.spec.requiredPool != wanted)
              && (other.status.phase == Pending && other.created < lease.created ==>
                    lease.spec.requiredPool != "" && wanted != "" && lease.spec.requiredPool != wanted)
  {
    var s, a := states[i], actions[i];
    InvAlways(states, actions, i);
    assert StepAt(states, actions, i);
    StepIsNotDelayed(s, a, states[i + 1]);
    OthersDoNotDelay(s, Admit(s.stored[a.name], a.now), k);
  }

  lemma StepIsNotDelayed(s: State, a: Action, s': State)
    requires Inv(s) && a.Reconcile? && a.branch.Assigned? && Next(s, a, s')
    ensures a.name in s.stored && s.stored[a.name].name == a.name
    ensures var lease := Admit(s.stored[a.name], a.now);
            !IsDelayed(lease, s.leases[a.name := lease])
  {
    AssignedIsNotDelayed(s, Admit(s.stored[a.name], a.now), a.now, a.note, a.branch, s'.stored[a.name]);
  }

  lemma OthersDoNotDelay(s: State, lease: Lease, k: string)
    requires TablesAgree(s) && k in s.leases && k != lease.name && !IsDelayed(lease, s.leases[lease.name := lease])
    ensures s.leases[k].name == k && !DelayedBy(lease, s.leases[k])
  {
    assert s.leases[lease.name := lease][k] == s.leases[k];
  }

  /** Which way a reconcile takes, in this order: a fulfilled or failed lease is left alone; one that no set
      of pools can satisfy fails; one that waits for another is held back, and only that; every other one
      goes past the gate. */
  lemma WaysPart(states: seq<State>, actions: seq<Action>, i: nat)
    requires Run(states, actions) && i < |actions| && actions[i].Reconcile?
    ensures actions[i].name in states[i].stored
    ensures var s, branch, lease := states[i], actions[i].branch, states[i].stored[actions[i].name];
            var finished := lease.status.phase in {Fulfilled, Failed};
            var satisfiable := Satisfiable(lease.spec, AllPools(s.pools));
            var waits := lease.status.phase in {Pending, Unset}
                && exists k :: k in s.leases && k != actions[i].name && HasPriority(lease, s.leases[k]);
            && (branch.Settled? <==> finished)
            && (branch.Unsatisfiable? <==> !finished && !satisfiable)
            && (branch.HeldBack? <==> !finished && satisfiable && waits)
            && (branch.NoPoolFound? || branch.GaveBack? || branch.Assigned? <==>
                  !finished && satisfiable && !waits)
  {
    var s, a := states[i], actions[i];
    InvAlways(states, actions, i);
    assert StepAt(states, actions, i);
    StepsPart(s, a, states[i + 1]);
    DelayedByPriority(s, s.stored[a.name], a.now);
  }

  lemma StepsPart(s: State, a: Action, s': State)
    requires Inv(s) && a.Reconcile? && Next(s, a, s')
    ensures a.name in s.stored && s.stored[a.name].name == a.name
    ensures var lease := Admit(s.stored[a.name], a.now);
            BranchFollows(Finished(s.stored[a.name]), Satisfiable(lease.spec, AllPools(s.pools)),
                IsDelayed(lease, s.leases[lease.name := lease]), a.branch)
  {
    BranchesPart(s, Admit(s.stored[a.name], a.now), a.now, a.note, a.branch, s'.stored[a.name]);
  }

  ghost predicate BranchFollows(finished: bool, satisfiable: bool, delayed: bool, branch: Branch) {
    if finished then branch.Settled?
    else if !satisfiable then branch.Unsatisfiable?
    else if delayed then branch.HeldBack?
    else branch.NoPoolFound? || branch.GaveBack? || branch.Assigned?
  }

  lemma BranchesPart(s: State, lease: Lease, now: nat, note: string, branch: Branch, result: Lease)
    requires ValidPools(s.pools) && Outcome(s, lease, now, note, branch, result)
    ensures BranchFollows(Finished(lease), Satisfiable(lease.spec, AllPools(s.pools)),
        IsDelayed(lease, s.leases[lease.name := lease]), branch)
  {
  }

  /** The admitted lease is delayed exactly when it is pending and another one has priority. */
  lemma DelayedByPriority(s: State, lease: Lease, now: nat)
    requires TablesAgree(s) && lease.name in s.stored && s.stored[lease.name] == lease
    ensures IsDelayed(Admit(lease, now), s.leases[lease.name := Admit(lease, now)]) <==>
              && lease.status.phase in {Pending, Unset}
              && exists k :: k in s.leases && k != lease.name && HasPriority(lease, s.leases[k])
  {
    var table := s.leases[lease.name := Admit(lease, now)];
    assert forall other :: HasPriority(Admit(lease, now), other) <==> HasPriority(lease, other);
    if IsDelayed(Admit(lease, now), table) {
      SomeoneHasPriority(s.leases, Admit(lease, now));
    }
    forall k | k in s.leases && k != lease.name && HasPriority(lease, s.leases[k])
      ensures lease.status.phase in {Pending, Unset} ==> IsDelayed(Admit(lease, now), table)
    {
      assert table[k] == s.leases[k];
      assert lease.status.phase in {Pending, Unset} ==> DelayedBy(Admit(lease, now), table[k]);
    }
  }

  lemma SomeoneHasPriority(leases: map<string, Lease>, lease: Lease)
    requires IsDelayed(lease, leases[lease.name := lease])
    ensures lease.status.phase == Pending
    ensures exists k :: k in leases && k != lease.name && HasPriority(lease, leases[k])
  {
    var table := leases[lease.name := lease];
    var k :| k in table && DelayedBy(lease, table[k]);
    assert table[k] == leases[k] && HasPriority(lease, leases[k]);
  }

  /** The other lease is of the same network type and has the pool that this one is after (any, if it
      requires none), or is older and waits for it or for any. */
  ghost predicate HasPriority(lease: Lease, other: Lease) {
    var wanted := if other.spec.requiredPool == "" && other.spec.networks > 1 then other.status.failureDomain
                  else other.spec.requiredPool;
    && other.spec.networkType == lease.spec.networkType
    && (|| (other.status.phase == Partial && lease.spec.requiredPool in {"", wanted})
        || (&& other.status.phase == Pending && other.created < lease.created
            && (wanted == "" || lease.spec.requiredPool in {"", wanted})))
  }

  ghost predicate NotDeleted(actions: seq<Action>, i: nat, j: nat, k: string) {
    forall x :: i <= x < j && x < |actions| ==> actions[x] != Delete(k)
  }

  lemma SettledStays(s: State, lease: Lease, now: nat, note: string, branch: Branch, result: Lease)
    requires ValidPools(s.pools) && Outcome(s, lease, now, note, branch, result) && Finished(lease)
    ensures result == lease
  {
  }

  lemma FulfilledStays(states: seq<State>, actions: seq<Action>, i: nat, k: string)
    requires Run(states, actions) && i < |actions| && actions[i] != Delete(k)
    requires k in states[i].stored && states[i].stored[k].status.phase == Fulfilled
    ensures k in states[i + 1].stored && states[i + 1].stored[k] == states[i].stored[k]
  {
    var s, a, s' := states[i], actions[i], states[i + 1];
    assert StepAt(states, actions, i);
    if a.Reconcile? && a.name == k {
      SettledStays(s, s.stored[k], a.now, a.note, a.branch, s'.stored[k]);
    }
  }

  /** A fulfilled lease stays as it is until it is deleted. */
  lemma {:induction false} FulfilledNeverChanges(states: seq<State>, actions: seq<Action>, i: nat, j: nat, k: string)
    requires Run(states, actions) && i <= j < |states| && NotDeleted(actions, i, j, k)
    requires k in states[i].stored && states[i].stored[k].status.phase == Fulfilled
    ensures k in states[j].stored && states[j].stored[k] == states[i].stored[k]
    decreases j
  {
    if i < j {
      FulfilledNeverChanges(states, actions, i, j - 1, k);
      FulfilledStays(states, actions, j - 1, k);
    }
  }

  // ---- Failure is never premature ----------------------------------------------------------

  lemma {:induction false} InventoryGrows(states: seq<State>, actions: seq<Action>, i: nat, j: nat)
    requires Run(states, actions) && i <= j < |states|
    ensures AllPools(states[i].pools) <= AllPools(states[j].pools)
    decreases j
  {
    if i < j {
      InventoryGrows(states, actions, i, j - 1);
      StepGrows(states, actions, j - 1);
    }
  }

  lemma StepGrows(states: seq<State>, actions: seq<Action>, i: nat)
    requires Run(states, actions) && i + 1 < |states|
    ensures AllPools(states[i].pools) <= AllPools(states[i + 1].pools)
  {
    assert StepAt(states, actions, i);
    PoolsGrow(states[i], actions[i], states[i + 1]);
  }

  lemma PoolsGrow(s: State, a: Action, s': State)
    requires ValidPools(s.pools) && Next(s, a, s')
    ensures AllPools(s.pools) <= AllPools(s'.pools)
  {
    forall p | p in AllPools(s.pools) ensures p in AllPools(s'.pools) {
      assert p.name in s'.pools && s'.pools[p.name] == p;
    }
  }

  lemma KeepsIdentity(s: State, lease: Lease, now: nat, note: string, branch: Branch, result: Lease)
    requires ValidPools(s.pools) && Outcome(s, lease, now, note, branch, result)
    ensures result.name == lease.name && result.spec == lease.spec && result.boskosId == lease.boskosId
  {
  }

  lemma MembersKeepIdentity(s: State, a: Action, s': State, k: string)
    requires Inv(s) && Next(s, a, s') && k in s.stored && k in s'.stored
    ensures s'.stored[k].spec == s.stored[k].spec && s'.stored[k].boskosId == s.stored[k].boskosId
        && s'.stored[k].name == s.stored[k].name
  {
    if a.Reconcile? && a.name == k {
      KeepsIdentity(s, Admit(s.stored[k], a.now), a.now, a.note, a.branch, s'.stored[k]);
    }
  }

  lemma FailsWhenUnsatisfiable(s: State, lease: Lease, now: nat, note: string, branch: Branch, result: Lease)
    requires ValidPools(s.pools) && Outcome(s, lease, now, note, branch, result)
    requires lease.status.phase != Failed && result.status.phase == Failed
    ensures !Satisfiable(lease.spec, AllPools(s.pools))
  {
  }

  lemma StepFailsWhenUnsatisfiable(s: State, a: Action, s': State, k: string)
    requires ValidPools(s.pools) && Next(s, a, s') && k in s.stored && k in s'.stored
    ensures s.stored[k].status.phase != Failed && s'.stored[k].status.phase == Failed ==>
              !Satisfiable(s.stored[k].spec, AllPools(s.pools))
  {
    if s.stored[k].status.phase != Failed && s'.stored[k].status.phase == Failed && a.Reconcile? && a.name == k {
      FailsWhenUnsatisfiable(s, Admit(s.stored[k], a.now), a.now, a.note, a.branch, s'.stored[k]);
    }
  }

  /** A lease enters Failed only in a state in which no set of pools could satisfy it. */
  lemma FailsOnlyWhenUnsatisfiable(states: seq<State>, actions: seq<Action>, i: nat, k: string)
    requires Run(states, actions) && i < |actions| && k in states[i].stored && k in states[i + 1].stored
    ensures states[i + 1].stored[k].spec == states[i].stored[k].spec
    ensures states[i].stored[k].status.phase != Failed && states[i + 1].stored[k].status.phase == Failed ==>
              !Satisfiable(states[i].stored[k].spec, AllPools(states[i].pools))
  {
    InvAlways(states, actions, i);
    assert StepAt(states, actions, i);
    MembersKeepIdentity(states[i], actions[i], states[i + 1], k);
    StepFailsWhenUnsatisfiable(states[i], actions[i], states[i + 1], k);
  }

  lemma StaysStored(states: seq<State>, actions: seq<Action>, i: nat, k: string)
    requires Run(states, actions) && i < |actions| && k in states[i].stored && actions[i] != Delete(k)
    ensures k in states[i + 1].stored
  {
    assert StepAt(states, actions, i);
  }

  /** A lease that can be satisfied, and has not failed, never fails later in the run. */
  lemma {:induction false} SatisfiableNeverFails(states: seq<State>, actions: seq<Action>, i: nat, j: nat, k: string)
    requires Run(states, actions) && i <= j < |states| && NotDeleted(actions, i, j, k)
    requires k in states[i].stored && states[i].stored[k].status.phase != Failed
    requires Satisfiable(states[i].stored[k].spec, AllPools(states[i].pools))
    ensures k in states[j].stored && states[j].stored[k].spec == states[i].stored[k].spec
    ensures states[j].stored[k].status.phase != Failed
    decreases j
  {
    if i < j {
      SatisfiableNeverFails(states, actions, i, j - 1, k);
      InventoryGrows(states, actions, i, j - 1);
      SatisfiableMonotone(states[i].stored[k].spec, AllPools(states[i].pools), AllPools(states[j - 1].pools));
      StaysStored(states, actions, j - 1, k);
      FailsOnlyWhenUnsatisfiable(states, actions, j - 1, k);
    }
  }

  /** Any assignment that the pool loop completes is itself a proof that the lease is satisfiable,
      unless the lease asks for more vCenters than pools. */
  lemma CompletedIsWitness(s: State, lease: Lease, picks: seq<Pool>)
    requires Inv(s) && LeaseOk(s.pools, s.networks, lease)
    requires PoolStep(s, lease, picks, AllAssigned)
    ensures Satisfiable(lease.spec, AllPools(s.pools)) <==> lease.spec.minVCenters <= RequiredPools(lease.spec)
  {
    var held := HeldPools(s.pools, lease.refs) + picks;
    HeldMembers(s.pools, lease.refs);
    PicksAreNew(s, lease, picks, AllAssigned);
    AllHeldDistinct(s, lease, picks);
    DistinctCard(held);
    AssignedPoolsOk(s, lease, picks, AllAssigned);
    assert ToSet(held) <= StructuralPools(lease.spec, AllPools(s.pools));
    assert lease.spec.minVCenters <= RequiredPools(lease.spec) ==>
             Spread(ToSet(held), RequiredPools(lease.spec), lease.spec.minVCenters, lease.spec.vcenters);
    SatisfiableBounds(lease.spec, AllPools(s.pools));
  }

  lemma AllHeldDistinct(s: State, lease: Lease, picks: seq<Pool>)
    requires ValidPools(s.pools) && RefsOk(s.pools, s.networks, lease.refs)
    requires Distinct(picks) && forall p :: p in picks ==> PoolRef(p.name) !in lease.refs
    ensures Distinct(HeldPools(s.pools, lease.refs) + picks)
  {
    HeldDistinct(s.pools, lease.refs);
    HeldMembers(s.pools, lease.refs);
    var held := HeldPools(s.pools, lease.refs);
    forall i, j | 0 <= i < |held| && 0 <= j < |picks| ensures held[i] != picks[j] {
      assert held[i] in held && picks[j] in picks;
    }
  }

  // ---- Siblings converge -------------------------------------------------------------------

  /** Some lease of the group, not network-only, owns a network of the port group. */
  ghost predicate GroupOwns(s: State, boskosId: string, portGroup: string) {
    exists k :: MemberOwns(s, boskosId, portGroup, k)
  }

  ghost predicate MemberOwns(s: State, boskosId: string, portGroup: string, k: string) {
    && k in s.stored
    && s.stored[k].boskosId == Some(boskosId)
    && (s.stored[k].spec.vcpus > 0 || s.stored[k].spec.memory > 0)
    && SharesPortGroup(s.stored[k], s.networks, portGroup)
  }

  /** The group comes to own a new port group only in a reconcile of a member that has no sibling
      with a network. */
  lemma SiblingsConverge(states: seq<State>, actions: seq<Action>, i: nat, boskosId: string, portGroup: string)
    requires Run(states, actions) && i < |actions|
    requires !GroupOwns(states[i], boskosId, portGroup) && GroupOwns(states[i + 1], boskosId, portGroup)
    ensures var s, a := states[i], actions[i];
            && a.Reconcile? && a.name in s.stored
            && s.stored[a.name].boskosId == Some(boskosId)
            && (s.stored[a.name].spec.vcpus > 0 || s.stored[a.name].spec.memory > 0)
            && forall sib | sib in s.stored && sib != a.name && s.stored[sib].boskosId == Some(boskosId) ::
                 s.stored[sib].spec.vcpus > 0 || s.stored[sib].spec.memory > 0 ==>
                   forall m :: m in s.networks ==> NetworkRef(m) !in s.stored[sib].refs
  {
    InvAlways(states, actions, i);
    assert StepAt(states, actions, i);
    StepConverges(states[i], actions[i], states[i + 1], boskosId, portGroup);
    SiblingsInTable(states[i], states[i].stored[actions[i].name]);
    NoneNetworked(states[i], states[i].stored[actions[i].name], boskosId);
  }

  lemma NoneNetworked(s: State, lease: Lease, boskosId: string)
    requires TablesAgree(s) && !HasNetworkedSibling(s.stored, lease, s.networks)
    requires lease.boskosId == Some(boskosId) && (lease.spec.vcpus > 0 || lease.spec.memory > 0)
    ensures forall sib | sib in s.stored && sib != lease.name && s.stored[sib].boskosId == Some(boskosId) ::
              s.stored[sib].spec.vcpus > 0 || s.stored[sib].spec.memory > 0 ==>
                forall m :: m in s.networks ==> NetworkRef(m) !in s.stored[sib].refs
  {
    forall sib, m | sib in s.stored && sib != lease.name && s.stored[sib].boskosId == Some(boskosId) && m in s.networks
      ensures s.stored[sib].spec.vcpus > 0 || s.stored[sib].spec.memory > 0 ==> NetworkRef(m) !in s.stored[sib].refs
    {
      assert s.stored[sib].name == sib && !NetworkedSibling(s.stored, lease, s.networks, sib);
    }
  }

  /** Only leases in the controller's table own networks. */
  lemma SiblingsInTable(s: State, lease: Lease)
    requires TablesAgree(s) && !HasNetworkedSibling(s.leases, lease, s.networks)
    ensures !HasNetworkedSibling(s.stored, lease, s.networks)
  {
    forall k ensures !NetworkedSibling(s.stored, lease, s.networks, k) {
      assert !NetworkedSibling(s.leases, lease, s.networks, k);
    }
  }

  lemma StepConverges(s: State, a: Action, s': State, boskosId: string, portGroup: string)
    requires Inv(s) && Next(s, a, s')
    requires !GroupOwns(s, boskosId, portGroup) && GroupOwns(s', boskosId, portGroup)
    ensures a.Reconcile? && a.name in s.stored
    ensures s.stored[a.name].boskosId == Some(boskosId)
            && (s.stored[a.name].spec.vcpus > 0 || s.stored[a.name].spec.memory > 0)
    ensures !HasNetworkedSibling(s.leases, s.stored[a.name], s.networks)
  {
    var k :| MemberOwns(s', boskosId, portGroup, k);
    var n :| n in s'.networks && NetworkRef(n) in s'.stored[k].refs && s'.networks[n].portGroup == portGroup;
    NewForMember(s, a, s', boskosId, portGroup, k, n);
    NewMemberNetwork(s, a, s', k, n);
    MembersKeepIdentity(s, a, s', k);
    if HasNetworkedSibling(s.leases, s.stored[k], s.networks) {
      SiblingAlreadyOwns(s, a, s', boskosId, portGroup, k, n);
    }
  }

  lemma NetworksStay(s: State, a: Action, s': State, n: string)
    requires ValidPools(s.pools) && Next(s, a, s') && n in s.networks
    ensures n in s'.networks && s'.networks[n] == s.networks[n]
  {
  }

  /** What is new to the group is new to the member that has it. */
  lemma NewForMember(s: State, a: Action, s': State, boskosId: string, portGroup: string, k: string, n: string)
    requires Inv(s) && Next(s, a, s') && !GroupOwns(s, boskosId, portGroup) && MemberOwns(s', boskosId, portGroup, k)
    requires n in s'.networks && NetworkRef(n) in s'.stored[k].refs && s'.networks[n].portGroup == portGroup
    ensures !(k in s.stored && NetworkRef(n) in s.stored[k].refs)
  {
    if k in s.stored && NetworkRef(n) in s.stored[k].refs {
      StoredLease(s, k);
      NetworksStay(s, a, s', n);
      MembersKeepIdentity(s, a, s', k);
      assert MemberOwns(s, boskosId, portGroup, k);
    }
  }

  /** A network a lease did not own before comes from its own reconcile. */
  lemma NewMemberNetwork(s: State, a: Action, s': State, k: string, n: string)
    requires Inv(s) && Next(s, a, s') && k in s'.stored && NetworkRef(n) in s'.stored[k].refs
    requires !(k in s.stored && NetworkRef(n) in s.stored[k].refs)
    ensures a.Reconcile? && a.name == k && k in s.stored
  {
  }

  /** With a networked sibling, the port group of any network taken is one the group owned. */
  lemma SiblingAlreadyOwns(s: State, a: Action, s': State, boskosId: string, portGroup: string, k: string, n: string)
    requires Inv(s) && Next(s, a, s') && a.Reconcile? && a.name == k && k in s.stored && k in s'.stored
    requires HasNetworkedSibling(s.leases, s.stored[k], s.networks) && s.stored[k].boskosId == Some(boskosId)
    requires n in s.networks && s.networks[n].portGroup == portGroup
    requires NetworkRef(n) in s'.stored[k].refs && NetworkRef(n) !in s.stored[k].refs
    ensures GroupOwns(s, boskosId, portGroup)
  {
    var lease := Admit(s.stored[k], a.now);
    AdmittedOk(s, k, a.now);
    var network := NewNetworkIsEligible(s, lease, a.now, a.note, a.branch, s'.stored[k], n);
    var placed := lease.(refs := lease.refs + PoolRefsOf(a.branch.picks));
    SiblingsAmongOthers(s.leases, s.stored[k], placed, s.networks);
    EligibleGroupOwns(s, placed, boskosId, network);
  }

  lemma SiblingsAmongOthers(leases: map<string, Lease>, lease: Lease, placed: Lease, networks: map<string, Network>)
    requires placed.name == lease.name && placed.spec == lease.spec && placed.boskosId == lease.boskosId
    requires forall k :: k in leases ==> leases[k].name == k
    requires HasNetworkedSibling(leases, lease, networks)
    ensures HasNetworkedSibling(leases - {lease.name}, placed, networks)
  {
    var b :| NetworkedSibling(leases, lease, networks, b);
    assert NetworkedSibling(leases - {lease.name}, placed, networks, b);
  }

  lemma EligibleGroupOwns(s: State, lease: Lease, boskosId: string, network: Network)
    requires TablesAgree(s) && lease.boskosId == Some(boskosId) && InTable(s.networks, network)
    requires HasNetworkedSibling(s.leases - {lease.name}, lease, s.networks)
    requires Eligible(s.leases - {lease.name}, lease, s.networks, s.multiUsesSingle, network)
    ensures GroupOwns(s, boskosId, network.portGroup)
  {
    var c :| FollowsSibling(s.leases - {lease.name}, lease, s.networks, c, network);
    FollowedGroupOwns(s, lease, boskosId, c, network);
  }

  lemma FollowedGroupOwns(s: State, lease: Lease, boskosId: string, c: string, network: Network)
    requires TablesAgree(s) && lease.boskosId == Some(boskosId) && InTable(s.networks, network)
    requires FollowsSibling(s.leases - {lease.name}, lease, s.networks, c, network)
    ensures GroupOwns(s, boskosId, network.portGroup)
  {
    assert s.stored[c] == (s.leases - {lease.name})[c];
    assert SharesPortGroup(s.stored[c], s.networks, network.portGroup);
    assert MemberOwns(s, boskosId, network.portGroup, c);
  }

  // ---- One reconcile is enough -------------------------------------------------------------

  /** Fitting pools exist that complete the lease, where picking one by one finds them, and nothing
      delays it. */
  ghost predicate PoolsAtHand(s: State, lease: Lease)
    requires ValidPools(s.pools)
  {
    var held := ToSet(HeldPools(s.pools, lease.refs));
    var table := s.leases[lease.name := lease];
    && !Finished(lease) && !IsDelayed(lease, table)
    && Satisfiable(lease.spec, AllPools(s.pools))
    && Guaranteed(lease.spec, held)
    && CompletionExists(lease.spec, FittingPools(lease.spec, Figures(s.pools, table), AllPools(s.pools), held), held)
  }

  /** The lease is free to choose networks, in an inventory that names VLANs consistently. */
  ghost predicate NetworksToChoose(s: State, lease: Lease) {
    && lease.spec.networks > 0
    && NoNetworks(lease.refs)
    && !HasNetworkedSibling(s.leases - {lease.name}, lease, s.networks)
    && PortGroupFixesVlan(s.networks)
    && forall p :: p in AllPools(s.pools) ==> OneDatacenter(PoolNetworks(p, s.networks))
  }

  /** With the pools at hand, the pool loop ends with all of them. */
  lemma LoopSucceeds(s: State, lease: Lease, picks: seq<Pool>, outcome: PoolOutcome)
    requires ValidPools(s.pools) && PoolsAtHand(s, lease) && PoolStep(s, lease, picks, outcome)
    ensures outcome == AllAssigned
  {
    HeldMembers(s.pools, lease.refs);
    CompleteByRules(lease, Figures(s.pools, s.leases[lease.name := lease]), AllPools(s.pools),
        HeldPools(s.pools, lease.refs), picks, outcome);
  }

  lemma AllPoolsAssigned(s: State, lease: Lease, now: nat, note: string, branch: Branch, result: Lease)
    requires ValidPools(s.pools) && PoolsAtHand(s, lease) && Outcome(s, lease, now, note, branch, result)
    ensures branch.Assigned? && branch.outcome == AllAssigned
  {
    match branch
    case NoPoolFound(picks) => LoopSucceeds(s, lease, picks, NoPool);
    case GaveBack(picks) => LoopSucceeds(s, lease, picks, Stuck);
    case Assigned(picks, outcome, adds) => LoopSucceeds(s, lease, picks, outcome);
    case _ =>
  }

  lemma FreelyChosen(s: State, lease: Lease, picks: seq<Pool>)
    requires ValidPools(s.pools) && NetworksToChoose(s, lease) && forall p :: p in picks ==> p in AllPools(s.pools)
    ensures FreeChoice(lease.(refs := lease.refs + PoolRefsOf(picks)), s.leases - {lease.name}, s.networks,
        HeldPools(s.pools, lease.refs) + picks)
  {
    HeldMembers(s.pools, lease.refs);
    var placed := lease.(refs := lease.refs + PoolRefsOf(picks));
    var others := s.leases - {lease.name};
    assert forall k :: NetworkedSibling(others, placed, s.networks, k) <==>
        NetworkedSibling(others, lease, s.networks, k);
    forall p | p in HeldPools(s.pools, lease.refs) + picks ensures OneDatacenter(PoolNetworks(p, s.networks)) {
      assert p in AllPools(s.pools);
    }
  }

  /** In step with a full first pool, every pool is full, and the decision is that the lease is
      complete. */
  lemma InStepIsComplete(s: State, lease: Lease, held: seq<Pool>, refs: seq<OwnerRef>, v: Verdict)
    requires held != [] && |held| == RequiredPools(lease.spec) && lease.spec.networks > 0
    requires InStep(s.networks, held, refs) && NetworksIn(s.networks, refs, held[0]) >= lease.spec.networks
    requires VerdictIs(lease.spec, s.networks, held, refs, v)
    ensures v == Complete
  {
  }

  /** The lease could be given the pool, or a sibling uses it. */
  ghost predicate MattersTo(s: State, lease: Lease, p: Pool) {
    Structural(lease.spec, p) || p in SiblingPools(s.pools, LivingOthers(s, lease), lease)
  }

  /** The pools that can matter to the lease all offer a network of the port group. */
  ghost predicate OfferedWidely(s: State, lease: Lease, portGroup: string) {
    forall p :: p in AllPools(s.pools) && MattersTo(s, lease, p) ==>
      OffersPortGroup(p, lease.spec.networkType, s.multiUsesSingle, s.networks, s.leases[lease.name := lease],
          portGroup)
  }

  /** There are as many widely offered VLANs as the lease wants networks. */
  ghost predicate EnoughVlans(s: State, lease: Lease, vlans: set<string>) {
    && |vlans| >= lease.spec.networks
    && forall v :: v in vlans ==> exists g :: CarriesVlan(s.networks, g, v) && OfferedWidely(s, lease, g)
  }

  ghost predicate CarriesVlan(networks: map<string, Network>, portGroup: string, vlan: string) {
    exists k :: k in networks && networks[k].portGroup == portGroup && networks[k].vlan == vlan
  }

  /** When the pools are at hand, the networks free to choose and enough VLANs widely offered, one
      reconcile fulfils the lease, whatever pools and networks it happens to pick. */
  lemma OneReconcileFulfils(s: State, a: Action, s': State, vlans: set<string>)
    requires Inv(s) && Next(s, a, s') && a.Reconcile?
    requires var lease := Admit(s.stored[a.name], a.now);
             PoolsAtHand(s, lease) && NetworksToChoose(s, lease) && EnoughVlans(s, lease, vlans)
    ensures s'.stored[a.name].status.phase == Fulfilled
  {
    var lease, result := Admit(s.stored[a.name], a.now), s'.stored[a.name];
    AdmittedOk(s, a.name, a.now);
    AllPoolsAssigned(s, lease, a.now, a.note, a.branch, result);
    OneAssignmentFulfils(s, lease, a.now, a.note, a.branch.picks, a.branch.adds, result, vlans);
  }

  lemma PlacedIsServed(s: State, lease: Lease, picks: seq<Pool>, adds: seq<Network>, vlans: set<string>)
    requires ValidPools(s.pools) && PoolsPlaced(s, lease, picks) && HeldPools(s.pools, lease.refs) + picks != []
    requires NetworksToChoose(s, lease) && EnoughVlans(s, lease, vlans) && NetworkStep(s, lease, picks, adds)
    ensures var held := HeldPools(s.pools, lease.refs) + picks;
            NetworksIn(s.networks, lease.refs + PoolRefsOf(picks) + NetworkRefsOf(adds), held[0]) >= lease.spec.networks
  {
    var held := HeldPools(s.pools, lease.refs) + picks;
    var placed := lease.(refs := lease.refs + PoolRefsOf(picks));
    var others, siblings := s.leases - {lease.name}, SiblingPools(s.pools, LivingOthers(s, lease), lease);
    FreelyChosen(s, lease, picks);
    VlansAreCommon(s, lease, picks, vlans);
    EnoughCommonVlans(placed, others, s.networks, s.multiUsesSingle, held, siblings, adds, vlans);
  }

  lemma VlansAreCommon(s: State, lease: Lease, picks: seq<Pool>, vlans: set<string>)
    requires ValidPools(s.pools) && PoolsPlaced(s, lease, picks) && HeldPools(s.pools, lease.refs) + picks != []
    requires PortGroupFixesVlan(s.networks) && EnoughVlans(s, lease, vlans)
    ensures forall v :: v in vlans ==>
              CommonVlan(lease.(refs := lease.refs + PoolRefsOf(picks)), s.leases - {lease.name}, s.networks,
                  s.multiUsesSingle, HeldPools(s.pools, lease.refs) + picks,
                  SiblingPools(s.pools, LivingOthers(s, lease), lease), v)
  {
    var held := HeldPools(s.pools, lease.refs) + picks;
    var placed := lease.(refs := lease.refs + PoolRefsOf(picks));
    var others, siblings := s.leases - {lease.name}, SiblingPools(s.pools, LivingOthers(s, lease), lease);
    HeldMembers(s.pools, lease.refs);
    forall v | v in vlans ensures CommonVlan(placed, others, s.networks, s.multiUsesSingle, held, siblings, v) {
      VlanIsCommon(s, lease, picks, held, siblings, v);
    }
  }

  /** A widely offered port group is common to the pools the lease was given. */
  lemma VlanIsCommon(s: State, lease: Lease, picks: seq<Pool>, held: seq<Pool>, siblings: set<Pool>, vlan: string)
    requires held != [] && PortGroupFixesVlan(s.networks)
    requires siblings == SiblingPools(s.pools, LivingOthers(s, lease), lease)
    requires forall p :: p in ToSet(held) + siblings ==>
        p in AllPools(s.pools) && (Structural(lease.spec, p) || p in siblings)
    requires exists g :: CarriesVlan(s.networks, g, vlan) && OfferedWidely(s, lease, g)
    ensures CommonVlan(lease.(refs := lease.refs + PoolRefsOf(picks)), s.leases - {lease.name}, s.networks,
        s.multiUsesSingle, held, siblings, vlan)
  {
    var placed := lease.(refs := lease.refs + PoolRefsOf(picks));
    var others := s.leases - {lease.name};
    var g :| CarriesVlan(s.networks, g, vlan) && OfferedWidely(s, lease, g);
    forall p | p in ToSet(held) + siblings
      ensures OffersPortGroup(p, lease.spec.networkType, s.multiUsesSingle, s.networks,
          TableWith(others, placed, placed.refs), g)
    {
      OfferedWhenPlaced(s, lease, picks, p, g);
    }
    assert OffersPortGroup(held[0], lease.spec.networkType, s.multiUsesSingle, s.networks,
        TableWith(others, placed, placed.refs), g) by {
      assert held[0] in ToSet(held) + siblings;
    }
    var n :| Offered(held[0], lease.spec.networkType, s.multiUsesSingle, s.networks,
        TableWith(others, placed, placed.refs), n) && n.portGroup == g;
    var k :| k in s.networks && s.networks[k].portGroup == g && s.networks[k].vlan == vlan;
    assert n.name in s.networks && n.vlan == vlan;
  }

  /** New pools take no networks off the market. */
  lemma OfferedWhenPlaced(s: State, lease: Lease, picks: seq<Pool>, p: Pool, portGroup: string)
    requires OffersPortGroup(p, lease.spec.networkType, s.multiUsesSingle, s.networks, s.leases[lease.name := lease],
        portGroup)
    ensures var placed := lease.(refs := lease.refs + PoolRefsOf(picks));
            OffersPortGroup(p, lease.spec.networkType, s.multiUsesSingle, s.networks,
                TableWith(s.leases - {lease.name}, placed, placed.refs), portGroup)
  {
    var placed := lease.(refs := lease.refs + PoolRefsOf(picks));
    var others := s.leases - {lease.name};
    assert TableWith(others, lease, lease.refs) == s.leases[lease.name := lease];
    var n :| Offered(p, lease.spec.networkType, s.multiUsesSingle, s.networks, s.leases[lease.name := lease], n)
        && n.portGroup == portGroup;
    FreeAmongOthers(others, lease, lease.refs, n.name);
    FreeAmongOthers(others, placed, placed.refs, n.name);
  }

  /** A full first pool, the others in step with it: the decision can only be that all is there. */
  lemma OneAssignmentFulfils(s: State, lease: Lease, now: nat, note: string, picks: seq<Pool>, adds: seq<Network>,
      result: Lease, vlans: set<string>)
    requires ValidPools(s.pools) && LeaseOk(s.pools, s.networks, lease)
    requires NetworksToChoose(s, lease) && EnoughVlans(s, lease, vlans)
    requires PoolStep(s, lease, picks, AllAssigned) && AssignStep(s, lease, now, note, picks, adds, result)
    ensures result.status.phase == Fulfilled
  {
    PoolsArePlaced(s, lease, picks, AllAssigned);
    AllPoolsHeld(s, lease, picks);
    PlacedIsServed(s, lease, picks, adds, vlans);
    PlacedInStep(s, lease, picks, adds);
    CompleteIsFulfilled(s, lease, now, note, HeldPools(s.pools, lease.refs) + picks,
                        lease.refs + PoolRefsOf(picks) + NetworkRefsOf(adds), result);
  }

  lemma AllPoolsHeld(s: State, lease: Lease, picks: seq<Pool>)
    requires ValidPools(s.pools) && PoolStep(s, lease, picks, AllAssigned)
    ensures |HeldPools(s.pools, lease.refs) + picks| == RequiredPools(lease.spec)
  {
    AllAssignedIsFull(lease, Figures(s.pools, s.leases[lease.name := lease]), AllPools(s.pools),
        HeldPools(s.pools, lease.refs), picks);
  }

  lemma PlacedInStep(s: State, lease: Lease, picks: seq<Pool>, adds: seq<Network>)
    requires ValidPools(s.pools) && PoolsPlaced(s, lease, picks) && HeldPools(s.pools, lease.refs) + picks != []
    requires NetworksToChoose(s, lease) && NetworkStep(s, lease, picks, adds)
    ensures InStep(s.networks, HeldPools(s.pools, lease.refs) + picks,
        lease.refs + PoolRefsOf(picks) + NetworkRefsOf(adds))
  {
    FreelyChosen(s, lease, picks);
  }

  lemma CompleteIsFulfilled(s: State, lease: Lease, now: nat, note: string, held: seq<Pool>, refs: seq<OwnerRef>,
      result: Lease)
    requires held != [] && |held| == RequiredPools(lease.spec) && lease.spec.networks > 0
    requires InStep(s.networks, held, refs) && NetworksIn(s.networks, refs, held[0]) >= lease.spec.networks
    requires Concluded(s.networks, lease, now, note, held, refs, result)
    ensures result.status.phase == Fulfilled
  {
    var v :| VerdictIs(lease.spec, s.networks, held, refs, v)
          && result == lease.(refs := refs, status := StatusAfter(lease, held, v, now, note));
    InStepIsComplete(s, lease, held, refs, v);
  }
}
