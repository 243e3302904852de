/**
 What becomes of the pools of a lease that does not get all it asked for (pkg/controller/leases.go,
 1216-1317): when it keeps them and waits, and when it gives everything back. Stated over runs, of the
 stored leases and of what they leave free.
 */
module Releases {
  import opened Types
  import opened Combinations
  import opened Scheduling
  import opened PoolLoop
  import opened Accounting
  import opened NetworkAssignment
  import opened LeaseStates
  import opened Lifecycle
  import opened Invariants
  import opened Theorems

  /** The pools that the lease does not have, that match it, and in which the stored leases leave room
      for its request. */
  ghost function OpenPools(s: State, spec: LeaseSpec, now: set<Pool>): set<Pool> {
    set p | p in AllPools(s.pools) && p !in now && Structural(spec, p)
          && Used(s.stored, p.name, Cpu) + spec.vcpus <= p.capacity
          && Used(s.stored, p.name, Memory) + spec.memory <= p.memory
  }

  /** A vCenter rule is in the way of a capped lease that has `now`: the cap is used up; or the minimum is
      met, more pools are missing than vCenters may still be opened, and some unused vCenter has less than
      an even share of them open. */
  ghost predicate InTheWay(s: State, spec: LeaseSpec, now: set<Pool>) {
    var missing := (if spec.pools == 0 then 1 else spec.pools) - |now|;
    var unopened := spec.vcenters - |ServersOf(now)|;
    && spec.vcenters > 0
    && (|| unopened <= 0
        || (&& |ServersOf(now)| >= spec.minVCenters && missing > unopened
            && exists p :: p in AllPools(s.pools) && p !in now && p.server !in ServersOf(now)
                        && CountOn(OpenPools(s, spec, now), p.server) * unopened < missing))
  }

  /** What a reconcile that came past the delay gate had to go on with: the pools of the lease and those
      it has just picked. */
  ghost function AtHand(s: State, a: Action): set<Pool>
    requires a.Reconcile? && a.name in s.stored && PastGate(a.branch)
  {
    ToSet(HeldPools(s.pools, s.stored[a.name].refs) + a.branch.picks)
  }

  ghost predicate PastGate(branch: Branch) {
    branch.NoPoolFound? || branch.GaveBack? || branch.Assigned?
  }

  ghost predicate KeepsAll(now: set<Pool>, refs: seq<OwnerRef>) {
    forall p :: p in now ==> PoolRef(p.name) in refs
  }

  // ---- One reconcile -----------------------------------------------------------------------

  /** The figures of the controller are those of the stored leases. */
  lemma OpenIsFitting(s: State, lease: Lease, now: set<Pool>)
    requires Inv(s) && lease.name in s.stored
    requires lease.name in s.leases ==> s.leases[lease.name] == lease
    requires lease.name !in s.leases ==> HoldsNothing(lease)
    ensures FittingPools(lease.spec, Figures(s.pools, s.leases[lease.name := lease]), AllPools(s.pools), now) ==
        OpenPools(s, lease.spec, now)
  {
    forall n, r ensures Used(s.leases[lease.name := lease], n, r) == Used(s.stored, n, r) {
      UsedWhenAdmitted(s, lease, n, r);
      IdleLeasesTakeNothing(s.stored, s.leases, n, r);
    }
  }

  lemma OutcomeOfStep(s: State, lease: Lease, picks: seq<Pool>, outcome: PoolOutcome)
    requires Inv(s) && lease.name in s.stored && PoolStep(s, lease, picks, outcome)
    requires lease.name in s.leases ==> s.leases[lease.name] == lease
    requires lease.name !in s.leases ==> HoldsNothing(lease)
    ensures var now := ToSet(HeldPools(s.pools, lease.refs) + picks);
            var missing := (if lease.spec.pools == 0 then 1 else lease.spec.pools) - |now|;
            && (outcome == AllAssigned <==> missing <= 0)
            && (outcome == NoPool <==>
                  missing > 0 && (now == {} || (lease.spec.vcenters <= 0 && lease.spec.minVCenters <= 0)))
            && (outcome == Stuck <==> missing > 0 && now != {} && InTheWay(s, lease.spec, now))
  {
    var now := ToSet(HeldPools(s.pools, lease.refs) + picks);
    AtHandNamed(s, lease, picks, outcome);
    OutcomeIsFinalHere(s, lease, picks, outcome);
    OutcomeByNumbers(lease.spec, OpenPools(s, lease.spec, now), AllPools(s.pools), now, outcome);
    assert AllPools(s.pools) - now == set p | p in AllPools(s.pools) && p !in now;
  }

  lemma OutcomeIsFinalHere(s: State, lease: Lease, picks: seq<Pool>, outcome: PoolOutcome)
    requires Inv(s) && lease.name in s.stored && PoolStep(s, lease, picks, outcome)
    requires lease.name in s.leases ==> s.leases[lease.name] == lease
    requires lease.name !in s.leases ==> HoldsNothing(lease)
    ensures var now := ToSet(HeldPools(s.pools, lease.refs) + picks);
            outcome == FinalOutcome(lease.spec, OpenPools(s, lease.spec, now), AllPools(s.pools), now)
  {
    OpenIsFitting(s, lease, ToSet(HeldPools(s.pools, lease.refs) + picks));
  }

  lemma AtHandNamed(s: State, lease: Lease, picks: seq<Pool>, outcome: PoolOutcome)
    requires ValidPools(s.pools) && PoolStep(s, lease, picks, outcome)
    ensures forall p :: p in ToSet(HeldPools(s.pools, lease.refs) + picks) ==> p in AllPools(s.pools) && p.server != ""
  {
    HeldMembers(s.pools, lease.refs);
    forall p | p in picks ensures p in AllPools(s.pools) {
      assert p in ToSet(picks);
    }
  }

  lemma ResultByBranch(s: State, lease: Lease, now: nat, note: string, branch: Branch, result: Lease)
    requires ValidPools(s.pools) && Outcome(s, lease, now, note, branch, result) && PastGate(branch)
    ensures !Finished(lease) && Satisfiable(lease.spec, AllPools(s.pools))
    ensures branch.NoPoolFound? ==> PoolStep(s, lease, branch.picks, NoPool) && result.refs == lease.refs
    ensures branch.GaveBack? ==> PoolStep(s, lease, branch.picks, Stuck) && result.refs == OtherRefs(lease.refs)
    ensures branch.Assigned? ==>
              && PoolStep(s, lease, branch.picks, branch.outcome) && branch.outcome in {AllAssigned, Waiting}
              && result.refs == lease.refs + PoolRefsOf(branch.picks) + NetworkRefsOf(branch.adds)
  {
  }

  lemma AllIsKept(pools: map<string, Pool>, refs: seq<OwnerRef>, picks: seq<Pool>, adds: seq<Network>)
    requires ValidPools(pools)
    ensures KeepsAll(ToSet(HeldPools(pools, refs) + picks), refs + PoolRefsOf(picks) + NetworkRefsOf(adds))
  {
    HeldMembers(pools, refs);
    forall p | p in picks ensures PoolRef(p.name) in PoolRefsOf(picks) {
      var i :| 0 <= i < |picks| && picks[i] == p;
      assert PoolRefsOf(picks)[i] == PoolRef(p.name);
    }
  }

  lemma StepDecides(s: State, a: Action, s': State)
    requires Inv(s) && Next(s, a, s') && a.Reconcile? && PastGate(a.branch)
    ensures a.name in s.stored && a.name in s'.stored
    ensures Decided(s, a, s')
  {
    var lease, result := Admit(s.stored[a.name], a.now), s'.stored[a.name];
    AdmittedOk(s, a.name, a.now);
    ResultByBranch(s, lease, a.now, a.note, a.branch, result);
    var picks := a.branch.picks;
    OutcomeOfStep(s, lease, picks,
        if a.branch.NoPoolFound? then NoPool else if a.branch.GaveBack? then Stuck else a.branch.outcome);
    if a.branch.Assigned? {
      AllIsKept(s.pools, lease.refs, picks, a.branch.adds);
    }
    OtherRefsOnly(lease.refs);
  }

  /** What the reconcile made of the lease, decided by what it had at hand. */
  ghost predicate Decided(s: State, a: Action, s': State)
    requires a.Reconcile? && PastGate(a.branch) && a.name in s.stored && a.name in s'.stored
  {
    var spec, refs, refs' := s.stored[a.name].spec, s.stored[a.name].refs, s'.stored[a.name].refs;
    var now := AtHand(s, a);
    var short := |now| < (if spec.pools == 0 then 1 else spec.pools);
    if short && (now == {} || (spec.vcenters <= 0 && spec.minVCenters <= 0)) then refs' == refs
    else if short && InTheWay(s, spec, now) then forall r :: r in refs' <==> r in refs && r.OtherRef?
    else refs <= refs' && KeepsAll(now, refs')
  }

  // ---- All runs ----------------------------------------------------------------------------

  /** In every run a reconcile past the delay gate leaves the lease with all pools at hand when they are
      all it asked for, or when it falls short and no vCenter rule is in the way; it releases everything
      exactly when it falls short and a rule is in the way; and it changes nothing when there is nothing
      at hand, or the lease falls short and wishes for no particular spread. */
  lemma KeepsOrGivesBack(states: seq<State>, actions: seq<Action>, i: nat)
    requires Run(states, actions) && i < |actions| && actions[i].Reconcile? && PastGate(actions[i].branch)
    ensures actions[i].name in states[i].stored && actions[i].name in states[i + 1].stored
    ensures Decided(states[i], actions[i], states[i + 1])
  {
    InvAlways(states, actions, i);
    assert StepAt(states, actions, i);
    StepDecides(states[i], actions[i], states[i + 1]);
  }

  lemma GivesBackInBranch(s: State, lease: Lease, now: nat, note: string, branch: Branch, result: Lease, r: OwnerRef)
    requires ValidPools(s.pools) && Outcome(s, lease, now, note, branch, result)
    requires r in lease.refs && r !in result.refs
    ensures branch.GaveBack? || (branch.Unsatisfiable? && !Satisfiable(lease.spec, AllPools(s.pools)))
  {
  }

  /** A lease loses a reference only in its own reconcile, and if it can be satisfied only under a cap: its
      pools, with those just picked, span the cap; or they span the minimum, more pools are missing than
      vCenters may still be opened, and some unused vCenter has less than an even share of them open. So a
      lease whose minimum is pending below the cap loses nothing. */
  lemma LosesOnlyUnderCap(states: seq<State>, actions: seq<Action>, i: nat, k: string, r: OwnerRef)
    requires Run(states, actions) && i < |actions| && k in states[i].stored && k in states[i + 1].stored
    requires r in states[i].stored[k].refs && r !in states[i + 1].stored[k].refs
    ensures actions[i].Reconcile? && actions[i].name == k
    ensures Satisfiable(states[i].stored[k].spec, AllPools(states[i].pools)) ==>
              && PastGate(actions[i].branch)
              && var s, spec, now := states[i], states[i].stored[k].spec, AtHand(states[i], actions[i]);
                 var missing := (if spec.pools == 0 then 1 else spec.pools) - |now|;
                 var unopened := spec.vcenters - |ServersOf(now)|;
                 && spec.vcenters > 0 && missing > 0
                 && (|| |ServersOf(now)| >= spec.vcenters
                     || (&& |ServersOf(now)| >= spec.minVCenters && missing > unopened
                         && exists p :: p in AllPools(s.pools) && p !in now && p.server !in ServersOf(now)
                                     && CountOn(OpenPools(s, spec, now), p.server) * unopened < missing))
  {
    RunStepLoses(states, actions, i, k, r);
  }

  lemma RunStepLoses(states: seq<State>, actions: seq<Action>, i: nat, k: string, r: OwnerRef)
    requires Run(states, actions) && i < |actions| && k in states[i].stored && k in states[i + 1].stored
    requires r in states[i].stored[k].refs && r !in states[i + 1].stored[k].refs
    ensures actions[i].Reconcile? && actions[i].name == k
    ensures Satisfiable(states[i].stored[k].spec, AllPools(states[i].pools)) ==> PressedByCap(states[i], actions[i])
  {
    InvAlways(states, actions, i);
    assert StepAt(states, actions, i);
    StepLoses(states[i], actions[i], states[i + 1], k, r);
  }

  /** The reconciled lease falls short, and a vCenter rule is in the way. */
  ghost predicate PressedByCap(s: State, a: Action) {
    && a.Reconcile? && a.name in s.stored && PastGate(a.branch)
    && InTheWay(s, s.stored[a.name].spec, AtHand(s, a))
    && |AtHand(s, a)| < (if s.stored[a.name].spec.pools == 0 then 1 else s.stored[a.name].spec.pools)
  }

  lemma StepLoses(s: State, a: Action, s': State, k: string, r: OwnerRef)
    requires Inv(s) && Next(s, a, s') && k in s.stored && k in s'.stored
    requires r in s.stored[k].refs && r !in s'.stored[k].refs
    ensures a.Reconcile? && a.name == k
    ensures Satisfiable(s.stored[k].spec, AllPools(s.pools)) ==> PressedByCap(s, a)
  {
    OwnershipChanges(s, a, s', k);
    AdmittedOk(s, k, a.now);
    GivesBackInBranch(s, Admit(s.stored[k], a.now), a.now, a.note, a.branch, s'.stored[k], r);
    if a.branch.GaveBack? {
      StepDecides(s, a, s');
      assert Decided(s, a, s');
    }
  }

  lemma KeepsRefs(states: seq<State>, actions: seq<Action>, i: nat, k: string)
    requires Run(states, actions) && i < |actions| && k in states[i].stored && k in states[i + 1].stored
    requires Satisfiable(states[i].stored[k].spec, AllPools(states[i].pools)) && states[i].stored[k].spec.vcenters <= 0
    ensures forall r :: r in states[i].stored[k].refs ==> r in states[i + 1].stored[k].refs
  {
    forall r | r in states[i].stored[k].refs ensures r in states[i + 1].stored[k].refs {
      if r !in states[i + 1].stored[k].refs {
        LosesOnlyUnderCap(states, actions, i, k, r);
        assert false;
      }
    }
  }

  /** A lease without a cap that can be satisfied never loses a pool or a network until it is deleted. */
  lemma {:induction false} UncappedLosesNothing(states: seq<State>, actions: seq<Action>, i: nat, j: nat, k: string)
    requires Run(states, actions) && i <= j < |states| && NotDeleted(actions, i, j, k)
    requires k in states[i].stored && states[i].stored[k].spec.vcenters <= 0
    requires Satisfiable(states[i].stored[k].spec, AllPools(states[i].pools))
    ensures k in states[j].stored && states[j].stored[k].spec == states[i].stored[k].spec
    ensures forall r :: r in states[i].stored[k].refs ==> r in states[j].stored[k].refs
    decreases j
  {
    if i < j {
      UncappedLosesNothing(states, actions, i, j - 1, k);
      InventoryGrows(states, actions, i, j - 1);
      SatisfiableMonotone(states[i].stored[k].spec, AllPools(states[i].pools), AllPools(states[j - 1].pools));
      StaysStored(states, actions, j - 1, k);
      FailsOnlyWhenUnsatisfiable(states, actions, j - 1, k);
      KeepsRefs(states, actions, j - 1, k);
    }
  }
}
