/**
 What becomes of a stranded lease over time. When it is stuck it gives its pools back to try again
 (pkg/controller/leases.go, 1228-1284); as long as the inventory and the free shares keep their shape,
 trying again leads to the same pools, and the lease is never fulfilled.
 */
module Stranded {
  import opened Types
  import opened Combinations
  import opened Scheduling
  import opened Completion
  import opened PoolLoop
  import opened Accounting
  import opened LeaseStates
  import opened Lifecycle
  import opened Invariants
  import opened Theorems
  import opened Limits

  /** The pools, and what the other leases leave of them, strand lease `k`. */
  ghost predicate SceneAt(s: State, k: string, large: set<Pool>, singles: set<Pool>) {
    && k in s.stored && AllPools(s.pools) == large + singles
    && Scene(s.stored[k].spec, large, singles)
    && SinglesFirst(s.stored[k].spec, Figures(s.pools, s.leases - {k}), large, singles)
  }

  /** The lease has nothing and is not finished. */
  ghost predicate Waits(s: State, k: string) {
    k in s.stored && HoldsNothing(s.stored[k]) && !Finished(s.stored[k])
  }

  /** What a reconcile of the lease does: it waits its turn, or takes the single pools and gives
      everything back. */
  ghost predicate InVain(branch: Branch, singles: set<Pool>) {
    branch.HeldBack? || (branch.GaveBack? && singles <= ToSet(branch.picks))
  }

  // ---- One reconcile -----------------------------------------------------------------------

  /** A lease that holds nothing does not count in the figures. */
  lemma FiguresWithout(pools: map<string, Pool>, leases: map<string, Lease>, k: string, lease: Lease)
    requires HoldsNothing(lease)
    ensures Figures(pools, leases[k := lease]) == Figures(pools, leases - {k})
  {
    assert leases[k := lease] == (leases - {k})[k := lease];
    FiguresOfRest(pools, leases - {k}, k, lease);
  }

  lemma FiguresOfRest(pools: map<string, Pool>, rest: map<string, Lease>, k: string, lease: Lease)
    requires k !in rest && HoldsNothing(lease)
    ensures Figures(pools, rest[k := lease]) == Figures(pools, rest)
  {
    var all := rest[k := lease];
    forall n | n in pools ensures Figure(pools[n], all, n) == Figure(pools[n], rest, n) {
      FigureOfRest(pools[n], rest, k, lease, n);
    }
    FiguresAgree(pools, all, rest);
  }

  lemma FiguresAgree(pools: map<string, Pool>, a: map<string, Lease>, b: map<string, Lease>)
    requires forall n :: n in pools ==> Figure(pools[n], a, n) == Figure(pools[n], b, n)
    ensures Figures(pools, a) == Figures(pools, b)
  {
  }

  lemma FigureOfRest(pool: Pool, rest: map<string, Lease>, k: string, lease: Lease, n: string)
    requires k !in rest && HoldsNothing(lease)
    ensures Figure(pool, rest[k := lease], n) == Figure(pool, rest, n)
  {
    UsedWith(rest, k, lease, n, Cpu);
    UsedWith(rest, k, lease, n, Memory);
    HoldersWith(rest, k, lease, n);
  }

  lemma SatisfiableInScene(spec: LeaseSpec, status: map<string, PoolStatus>, large: set<Pool>, singles: set<Pool>)
    requires Scene(spec, large, singles) && SinglesFirst(spec, status, large, singles)
    ensures Satisfiable(spec, large + singles)
  {
    CompletionInScene(spec, status, large, singles);
    CompletionSatisfies(spec, FittingPools(spec, status, large + singles, {}), large + singles);
  }

  lemma CompletionSatisfies(spec: LeaseSpec, f: set<Pool>, pools: set<Pool>)
    requires f <= StructuralPools(spec, pools) && CompletionExists(spec, f, {})
    ensures Satisfiable(spec, pools)
  {
    var s :| s <= f && Spread({} + s, RequiredPools(spec), spec.minVCenters, spec.vcenters);
    assert {} + s == s;
  }

  /** The pool loop of the lease, whatever it does, ends stuck with the single pools. */
  lemma LoopInVain(s: State, lease: Lease, large: set<Pool>, singles: set<Pool>, picks: seq<Pool>, outcome: PoolOutcome)
    requires ValidPools(s.pools) && HoldsNothing(lease) && AllPools(s.pools) == large + singles
    requires Scene(lease.spec, large, singles)
    requires SinglesFirst(lease.spec, Figures(s.pools, s.leases - {lease.name}), large, singles)
    requires PoolStep(s, lease, picks, outcome)
    ensures outcome == Stuck && singles <= ToSet(picks)
  {
    HeldOfNone(s.pools, lease.refs);
    FiguresWithout(s.pools, s.leases, lease.name, lease);
    var status := Figures(s.pools, s.leases - {lease.name});
    PendingMinimumStrands(lease, status, large, singles, picks, outcome);
    StartedEmpty(lease, status, large + singles, picks, outcome);
    SinglesAllTaken(lease.spec, status, large, singles, picks, outcome);
  }

  lemma OutcomeInVain(s: State, lease: Lease, now: nat, note: string, branch: Branch, result: Lease, large: set<Pool>,
      singles: set<Pool>)
    requires ValidPools(s.pools) && HoldsNothing(lease) && !Finished(lease) && AllPools(s.pools) == large + singles
    requires Scene(lease.spec, large, singles)
    requires SinglesFirst(lease.spec, Figures(s.pools, s.leases - {lease.name}), large, singles)
    requires Outcome(s, lease, now, note, branch, result)
    ensures HoldsNothing(result) && !Finished(result) && result.spec == lease.spec && InVain(branch, singles)
  {
    SatisfiableInScene(lease.spec, Figures(s.pools, s.leases - {lease.name}), large, singles);
    OtherRefsOnly(lease.refs);
    match branch
    case NoPoolFound(picks) => LoopInVain(s, lease, large, singles, picks, NoPool);
    case GaveBack(picks) => LoopInVain(s, lease, large, singles, picks, Stuck);
    case Assigned(picks, outcome, adds) => LoopInVain(s, lease, large, singles, picks, outcome);
    case _ =>
  }

  lemma ReconcileFrame(s: State, a: Action, s': State)
    requires ValidPools(s.pools) && a.Reconcile? && Next(s, a, s')
    ensures a.name in s'.stored && s'.pools == s.pools && s'.leases - {a.name} == s.leases - {a.name}
  {
    assert s'.leases - {a.name} == s.leases - {a.name};
  }

  lemma SceneLasts(s: State, s': State, k: string, large: set<Pool>, singles: set<Pool>)
    requires SceneAt(s, k, large, singles) && SameFor(s, s', k)
    ensures SceneAt(s', k, large, singles)
  {
  }

  /** A reconcile of the stranded lease changes nothing for it. */
  lemma ReconcileInVain(s: State, a: Action, s': State, large: set<Pool>, singles: set<Pool>)
    requires Inv(s) && a.Reconcile? && Next(s, a, s')
    requires SceneAt(s, a.name, large, singles) && Waits(s, a.name)
    ensures SceneAt(s', a.name, large, singles) && Waits(s', a.name) && InVain(a.branch, singles)
  {
    ReconcileFrame(s, a, s');
    OwnStepInVain(s, a, s', large, singles);
    SceneLasts(s, s', a.name, large, singles);
  }

  lemma OwnStepInVain(s: State, a: Action, s': State, large: set<Pool>, singles: set<Pool>)
    requires Inv(s) && a.Reconcile? && Next(s, a, s')
    requires SceneAt(s, a.name, large, singles) && Waits(s, a.name)
    ensures Waits(s', a.name) && s'.stored[a.name].spec == s.stored[a.name].spec && InVain(a.branch, singles)
  {
    AdmittedOk(s, a.name, a.now);
    OutcomeInVain(s, Admit(s.stored[a.name], a.now), a.now, a.note, a.branch, s'.stored[a.name], large, singles);
  }

  // ---- Whole runs --------------------------------------------------------------------------

  lemma OtherStepKeeps(s: State, a: Action, s': State, k: string)
    requires ValidPools(s.pools) && Next(s, a, s') && k in s.stored && a != Delete(k) && !(a.Reconcile? && a.name == k)
    ensures k in s'.stored && s'.stored[k] == s.stored[k]
  {
  }

  lemma StepInVain(states: seq<State>, actions: seq<Action>, i: nat, k: string, large: set<Pool>, singles: set<Pool>)
    requires Run(states, actions) && i < |actions| && actions[i] != Delete(k)
    requires SceneAt(states[i], k, large, singles) && Waits(states[i], k)
    ensures Waits(states[i + 1], k)
    ensures actions[i].Reconcile? && actions[i].name == k ==>
              SceneAt(states[i + 1], k, large, singles) && InVain(actions[i].branch, singles)
  {
    InvAlways(states, actions, i);
    assert StepAt(states, actions, i);
    if actions[i].Reconcile? && actions[i].name == k {
      ReconcileInVain(states[i], actions[i], states[i + 1], large, singles);
    } else {
      OtherStepKeeps(states[i], actions[i], states[i + 1], k);
    }
  }

  /** What each step from `i` to `j` keeps holds at `j`. */
  lemma {:induction false} KeptUpTo(holds: seq<bool>, i: nat, j: nat)
    requires i <= j < |holds| && holds[i] && forall x :: i <= x < j && holds[x] ==> holds[x + 1]
    ensures holds[j]
    decreases j
  {
    if i < j {
      KeptUpTo(holds, i, j - 1);
    }
  }

  ghost predicate WaitsAt(states: seq<State>, x: nat, k: string) {
    x < |states| && Waits(states[x], k)
  }

  lemma WaitsOn(states: seq<State>, i: nat, j: nat, k: string)
    requires i <= j && WaitsAt(states, i, k)
    requires forall x: nat :: i <= x < j && WaitsAt(states, x, k) ==> WaitsAt(states, x + 1, k)
    ensures WaitsAt(states, j, k)
  {
    KeptUpTo(seq(j + 1, x requires 0 <= x <= j => WaitsAt(states, x, k)), i, j);
  }

  /** Whatever else happens, as long as the scene lasts the lease gets nothing and is not fulfilled. */
  lemma NeverFulfilledInScene(states: seq<State>, actions: seq<Action>, i: nat, j: nat, k: string, large: set<Pool>,
      singles: set<Pool>)
    requires Run(states, actions) && i <= j < |states| && NotDeleted(actions, i, j, k) && Waits(states[i], k)
    requires forall x :: i <= x < j ==> SceneAt(states[x], k, large, singles)
    ensures Waits(states[j], k)
  {
    forall x: nat | i <= x < j && WaitsAt(states, x, k) ensures WaitsAt(states, x + 1, k) {
      StepInVain(states, actions, x, k, large, singles);
    }
    WaitsOn(states, i, j, k);
  }

  /** Only lease `k` is reconciled between `i` and `j`. */
  ghost predicate OnlyReconciles(actions: seq<Action>, i: nat, j: nat, k: string) {
    forall x :: i <= x < j && x < |actions| ==> actions[x].Reconcile? && actions[x].name == k
  }

  /** For lease `k` the states differ in nothing that its pools depend on. */
  ghost predicate SameFor(s: State, s': State, k: string) {
    && k in s.stored && k in s'.stored && s'.stored[k].spec == s.stored[k].spec
    && s'.pools == s.pools && s'.leases - {k} == s.leases - {k}
  }

  lemma {:induction false} FrameLasts(states: seq<State>, actions: seq<Action>, i: nat, j: nat, k: string)
    requires Run(states, actions) && i <= j < |states| && OnlyReconciles(actions, i, j, k) && k in states[i].stored
    ensures SameFor(states[i], states[j], k)
    decreases j
  {
    if i < j {
      FrameLasts(states, actions, i, j - 1, k);
      FrameStep(states, actions, j - 1, k);
    }
  }

  lemma FrameStep(states: seq<State>, actions: seq<Action>, x: nat, k: string)
    requires Run(states, actions) && x < |actions| && actions[x].Reconcile? && actions[x].name == k
    requires k in states[x].stored
    ensures SameFor(states[x], states[x + 1], k)
  {
    InvAlways(states, actions, x);
    assert StepAt(states, actions, x);
    ReconcileFrame(states[x], actions[x], states[x + 1]);
    MembersKeepIdentity(states[x], actions[x], states[x + 1], k);
  }

  /** Left to itself, the lease retries for ever with the same pools: after any number of reconciles it
      is where it was, and the next one is in vain too. */
  lemma RetriesForEver(states: seq<State>, actions: seq<Action>, i: nat, j: nat, k: string, large: set<Pool>,
      singles: set<Pool>)
    requires Run(states, actions) && i <= j < |states| && OnlyReconciles(actions, i, j, k)
    requires SceneAt(states[i], k, large, singles) && Waits(states[i], k)
    ensures SceneAt(states[j], k, large, singles) && Waits(states[j], k)
    ensures j < |actions| && actions[j].Reconcile? && actions[j].name == k ==> InVain(actions[j].branch, singles)
  {
    forall x | i <= x <= j ensures SceneAt(states[x], k, large, singles) {
      FrameLasts(states, actions, i, x, k);
      SceneLasts(states[i], states[x], k, large, singles);
    }
    NeverFulfilledInScene(states, actions, i, j, k, large, singles);
    if j < |actions| && actions[j].Reconcile? && actions[j].name == k {
      StepInVain(states, actions, j, k, large, singles);
    }
  }
}
