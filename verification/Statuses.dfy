/**
 What the status of a lease tells its user (pkg/controller/leases.go, 640-668, 787-836, 956-988, 1246-1312,
 1330-1336, 1606-1697): for every way a reconcile can end, which conditions are set, with which status,
 reason, severity and message, and whose failure domain is shown. Stated over runs.
 */
module Statuses {
  import opened Types
  import opened PoolLoop
  import opened Conditions
  import opened NetworkAssignment
  import opened LeaseStates
  import opened Lifecycle
  import opened Invariants
  import opened Theorems

  /** The list has an entry of the type, and it says this. */
  ghost predicate Says(list: seq<Condition>, t: string, status: ConditionStatus, reason: string, severity: string,
      message: string) {
    exists e :: e in list && e.ctype == t && e.status == status && e.reason == reason && e.severity == severity
             && e.message == message
  }

  ghost predicate SaysPlainly(list: seq<Condition>, t: string, status: ConditionStatus) {
    Says(list, t, status, "", "", "")
  }

  lemma SaysAfterApply(list: seq<Condition>, c: Condition, now: nat)
    requires StrictlySorted(list)
    ensures StrictlySorted(Apply(list, c, now))
    ensures Says(Apply(list, c, now), c.ctype, c.status, c.reason, c.severity, c.message)
    ensures forall t, st, r, se, m :: t != c.ctype ==>
              (Says(Apply(list, c, now), t, st, r, se, m) <==> Says(list, t, st, r, se, m))
  {
    ApplySorted(list, c, now);
    WriteByField(list, c, now);
  }

  /** Nothing is said otherwise than before, but of the given types. */
  ghost predicate SaysTheSame(before: seq<Condition>, after: seq<Condition>, but: set<string>) {
    forall t, st, r, se, m :: t !in but ==> (Says(after, t, st, r, se, m) <==> Says(before, t, st, r, se, m))
  }

  // ---- The statuses a reconcile can write --------------------------------------------------

  lemma AdmittedSays(status: LeaseStatus, now: nat)
    requires status.conditions == []
    ensures var after := AdmittedStatus(status, now);
            && after.phase == Pending && after.failureDomain == "pending"
            && SaysPlainly(after.conditions, "Fulfilled", False) && SaysPlainly(after.conditions, "Delayed", False)
            && SaysPlainly(after.conditions, "Pending", True) && SaysPlainly(after.conditions, "Partial", False)
  {
    var c1 := Apply([], FalseCondition(FULFILLED), now);
    var c2 := Apply(c1, FalseCondition(DELAYED), now);
    var c3 := Apply(c2, TrueCondition(PENDING), now);
    SaysAfterApply([], FalseCondition(FULFILLED), now);
    SaysAfterApply(c1, FalseCondition(DELAYED), now);
    SaysAfterApply(c2, TrueCondition(PENDING), now);
    SaysAfterApply(c3, FalseCondition(PARTIAL), now);
  }

  lemma FailedSays(status: LeaseStatus, now: nat, note: string)
    requires StrictlySorted(status.conditions)
    ensures var c := FailedStatus(status, now, note).conditions;
            && Says(c, "Fulfilled", False, "Unschedulable", "Error", note)
            && SaysPlainly(c, "Pending", False) && SaysPlainly(c, "Partial", False) && SaysPlainly(c, "Delayed", False)
  {
    var c := FalseConditionWithReason(FULFILLED, "Unschedulable", "Error", note);
    var c1 := Apply(status.conditions, c, now);
    var c2 := Apply(c1, FalseCondition(PENDING), now);
    var c3 := Apply(c2, FalseCondition(PARTIAL), now);
    SaysAfterApply(status.conditions, c, now);
    SaysAfterApply(c1, FalseCondition(PENDING), now);
    SaysAfterApply(c2, FalseCondition(PARTIAL), now);
    SaysAfterApply(c3, FalseCondition(DELAYED), now);
  }

  lemma DelayedSays(status: LeaseStatus, now: nat)
    requires StrictlySorted(status.conditions)
    ensures var c := DelayedStatus(status, now).conditions;
            && SaysPlainly(c, "Delayed", True)
            && Says(c, "Fulfilled", False, "LeaseDelayed", "Info",
                    "lease is being delayed due to presence of higher priority leases")
    ensures SaysTheSame(status.conditions, DelayedStatus(status, now).conditions, {"Fulfilled", "Delayed"})
  {
    SaysAfterApply(status.conditions, TrueCondition(DELAYED), now);
    SaysAfterApply(Apply(status.conditions, TrueCondition(DELAYED), now),
                   FalseConditionWithReason(FULFILLED, "LeaseDelayed", "Info", DELAY_NOTE), now);
  }

  lemma NoPoolSays(status: LeaseStatus, now: nat, note: string)
    requires StrictlySorted(status.conditions)
    ensures Says(NoPoolStatus(status, now, note).conditions, "Fulfilled", False, "NoAvailablePool", "Warning", note)
    ensures SaysTheSame(status.conditions, NoPoolStatus(status, now, note).conditions, {"Fulfilled"})
    ensures StrictlySorted(NotDelayedStatus(status, now).conditions)
    ensures SaysTheSame(status.conditions, NotDelayedStatus(status, now).conditions, {"Delayed"})
    ensures SaysPlainly(NoPoolStatus(NotDelayedStatus(status, now), now, note).conditions, "Delayed", False)
  {
    var c := FalseConditionWithReason(FULFILLED, "NoAvailablePool", "Warning", note);
    SaysAfterApply(status.conditions, c, now);
    SaysAfterApply(status.conditions, FalseCondition(DELAYED), now);
    SaysAfterApply(NotDelayedStatus(status, now).conditions, c, now);
  }

  lemma FulfilledSays(status: LeaseStatus, now: nat)
    requires StrictlySorted(status.conditions) && SaysPlainly(status.conditions, "Delayed", False)
    ensures var c := FulfilledStatus(status, now).conditions;
            && SaysPlainly(c, "Fulfilled", True) && SaysPlainly(c, "Pending", False)
            && SaysPlainly(c, "Partial", False) && SaysPlainly(c, "Delayed", False)
  {
    var c1 := Apply(status.conditions, TrueCondition(FULFILLED), now);
    var c2 := Apply(c1, FalseCondition(PENDING), now);
    SaysAfterApply(status.conditions, TrueCondition(FULFILLED), now);
    SaysAfterApply(c1, FalseCondition(PENDING), now);
    SaysAfterApply(c2, FalseCondition(PARTIAL), now);
  }

  lemma PartialSays(status: LeaseStatus, now: nat, note: string)
    requires StrictlySorted(status.conditions) && SaysPlainly(status.conditions, "Delayed", False)
    ensures var c := PartialStatus(status, now, note).conditions;
            && Says(c, "Fulfilled", False, "LeasePartial", "Info", note) && SaysPlainly(c, "Pending", False)
            && SaysPlainly(c, "Partial", True) && SaysPlainly(c, "Delayed", False)
  {
    var c := FalseConditionWithReason(FULFILLED, "LeasePartial", "Info", note);
    var c1 := Apply(status.conditions, FalseCondition(PENDING), now);
    var c2 := Apply(c1, c, now);
    SaysAfterApply(status.conditions, FalseCondition(PENDING), now);
    SaysAfterApply(c1, c, now);
    SaysAfterApply(c2, TrueCondition(PARTIAL), now);
  }

  // ---- One reconcile -----------------------------------------------------------------------

  /** What the user is told, by the way the reconcile ended. `before` is the status with which it began,
      that of a new lease included. */
  ghost predicate Told(s: State, before: LeaseStatus, branch: Branch, note: string, result: Lease) {
    var c := result.status.conditions;
    match branch
    case Settled => result.status == before
    case Unsatisfiable =>
      && result.status.phase == Failed && result.status.failureDomain == before.failureDomain
      && Says(c, "Fulfilled", False, "Unschedulable", "Error", note)
      && SaysPlainly(c, "Pending", False) && SaysPlainly(c, "Partial", False) && SaysPlainly(c, "Delayed", False)
    case HeldBack =>
      && result.status.phase == before.phase && result.status.failureDomain == before.failureDomain
      && SaysPlainly(c, "Delayed", True)
      && Says(c, "Fulfilled", False, "LeaseDelayed", "Info",
              "lease is being delayed due to presence of higher priority leases")
      && SaysTheSame(before.conditions, c, {"Fulfilled", "Delayed"})
    case NoPoolFound(_) =>
      && result.status.phase == before.phase && result.status.failureDomain == before.failureDomain
      && Says(c, "Fulfilled", False, "NoAvailablePool", "Warning", note) && SaysPlainly(c, "Delayed", False)
      && SaysTheSame(before.conditions, c, {"Fulfilled", "Delayed"})
    case GaveBack(_) =>
      && result.status.phase == before.phase && result.status.failureDomain == before.failureDomain
      && Says(c, "Fulfilled", False, "NoAvailablePool", "Warning", note)
      && SaysTheSame(before.conditions, c, {"Fulfilled"})
    case Assigned(_, _, _) =>
      var held := HeldPools(s.pools, result.refs);
      if exists p :: p in held && NetworksIn(s.networks, result.refs, p) == 0 then result.status == before
      else
        && held != [] && result.status.failureDomain == held[0].failureDomain
        && SaysPlainly(c, "Pending", False) && SaysPlainly(c, "Delayed", False)
        && if |held| >= (if result.spec.pools == 0 then 1 else result.spec.pools)
              && (forall p :: p in held ==> NetworksIn(s.networks, result.refs, p) >= result.spec.networks)
           then && result.status.phase == Fulfilled
                && SaysPlainly(c, "Fulfilled", True) && SaysPlainly(c, "Partial", False)
           else result.status.phase == Partial && Says(c, "Fulfilled", False, "LeasePartial", "Info", note)
                && SaysPlainly(c, "Partial", True)
  }

  lemma ConcludedTold(s: State, lease: Lease, now: nat, note: string, branch: Branch, held: seq<Pool>,
      refs: seq<OwnerRef>, result: Lease)
    requires branch.Assigned? && Coherent(lease.status) && HeldPools(s.pools, refs) == held
    requires Concluded(s.networks, lease, now, note, held, refs, result)
    ensures Told(s, lease.status, branch, note, result)
  {
    var v :| VerdictIs(lease.spec, s.networks, held, refs, v)
          && result == lease.(refs := refs, status := StatusAfter(lease, held, v, now, note));
    var status := NotDelayedStatus(lease.status, now).(failureDomain := held[0].failureDomain);
    SaysAfterApply(lease.status.conditions, FalseCondition(DELAYED), now);
    FulfilledSays(status, now);
    PartialSays(status, now, note);
    match v
    case NetworksMissing =>
    case Complete =>
    case Incomplete =>
  }

  lemma OutcomeTold(s: State, lease: Lease, now: nat, note: string, branch: Branch, result: Lease)
    requires ValidPools(s.pools) && LeaseOk(s.pools, s.networks, lease)
    requires Outcome(s, lease, now, note, branch, result)
    ensures Told(s, lease.status, branch, note, result)
  {
    match branch
    case Settled =>
    case Unsatisfiable => FailedSays(lease.status, now, note);
    case HeldBack => DelayedSays(lease.status, now);
    case NoPoolFound(picks) =>
      NoPoolSays(lease.status, now, note);
      NoPoolSays(NotDelayedStatus(lease.status, now), now, note);
    case GaveBack(picks) => NoPoolSays(lease.status, now, note);
    case Assigned(picks, outcome, adds) =>
      PoolsArePlaced(s, lease, picks, outcome);
      PlacedRefsOk(s, lease, picks, adds);
      ConcludedTold(s, lease, now, note, branch, HeldPools(s.pools, lease.refs) + picks,
          lease.refs + PoolRefsOf(picks) + NetworkRefsOf(adds), result);
  }

  // ---- All runs ----------------------------------------------------------------------------

  /** In every run the status a reconcile stores tells how it ended. A lease that is reconciled for the
      first time starts as pending, of no known failure domain, and with no condition but that true. */
  lemma StatusTells(states: seq<State>, actions: seq<Action>, i: nat)
    requires Run(states, actions) && i < |actions| && actions[i].Reconcile?
    ensures actions[i].name in states[i].stored && actions[i].name in states[i + 1].stored
    ensures exists before ::
              && Begins(states[i].stored[actions[i].name].status, before)
              && Told(states[i], before, actions[i].branch, actions[i].note, states[i + 1].stored[actions[i].name])
  {
    InvAlways(states, actions, i);
    assert StepAt(states, actions, i);
    StepTells(states[i], actions[i], states[i + 1]);
  }

  /** The status a reconcile begins with: the stored one, or that of a new lease if there is none. */
  ghost predicate Begins(stored: LeaseStatus, before: LeaseStatus) {
    if stored.phase != Unset then before == stored
    else
      && before.phase == Pending && before.failureDomain == "pending"
      && SaysPlainly(before.conditions, "Fulfilled", False) && SaysPlainly(before.conditions, "Delayed", False)
      && SaysPlainly(before.conditions, "Pending", True) && SaysPlainly(before.conditions, "Partial", False)
  }

  lemma StepTells(s: State, a: Action, s': State)
    requires Inv(s) && Next(s, a, s') && a.Reconcile?
    ensures a.name in s.stored && a.name in s'.stored
    ensures var before := Admit(s.stored[a.name], a.now).status;
            Begins(s.stored[a.name].status, before) && Told(s, before, a.branch, a.note, s'.stored[a.name])
  {
    AdmittedOk(s, a.name, a.now);
    OutcomeTold(s, Admit(s.stored[a.name], a.now), a.now, a.note, a.branch, s'.stored[a.name]);
    if a.name !in s.leases {
      AdmittedSays(s.stored[a.name].status, a.now);
    }
  }

  /** In every state of every run the status of a fulfilled lease shows the failure domain of the first of
      its pools. */
  lemma {:induction false} FulfilledShowsFirstPool(states: seq<State>, actions: seq<Action>, i: nat, k: string)
    requires Run(states, actions) && i < |states|
    requires k in states[i].stored && states[i].stored[k].status.phase == Fulfilled
    ensures var held := HeldPools(states[i].pools, states[i].stored[k].refs);
            held != [] && states[i].stored[k].status.failureDomain == held[0].failureDomain
    ensures var s, lease := states[i], states[i].stored[k];
            forall j | 0 <= j < |lease.refs| && lease.refs[j].PoolRef? && lease.refs[j].name in s.pools ::
              (forall x :: 0 <= x < j ==> !lease.refs[x].PoolRef?) ==>
                lease.status.failureDomain == s.pools[lease.refs[j].name].failureDomain
  {
    FirstHeld(states[i].pools, states[i].stored[k].refs);
    if i > 0 {
      if k in states[i - 1].stored && states[i - 1].stored[k].status.phase == Fulfilled {
        FulfilledShowsFirstPool(states, actions, i - 1, k);
      }
      StepShowsFirstPool(states, actions, i - 1, k);
    }
  }

  /** The pools of a lease come in the order of its references. */
  lemma {:induction false} FirstHeld(pools: map<string, Pool>, refs: seq<OwnerRef>)
    ensures forall j | 0 <= j < |refs| && refs[j].PoolRef? && refs[j].name in pools ::
              (forall x :: 0 <= x < j ==> !refs[x].PoolRef?) ==>
                HeldPools(pools, refs) != [] && HeldPools(pools, refs)[0] == pools[refs[j].name]
  {
    if refs != [] {
      var n := |refs| - 1;
      FirstHeld(pools, refs[..n]);
      if forall x :: 0 <= x < n ==> !refs[x].PoolRef? {
        forall r | r in refs[..n] ensures !r.PoolRef? {
          var x :| 0 <= x < n && refs[x] == r;
        }
        HeldOfNone(pools, refs[..n]);
      }
    }
  }

  ghost predicate ShowsFirstPool(s: State, lease: Lease) {
    var held := HeldPools(s.pools, lease.refs);
    held != [] && lease.status.failureDomain == held[0].failureDomain
  }

  lemma StepShowsFirstPool(states: seq<State>, actions: seq<Action>, i: nat, k: string)
    requires Run(states, actions) && i + 1 < |states| && k in states[i + 1].stored
    requires states[i + 1].stored[k].status.phase == Fulfilled
    requires k in states[i].stored && states[i].stored[k].status.phase == Fulfilled ==>
               ShowsFirstPool(states[i], states[i].stored[k])
    ensures ShowsFirstPool(states[i + 1], states[i + 1].stored[k])
  {
    InvAlways(states, actions, i);
    assert StepAt(states, actions, i);
    NextShowsFirstPool(states[i], actions[i], states[i + 1], k);
  }

  lemma NextShowsFirstPool(s: State, a: Action, s': State, k: string)
    requires Inv(s) && Next(s, a, s') && k in s'.stored && s'.stored[k].status.phase == Fulfilled
    requires k in s.stored && s.stored[k].status.phase == Fulfilled ==> ShowsFirstPool(s, s.stored[k])
    ensures ShowsFirstPool(s', s'.stored[k])
  {
    if a.Reconcile? && a.name == k {
      StepTells(s, a, s');
    } else {
      UnchangedShows(s, a, s', k);
    }
  }

  lemma UnchangedShows(s: State, a: Action, s': State, k: string)
    requires Inv(s) && Next(s, a, s') && !(a.Reconcile? && a.name == k)
    requires k in s'.stored && s'.stored[k].status.phase == Fulfilled
    requires k in s.stored && s.stored[k].status.phase == Fulfilled ==> ShowsFirstPool(s, s.stored[k])
    ensures ShowsFirstPool(s', s'.stored[k])
  {
    KeptAsItWas(s, a, s', k);
    PoolsKnown(s, k);
    HeldInGrown(s.pools, s'.pools, s.stored[k].refs);
  }

  lemma KeptAsItWas(s: State, a: Action, s': State, k: string)
    requires ValidPools(s.pools) && Next(s, a, s') && !(a.Reconcile? && a.name == k)
    requires k in s'.stored && s'.stored[k].status.phase == Fulfilled
    ensures k in s.stored && s'.stored[k] == s.stored[k]
    ensures forall n :: n in s.pools ==> n in s'.pools && s'.pools[n] == s.pools[n]
  {
  }

  lemma PoolsKnown(s: State, k: string)
    requires Inv(s) && k in s.stored
    ensures forall n :: PoolRef(n) in s.stored[k].refs ==> n in s.pools
  {
    StoredLease(s, k);
  }
}
