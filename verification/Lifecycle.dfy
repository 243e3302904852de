/**
 The controller as a state machine: leases are created and deleted, the inventory grows, and one
 lease at a time is reconciled (pkg/controller/leases.go, 772-1737). Each branch of a reconcile is
 described by what it may do to the lease; everything else stays as it is.
 */
module Lifecycle {
  import opened Types
  import opened Combinations
  import opened Scheduling
  import opened Completion
  import opened PoolLoop
  import opened Accounting
  import opened Conditions
  import opened DelayGate
  import opened NetworkTables
  import opened NetworkAssignment
  import opened NetworkLoop
  import opened LeaseStates

  /** `leases` is the controller's own table, `stored` what the API server holds, `marked` the stored
      leases that are to be deleted but have not been reconciled since. */
  datatype State = State(
    pools: map<string, Pool>,
    networks: map<string, Network>,
    leases: map<string, Lease>,
    stored: map<string, Lease>,
    marked: set<string>,
    multiUsesSingle: bool)

  /** How a reconcile ends. */
  datatype Branch =
    | Settled                                                         // already fulfilled or failed
    | Unsatisfiable                                                   // can never be satisfied
    | HeldBack                                                        // delayed by other leases
    | NoPoolFound(picks: seq<Pool>)                                   // nothing assigned
    | GaveBack(picks: seq<Pool>)                                      // stuck: everything released
    | Assigned(picks: seq<Pool>, outcome: PoolOutcome, adds: seq<Network>)

  datatype Action =
    | Create(lease: Lease)
    | Mark(name: string)
    | Delete(name: string)
    | AddPool(pool: Pool)
    | AddNetwork(network: Network)
    | Reconcile(name: string, now: nat, note: string, branch: Branch)

  /** A lease as its user creates it: it holds nothing and has no status. */
  ghost predicate Untouched(lease: Lease) {
    && lease.status.phase == Unset
    && lease.status.conditions == []
    && forall r :: r in lease.refs ==> r.OtherRef?
  }

  /** The lease with its initial status. */
  function Admit(lease: Lease, now: nat): Lease {
    if lease.status.phase == Unset then lease.(status := AdmittedStatus(lease.status, now)) else lease
  }

  /** What the leases leave of a pool. */
  ghost function Figure(pool: Pool, leases: map<string, Lease>, n: string): PoolStatus {
    PoolStatus(pool.capacity - Used(leases, n, Cpu), pool.memory - Used(leases, n, Memory), |Holders(leases, n)|)
  }

  ghost function Figures(pools: map<string, Pool>, leases: map<string, Lease>): map<string, PoolStatus> {
    map n | n in pools :: Figure(pools[n], leases, n)
  }

  // ---- Results of a reconcile --------------------------------------------------------------

  datatype Verdict = NetworksMissing | Complete | Incomplete

  ghost function NetworksIn(networks: map<string, Network>, refs: seq<OwnerRef>, pool: Pool): nat {
    |Owned(refs, PoolNetworks(pool, networks).Keys)|
  }

  /** The decision at the end: nothing is reported while a pool has no network at all; the lease is
      complete when it has all pools and each of them all its networks. */
  ghost predicate VerdictIs(spec: LeaseSpec, networks: map<string, Network>, held: seq<Pool>, refs: seq<OwnerRef>,
      v: Verdict) {
    match v
    case NetworksMissing => exists p :: p in held && NetworksIn(networks, refs, p) == 0
    case Complete =>
      && (forall p :: p in held ==> NetworksIn(networks, refs, p) > 0 && NetworksIn(networks, refs, p) >= spec.networks)
      && |held| >= RequiredPools(spec)
    case Incomplete =>
      && (forall p :: p in held ==> NetworksIn(networks, refs, p) > 0)
      && (|held| < RequiredPools(spec) || exists p :: p in held && NetworksIn(networks, refs, p) < spec.networks)
  }

  function StatusAfter(lease: Lease, held: seq<Pool>, v: Verdict, now: nat, note: string): LeaseStatus
    requires held != []
  {
    var status := NotDelayedStatus(lease.status, now).(failureDomain := held[0].failureDomain);
    match v
    case NetworksMissing => lease.status
    case Complete => FulfilledStatus(status, now)
    case Incomplete => PartialStatus(status, now, note)
  }

  ghost predicate PoolStep(s: State, lease: Lease, picks: seq<Pool>, outcome: PoolOutcome)
    requires ValidPools(s.pools)
  {
    PoolLoopSpec(lease, Figures(s.pools, s.leases[lease.name := lease]), AllPools(s.pools),
        HeldPools(s.pools, lease.refs), picks, outcome)
  }

  /** The pools that siblings of the lease are known to use. */
  ghost function SiblingPools(pools: map<string, Pool>, others: map<string, Lease>, lease: Lease): set<Pool> {
    set n | n in pools && UsedBySibling(others, lease, n) :: pools[n]
  }

  /** The other stored leases that are not on their way out. */
  ghost function LivingOthers(s: State, lease: Lease): map<string, Lease> {
    s.stored - s.marked - {lease.name}
  }

  ghost predicate UsedBySibling(others: map<string, Lease>, lease: Lease, pool: string) {
    exists k :: k in others && others[k].name != lease.name && SameGroup(lease, others[k]) && KnownFor(others[k], pool)
  }

  /** The networks added for the pools the lease has now. */
  ghost predicate NetworkStep(s: State, lease: Lease, picks: seq<Pool>, adds: seq<Network>) {
    var held := HeldPools(s.pools, lease.refs) + picks;
    var placed := lease.(refs := lease.refs + PoolRefsOf(picks));
    NetworkLoopSpec(placed, s.leases - {lease.name}, s.networks, s.multiUsesSingle, held,
        SiblingPools(s.pools, LivingOthers(s, lease), lease), adds)
  }

  /** The decision is made and the lease has the status that goes with it. */
  ghost predicate Concluded(networks: map<string, Network>, lease: Lease, now: nat, note: string, held: seq<Pool>,
      refs: seq<OwnerRef>, result: Lease) {
    && held != []
    && exists v :: VerdictIs(lease.spec, networks, held, refs, v)
                && result == lease.(refs := refs, status := StatusAfter(lease, held, v, now, note))
  }

  ghost predicate AssignStep(s: State, lease: Lease, now: nat, note: string, picks: seq<Pool>, adds: seq<Network>,
      result: Lease) {
    && NetworkStep(s, lease, picks, adds)
    && Concluded(s.networks, lease, now, note, HeldPools(s.pools, lease.refs) + picks,
                 lease.refs + PoolRefsOf(picks) + NetworkRefsOf(adds), result)
  }

  ghost predicate Finished(lease: Lease) {
    lease.status.phase == Fulfilled || lease.status.phase == Failed
  }

  /** What a reconcile may make of the (admitted) lease. */
  ghost predicate Outcome(s: State, lease: Lease, now: nat, note: string, branch: Branch, result: Lease)
    requires ValidPools(s.pools)
  {
    var satisfiable := Satisfiable(lease.spec, AllPools(s.pools));
    var delayed := IsDelayed(lease, s.leases[lease.name := lease]);
    match branch
    case Settled => Finished(lease) && result == lease
    case Unsatisfiable =>
      && !Finished(lease) && !satisfiable
      && result == lease.(refs := OtherRefs(lease.refs), status := FailedStatus(lease.status, now, note))
    case HeldBack =>
      && !Finished(lease) && satisfiable && delayed
      && result == lease.(status := DelayedStatus(lease.status, now))
    case NoPoolFound(picks) =>
      && !Finished(lease) && satisfiable && !delayed && PoolStep(s, lease, picks, NoPool)
      && result == lease.(status := NoPoolStatus(NotDelayedStatus(lease.status, now), now, note))
    case GaveBack(picks) =>
      && !Finished(lease) && satisfiable && !delayed && PoolStep(s, lease, picks, Stuck)
      && result == lease.(refs := OtherRefs(lease.refs), status := NoPoolStatus(lease.status, now, note))
    case Assigned(picks, outcome, adds) =>
      && !Finished(lease) && satisfiable && !delayed
      && (outcome == AllAssigned || outcome == Waiting) && PoolStep(s, lease, picks, outcome)
      && AssignStep(s, lease, now, note, picks, adds, result)
  }

  // ---- Steps -------------------------------------------------------------------------------

  ghost predicate Init(s: State) {
    s.leases == map[] && s.stored == map[] && s.marked == {} && ValidPools(s.pools) && ValidTable(s.networks)
  }

  ghost predicate Next(s: State, a: Action, s': State)
    requires ValidPools(s.pools)
  {
    match a
    case Create(lease) =>
      lease.name !in s.stored && Untouched(lease) && s' == s.(stored := s.stored[lease.name := lease])
    case Mark(name) =>
      name in s.stored && s' == s.(marked := s.marked + {name})
    case Delete(name) =>
      && name in s.stored && name in s.marked
      && s' == s.(leases := s.leases - {name}, stored := s.stored - {name}, marked := s.marked - {name})
    case AddPool(pool) =>
      pool.name !in s.pools && pool.server != "" && s' == s.(pools := s.pools[pool.name := pool])
    case AddNetwork(network) =>
      && network.name !in s.networks && ValidTable(s.networks[network.name := network])
      && s' == s.(networks := s.networks[network.name := network])
    case Reconcile(name, now, note, branch) =>
      && name in s.stored && name !in s.marked && name in s'.stored
      && s' == s.(leases := s.leases[name := s'.stored[name]], stored := s.stored[name := s'.stored[name]])
      && Outcome(s, Admit(s.stored[name], now), now, note, branch, s'.stored[name])
  }

  // ---- The invariant -----------------------------------------------------------------------

  /** References are never doubled or dangling, and every network lies in a pool that is held. */
  ghost predicate RefsOk(pools: map<string, Pool>, networks: map<string, Network>, refs: seq<OwnerRef>) {
    && DistinctRefs(refs)
    && (forall n :: PoolRef(n) in refs ==> n in pools)
    && (forall n :: NetworkRef(n) in refs ==> n in networks && InSomePool(HeldPools(pools, refs), networks[n]))
  }

  /** The held pools match the lease, are no more than it asked for and keep its spread. */
  ghost predicate PoolsOk(spec: LeaseSpec, held: seq<Pool>) {
    && |held| <= RequiredPools(spec)
    && SpreadKept(spec, ToSet(held))
    && forall p :: p in held ==> Structural(spec, p)
  }

  /** Everything a fulfilled lease was promised. */
  ghost predicate Delivered(spec: LeaseSpec, networks: map<string, Network>, held: seq<Pool>, refs: seq<OwnerRef>) {
    && Spread(ToSet(held), RequiredPools(spec), spec.minVCenters, spec.vcenters)
    && forall p :: p in held ==> NetworksIn(networks, refs, p) >= spec.networks
  }

  ghost predicate HoldsNothing(lease: Lease) {
    forall r :: r in lease.refs ==> r.OtherRef?
  }

  ghost predicate LeaseOk(pools: map<string, Pool>, networks: map<string, Network>, lease: Lease) {
    && RefsOk(pools, networks, lease.refs)
    && PoolsOk(lease.spec, HeldPools(pools, lease.refs))
    && Coherent(lease.status)
    && lease.status.phase != Unset
    && (lease.status.phase == Failed ==> HoldsNothing(lease))
    && (lease.status.phase == Fulfilled ==> Delivered(lease.spec, networks, HeldPools(pools, lease.refs), lease.refs))
  }

  /** The table agrees with the store, and what is not in the table yet is untouched. */
  ghost predicate TablesAgree(s: State) {
    && (forall k :: k in s.leases ==> k in s.stored && s.leases[k] == s.stored[k])
    && (forall k :: k in s.stored ==> s.stored[k].name == k)
    && (forall k :: k in s.stored && k !in s.leases ==> Untouched(s.stored[k]))
    && s.marked <= s.stored.Keys
  }

  /** Two leases own one network only inside one boskos group of leases that are not network-only. */
  ghost predicate Exclusive(leases: map<string, Lease>) {
    forall a, b, n ::
      (&& a in leases && b in leases && a != b
       && NetworkRef(n) in leases[a].refs && NetworkRef(n) in leases[b].refs) ==>
      SameGroup(leases[a], leases[b])
  }

  ghost predicate Inv(s: State) {
    && ValidPools(s.pools)
    && ValidTable(s.networks)
    && TablesAgree(s)
    && (forall k :: k in s.leases ==> LeaseOk(s.pools, s.networks, s.leases[k]))
    && Exclusive(s.leases)
    && WithinCapacity(s.pools, s.leases)
  }

  lemma InitInv(s: State)
    requires Init(s)
    ensures Inv(s)
  {
    forall n, r | n in s.pools ensures Used(s.leases, n, r) <= Capacity(s.pools[n], r) {
      assert Shares(s.leases, n, r) == map[];
    }
  }

  // ---- The lease that is reconciled keeps its part -----------------------------------------

  lemma HoldsNothingOk(pools: map<string, Pool>, networks: map<string, Network>, lease: Lease)
    requires ValidPools(pools) && HoldsNothing(lease)
    ensures RefsOk(pools, networks, lease.refs) && HeldPools(pools, lease.refs) == []
    ensures PoolsOk(lease.spec, [])
  {
    HeldOfNone(pools, lease.refs);
    assert ToSet<Pool>([]) == {} && ServersOf({}) == {};
  }

  /** The admitted lease satisfies what the invariant says about leases in the table. */
  lemma AdmittedOk(s: State, name: string, now: nat)
    requires Inv(s) && name in s.stored
    ensures LeaseOk(s.pools, s.networks, Admit(s.stored[name], now))
    ensures Admit(s.stored[name], now).refs == s.stored[name].refs && Admit(s.stored[name], now).name == name
    ensures name in s.leases ==> Admit(s.stored[name], now) == s.leases[name]
    ensures name !in s.leases ==> HoldsNothing(Admit(s.stored[name], now))
  {
    var lease := Admit(s.stored[name], now);
    if name !in s.leases {
      HoldsNothingOk(s.pools, s.networks, lease);
      AdmittedCoherent(s.stored[name].status, now);
    }
  }

  lemma ReleasedOk(pools: map<string, Pool>, networks: map<string, Network>, lease: Lease, result: Lease)
    requires ValidPools(pools)
    requires result.refs == OtherRefs(lease.refs)
    requires Coherent(result.status) && result.status.phase != Unset && result.status.phase != Fulfilled
    ensures LeaseOk(pools, networks, result) && HoldsNothing(result)
  {
    OtherRefsOnly(lease.refs);
    HoldsNothingOk(pools, networks, result);
  }

  /** Picked pools are new to the lease. */
  lemma PicksAreNew(s: State, lease: Lease, picks: seq<Pool>, outcome: PoolOutcome)
    requires ValidPools(s.pools) && RefsOk(s.pools, s.networks, lease.refs)
    requires PoolStep(s, lease, picks, outcome)
    ensures forall p :: p in picks ==>
        p in AllPools(s.pools) && PoolRef(p.name) !in lease.refs && Structural(lease.spec, p)
    ensures HeldPools(s.pools, lease.refs + PoolRefsOf(picks)) == HeldPools(s.pools, lease.refs) + picks
  {
    HeldMembers(s.pools, lease.refs);
    var held := HeldPools(s.pools, lease.refs);
    var fitting := FittingPools(lease.spec, Figures(s.pools, s.leases[lease.name := lease]), AllPools(s.pools),
        ToSet(held));
    forall p | p in picks
      ensures p in AllPools(s.pools) && PoolRef(p.name) !in lease.refs && Structural(lease.spec, p) {
      assert p in ToSet(picks);
      assert p in fitting;
      assert p !in held;
    }
    HeldAfter(s.pools, lease.refs, PoolRefsOf(picks));
    HeldOfPicks(s.pools, picks);
  }

  lemma AssignedRefsOk(s: State, lease: Lease, picks: seq<Pool>, adds: seq<Network>)
    requires ValidPools(s.pools) && RefsOk(s.pools, s.networks, lease.refs)
    requires forall p :: p in picks ==> p in AllPools(s.pools)
    requires HeldPools(s.pools, lease.refs + PoolRefsOf(picks)) == HeldPools(s.pools, lease.refs) + picks
    requires SafeAdds(lease.(refs := lease.refs + PoolRefsOf(picks)), s.leases - {lease.name}, s.networks,
        s.multiUsesSingle, HeldPools(s.pools, lease.refs) + picks, adds)
    ensures RefsOk(s.pools, s.networks, lease.refs + PoolRefsOf(picks) + NetworkRefsOf(adds))
    ensures HeldPools(s.pools, lease.refs + PoolRefsOf(picks) + NetworkRefsOf(adds)) ==
        HeldPools(s.pools, lease.refs) + picks
  {
    var refs := lease.refs + PoolRefsOf(picks) + NetworkRefsOf(adds);
    HeldAfter(s.pools, lease.refs + PoolRefsOf(picks), NetworkRefsOf(adds));
    HeldOfNone(s.pools, NetworkRefsOf(adds));
    var held := HeldPools(s.pools, refs);
    forall n | PoolRef(n) in refs ensures n in s.pools {
      if PoolRef(n) !in lease.refs {
        assert PoolRef(n) in PoolRefsOf(picks);
        var i :| 0 <= i < |picks| && PoolRefsOf(picks)[i] == PoolRef(n);
        assert picks[i] in picks;
      }
    }
    forall n | NetworkRef(n) in refs ensures n in s.networks && InSomePool(held, s.networks[n]) {
      if NetworkRef(n) in lease.refs {
        var p :| p in HeldPools(s.pools, lease.refs) && InPool(p, s.networks[n]);
        assert p in held;
      } else {
        assert NetworkRef(n) in NetworkRefsOf(adds);
        var i :| 0 <= i < |adds| && NetworkRefsOf(adds)[i] == NetworkRef(n);
        assert adds[i] in adds;
      }
    }
  }

  lemma AssignedPoolsOk(s: State, lease: Lease, picks: seq<Pool>, outcome: PoolOutcome)
    requires ValidPools(s.pools) && RefsOk(s.pools, s.networks, lease.refs) && PoolStep(s, lease, picks, outcome)
    requires PoolsOk(lease.spec, HeldPools(s.pools, lease.refs))
    ensures PoolsOk(lease.spec, HeldPools(s.pools, lease.refs) + picks)
  {
    PicksAreNew(s, lease, picks, outcome);
  }

  /** The picked pools are new and matching, and with them the lease keeps its bounds. */
  ghost predicate PoolsPlaced(s: State, lease: Lease, picks: seq<Pool>) {
    && (forall p :: p in picks ==> p in AllPools(s.pools) && Structural(lease.spec, p))
    && HeldPools(s.pools, lease.refs + PoolRefsOf(picks)) == HeldPools(s.pools, lease.refs) + picks
    && PoolsOk(lease.spec, HeldPools(s.pools, lease.refs) + picks)
  }

  lemma PoolsArePlaced(s: State, lease: Lease, picks: seq<Pool>, outcome: PoolOutcome)
    requires ValidPools(s.pools) && RefsOk(s.pools, s.networks, lease.refs)
    requires PoolsOk(lease.spec, HeldPools(s.pools, lease.refs)) && PoolStep(s, lease, picks, outcome)
    ensures PoolsPlaced(s, lease, picks)
  {
    PicksAreNew(s, lease, picks, outcome);
    AssignedPoolsOk(s, lease, picks, outcome);
  }

  /** A satisfiable lease with all its pools has the spread it asked for. */
  lemma FullSpread(spec: LeaseSpec, pools: set<Pool>, held: seq<Pool>)
    requires Satisfiable(spec, pools) && Distinct(held)
    requires |held| == RequiredPools(spec) && SpreadKept(spec, ToSet(held))
    ensures Spread(ToSet(held), RequiredPools(spec), spec.minVCenters, spec.vcenters)
  {
    SatisfiableBounds(spec, pools);
    DistinctCard(held);
  }

  lemma AssignedOk(s: State, lease: Lease, now: nat, note: string, picks: seq<Pool>, outcome: PoolOutcome,
      adds: seq<Network>, result: Lease)
    requires ValidPools(s.pools) && LeaseOk(s.pools, s.networks, lease) && !Finished(lease)
    requires Satisfiable(lease.spec, AllPools(s.pools))
    requires PoolStep(s, lease, picks, outcome) && AssignStep(s, lease, now, note, picks, adds, result)
    ensures LeaseOk(s.pools, s.networks, result)
  {
    PoolsArePlaced(s, lease, picks, outcome);
    PlacedRefsOk(s, lease, picks, adds);
    ConcludedOk(s, lease, now, note, HeldPools(s.pools, lease.refs) + picks,
                lease.refs + PoolRefsOf(picks) + NetworkRefsOf(adds), result);
  }

  lemma PlacedRefsOk(s: State, lease: Lease, picks: seq<Pool>, adds: seq<Network>)
    requires ValidPools(s.pools) && RefsOk(s.pools, s.networks, lease.refs)
    requires PoolsPlaced(s, lease, picks) && NetworkStep(s, lease, picks, adds)
    ensures RefsOk(s.pools, s.networks, lease.refs + PoolRefsOf(picks) + NetworkRefsOf(adds))
    ensures HeldPools(s.pools, lease.refs + PoolRefsOf(picks) + NetworkRefsOf(adds)) ==
        HeldPools(s.pools, lease.refs) + picks
  {
    AssignedRefsOk(s, lease, picks, adds);
  }

  lemma ConcludedOk(s: State, lease: Lease, now: nat, note: string, held: seq<Pool>, refs: seq<OwnerRef>, result: Lease)
    requires ValidPools(s.pools) && Satisfiable(lease.spec, AllPools(s.pools))
    requires Coherent(lease.status) && !Finished(lease) && lease.status.phase != Unset
    requires RefsOk(s.pools, s.networks, refs) && HeldPools(s.pools, refs) == held && PoolsOk(lease.spec, held)
    requires Concluded(s.networks, lease, now, note, held, refs, result)
    ensures LeaseOk(s.pools, s.networks, result)
  {
    AssignedStatusOk(lease, held, now, note);
    var v :| VerdictIs(lease.spec, s.networks, held, refs, v)
          && result == lease.(refs := refs, status := StatusAfter(lease, held, v, now, note));
    if v == Complete {
      HeldDistinct(s.pools, refs);
      FullSpread(lease.spec, AllPools(s.pools), held);
    }
  }

  lemma AssignedStatusOk(lease: Lease, held: seq<Pool>, now: nat, note: string)
    requires Coherent(lease.status) && !Finished(lease) && lease.status.phase != Unset && held != []
    ensures forall v :: Coherent(StatusAfter(lease, held, v, now, note))
  {
    WaitingCoherent(lease.status, now, note);
    TrueAfterApply(lease.status.conditions, FalseCondition(DELAYED), now);
    var status := NotDelayedStatus(lease.status, now).(failureDomain := held[0].failureDomain);
    AssignedCoherent(status, now, note);
    forall v ensures Coherent(StatusAfter(lease, held, v, now, note)) {
      match v
      case NetworksMissing =>
      case Complete =>
      case Incomplete =>
    }
  }

  lemma ResultOk(s: State, lease: Lease, now: nat, note: string, branch: Branch, result: Lease)
    requires ValidPools(s.pools) && LeaseOk(s.pools, s.networks, lease)
    requires Outcome(s, lease, now, note, branch, result)
    ensures LeaseOk(s.pools, s.networks, result)
    ensures result.name == lease.name && result.spec == lease.spec && result.boskosId == lease.boskosId
        && result.created == lease.created
  {
    match branch
    case Settled =>
    case Unsatisfiable =>
      FailedCoherent(lease.status, now, note);
      ReleasedOk(s.pools, s.networks, lease, result);
    case HeldBack =>
      WaitingCoherent(lease.status, now, note);
    case NoPoolFound(picks) =>
      WaitingCoherent(lease.status, now, note);
      WaitingCoherent(NotDelayedStatus(lease.status, now), now, note);
    case GaveBack(picks) =>
      WaitingCoherent(lease.status, now, note);
      ReleasedOk(s.pools, s.networks, lease, result);
    case Assigned(picks, outcome, adds) =>
      AssignedOk(s, lease, now, note, picks, outcome, adds, result);
  }
}
