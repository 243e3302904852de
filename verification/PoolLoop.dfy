/**
 The pool loop of a reconcile (pkg/controller/leases.go, 990-1328): which vCenters are kept out
 of the next pick, and the picking of pools until the lease has all it asked for.
 */
module PoolLoop {
  import opened Types
  import opened Combinations
  import opened Scheduling
  import opened Completion
  import opened FirstPick
  import Sorting

  /** The pools a lease could be given now: matching, not held, with room. */
  ghost function FittingPools(spec: LeaseSpec, status: map<string, PoolStatus>, inventory: set<Pool>,
      held: set<Pool>): set<Pool>
    requires forall p :: p in inventory ==> p.name in status
  {
    set p | p in inventory && p !in held && Structural(spec, p) && HasRoom(spec, status, p)
  }

  /** The owner references of the lease name exactly the pools it holds. */
  ghost predicate Holds(lease: Lease, inventory: set<Pool>, held: set<Pool>) {
    && held <= inventory
    && forall p :: p in inventory ==> (PoolRef(p.name) in lease.refs <==> p in held)
  }

  /** A list of pools as it comes out of the inventory table. */
  ghost predicate Listing(pools: seq<Pool>, status: map<string, PoolStatus>) {
    && (forall i, j :: 0 <= i < j < |pools| ==> pools[i].name != pools[j].name)
    && (forall p :: p in pools ==> p.name in status && p.server != "")
  }

  method AvailablePools(inventory: seq<Pool>, heldNames: set<string>) returns (available: seq<Pool>)
    ensures forall p :: p in available <==> p in inventory && p.name !in heldNames
    ensures Distinct(inventory) ==> Distinct(available)
  {
    available := [];
    for i := 0 to |inventory|
      invariant forall p :: p in available <==> p in inventory[..i] && p.name !in heldNames
      invariant Distinct(inventory) ==> Distinct(available)
    {
      assert inventory[..i + 1] == inventory[..i] + [inventory[i]];
      if inventory[i].name !in heldNames {
        assert Distinct(inventory) ==> inventory[i] !in inventory[..i];
        available := available + [inventory[i]];
      }
    }
    assert inventory[..|inventory|] == inventory;
  }

  /** How many fitting pools each vCenter outside `skip` holds. */
  method CountFitting(lease: Lease, available: seq<Pool>, status: map<string, PoolStatus>, skip: set<string>,
      ghost f: set<Pool>)
    returns (counts: map<string, nat>)
    requires Distinct(available) && forall p :: p in available ==> p.name in status && p.server != ""
    requires f == set p | p in available && Fits(lease, status, {}, {}, p) && p.server !in skip
    ensures CountsOf(f, counts)
  {
    var fitting, rejected := GetFittingPools(lease, available, status, {}, {});
    DistinctPart(available, fitting, Firsts(rejected));
    counts := map[];
    ghost var seen: set<Pool> := {};
    for i := 0 to |fitting|
      invariant seen == set p | p in fitting[..i] && p.server !in skip
      invariant CountsOf(seen, counts)
    {
      var p := fitting[i];
      assert fitting[..i + 1] == fitting[..i] + [p];
      if p.server !in skip {
        assert p !in seen;
        IncrementCounts(seen, counts, p);
        counts := Increment(counts, p.server);
        seen := seen + {p};
      }
    }
    assert fitting[..|fitting|] == fitting;
    assert seen == f;
  }

  lemma DistinctPart<T>(whole: seq<T>, part: seq<T>, rest: seq<T>)
    requires Distinct(whole) && multiset(part) + multiset(rest) == multiset(whole)
    ensures Distinct(part)
  {
    assert multiset(part + rest) == multiset(whole);
    Sorting.DistinctFromMultiset(whole, part + rest);
    assert forall i :: 0 <= i < |part| ==> (part + rest)[i] == part[i];
  }

  /** Cap reached: every vCenter not in use is kept out. */
  method CapExclusions(available: seq<Pool>, inUse: set<string>) returns (excluded: set<string>)
    requires forall p :: p in available ==> p.server != ""
    ensures excluded == ServersOf(ToSet(available)) - inUse
  {
    excluded := {};
    ghost var seen: set<string> := {};
    for i := 0 to |available|
      invariant seen == ServersOf(ToSet(available[..i]))
      invariant excluded == seen - inUse
    {
      ServersOfPrefix(available, i);
      if available[i].server !in inUse {
        excluded := excluded + {available[i].server};
      }
      seen := seen + {available[i].server};
    }
    assert available[..|available|] == available;
  }

  /** Dynamic filter: the unused vCenters that do not hold their share of the missing pools. */
  method DynamicExclusions(lease: Lease, available: seq<Pool>, status: map<string, PoolStatus>, inUse: set<string>,
      rem: nat, slots: nat, ghost f: set<Pool>)
    returns (excluded: set<string>)
    requires Distinct(available) && forall p :: p in available ==> p.name in status && p.server != ""
    requires f == set q | q in available && Fits(lease, status, {}, {}, q)
    requires rem >= 1 && slots >= 1
    ensures excluded == set v | v in ServersOf(ToSet(available)) - inUse && LacksShare(f, v, slots, rem)
  {
    var minPerVCenter := (rem - 1) / slots + 1;
    ghost var g := set q | q in available && Fits(lease, status, {}, {}, q) && q.server !in inUse;
    var counts := CountFitting(lease, available, status, inUse, g);
    excluded := LowServers(available, inUse, counts, minPerVCenter);
    forall v | v !in inUse ensures CountIn(counts, v) < minPerVCenter <==> LacksShare(f, v, slots, rem) {
      assert OnServers(f, {v}) == OnServers(g, {v});
      ShareByCount(f, g, counts, v, rem, slots);
    }
  }

  lemma ShareByCount(f: set<Pool>, g: set<Pool>, counts: map<string, nat>, v: string, rem: nat, slots: nat)
    requires CountsOf(g, counts) && OnServers(f, {v}) == OnServers(g, {v}) && rem >= 1 && slots >= 1
    ensures CountIn(counts, v) < (rem - 1) / slots + 1 <==> LacksShare(f, v, slots, rem)
  {
    if v !in counts {
      assert OnServers(g, {v}) == {};
    }
    CeilingShare(CountOn(f, v), rem, slots);
  }

  method LowServers(available: seq<Pool>, inUse: set<string>, counts: map<string, nat>, least: int)
    returns (low: set<string>)
    ensures low == set v | v in ServersOf(ToSet(available)) - inUse && CountIn(counts, v) < least
  {
    low := {};
    ghost var seen: set<string> := {};
    for i := 0 to |available|
      invariant seen == ServersOf(ToSet(available[..i]))
      invariant low == set v | v in seen && v !in inUse && CountIn(counts, v) < least
    {
      ServersOfPrefix(available, i);
      var server := available[i].server;
      seen := seen + {server};
      if server !in inUse {
        if CountIn(counts, server) < least {
          low := low + {server};
        }
      }
    }
    assert available[..|available|] == available;
  }

  lemma ServersOfPrefix(pools: seq<Pool>, i: nat)
    requires i < |pools|
    ensures ServersOf(ToSet(pools[..i + 1])) == ServersOf(ToSet(pools[..i])) + {pools[i].server}
  {
    assert pools[..i + 1] == pools[..i] + [pools[i]];
    ToSetAppend(pools[..i], pools[i]);
    ServersWith(ToSet(pools[..i]), pools[i]);
  }

  /** Which vCenters of the available pools are kept out of the next pick. */
  ghost predicate ExclusionSpec(spec: LeaseSpec, f: set<Pool>, available: set<Pool>, held: set<Pool>,
      excluded: set<string>) {
    var inUse := ServersOf(held);
    var rem := RequiredPools(spec) - |held|;
    if CapReached(spec, inUse) then
      excluded == ServersOf(available) - inUse
    else if spec.vcenters > 0 && !DiversityPending(spec, held) && rem > spec.vcenters - |inUse| then
      excluded == set v | v in ServersOf(available) - inUse && LacksShare(f, v, spec.vcenters - |inUse|, rem)
    else if FirstPickFiltered(spec, held) then
      FirstPickSpec(f, spec.vcenters, RequiredPools(spec), excluded)
    else
      excluded == {}
  }

  method VCenterExclusions(lease: Lease, available: seq<Pool>, status: map<string, PoolStatus>, held: seq<Pool>,
      inUse: set<string>, diversityPending: bool, ghost f: set<Pool>)
    returns (excluded: set<string>)
    requires Distinct(available) && forall p :: p in available ==> p.name in status && p.server != ""
    requires f == set q | q in available && Fits(lease, status, {}, {}, q)
    requires Distinct(held) && |held| < RequiredPools(lease.spec) && inUse == ServersOf(ToSet(held))
    requires diversityPending == DiversityPending(lease.spec, ToSet(held))
    ensures ExclusionSpec(lease.spec, f, ToSet(available), ToSet(held), excluded)
  {
    excluded := {};
    DistinctCard(held);
    var required := RequiredPools(lease.spec);
    if lease.spec.vcenters > 0 {
      var slots := lease.spec.vcenters - |inUse|;
      var rem := required - |held|;
      if |inUse| >= lease.spec.vcenters {
        excluded := CapExclusions(available, inUse);
      } else if !diversityPending && slots > 0 && rem > slots {
        excluded := DynamicExclusions(lease, available, status, inUse, rem, slots, f);
      } else if lease.spec.vcenters < required && |held| == 0 {
        assert ToSet(held) == {} && inUse == {};
        var counts := CountFitting(lease, available, status, {}, f);
        excluded := FirstPickExclusions(f, counts, lease.spec.vcenters, required);
      }
    }
  }

  /** The exclusions keep out nothing that the rules allow, unless the filter on the first pick is in
      force. */
  lemma AllowedIsNotExcluded(spec: LeaseSpec, f: set<Pool>, available: set<Pool>, held: set<Pool>,
      excluded: set<string>, p: Pool)
    requires ExclusionSpec(spec, f, available, held, excluded)
    requires p in f && f <= available && |held| < RequiredPools(spec)
    requires forall q :: q in f + held ==> q.server != ""
    ensures (&& PickAllowed(spec, f, held, p) && !FirstPickFiltered(spec, held)
             && (spec.vcenters > 0 ==> spec.minVCenters <= spec.vcenters)) ==>
              p.server !in excluded
  {
    NamedServers(spec, held);
  }

  /** What the exclusions leave in is allowed by the rules. */
  lemma NotExcludedIsAllowed(spec: LeaseSpec, f: set<Pool>, available: set<Pool>, held: set<Pool>,
      excluded: set<string>, p: Pool)
    requires ExclusionSpec(spec, f, available, held, excluded)
    requires p in f && f <= available && |held| < RequiredPools(spec)
    requires p.server !in excluded && (DiversityPending(spec, held) ==> p.server !in ServersOf(held))
    ensures PickAllowed(spec, f, held, p)
  {
    var inUse, rem := ServersOf(held), RequiredPools(spec) - |held|;
    assert p.server in ServersOf(available);
    if !DiversityPending(spec, held) && spec.vcenters > 0 && |inUse| < spec.vcenters && rem <= spec.vcenters - |inUse| {
      CoversShare(f, p, spec.vcenters - |inUse|, rem);
    }
  }

  /** When every slot has to take at most one pool, any vCenter with a fitting pool will do. */
  lemma CoversShare(f: set<Pool>, p: Pool, slots: nat, rem: nat)
    requires p in f && rem <= slots
    ensures CountOn(f, p.server) * slots >= rem
  {
    assert p in OnServers(f, {p.server});
    CardMonotone({p}, OnServers(f, {p.server}));
    Scale(1, CountOn(f, p.server), slots);
  }

  datatype PoolOutcome =
    | AllAssigned   // the lease has all the pools it asked for
    | Waiting       // it keeps what it has and waits for more
    | Stuck         // a vCenter rule is in the way: everything is to be released
    | NoPool        // nothing could be assigned

  function PoolRefsOf(pools: seq<Pool>): seq<OwnerRef> {
    seq(|pools|, i requires 0 <= i < |pools| => PoolRef(pools[i].name))
  }

  /** A pick as the scheduler makes it: it obeys the vCenter rules and no other pool that does has a
      larger free share (under the first-pick filter: no other survivor). */
  ghost predicate RulePick(spec: LeaseSpec, status: map<string, PoolStatus>, f: set<Pool>, held: set<Pool>, p: Pool)
    requires forall q :: q in f ==> q.name in status
  {
    && PickAllowed(spec, f, held, p)
    && (if FirstPickFiltered(spec, held)
        then exists excluded :: SurvivesBest(spec, status, f, excluded, p)
        else forall q :: PickAllowed(spec, f, held, q) ==> Score(status, q) <= Score(status, p))
  }

  ghost predicate SurvivesBest(spec: LeaseSpec, status: map<string, PoolStatus>, f: set<Pool>, excluded: set<string>,
      p: Pool)
    requires spec.vcenters > 0 && p in f && forall q :: q in f ==> q.name in status
  {
    && FirstPickSpec(f, spec.vcenters, RequiredPools(spec), excluded)
    && p.server !in excluded
    && forall q :: q in f && q.server !in excluded ==> Score(status, q) <= Score(status, p)
  }

  /** A vCenter rule stands in the way of the next pick: the cap, or the dynamic filter. */
  ghost predicate Blocked(spec: LeaseSpec, f: set<Pool>, inventory: set<Pool>, held: set<Pool>) {
    var inUse := ServersOf(held);
    || CapReached(spec, inUse)
    || (&& spec.vcenters > 0 && !DiversityPending(spec, held)
        && RequiredPools(spec) - |held| > spec.vcenters - |inUse|
        && exists p :: p in inventory - held && p.server !in inUse
                    && LacksShare(f, p.server, spec.vcenters - |inUse|, RequiredPools(spec) - |held|))
  }

  /** How the loop ends, as a function of what the lease has in the end. */
  ghost function FinalOutcome(spec: LeaseSpec, f: set<Pool>, inventory: set<Pool>, held: set<Pool>): PoolOutcome {
    if |held| >= RequiredPools(spec) then AllAssigned
    else if held == {} || (spec.vcenters <= 0 && spec.minVCenters <= 0) then NoPool
    else if Blocked(spec, f, inventory, held) then Stuck
    else Waiting
  }

  /** The outcome in numbers. All is released exactly when the lease falls short under a cap that it has
      used up, or that leaves, once its minimum is met, fewer vCenters to open than pools missing while
      some unused vCenter holds less than an even share of them. Nothing comes of the picks exactly when
      there are none, or the lease falls short without any wish for its spread. */
  lemma OutcomeByNumbers(spec: LeaseSpec, f: set<Pool>, inventory: set<Pool>, now: set<Pool>, outcome: PoolOutcome)
    requires outcome == FinalOutcome(spec, f, inventory, now) && forall p :: p in now ==> p.server != ""
    ensures var missing := (if spec.pools == 0 then 1 else spec.pools) - |now|;
            var unopened := spec.vcenters - |ServersOf(now)|;
            && (outcome == AllAssigned <==> missing <= 0)
            && (outcome == NoPool <==> missing > 0 && (now == {} || (spec.vcenters <= 0 && spec.minVCenters <= 0)))
            && (outcome == Stuck <==>
                  && missing > 0 && now != {} && spec.vcenters > 0
                  && (|| unopened <= 0
                      || (&& |ServersOf(now)| >= spec.minVCenters && missing > unopened
                          && exists p :: p in inventory - now && p.server !in ServersOf(now)
                                      && CountOn(f, p.server) * unopened < missing)))
  {
    NamedServers(spec, now);
  }

  /** Every pick was made by the rules. */
  ghost predicate PickedByRules(spec: LeaseSpec, status: map<string, PoolStatus>, inventory: set<Pool>, held: seq<Pool>,
      picks: seq<Pool>)
    requires forall p :: p in inventory ==> p.name in status
  {
    forall i :: 0 <= i < |picks| ==>
      RulePick(spec, status, FittingPools(spec, status, inventory, ToSet(held + picks[..i])), ToSet(held + picks[..i]),
          picks[i])
  }

  /** What the loop does, whatever order the scores and ties gave: it picks by the rules until the lease
      has all pools or no pick is allowed, and ends accordingly. */
  ghost predicate PoolLoopSpec(lease: Lease, status: map<string, PoolStatus>, inventory: set<Pool>, held: seq<Pool>,
      picks: seq<Pool>, outcome: PoolOutcome)
    requires forall p :: p in inventory ==> p.name in status
  {
    var spec := lease.spec;
    var now := ToSet(held + picks);
    var fitting := FittingPools(spec, status, inventory, ToSet(held));
    && Distinct(picks)
    && ToSet(picks) <= fitting
    && PickedByRules(spec, status, inventory, held, picks)
    && SpreadKept(spec, now)
    && |held + picks| <= RequiredPools(spec)
    && |now| == |held + picks|
    && LoopEnded(spec, status, inventory, now, outcome)
  }

  /** How the loop ends with `now` at hand; it does not give up while a pick is allowed. */
  ghost predicate LoopEnded(spec: LeaseSpec, status: map<string, PoolStatus>, inventory: set<Pool>, now: set<Pool>,
      outcome: PoolOutcome)
    requires forall p :: p in inventory ==> p.name in status
  {
    var left := FittingPools(spec, status, inventory, now);
    && outcome == FinalOutcome(spec, left, inventory, now)
    && (!outcome.AllAssigned? && (spec.vcenters > 0 ==> spec.minVCenters <= spec.vcenters) ==>
          forall p :: !PickAllowed(spec, left, now, p))
  }

  lemma FittingAfterPick(spec: LeaseSpec, status: map<string, PoolStatus>, inventory: set<Pool>, held: set<Pool>,
      p: Pool)
    requires forall q :: q in inventory ==> q.name in status
    ensures FittingPools(spec, status, inventory, held + {p}) == FittingPools(spec, status, inventory, held) - {p}
  {
  }

  lemma ToSetAppend<T>(s: seq<T>, x: T)
    ensures ToSet(s + [x]) == ToSet(s) + {x}
  {
  }

  lemma SetsOfSequence<T>(a: seq<T>, b: seq<T>)
    ensures ToSet(a + b) == ToSet(a) + ToSet(b)
  {
  }

  /** What becomes of the lease when no pool could be picked. */
  function OutcomeWhenNoPool(spec: LeaseSpec, held: seq<Pool>, inUse: set<string>, diversityPending: bool,
      excluded: set<string>): PoolOutcome {
    if |held| > 0 && (spec.vcenters > 0 || spec.minVCenters > 0) then
      var capReached := spec.vcenters > 0 && |inUse| >= spec.vcenters;
      var dynamicFilteringApplied := !diversityPending && |excluded| > 0 && !capReached;
      if capReached || dynamicFilteringApplied then Stuck else Waiting
    else
      NoPool
  }

  lemma OutcomeIsFinal(spec: LeaseSpec, f: set<Pool>, inventory: seq<Pool>, held: seq<Pool>, available: seq<Pool>,
      inUse: set<string>, diversityPending: bool, excluded: set<string>)
    requires ExclusionSpec(spec, f, ToSet(available), ToSet(held), excluded)
    requires Distinct(held) && |held| < RequiredPools(spec) && inUse == ServersOf(ToSet(held))
    requires diversityPending == DiversityPending(spec, ToSet(held))
    requires ToSet(available) == ToSet(inventory) - ToSet(held)
    ensures OutcomeWhenNoPool(spec, held, inUse, diversityPending, excluded) ==
        FinalOutcome(spec, f, ToSet(inventory), ToSet(held))
  {
    DistinctCard(held);
    assert |held| > 0 <==> ToSet(held) != {};
    if !diversityPending && !CapReached(spec, inUse) && spec.vcenters > 0
        && RequiredPools(spec) - |held| > spec.vcenters - |inUse| {
      var slots, rem := spec.vcenters - |inUse|, RequiredPools(spec) - |held|;
      if excluded != {} {
        var v :| v in excluded;
        var p :| p in ToSet(available) && p.server == v;
        assert Blocked(spec, f, ToSet(inventory), ToSet(held));
      } else {
        forall p | p in ToSet(inventory) - ToSet(held) && p.server !in inUse
          ensures !LacksShare(f, p.server, slots, rem) {
          assert p.server in ServersOf(ToSet(available)) - inUse;
          assert LacksShare(f, p.server, slots, rem) ==> p.server in excluded;
        }
      }
    }
  }

  /** What the choice was made from: the fitting pools on vCenters that are neither excluded nor to be
      avoided. */
  ghost predicate ChosenFrom(spec: LeaseSpec, f: set<Pool>, inventory: set<Pool>, held: set<Pool>, available: seq<Pool>,
      excluded: set<string>, avoid: set<string>) {
    && ToSet(available) == inventory - held
    && f <= ToSet(available)
    && ExclusionSpec(spec, f, ToSet(available), held, excluded)
    && avoid == if DiversityPending(spec, held) then ServersOf(held) else {}
  }

  method ChoosePool(lease: Lease, inventory: seq<Pool>, status: map<string, PoolStatus>, held: seq<Pool>,
      ghost f: set<Pool>)
    returns (pool: Option<Pool>, refs: seq<OwnerRef>, onFailure: PoolOutcome, ghost available: seq<Pool>,
        ghost excluded: set<string>, ghost avoid: set<string>)
    requires Listing(inventory, status)
    requires Distinct(held) && Holds(lease, ToSet(inventory), ToSet(held))
    requires |held| < RequiredPools(lease.spec)
    requires f == FittingPools(lease.spec, status, ToSet(inventory), ToSet(held))
    ensures ChosenFrom(lease.spec, f, ToSet(inventory), ToSet(held), available, excluded, avoid)
    ensures pool.None? ==> forall q :: q in f ==> q.server in excluded || q.server in avoid
    ensures pool.Some? ==>
              && pool.value in f && pool.value.server !in excluded && pool.value.server !in avoid
              && refs == lease.refs + [PoolRef(pool.value.name)]
              && forall q :: q in f && q.server !in excluded && q.server !in avoid ==>
                  Score(status, q) <= Score(status, pool.value)
    ensures onFailure ==
        OutcomeWhenNoPool(lease.spec, held, ServersOf(ToSet(held)), DiversityPending(lease.spec, ToSet(held)), excluded)
  {
    var heldNames := set p | p in held :: p.name;
    var left := AvailablePools(inventory, heldNames);
    var inUse := GetVCentersInUse(held);
    var diversity := GetDiversityExcludedVCenters(lease.spec, held);
    HeldServersNamed(inventory, status, held);
    FittingAvailable(lease, inventory, status, held, left, f);
    var out := VCenterExclusions(lease, left, status, held, inUse, diversity.Some?, f);
    var toAvoid := if diversity.Some? then diversity.value else {};
    pool, refs := GetPoolWithStrategy(lease, left, status, UnderUtilized, out, toAvoid);
    onFailure := OutcomeWhenNoPool(lease.spec, held, inUse, diversity.Some?, out);
    available, excluded, avoid := left, out, toAvoid;
    assert forall q :: q in f && q.server !in out && q.server !in toAvoid <==>
        q in left && Fits(lease, status, out, toAvoid, q);
  }

  /** One pick: the vCenter rules, then the best-scoring fitting pool. The pick is the best the rules
      allow, and there is none only if they allow none. */
  method PickPool(lease: Lease, inventory: seq<Pool>, status: map<string, PoolStatus>, held: seq<Pool>,
      ghost f: set<Pool>)
    returns (pool: Option<Pool>, refs: seq<OwnerRef>, onFailure: PoolOutcome)
    requires Listing(inventory, status)
    requires Distinct(held) && Holds(lease, ToSet(inventory), ToSet(held))
    requires |held| < RequiredPools(lease.spec)
    requires f == FittingPools(lease.spec, status, ToSet(inventory), ToSet(held))
    ensures pool.Some? ==>
              && refs == lease.refs + [PoolRef(pool.value.name)]
              && (CapReached(lease.spec, ServersOf(ToSet(held))) ==> pool.value.server in ServersOf(ToSet(held)))
              && RulePick(lease.spec, status, f, ToSet(held), pool.value)
    ensures pool.None? ==> onFailure == FinalOutcome(lease.spec, f, ToSet(inventory), ToSet(held))
    ensures pool.None? && (lease.spec.vcenters > 0 ==> lease.spec.minVCenters <= lease.spec.vcenters) ==>
              forall p :: !PickAllowed(lease.spec, f, ToSet(held), p)
  {
    ghost var available, excluded, avoid;
    pool, refs, onFailure, available, excluded, avoid := ChoosePool(lease, inventory, status, held, f);
    OutcomeIsFinal(lease.spec, f, inventory, held, available, ServersOf(ToSet(held)),
        DiversityPending(lease.spec, ToSet(held)), excluded);
    DistinctCard(held);
    if pool.Some? {
      PickIsByRule(lease.spec, status, f, inventory, held, available, excluded, avoid, pool.value);
    } else if lease.spec.vcenters > 0 ==> lease.spec.minVCenters <= lease.spec.vcenters {
      NoPickAllowed(lease.spec, status, f, inventory, held, available, excluded, avoid);
    }
  }

  lemma PickIsByRule(spec: LeaseSpec, status: map<string, PoolStatus>, f: set<Pool>, inventory: seq<Pool>,
      held: seq<Pool>, available: seq<Pool>, excluded: set<string>, avoid: set<string>, p: Pool)
    requires Listing(inventory, status) && ToSet(held) <= ToSet(inventory) && |ToSet(held)| < RequiredPools(spec)
    requires ChosenFrom(spec, f, ToSet(inventory), ToSet(held), available, excluded, avoid)
    requires p in f && p.server !in excluded && p.server !in avoid
    requires forall q :: q in f && q.server !in excluded && q.server !in avoid ==> Score(status, q) <= Score(status, p)
    ensures RulePick(spec, status, f, ToSet(held), p)
    ensures CapReached(spec, ServersOf(ToSet(held))) ==> p.server in ServersOf(ToSet(held))
  {
    assert forall q :: q in f + ToSet(held) ==> q in ToSet(inventory);
    NotExcludedIsAllowed(spec, f, ToSet(available), ToSet(held), excluded, p);
    assert p.server in ServersOf(ToSet(available));
    NamedServers(spec, ToSet(held));
    if FirstPickFiltered(spec, ToSet(held)) {
      assert ServersOf({}) == {};
      assert SurvivesBest(spec, status, f, excluded, p);
    } else {
      forall q | PickAllowed(spec, f, ToSet(held), q) ensures Score(status, q) <= Score(status, p) {
        AllowedUnlessContradictory(spec, f, ToSet(available), ToSet(held), excluded, avoid, p, q);
      }
    }
  }

  /** With a pick at hand, the other allowed picks are not excluded either. */
  lemma AllowedUnlessContradictory(spec: LeaseSpec, f: set<Pool>, available: set<Pool>, held: set<Pool>,
      excluded: set<string>, avoid: set<string>, p: Pool, q: Pool)
    requires ExclusionSpec(spec, f, available, held, excluded) && f <= available && |held| < RequiredPools(spec)
    requires forall x :: x in f + held ==> x.server != ""
    requires avoid == if DiversityPending(spec, held) then ServersOf(held) else {}
    requires p in f && p.server !in excluded && p.server !in avoid
    requires PickAllowed(spec, f, held, q) && !FirstPickFiltered(spec, held)
    ensures q in f && q.server !in excluded && q.server !in avoid
  {
    NamedServers(spec, held);
    assert p.server in ServersOf(available) && q.server in ServersOf(available);
    if CapReached(spec, ServersOf(held)) && DiversityPending(spec, held) {
      assert false;
    }
    ExclusionsLetIn(spec, f, available, held, excluded, q);
  }

  lemma ExclusionsLetIn(spec: LeaseSpec, f: set<Pool>, available: set<Pool>, held: set<Pool>, excluded: set<string>,
      q: Pool)
    requires ExclusionSpec(spec, f, available, held, excluded) && f <= available
    requires PickAllowed(spec, f, held, q) && !FirstPickFiltered(spec, held)
    requires !(CapReached(spec, ServersOf(held)) && DiversityPending(spec, held))
    ensures q.server !in excluded
  {
  }

  lemma NoPickAllowed(spec: LeaseSpec, status: map<string, PoolStatus>, f: set<Pool>, inventory: seq<Pool>,
      held: seq<Pool>, available: seq<Pool>, excluded: set<string>, avoid: set<string>)
    requires Listing(inventory, status) && ToSet(held) <= ToSet(inventory) && |ToSet(held)| < RequiredPools(spec)
    requires ChosenFrom(spec, f, ToSet(inventory), ToSet(held), available, excluded, avoid)
    requires spec.vcenters > 0 ==> spec.minVCenters <= spec.vcenters
    requires forall q :: q in f ==> q.server in excluded || q.server in avoid
    ensures forall p :: !PickAllowed(spec, f, ToSet(held), p)
  {
    assert forall q :: q in f + ToSet(held) ==> q in ToSet(inventory);
    if FirstPickFiltered(spec, ToSet(held)) {
      assert ServersOf({}) == {};
      if f != {} {
        FilterLeavesSome(f, spec.vcenters, RequiredPools(spec), excluded);
      }
    } else {
      forall p | p in f ensures !PickAllowed(spec, f, ToSet(held), p) {
        AllowedIsNotExcluded(spec, f, ToSet(available), ToSet(held), excluded, p);
      }
    }
  }

  /** The filter on the first pick never excludes every fitting pool. */
  lemma FilterLeavesSome(f: set<Pool>, cap: nat, required: nat, excluded: set<string>)
    requires FirstPickSpec(f, cap, required, excluded) && required >= 1 && f != {}
    ensures exists p :: p in f && p.server !in excluded
  {
    if CombinationExists(f, cap, required) {
      var w :| w <= ServersOf(f) - excluded && Combination(f, cap, required, w);
      assert OnServers(f, w) != {};
      var p :| p in OnServers(f, w);
    } else {
      var p :| p in f;
      assert p.server !in excluded;
    }
  }

  lemma HeldServersNamed(inventory: seq<Pool>, status: map<string, PoolStatus>, held: seq<Pool>)
    requires Listing(inventory, status) && ToSet(held) <= ToSet(inventory)
    ensures ServersOf(ToSet(held)) - {""} == ServersOf(ToSet(held))
  {
    forall p | p in held ensures p.server != "" {
      assert p in ToSet(held);
      assert p in ToSet(inventory);
    }
  }

  /** Filtering the inventory by name and then by fit gives the fitting pools. */
  lemma FittingAvailable(lease: Lease, inventory: seq<Pool>, status: map<string, PoolStatus>, held: seq<Pool>,
      available: seq<Pool>, f: set<Pool>)
    requires Listing(inventory, status) && Holds(lease, ToSet(inventory), ToSet(held))
    requires f == FittingPools(lease.spec, status, ToSet(inventory), ToSet(held))
    requires forall p :: p in available <==> p in inventory && p.name !in set q | q in held :: q.name
    ensures f == set q | q in available && Fits(lease, status, {}, {}, q)
    ensures ToSet(available) == ToSet(inventory) - ToSet(held)
  {
    forall p | p in inventory ensures p in held <==> p.name in set q | q in held :: q.name {
      if q :| q in held && q.name == p.name {
        assert q in ToSet(held);
        assert q in ToSet(inventory);
      }
    }
    forall p ensures p in f <==> p in available && Fits(lease, status, {}, {}, p) {
      if p in inventory {
        assert p in ToSet(inventory);
        if p.name in set q | q in held :: q.name {
          var q :| q in held && q.name == p.name;
          assert q in ToSet(held);
          assert q in ToSet(inventory);
          assert q == p;
        }
      }
    }
  }

  function WithPicks(lease: Lease, picks: seq<Pool>): Lease {
    lease.(refs := lease.refs + PoolRefsOf(picks))
  }

  /** What every round of the loop keeps. */
  ghost predicate LoopState(lease: Lease, inventory: set<Pool>, status: map<string, PoolStatus>, held: seq<Pool>,
      picks: seq<Pool>)
    requires forall p :: p in inventory ==> p.name in status
  {
    && |held + picks| <= RequiredPools(lease.spec)
    && Distinct(held + picks)
    && Holds(WithPicks(lease, picks), inventory, ToSet(held + picks))
    && ToSet(picks) <= FittingPools(lease.spec, status, inventory, ToSet(held))
    && PickedByRules(lease.spec, status, inventory, held, picks)
    && SpreadKept(lease.spec, ToSet(held + picks))
  }

  lemma PickIsNew(inventory: seq<Pool>, status: map<string, PoolStatus>, spec: LeaseSpec, held: seq<Pool>,
      picks: seq<Pool>, p: Pool)
    requires Listing(inventory, status) && Distinct(held + picks)
    requires p in FittingPools(spec, status, ToSet(inventory), ToSet(held + picks))
    ensures p in inventory && p !in held + picks
    ensures Distinct(held + (picks + [p]))
    ensures ToSet(held + (picks + [p])) == ToSet(held + picks) + {p}
    ensures p in FittingPools(spec, status, ToSet(inventory), ToSet(held))
  {
    assert held + (picks + [p]) == held + picks + [p];
    SetsOfSequence(held, picks);
    assert p !in ToSet(held + picks);
  }

  /** An allowed pick leads from one round to the next. */
  lemma RoundAdvances(lease: Lease, inventory: seq<Pool>, status: map<string, PoolStatus>, held: seq<Pool>,
      picks: seq<Pool>, before: seq<Pool>, f: set<Pool>, p: Pool)
    requires Listing(inventory, status) && LoopState(lease, ToSet(inventory), status, held, picks)
    requires before == held + picks && |before| < RequiredPools(lease.spec)
    requires f == FittingPools(lease.spec, status, ToSet(inventory), ToSet(before))
        && RulePick(lease.spec, status, f, ToSet(before), p)
    requires CapReached(lease.spec, ServersOf(ToSet(before))) ==> p.server in ServersOf(ToSet(before))
    ensures LoopState(lease, ToSet(inventory), status, held, picks + [p])
  {
    var now, all := ToSet(held + picks), ToSet(inventory);
    PickIsNew(inventory, status, lease.spec, held, picks, p);
    HoldsAfterPick(lease, inventory, status, held + picks, picks, p);
    DistinctCard(held + picks);
    DistinctCard(held + (picks + [p]));
    assert forall q :: q in now + {p} ==> q.server != "";
    PickKeepsSpread(lease.spec, now, p);
    ToSetAppend(picks, p);
    RulesAdvance(lease.spec, status, all, held, picks, p);
  }

  lemma RulesAdvance(spec: LeaseSpec, status: map<string, PoolStatus>, inventory: set<Pool>, held: seq<Pool>,
      picks: seq<Pool>, p: Pool)
    requires forall q :: q in inventory ==> q.name in status
    requires PickedByRules(spec, status, inventory, held, picks)
    requires RulePick(spec, status, FittingPools(spec, status, inventory, ToSet(held + picks)), ToSet(held + picks), p)
    ensures PickedByRules(spec, status, inventory, held, picks + [p])
  {
    assert (picks + [p])[..|picks|] == picks;
    assert forall i :: 0 <= i < |picks| ==> (picks + [p])[..i] == picks[..i];
  }

  lemma HoldsAfterPick(lease: Lease, inventory: seq<Pool>, status: map<string, PoolStatus>, now: seq<Pool>,
      picks: seq<Pool>, p: Pool)
    requires Listing(inventory, status) && p in inventory
    requires Holds(WithPicks(lease, picks), ToSet(inventory), ToSet(now))
    ensures WithPicks(lease, picks + [p]) ==
        WithPicks(lease, picks).(refs := WithPicks(lease, picks).refs + [PoolRef(p.name)])
    ensures Holds(WithPicks(lease, picks + [p]), ToSet(inventory), ToSet(now) + {p})
  {
    assert PoolRefsOf(picks + [p]) == PoolRefsOf(picks) + [PoolRef(p.name)];
    forall q | q in ToSet(inventory) && q.name == p.name ensures q == p {
    }
  }

  /** One round: either the loop goes on with one more pool, or it ends as promised. */
  method Round(lease: Lease, inventory: seq<Pool>, status: map<string, PoolStatus>, held: seq<Pool>, picks: seq<Pool>,
      refs: seq<OwnerRef>)
    returns (pool: Option<Pool>, refs': seq<OwnerRef>, onFailure: PoolOutcome)
    requires Listing(inventory, status) && LoopState(lease, ToSet(inventory), status, held, picks)
    requires |held + picks| < RequiredPools(lease.spec) && refs == lease.refs + PoolRefsOf(picks)
    ensures pool.Some? ==>
              && LoopState(lease, ToSet(inventory), status, held, picks + [pool.value])
              && refs' == lease.refs + PoolRefsOf(picks + [pool.value])
    ensures pool.None? ==> PoolLoopSpec(lease, status, ToSet(inventory), held, picks, onFailure)
  {
    var working := lease.(refs := refs);
    var now := held + picks;
    ghost var f := FittingPools(lease.spec, status, ToSet(inventory), ToSet(now));
    RoundReady(lease, inventory, status, held, picks, working, now);
    pool, refs', onFailure := PickPool(working, inventory, status, now, f);
    if pool.None? {
      Exhausted(lease, inventory, status, held, picks, now, f, onFailure);
    } else {
      RoundAdvances(lease, inventory, status, held, picks, now, f, pool.value);
      RefsOfOneMore(lease.refs, picks, pool.value);
    }
  }

  lemma RefsOfOneMore(refs: seq<OwnerRef>, picks: seq<Pool>, p: Pool)
    ensures refs + PoolRefsOf(picks) + [PoolRef(p.name)] == refs + PoolRefsOf(picks + [p])
  {
    assert PoolRefsOf(picks + [p]) == PoolRefsOf(picks) + [PoolRef(p.name)];
  }

  lemma RoundReady(lease: Lease, inventory: seq<Pool>, status: map<string, PoolStatus>, held: seq<Pool>,
      picks: seq<Pool>, working: Lease, now: seq<Pool>)
    requires Listing(inventory, status) && LoopState(lease, ToSet(inventory), status, held, picks)
    requires working == WithPicks(lease, picks) && now == held + picks
    ensures Distinct(now) && Holds(working, ToSet(inventory), ToSet(now))
  {
  }

  /** Assigns pools one by one. The outcome is decided by what is possible: the lease ends with all
      its pools exactly when fitting pools exist that complete it within the vCenter rules. */
  method AssignPools(lease: Lease, inventory: seq<Pool>, status: map<string, PoolStatus>, held: seq<Pool>)
    returns (picks: seq<Pool>, refs: seq<OwnerRef>, outcome: PoolOutcome)
    requires Listing(inventory, status)
    requires Distinct(held) && Holds(lease, ToSet(inventory), ToSet(held))
    requires |held| <= RequiredPools(lease.spec) && SpreadKept(lease.spec, ToSet(held))
    ensures refs == lease.refs + PoolRefsOf(picks)
    ensures PoolLoopSpec(lease, status, ToSet(inventory), held, picks, outcome)
    ensures outcome == AllAssigned <==> |held + picks| == (if lease.spec.pools == 0 then 1 else lease.spec.pools)
    ensures outcome == NoPool ==>
              held + picks == [] || (lease.spec.vcenters <= 0 && lease.spec.minVCenters <= 0)
    ensures outcome == Stuck ==>
              var now := ToSet(held + picks);
              && lease.spec.vcenters > 0
              && (|| |ServersOf(now)| >= lease.spec.vcenters
                  || (&& |ServersOf(now)| >= lease.spec.minVCenters
                      && |ServersOf(now)| + lease.spec.pools - |now| > lease.spec.vcenters))
    ensures outcome == Waiting ==>
              && held + picks != [] && (lease.spec.vcenters > 0 || lease.spec.minVCenters > 0)
              && (lease.spec.vcenters > 0 ==> |ServersOf(ToSet(held + picks))| < lease.spec.vcenters)
    ensures Guaranteed(lease.spec, ToSet(held)) ==>
              (outcome == AllAssigned <==>
               CompletionExists(lease.spec, FittingPools(lease.spec, status, ToSet(inventory), ToSet(held)),
                   ToSet(held)))
  {
    picks, refs, outcome := PickUntilDone(lease, inventory, status, held);
    OutcomeInBrief(lease, status, inventory, held, picks, outcome);
    CompleteByRules(lease, status, ToSet(inventory), held, picks, outcome);
  }

  lemma OutcomeInBrief(lease: Lease, status: map<string, PoolStatus>, inventory: seq<Pool>, held: seq<Pool>,
      picks: seq<Pool>, outcome: PoolOutcome)
    requires Listing(inventory, status) && ToSet(held) <= ToSet(inventory)
    requires PoolLoopSpec(lease, status, ToSet(inventory), held, picks, outcome)
    ensures var missing := (if lease.spec.pools == 0 then 1 else lease.spec.pools) - |held + picks|;
            var spanned := |ServersOf(ToSet(held + picks))|;
            && (outcome == AllAssigned <==> missing == 0)
            && (outcome == NoPool ==> held + picks == [] || (lease.spec.vcenters <= 0 && lease.spec.minVCenters <= 0))
            && (outcome == Stuck ==>
                  && lease.spec.vcenters > 0
                  && (|| spanned >= lease.spec.vcenters
                      || (spanned >= lease.spec.minVCenters && spanned + missing > lease.spec.vcenters)))
            && (outcome == Waiting ==>
                  && held + picks != [] && (lease.spec.vcenters > 0 || lease.spec.minVCenters > 0)
                  && (lease.spec.vcenters > 0 ==> spanned < lease.spec.vcenters))
  {
    var now := ToSet(held + picks);
    SetsOfSequence(held, picks);
    assert forall p :: p in now ==> p in ToSet(inventory);
    assert held + picks != [] ==> (held + picks)[0] in now;
    var left := FittingPools(lease.spec, status, ToSet(inventory), now);
    OutcomeByNumbers(lease.spec, left, ToSet(inventory), now, outcome);
  }

  method PickUntilDone(lease: Lease, inventory: seq<Pool>, status: map<string, PoolStatus>, held: seq<Pool>)
    returns (picks: seq<Pool>, refs: seq<OwnerRef>, outcome: PoolOutcome)
    requires Listing(inventory, status)
    requires Distinct(held) && Holds(lease, ToSet(inventory), ToSet(held))
    requires |held| <= RequiredPools(lease.spec) && SpreadKept(lease.spec, ToSet(held))
    ensures refs == lease.refs + PoolRefsOf(picks)
    ensures PoolLoopSpec(lease, status, ToSet(inventory), held, picks, outcome)
  {
    picks, refs := [], lease.refs;
    LoopStarts(lease, inventory, status, held);
    while |held + picks| < RequiredPools(lease.spec)
      invariant LoopState(lease, ToSet(inventory), status, held, picks)
      invariant refs == lease.refs + PoolRefsOf(picks)
      decreases RequiredPools(lease.spec) - |held + picks|
    {
      var pool, refs', onFailure := Round(lease, inventory, status, held, picks, refs);
      if pool.None? {
        return picks, refs, onFailure;
      }
      picks, refs := picks + [pool.value], refs';
    }
    outcome := AllAssigned;
    Filled(lease, inventory, status, held, picks);
  }

  lemma LoopStarts(lease: Lease, inventory: seq<Pool>, status: map<string, PoolStatus>, held: seq<Pool>)
    requires Listing(inventory, status)
    requires Distinct(held) && Holds(lease, ToSet(inventory), ToSet(held))
    requires |held| <= RequiredPools(lease.spec) && SpreadKept(lease.spec, ToSet(held))
    ensures LoopState(lease, ToSet(inventory), status, held, [])
    ensures lease.refs + PoolRefsOf([]) == lease.refs
  {
    assert held + [] == held;
    assert lease.refs + PoolRefsOf([]) == lease.refs;
    assert WithPicks(lease, []) == lease;
    assert ToSet<Pool>([]) == {};
  }

  lemma Exhausted(lease: Lease, inventory: seq<Pool>, status: map<string, PoolStatus>, held: seq<Pool>,
      picks: seq<Pool>, now: seq<Pool>, f: set<Pool>, outcome: PoolOutcome)
    requires Listing(inventory, status) && LoopState(lease, ToSet(inventory), status, held, picks)
    requires now == held + picks && |now| < RequiredPools(lease.spec)
    requires f == FittingPools(lease.spec, status, ToSet(inventory), ToSet(now))
    requires outcome == FinalOutcome(lease.spec, f, ToSet(inventory), ToSet(now))
    requires (lease.spec.vcenters > 0 ==> lease.spec.minVCenters <= lease.spec.vcenters) ==>
        forall p :: !PickAllowed(lease.spec, f, ToSet(now), p)
    ensures PoolLoopSpec(lease, status, ToSet(inventory), held, picks, outcome)
  {
    DistinctCard(now);
    DistinctTail(held, picks);
  }

  lemma Filled(lease: Lease, inventory: seq<Pool>, status: map<string, PoolStatus>, held: seq<Pool>, picks: seq<Pool>)
    requires Listing(inventory, status) && LoopState(lease, ToSet(inventory), status, held, picks)
    requires |held + picks| == RequiredPools(lease.spec)
    ensures PoolLoopSpec(lease, status, ToSet(inventory), held, picks, AllAssigned)
  {
    var now := held + picks;
    DistinctCard(now);
    DistinctTail(held, picks);
  }

  lemma AllAssignedIsFull(lease: Lease, status: map<string, PoolStatus>, inventory: set<Pool>, held: seq<Pool>,
      picks: seq<Pool>)
    requires forall p :: p in inventory ==> p.name in status
    requires PoolLoopSpec(lease, status, inventory, held, picks, AllAssigned)
    ensures |held + picks| == RequiredPools(lease.spec)
  {
  }

  lemma DistinctTail<T>(a: seq<T>, b: seq<T>)
    requires Distinct(a + b)
    ensures Distinct(b)
  {
    assert forall i :: 0 <= i < |b| ==> b[i] == (a + b)[|a| + i];
  }

  // ---- Completeness ------------------------------------------------------------------------

  /** The lease can be completed now iff it could be when the loop started. */
  ghost predicate PromiseKept(spec: LeaseSpec, status: map<string, PoolStatus>, inventory: set<Pool>, held: set<Pool>,
      now: set<Pool>)
    requires forall p :: p in inventory ==> p.name in status
  {
    Guaranteed(spec, held) ==>
      && Guaranteed(spec, now)
      && (CompletionExists(spec, FittingPools(spec, status, inventory, now), now)
          <==> CompletionExists(spec, FittingPools(spec, status, inventory, held), held))
  }

  lemma PromiseAdvances(spec: LeaseSpec, status: map<string, PoolStatus>, inventory: set<Pool>, held: set<Pool>,
      now: set<Pool>, p: Pool)
    requires forall q :: q in inventory ==> q.name in status
    requires PromiseKept(spec, status, inventory, held, now)
    requires RulePick(spec, status, FittingPools(spec, status, inventory, now), now, p)
    requires Consistent(spec, FittingPools(spec, status, inventory, now), now)
    requires Consistent(spec, FittingPools(spec, status, inventory, now + {p}), now + {p})
    ensures PromiseKept(spec, status, inventory, held, now + {p})
  {
    if Guaranteed(spec, held) {
      FittingAfterPick(spec, status, inventory, now, p);
      MorePoolsMoreServers(spec, now, p);
      if FirstPickFiltered(spec, now) && CompletionExists(spec, FittingPools(spec, status, inventory, now), now) {
        RulePickJoins(spec, status, FittingPools(spec, status, inventory, now), now, p);
      }
      PickKeepsCompletion(spec, FittingPools(spec, status, inventory, now), now, p);
    }
  }

  /** A pick that passes the filter on the first pick is part of a combination. */
  lemma RulePickJoins(spec: LeaseSpec, status: map<string, PoolStatus>, f: set<Pool>, held: set<Pool>, p: Pool)
    requires forall q :: q in f ==> q.name in status
    requires RulePick(spec, status, f, held, p) && FirstPickFiltered(spec, held)
    requires CompletionExists(spec, f, held)
    ensures Joins(f, spec.vcenters, RequiredPools(spec), p.server)
  {
    CompletionIsCombination(spec, f);
    var excluded :| SurvivesBest(spec, status, f, excluded, p);
    SurvivorsJoin(f, spec.vcenters, RequiredPools(spec), excluded, p.server);
  }

  /** Whatever part of the inventory the lease holds on its way is consistent with what still fits. */
  lemma PartConsistent(spec: LeaseSpec, status: map<string, PoolStatus>, inventory: set<Pool>, part: set<Pool>,
      now: set<Pool>)
    requires forall p :: p in inventory ==> p.name in status && p.server != ""
    requires part <= now <= inventory && |now| <= RequiredPools(spec) && SpreadKept(spec, now)
    ensures Consistent(spec, FittingPools(spec, status, inventory, part), part)
  {
    CardMonotone(part, now);
    CardMonotone(ServersOf(part), ServersOf(now));
  }

  /** The promise after `i` picks. */
  ghost predicate KeptAt(spec: LeaseSpec, status: map<string, PoolStatus>, inventory: set<Pool>, held: seq<Pool>,
      picks: seq<Pool>, i: nat)
    requires i <= |picks| && forall p :: p in inventory ==> p.name in status
  {
    PromiseKept(spec, status, inventory, ToSet(held), ToSet(held + picks[..i]))
  }

  lemma {:induction false} PromiseAlong(spec: LeaseSpec, status: map<string, PoolStatus>, inventory: set<Pool>,
      held: seq<Pool>, picks: seq<Pool>, i: nat)
    requires i <= |picks| && forall p :: p in inventory ==> p.name in status
    requires KeptAt(spec, status, inventory, held, picks, 0)
    requires forall j :: 0 <= j < |picks| && KeptAt(spec, status, inventory, held, picks, j) ==>
               KeptAt(spec, status, inventory, held, picks, j + 1)
    ensures KeptAt(spec, status, inventory, held, picks, i)
  {
    if i > 0 {
      PromiseAlong(spec, status, inventory, held, picks, i - 1);
    }
  }

  lemma PromiseNext(spec: LeaseSpec, status: map<string, PoolStatus>, inventory: set<Pool>, held: seq<Pool>,
      picks: seq<Pool>, i: nat)
    requires forall p :: p in inventory ==> p.name in status && p.server != ""
    requires ToSet(held + picks) <= inventory && |ToSet(held + picks)| <= RequiredPools(spec)
    requires SpreadKept(spec, ToSet(held + picks)) && PickedByRules(spec, status, inventory, held, picks)
    requires i < |picks| && KeptAt(spec, status, inventory, held, picks, i)
    ensures KeptAt(spec, status, inventory, held, picks, i + 1)
  {
    PrefixesGrow(held, picks, i);
    PromiseStep(spec, status, inventory, ToSet(held), ToSet(held + picks[..i]), ToSet(held + picks), picks[i]);
  }

  lemma PromiseAtTheEnd(spec: LeaseSpec, status: map<string, PoolStatus>, inventory: set<Pool>, held: seq<Pool>,
      picks: seq<Pool>)
    requires forall p :: p in inventory ==> p.name in status && p.server != ""
    requires ToSet(held + picks) <= inventory && |ToSet(held + picks)| <= RequiredPools(spec)
    requires SpreadKept(spec, ToSet(held + picks)) && PickedByRules(spec, status, inventory, held, picks)
    ensures PromiseKept(spec, status, inventory, ToSet(held), ToSet(held + picks))
  {
    assert held + picks[..0] == held && picks[..|picks|] == picks;
    forall j | 0 <= j < |picks| && KeptAt(spec, status, inventory, held, picks, j)
      ensures KeptAt(spec, status, inventory, held, picks, j + 1)
    {
      PromiseNext(spec, status, inventory, held, picks, j);
    }
    PromiseAlong(spec, status, inventory, held, picks, |picks|);
  }

  lemma PromiseStep(spec: LeaseSpec, status: map<string, PoolStatus>, inventory: set<Pool>, held: set<Pool>,
      part: set<Pool>, now: set<Pool>, p: Pool)
    requires forall q :: q in inventory ==> q.name in status && q.server != ""
    requires part + {p} <= now <= inventory && |now| <= RequiredPools(spec) && SpreadKept(spec, now)
    requires RulePick(spec, status, FittingPools(spec, status, inventory, part), part, p)
    requires PromiseKept(spec, status, inventory, held, part)
    ensures PromiseKept(spec, status, inventory, held, part + {p})
  {
    PartConsistent(spec, status, inventory, part, now);
    PartConsistent(spec, status, inventory, part + {p}, now);
    PromiseAdvances(spec, status, inventory, held, part, p);
  }

  lemma PrefixesGrow<T>(held: seq<T>, picks: seq<T>, i: nat)
    requires i < |picks|
    ensures ToSet(held + picks[..i + 1]) == ToSet(held + picks[..i]) + {picks[i]} <= ToSet(held + picks)
  {
    assert held + picks[..i + 1] == held + picks[..i] + [picks[i]];
    assert held + picks == held + picks[..i + 1] + picks[i + 1..];
  }

  /** Where nothing is allowed any more, nothing is possible any more. */
  lemma NoCompletionLeft(spec: LeaseSpec, f: set<Pool>, now: set<Pool>)
    requires Consistent(spec, f, now) && |now| < RequiredPools(spec)
    requires (spec.vcenters > 0 ==> spec.minVCenters <= spec.vcenters) ==> forall p :: !PickAllowed(spec, f, now, p)
    ensures !CompletionExists(spec, f, now)
  {
    if CompletionExists(spec, f, now) {
      CompletionBounds(spec, f, now);
      AllowedPickExists(spec, f, now);
    }
  }

  lemma CompletionBounds(spec: LeaseSpec, f: set<Pool>, held: set<Pool>)
    requires CompletionExists(spec, f, held)
    ensures spec.vcenters > 0 ==> spec.minVCenters <= spec.vcenters
  {
    var s :| s <= f && Spread(held + s, RequiredPools(spec), spec.minVCenters, spec.vcenters);
  }

  lemma NothingMissing(spec: LeaseSpec, f: set<Pool>, held: set<Pool>)
    requires |held| == RequiredPools(spec) && SpreadKept(spec, held)
    ensures Guaranteed(spec, held) ==> CompletionExists(spec, f, held)
  {
    assert held + {} == held;
  }

  /** Picking by the rules is complete where it is guaranteed: the lease ends with all its pools exactly
      when fitting pools exist that complete it. */
  lemma CompleteByRules(lease: Lease, status: map<string, PoolStatus>, inventory: set<Pool>, held: seq<Pool>,
      picks: seq<Pool>, outcome: PoolOutcome)
    requires forall p :: p in inventory ==> p.name in status && p.server != ""
    requires ToSet(held) <= inventory && PoolLoopSpec(lease, status, inventory, held, picks, outcome)
    ensures Guaranteed(lease.spec, ToSet(held)) ==>
              (outcome == AllAssigned <==>
               CompletionExists(lease.spec, FittingPools(lease.spec, status, inventory, ToSet(held)), ToSet(held)))
  {
    var spec, now := lease.spec, ToSet(held + picks);
    SetsOfSequence(held, picks);
    PromiseAtTheEnd(spec, status, inventory, held, picks);
    PartConsistent(spec, status, inventory, now, now);
    EndsAsPromised(spec, FittingPools(spec, status, inventory, now), inventory, now, outcome);
  }

  lemma EndsAsPromised(spec: LeaseSpec, f: set<Pool>, inventory: set<Pool>, now: set<Pool>, outcome: PoolOutcome)
    requires Consistent(spec, f, now) && SpreadKept(spec, now) && outcome == FinalOutcome(spec, f, inventory, now)
    requires !outcome.AllAssigned? && (spec.vcenters > 0 ==> spec.minVCenters <= spec.vcenters) ==>
               forall p :: !PickAllowed(spec, f, now, p)
    ensures Guaranteed(spec, now) ==> (outcome == AllAssigned <==> CompletionExists(spec, f, now))
  {
    if |now| == RequiredPools(spec) {
      NothingMissing(spec, f, now);
    } else {
      NoCompletionLeft(spec, f, now);
    }
  }
}
