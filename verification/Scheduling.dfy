/**
 Which pools a lease may use (pkg/utils/pools.go): the structural match, the exact test
 whether a lease can ever be satisfied, and the choice of one pool by utilisation.
 */
module Scheduling {
  import opened Types
  import opened Combinations
  import opened Sorting

  // ---- Structural match --------------------------------------------------------------------

  predicate TolerationMatchesTaint(toleration: Toleration, taint: Taint) {
    if toleration.effect != "" && toleration.effect != taint.effect then false
    else if toleration.operator == "Exists" then toleration.key == "" || toleration.key == taint.key
    else toleration.key == taint.key && toleration.value == taint.value
  }

  predicate ToleratesTaints(spec: LeaseSpec, pool: Pool) {
    forall taint <- pool.taints ::
      exists toleration <- spec.tolerations :: TolerationMatchesTaint(toleration, taint)
  }

  predicate MatchesSelector(spec: LeaseSpec, pool: Pool) {
    forall key <- spec.poolSelector ::
      key in pool.labels && pool.labels[key] == spec.poolSelector[key]
  }

  predicate NameMatch(spec: LeaseSpec, pool: Pool) {
    |spec.requiredPool| > 0 && spec.requiredPool == pool.name
  }

  predicate PoolMatchesStructural(spec: LeaseSpec, pool: Pool) {
    if pool.noSchedule then false
    else if !NameMatch(spec, pool) && pool.exclude then false
    else if |spec.requiredPool| > 0 && !NameMatch(spec, pool) then false
    else if !MatchesSelector(spec, pool) then false
    else ToleratesTaints(spec, pool)
  }

  ghost predicate Tolerates(toleration: Toleration, taint: Taint) {
    && toleration.effect in {"", taint.effect}
    && (if toleration.operator == "Exists" then toleration.key in {"", taint.key}
        else toleration.key == taint.key && toleration.value == taint.value)
  }

  /** The pool matches by configuration alone, whatever is in use right now: it is open for scheduling,
      it is the required one if one is required (an excluded pool only then), it has the selected labels,
      and each of its taints is tolerated. */
  ghost predicate Structural(spec: LeaseSpec, pool: Pool) {
    && !pool.noSchedule
    && (pool.exclude || spec.requiredPool != "" ==> spec.requiredPool != "" && pool.name == spec.requiredPool)
    && (forall key :: key in spec.poolSelector ==> key in pool.labels && pool.labels[key] == spec.poolSelector[key])
    && (forall taint :: taint in pool.taints ==>
          exists toleration :: toleration in spec.tolerations && Tolerates(toleration, taint))
  }

  lemma MatchIsStructural(spec: LeaseSpec, pool: Pool)
    ensures PoolMatchesStructural(spec, pool) <==> Structural(spec, pool)
    ensures MatchesSelector(spec, pool) <==>
              forall key :: key in spec.poolSelector ==>
                key in pool.labels && pool.labels[key] == spec.poolSelector[key]
    ensures ToleratesTaints(spec, pool) <==>
              forall taint :: taint in pool.taints ==>
                exists toleration :: toleration in spec.tolerations && Tolerates(toleration, taint)
  {
    forall toleration, taint ensures TolerationMatchesTaint(toleration, taint) <==> Tolerates(toleration, taint) {
    }
  }

  /** The match, field by field. */
  lemma StructuralByField(spec: LeaseSpec, pool: Pool)
    ensures Structural(spec, pool) <==>
              && !pool.noSchedule
              && (pool.exclude ==> spec.requiredPool != "")
              && (spec.requiredPool != "" ==> pool.name == spec.requiredPool)
              && (forall key :: key in spec.poolSelector ==>
                    key in pool.labels && pool.labels[key] == spec.poolSelector[key])
              && (forall taint :: taint in pool.taints ==>
                    exists t :: t in spec.tolerations
                             && (t.effect == "" || t.effect == taint.effect)
                             && (t.operator == "Exists" ==> t.key == "" || t.key == taint.key)
                             && (t.operator != "Exists" ==> t.key == taint.key && t.value == taint.value))
  {
    forall taint
      ensures (exists t :: t in spec.tolerations && Tolerates(t, taint)) <==>
                exists t :: t in spec.tolerations
                         && (t.effect == "" || t.effect == taint.effect)
                         && (t.operator == "Exists" ==> t.key == "" || t.key == taint.key)
                         && (t.operator != "Exists" ==> t.key == taint.key && t.value == taint.value)
    {
    }
  }

  ghost function StructuralPools(spec: LeaseSpec, pools: set<Pool>): set<Pool> {
    set p | p in pools && Structural(spec, p)
  }

  // ---- Can the lease ever be satisfied? ----------------------------------------------------

  /** Some set of exactly the requested number of matching pools has the requested spread. */
  ghost predicate Satisfiable(spec: LeaseSpec, pools: set<Pool>) {
    exists s :: s <= StructuralPools(spec, pools)
             && Spread(s, RequiredPools(spec), spec.minVCenters, spec.vcenters)
  }

  /** `m` is the largest size of a subset of `f` on at most `cap` servers (any number if cap <= 0). */
  ghost predicate IsMaxAchievable(f: set<Pool>, cap: int, m: nat) {
    && (exists s :: s <= f && Spread(s, m, 0, cap))
    && (forall s :: s <= f && (cap > 0 ==> |ServersOf(s)| <= cap) ==> |s| <= m)
  }

  lemma CountWithPool(f: set<Pool>, p: Pool, v: string)
    requires p !in f
    ensures CountOn(f + {p}, v) == CountOn(f, v) + (if p.server == v then 1 else 0)
  {
    if p.server == v {
      assert OnServers(f + {p}, {v}) == OnServers(f, {v}) + {p};
    } else {
      assert OnServers(f + {p}, {v}) == OnServers(f, {v});
    }
  }

  /** `counts` gives, for each server of `f`, how many pools of `f` it holds. */
  ghost predicate CountsOf(f: set<Pool>, counts: map<string, nat>) {
    && counts.Keys == ServersOf(f)
    && forall v :: v in counts ==> counts[v] == CountOn(f, v)
  }

  function Increment(counts: map<string, nat>, server: string): map<string, nat> {
    counts[server := if server in counts then counts[server] + 1 else 1]
  }

  lemma IncrementCounts(f: set<Pool>, counts: map<string, nat>, p: Pool)
    requires CountsOf(f, counts) && p !in f
    ensures CountsOf(f + {p}, Increment(counts, p.server))
  {
    assert ServersOf(f + {p}) == ServersOf(f) + {p.server};
    forall v ensures CountOn(f + {p}, v) == CountOn(f, v) + (if p.server == v then 1 else 0) {
      CountWithPool(f, p, v);
    }
    if p.server !in counts {
      assert OnServers(f, {p.server}) == {};
    }
  }

  method StructuralPoolsPerVCenter(spec: LeaseSpec, allPools: seq<Pool>) returns (counts: map<string, nat>)
    requires Distinct(allPools)
    ensures CountsOf(StructuralPools(spec, ToSet(allPools)), counts)
  {
    counts := map[];
    for i := 0 to |allPools|
      invariant CountsOf(StructuralPools(spec, ToSet(allPools[..i])), counts)
    {
      var pool := allPools[i];
      assert ToSet(allPools[..i + 1]) == ToSet(allPools[..i]) + {pool};
      ghost var f := StructuralPools(spec, ToSet(allPools[..i]));
      MatchIsStructural(spec, pool);
      if !PoolMatchesStructural(spec, pool) {
        assert StructuralPools(spec, ToSet(allPools[..i + 1])) == f;
        continue;
      }
      assert StructuralPools(spec, ToSet(allPools[..i + 1])) == f + {pool};
      IncrementCounts(f, counts, pool);
      counts := Increment(counts, pool.server);
    }
    assert allPools[..|allPools|] == allPools;
  }

  function CountIn(counts: map<string, nat>, server: string): nat {
    if server in counts then counts[server] else 0
  }

  method ListServers(servers: set<string>) returns (listed: seq<string>)
    ensures Distinct(listed) && ToSet(listed) == servers
  {
    listed := [];
    var left := servers;
    while left != {}
      invariant left <= servers && Distinct(listed)
      invariant forall v :: v in listed <==> v in servers && v !in left
      decreases |left|
    {
      var v :| v in left;
      listed := listed + [v];
      left := left - {v};
    }
  }

  /** The servers in descending order of their count; the order of equal counts is arbitrary. */
  method RankServers(counts: map<string, nat>) returns (order: seq<string>)
    ensures Distinct(order) && ToSet(order) == counts.Keys
    ensures forall i, j :: 0 <= i < j < |order| ==> counts[order[i]] >= counts[order[j]]
  {
    var listed := ListServers(counts.Keys);
    var more := (a: string, b: string) => CountIn(counts, a) > CountIn(counts, b);
    order := Sort(listed, more);
    SameElements(listed, order);
    DistinctFromMultiset(listed, order);
    assert ToSet(order) == ToSet(listed);
    forall i, j | 0 <= i < j < |order| ensures counts[order[i]] >= counts[order[j]] {
      assert order[i] in ToSet(order) && order[j] in ToSet(order);
      assert !more(order[j], order[i]);
    }
  }

  /** Adding up the counts of the first `n` ranked servers counts the pools on them. */
  method SumOfTop(ghost f: set<Pool>, counts: map<string, nat>, order: seq<string>, n: nat) returns (total: nat)
    requires CountsOf(f, counts) && Distinct(order) && ToSet(order) == counts.Keys && n <= |order|
    ensures total == |OnServers(f, ToSet(order[..n]))|
  {
    total := 0;
    assert ToSet(order[..0]) == {};
    assert OnServers(f, {}) == {};
    for i := 0 to n
      invariant total == |OnServers(f, ToSet(order[..i]))|
    {
      assert order[i] in ToSet(order);
      OnPrefix(f, order, i);
      total := total + counts[order[i]];
    }
  }

  method MaxAchievablePools(spec: LeaseSpec, allPools: seq<Pool>) returns (total: nat)
    requires Distinct(allPools)
    ensures IsMaxAchievable(StructuralPools(spec, ToSet(allPools)), spec.vcenters, total)
  {
    var counts := StructuralPoolsPerVCenter(spec, allPools);
    ghost var f := StructuralPools(spec, ToSet(allPools));
    var order := RankServers(counts);
    DistinctCard(order);
    var n := |order|;
    if 0 < spec.vcenters < |order| {
      n := spec.vcenters;
    }
    total := SumOfTop(f, counts, order, n);
    ghost var w := ToSet(order[..n]);
    DistinctCard(order[..n]);
    ghost var witness0 := DrawSpread(f, w, total, 0, spec.vcenters);
    forall s | s <= f && (spec.vcenters > 0 ==> |ServersOf(s)| <= spec.vcenters)
      ensures |s| <= total
    {
      NoMoreThanTop(f, order, spec.vcenters, n, s);
    }
  }

  lemma NoMoreThanTop(f: set<Pool>, order: seq<string>, cap: int, n: nat, s: set<Pool>)
    requires Ranking(f, order) && n == (if 0 < cap < |order| then cap else |order|)
    requires s <= f && (cap > 0 ==> |ServersOf(s)| <= cap)
    ensures |s| <= |OnServers(f, ToSet(order[..n]))|
  {
    WithinServers(f, s);
    if cap > 0 {
      TopIsBestOf(f, order, cap, ServersOf(s));
    } else {
      assert order[..|order|] == order;
      CardMonotone(s, OnServers(f, ToSet(order)));
    }
  }

  lemma WithinServers(f: set<Pool>, s: set<Pool>)
    requires s <= f
    ensures s <= OnServers(f, ServersOf(s)) && |s| <= |OnServers(f, ServersOf(s))|
  {
    CardMonotone(s, OnServers(f, ServersOf(s)));
  }

  /** Adding pools to the inventory never lowers the achievable maximum. */
  lemma MaxAchievableMonotone(spec: LeaseSpec, pools: set<Pool>, more: set<Pool>, m: nat, m': nat)
    requires pools <= more
    requires IsMaxAchievable(StructuralPools(spec, pools), spec.vcenters, m)
    requires IsMaxAchievable(StructuralPools(spec, more), spec.vcenters, m')
    ensures m <= m'
  {
    var s :| s <= StructuralPools(spec, pools) && Spread(s, m, 0, spec.vcenters);
    assert s <= StructuralPools(spec, more);
  }

  /** ... and never makes a satisfiable lease unsatisfiable. */
  lemma SatisfiableMonotone(spec: LeaseSpec, pools: set<Pool>, more: set<Pool>)
    requires pools <= more && Satisfiable(spec, pools)
    ensures Satisfiable(spec, more)
  {
    var s :| s <= StructuralPools(spec, pools)
          && Spread(s, RequiredPools(spec), spec.minVCenters, spec.vcenters);
    assert s <= StructuralPools(spec, more);
  }

  datatype Reason =
    | NoReason
    | MinExceedsPools
    | MinExceedsCap
    | TooFewVCenters
    | RequiredPoolDisabled
    | RequiredPoolMissing
    | TooFewPools

  /** What each reason claims about the lease and the inventory. */
  ghost predicate Explains(spec: LeaseSpec, pools: set<Pool>, reason: Reason) {
    match reason
    case NoReason => false
    case MinExceedsPools => spec.minVCenters > RequiredPools(spec)
    case MinExceedsCap => 0 < spec.vcenters < spec.minVCenters
    case TooFewVCenters => |ServersOf(StructuralPools(spec, pools))| < spec.minVCenters
    case RequiredPoolDisabled =>
      spec.requiredPool != "" && exists p :: p in pools && p.name == spec.requiredPool && p.noSchedule
    case RequiredPoolMissing => spec.requiredPool != "" && forall p :: p in pools ==> p.name != spec.requiredPool
    case TooFewPools =>
      forall s :: s <= StructuralPools(spec, pools) && (spec.vcenters > 0 ==> |ServersOf(s)| <= spec.vcenters) ==>
        |s| < RequiredPools(spec)
  }

  /** Each reason is by itself a proof that the lease cannot be satisfied. */
  lemma ReasonIsConclusive(spec: LeaseSpec, pools: set<Pool>, reason: Reason)
    requires forall p, q :: p in pools && q in pools && p.name == q.name ==> p == q
    requires Explains(spec, pools, reason)
    ensures !Satisfiable(spec, pools)
  {
    SatisfiableBounds(spec, pools);
    if reason in {RequiredPoolDisabled, RequiredPoolMissing} {
      assert StructuralPools(spec, pools) == {};
    }
  }

  /** The first requirement on the minimum spread that no assignment can meet, if any. */
  method MinVCentersUnsatisfiableReason(spec: LeaseSpec, allPools: seq<Pool>) returns (reason: Reason)
    requires Distinct(allPools)
    ensures reason == NoReason <==>
              (spec.minVCenters > 0 ==>
                && spec.minVCenters <= RequiredPools(spec)
                && (spec.vcenters > 0 ==> spec.minVCenters <= spec.vcenters)
                && spec.minVCenters <= |ServersOf(StructuralPools(spec, ToSet(allPools)))|)
    ensures reason != NoReason ==> Explains(spec, ToSet(allPools), reason)
  {
    if spec.minVCenters <= 0 {
      return NoReason;
    }
    if spec.minVCenters > RequiredPools(spec) {
      return MinExceedsPools;
    }
    if spec.vcenters > 0 && spec.minVCenters > spec.vcenters {
      return MinExceedsCap;
    }
    var counts := StructuralPoolsPerVCenter(spec, allPools);
    if |counts.Keys| < spec.minVCenters {
      return TooFewVCenters;
    }
    return NoReason;
  }

  /** Whether the pool named by the lease is missing or disabled. */
  method RequiredPoolUnsatisfiableReason(spec: LeaseSpec, allPools: seq<Pool>) returns (reason: Reason)
    requires forall i, j :: 0 <= i < j < |allPools| ==> allPools[i].name != allPools[j].name
    ensures reason == RequiredPoolMissing <==>
              spec.requiredPool != "" && forall p :: p in allPools ==> p.name != spec.requiredPool
    ensures reason == RequiredPoolDisabled <==>
              spec.requiredPool != "" && exists p :: p in allPools && p.name == spec.requiredPool && p.noSchedule
    ensures reason in {NoReason, RequiredPoolMissing, RequiredPoolDisabled}
  {
    if spec.requiredPool == "" {
      return NoReason;
    }
    for i := 0 to |allPools|
      invariant forall k :: 0 <= k < i ==> allPools[k].name != spec.requiredPool
    {
      if allPools[i].name != spec.requiredPool {
        continue;
      }
      if allPools[i].noSchedule {
        return RequiredPoolDisabled;
      }
      return NoReason;
    }
    return RequiredPoolMissing;
  }

  /** The test is exact: it accepts precisely the leases for which a fitting set of matching
      pools exists in the inventory, and gives a true reason precisely when it rejects. */
  method IsLeaseSatisfiable(spec: LeaseSpec, allPools: seq<Pool>) returns (ok: bool, reason: Reason)
    requires forall i, j :: 0 <= i < j < |allPools| ==> allPools[i].name != allPools[j].name
    ensures ok <==> Satisfiable(spec, ToSet(allPools))
    ensures ok <==> exists s: set<Pool> ::
              && |s| == (if spec.pools == 0 then 1 else spec.pools)
              && spec.minVCenters <= |ServersOf(s)| && (spec.vcenters > 0 ==> |ServersOf(s)| <= spec.vcenters)
              && forall p :: p in s ==> p in allPools && Structural(spec, p)
    ensures ok <==> reason == NoReason
    ensures !ok ==> Explains(spec, ToSet(allPools), reason)
  {
    SatisfiedByNumbers(spec, allPools);
    reason := MinVCentersUnsatisfiableReason(spec, allPools);
    if reason != NoReason {
      SatisfiableBounds(spec, ToSet(allPools));
      return false, reason;
    }
    var maxAchievable := MaxAchievablePools(spec, allPools);
    if maxAchievable >= RequiredPools(spec) {
      SatisfiableFromMax(spec, ToSet(allPools), maxAchievable);
      return true, NoReason;
    }
    assert !Satisfiable(spec, ToSet(allPools));
    reason := RequiredPoolUnsatisfiableReason(spec, allPools);
    if reason != NoReason {
      return false, reason;
    }
    return false, TooFewPools;
  }

  /** Satisfiable, said of the numbers in the request. */
  lemma SatisfiedByNumbers(spec: LeaseSpec, allPools: seq<Pool>)
    ensures Satisfiable(spec, ToSet(allPools)) <==>
              exists s: set<Pool> ::
                && |s| == (if spec.pools == 0 then 1 else spec.pools)
                && spec.minVCenters <= |ServersOf(s)| && (spec.vcenters > 0 ==> |ServersOf(s)| <= spec.vcenters)
                && forall p :: p in s ==> p in allPools && Structural(spec, p)
  {
    var f := StructuralPools(spec, ToSet(allPools));
    forall s: set<Pool>
      ensures s <= f && Spread(s, RequiredPools(spec), spec.minVCenters, spec.vcenters) <==>
                && |s| == (if spec.pools == 0 then 1 else spec.pools)
                && spec.minVCenters <= |ServersOf(s)| && (spec.vcenters > 0 ==> |ServersOf(s)| <= spec.vcenters)
                && forall p :: p in s ==> p in allPools && Structural(spec, p)
    {
      assert s <= f <==> forall p :: p in s ==> p in allPools && Structural(spec, p);
    }
  }

  lemma SatisfiableBounds(spec: LeaseSpec, pools: set<Pool>)
    ensures Satisfiable(spec, pools) ==>
              && spec.minVCenters <= RequiredPools(spec)
              && (spec.vcenters > 0 ==> spec.minVCenters <= spec.vcenters)
              && spec.minVCenters <= |ServersOf(StructuralPools(spec, pools))|
  {
    if Satisfiable(spec, pools) {
      var s :| s <= StructuralPools(spec, pools)
            && Spread(s, RequiredPools(spec), spec.minVCenters, spec.vcenters);
      ServersOfCard(s);
      CardMonotone(ServersOf(s), ServersOf(StructuralPools(spec, pools)));
    }
  }

  /** Enough pools under the cap and enough servers overall give one set that has both. */
  lemma SatisfiableFromMax(spec: LeaseSpec, pools: set<Pool>, m: nat)
    requires IsMaxAchievable(StructuralPools(spec, pools), spec.vcenters, m) && m >= RequiredPools(spec)
    requires spec.minVCenters <= RequiredPools(spec)
    requires spec.vcenters > 0 ==> spec.minVCenters <= spec.vcenters
    requires spec.minVCenters <= |ServersOf(StructuralPools(spec, pools))|
    ensures Satisfiable(spec, pools)
  {
    var f := StructuralPools(spec, pools);
    var best :| best <= f && Spread(best, m, 0, spec.vcenters);
    var w := ServersOf(best);
    if spec.minVCenters > |w| {
      w := SubsetOfSize(w, ServersOf(f), spec.minVCenters);
    }
    WithinServers(f, best);
    OnServersMonotone(f, ServersOf(best), w);
    var s := DrawSpread(f, w, RequiredPools(spec), spec.minVCenters, spec.vcenters);
  }

  // ---- Servers in use ----------------------------------------------------------------------

  method GetVCentersInUse(held: seq<Pool>) returns (inUse: set<string>)
    ensures inUse == ServersOf(ToSet(held)) - {""}
  {
    inUse := {};
    for i := 0 to |held|
      invariant inUse == ServersOf(ToSet(held[..i])) - {""}
    {
      assert ToSet(held[..i + 1]) == ToSet(held[..i]) + {held[i]};
      assert ServersOf(ToSet(held[..i + 1])) == ServersOf(ToSet(held[..i])) + {held[i].server};
      if held[i].server != "" {
        inUse := inUse + {held[i].server};
      }
    }
    assert held[..|held|] == held;
  }

  /** The lease does not span its minimum number of vCenters yet. */
  ghost predicate DiversityPending(spec: LeaseSpec, held: set<Pool>) {
    spec.minVCenters > 0 && |ServersOf(held) - {""}| < spec.minVCenters
  }

  /** The vCenters to avoid while the minimum is not met, and nothing once it is. */
  method GetDiversityExcludedVCenters(spec: LeaseSpec, held: seq<Pool>) returns (avoid: Option<set<string>>)
    ensures avoid.Some? <==> DiversityPending(spec, ToSet(held))
    ensures avoid.Some? ==> avoid.value == ServersOf(ToSet(held)) - {""}
  {
    if spec.minVCenters <= 0 {
      return None;
    }
    var inUse := GetVCentersInUse(held);
    if |inUse| >= spec.minVCenters {
      return None;
    }
    return Some(inUse);
  }

  // ---- Pools that fit now ------------------------------------------------------------------

  ghost predicate HasRoom(spec: LeaseSpec, status: map<string, PoolStatus>, pool: Pool)
    requires pool.name in status
  {
    status[pool.name].vcpusAvailable >= spec.vcpus && status[pool.name].memoryAvailable >= spec.memory
  }

  /** What it takes to fit: a structural match, not owned yet, on no avoided vCenter, with room. */
  ghost predicate Fits(lease: Lease, status: map<string, PoolStatus>, excluded: set<string>, diversity: set<string>,
      pool: Pool)
    requires pool.name in status
  {
    && Structural(lease.spec, pool)
    && PoolRef(pool.name) !in lease.refs
    && pool.server !in excluded
    && pool.server !in diversity
    && HasRoom(lease.spec, status, pool)
  }

  /** What a pool has to pass, in the scheduler's order, each with the reason given when it does not. */
  ghost function Checks(lease: Lease, status: map<string, PoolStatus>, excluded: set<string>, diversity: set<string>,
      pool: Pool): seq<(string, bool)>
    requires pool.name in status
  {
    var required, selector := lease.spec.requiredPool, lease.spec.poolSelector;
    [("Pool already assigned to lease", PoolRef(pool.name) !in lease.refs),
     ("Pool not schedulable", !pool.noSchedule),
     ("Pool marked as excluded", pool.exclude ==> required != "" && required == pool.name),
     ("Pool does not match required", required == "" || required == pool.name),
     ("Pool labels do not match poolSelector",
      forall key :: key in selector ==> key in pool.labels && pool.labels[key] == selector[key]),
     ("Pool has taints not tolerated by lease",
      forall taint :: taint in pool.taints ==>
        exists toleration :: toleration in lease.spec.tolerations && Tolerates(toleration, taint)),
     ("Pool vCenter limit reached", pool.server !in excluded),
     ("Pool vCenter diversity required", pool.server !in diversity),
     ("Insufficient VCPU", status[pool.name].vcpusAvailable >= lease.spec.vcpus),
     ("Insufficient memory", status[pool.name].memoryAvailable >= lease.spec.memory)]
  }

  /** The reason is that of the first check the pool does not pass. */
  ghost predicate FirstFailing(checks: seq<(string, bool)>, reason: string) {
    exists k :: 0 <= k < |checks| && !checks[k].1 && checks[k].0 == reason && forall j :: 0 <= j < k ==> checks[j].1
  }

  /** The checks in the order the scheduler makes them; nothing when the pool fits. */
  function Rejection(lease: Lease, status: map<string, PoolStatus>, excluded: set<string>, diversity: set<string>,
      pool: Pool): (r: Option<string>)
    requires pool.name in status
    ensures r.None? <==> Fits(lease, status, excluded, diversity, pool)
    ensures r.Some? ==> FirstFailing(Checks(lease, status, excluded, diversity, pool), r.value)
  {
    MatchIsStructural(lease.spec, pool);
    ghost var checks := Checks(lease, status, excluded, diversity, pool);
    var figures := status[pool.name];
    if PoolRef(pool.name) in lease.refs then FailsFirst(checks, 0); Some("Pool already assigned to lease")
    else if pool.noSchedule then FailsFirst(checks, 1); Some("Pool not schedulable")
    else if !NameMatch(lease.spec, pool) && pool.exclude then FailsFirst(checks, 2); Some("Pool marked as excluded")
    else if |lease.spec.requiredPool| > 0 && !NameMatch(lease.spec, pool) then
      FailsFirst(checks, 3); Some("Pool does not match required")
    else if !MatchesSelector(lease.spec, pool) then
      FailsFirst(checks, 4); Some("Pool labels do not match poolSelector")
    else if !ToleratesTaints(lease.spec, pool) then
      FailsFirst(checks, 5); Some("Pool has taints not tolerated by lease")
    else if pool.server in excluded then FailsFirst(checks, 6); Some("Pool vCenter limit reached")
    else if pool.server in diversity then FailsFirst(checks, 7); Some("Pool vCenter diversity required")
    else if figures.vcpusAvailable >= lease.spec.vcpus && figures.memoryAvailable >= lease.spec.memory then None
    else if figures.vcpusAvailable < lease.spec.vcpus then FailsFirst(checks, 8); Some("Insufficient VCPU")
    else FailsFirst(checks, 9); Some("Insufficient memory")
  }

  lemma FailsFirst(checks: seq<(string, bool)>, k: nat)
    requires k < |checks| && !checks[k].1 && forall j :: 0 <= j < k ==> checks[j].1
    ensures FirstFailing(checks, checks[k].0)
  {
  }

  function FreeRatio(available: int, total: nat): real {
    if total == 0 then 0.0 else available as real / total as real
  }

  /** The free share of a pool's vCPUs plus the free share of its memory. */
  function Score(status: map<string, PoolStatus>, pool: Pool): real
    requires pool.name in status
  {
    FreeRatio(status[pool.name].vcpusAvailable, pool.vcpus) + FreeRatio(status[pool.name].memoryAvailable, pool.memory)
  }

  ghost predicate SortedByScore(status: map<string, PoolStatus>, pools: seq<Pool>)
    requires forall p :: p in pools ==> p.name in status
  {
    forall i, j :: 0 <= i < j < |pools| ==> Score(status, pools[i]) >= Score(status, pools[j])
  }

  method SortByScore(status: map<string, PoolStatus>, pools: seq<Pool>) returns (sorted: seq<Pool>)
    requires forall p :: p in pools ==> p.name in status
    ensures multiset(sorted) == multiset(pools)
    ensures forall p :: p in sorted <==> p in pools
    ensures SortedByScore(status, sorted)
  {
    var score := (p: Pool) => if p.name in status then Score(status, p) else 0.0;
    var freer := (p: Pool, q: Pool) => score(p) > score(q);
    sorted := Sort(pools, freer);
    SameElements(sorted, pools);
    forall i, j | 0 <= i < j < |sorted| ensures Score(status, sorted[i]) >= Score(status, sorted[j]) {
      assert !freer(sorted[j], sorted[i]);
    }
  }

  /** Each pool lands in exactly one of the two results: with the fitting ones, ordered by free
      share, iff it fits, and otherwise among the rejected ones with the reason. */
  method GetFittingPools(lease: Lease, pools: seq<Pool>, status: map<string, PoolStatus>, excluded: set<string>,
      diversity: set<string>)
    returns (fitting: seq<Pool>, rejected: seq<(Pool, string)>)
    requires forall p :: p in pools ==> p.name in status
    ensures forall p :: p in fitting ==> p in pools && Fits(lease, status, excluded, diversity, p)
    ensures forall p :: p in pools && Fits(lease, status, excluded, diversity, p) ==> p in fitting
    ensures forall r :: r in rejected ==>
              r.0 in pools && FirstFailing(Checks(lease, status, excluded, diversity, r.0), r.1)
    ensures multiset(fitting) + multiset(Firsts(rejected)) == multiset(pools)
    ensures SortedByScore(status, fitting)
  {
    fitting, rejected := SeparateByFit(lease, pools, status, excluded, diversity);
    fitting := SortByScore(status, fitting);
  }

  method SeparateByFit(lease: Lease, pools: seq<Pool>, status: map<string, PoolStatus>, excluded: set<string>,
      diversity: set<string>)
    returns (fitting: seq<Pool>, rejected: seq<(Pool, string)>)
    requires forall p :: p in pools ==> p.name in status
    ensures forall p :: p in fitting <==> p in pools && Fits(lease, status, excluded, diversity, p)
    ensures forall r :: r in rejected ==>
              r.0 in pools && Rejection(lease, status, excluded, diversity, r.0) == Some(r.1)
    ensures multiset(fitting) + multiset(Firsts(rejected)) == multiset(pools)
  {
    fitting, rejected := [], [];
    for i := 0 to |pools|
      invariant Separated(lease, status, excluded, diversity, pools[..i], fitting, rejected)
    {
      var pool := pools[i];
      assert pools[..i + 1] == pools[..i] + [pool];
      var reason := Rejection(lease, status, excluded, diversity, pool);
      if reason.None? {
        OneFits(lease, status, excluded, diversity, pools[..i], fitting, rejected, pool);
        fitting := fitting + [pool];
      } else {
        OneIsRejected(lease, status, excluded, diversity, pools[..i], fitting, rejected, pool, reason.value);
        rejected := rejected + [(pool, reason.value)];
      }
    }
    assert pools[..|pools|] == pools;
  }

  /** What the pass over the pools has made of `part`. */
  ghost predicate Separated(lease: Lease, status: map<string, PoolStatus>, excluded: set<string>,
      diversity: set<string>, part: seq<Pool>, fitting: seq<Pool>, rejected: seq<(Pool, string)>)
    requires forall p :: p in part ==> p.name in status
  {
    && (forall p :: p in fitting <==> p in part && Fits(lease, status, excluded, diversity, p))
    && (forall r :: r in rejected ==>
          r.0 in part && Rejection(lease, status, excluded, diversity, r.0) == Some(r.1))
    && multiset(fitting) + multiset(Firsts(rejected)) == multiset(part)
  }

  lemma OneFits(lease: Lease, status: map<string, PoolStatus>, excluded: set<string>, diversity: set<string>,
      part: seq<Pool>, fitting: seq<Pool>, rejected: seq<(Pool, string)>, pool: Pool)
    requires forall p :: p in part + [pool] ==> p.name in status
    requires Separated(lease, status, excluded, diversity, part, fitting, rejected)
    requires pool.name in status && Rejection(lease, status, excluded, diversity, pool) == None
    ensures Separated(lease, status, excluded, diversity, part + [pool], fitting + [pool], rejected)
  {
    assert multiset(fitting + [pool]) == multiset(fitting) + multiset{pool};
    assert multiset(part + [pool]) == multiset(part) + multiset{pool};
  }

  lemma OneIsRejected(lease: Lease, status: map<string, PoolStatus>, excluded: set<string>, diversity: set<string>,
      part: seq<Pool>, fitting: seq<Pool>, rejected: seq<(Pool, string)>, pool: Pool, reason: string)
    requires forall p :: p in part + [pool] ==> p.name in status
    requires Separated(lease, status, excluded, diversity, part, fitting, rejected)
    requires pool.name in status && Rejection(lease, status, excluded, diversity, pool) == Some(reason)
    ensures Separated(lease, status, excluded, diversity, part + [pool], fitting, rejected + [(pool, reason)])
  {
    assert Firsts(rejected + [(pool, reason)]) == Firsts(rejected) + [pool];
    assert multiset(Firsts(rejected) + [pool]) == multiset(Firsts(rejected)) + multiset{pool};
    assert multiset(part + [pool]) == multiset(part) + multiset{pool};
  }

  function Firsts<A, B>(pairs: seq<(A, B)>): seq<A> {
    seq(|pairs|, i requires 0 <= i < |pairs| => pairs[i].0)
  }

  datatype Strategy = Random | UnderUtilized

  /** Picks a fitting pool, if there is one, and records it on the lease. With the
      under-utilized strategy no fitting pool has a larger free share; ties are arbitrary. */
  method GetPoolWithStrategy(lease: Lease, pools: seq<Pool>, status: map<string, PoolStatus>, strategy: Strategy,
      excluded: set<string>, diversity: set<string>)
    returns (pool: Option<Pool>, refs: seq<OwnerRef>)
    requires forall p :: p in pools ==> p.name in status
    ensures pool.None? <==> forall p :: p in pools ==> !Fits(lease, status, excluded, diversity, p)
    ensures pool.None? ==> refs == lease.refs
    ensures pool.Some? ==>
              && pool.value in pools
              && Fits(lease, status, excluded, diversity, pool.value)
              && refs == lease.refs + [PoolRef(pool.value.name)]
    ensures pool.Some? && strategy == UnderUtilized ==>
              forall p :: p in pools && Fits(lease, status, excluded, diversity, p) ==>
                Score(status, p) <= Score(status, pool.value)
    ensures pool.Some? && strategy == UnderUtilized && pool.value.vcpus > 0 && pool.value.memory > 0 ==>
              forall p :: p in pools && Fits(lease, status, excluded, diversity, p) && p.vcpus > 0 && p.memory > 0 ==>
                status[p.name].vcpusAvailable as real / p.vcpus as real
                + status[p.name].memoryAvailable as real / p.memory as real
                <= status[pool.value.name].vcpusAvailable as real / pool.value.vcpus as real
                   + status[pool.value.name].memoryAvailable as real / pool.value.memory as real
  {
    var fitting, _ := GetFittingPools(lease, pools, status, excluded, diversity);
    if fitting == [] {
      return None, lease.refs;
    }
    var chosen := fitting[0];
    if strategy == Random {
      var k :| 0 <= k < |fitting|;
      chosen := fitting[k];
    }
    assert chosen in fitting;
    pool, refs := Some(chosen), lease.refs;
    if PoolRef(chosen.name) !in lease.refs {
      refs := refs + [PoolRef(chosen.name)];
    }
  }
}
