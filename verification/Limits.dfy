/**
 Where picking pools one at a time is not complete: an inventory in which the loop, whatever it does
 about ties, always misses an assignment that exists. It needs a cap, a minimum of two vCenters or
 more, and a request that leaves no room to spread (`Completion.RoomToSpread`).
 */
module Limits {
  import opened Types
  import opened Combinations
  import opened Scheduling
  import opened Completion
  import opened FirstPick
  import opened PoolLoop

  // ---- The inventory that strands a lease --------------------------------------------------

  /** As many single-pool vCenters as the minimum asks for, and one more vCenter than then fit under
      the cap, each with two pools or more. The lease wants all pools but one of the single ones. */
  ghost predicate Scene(spec: LeaseSpec, large: set<Pool>, singles: set<Pool>) {
    && 2 <= spec.minVCenters <= spec.vcenters
    && RequiredPools(spec) > 2 * spec.vcenters - spec.minVCenters
    && |large| == RequiredPools(spec) - spec.minVCenters + 1
    && |ServersOf(large)| == spec.vcenters - spec.minVCenters + 1
    && (forall v :: v in ServersOf(large) ==> CountOn(large, v) >= 2)
    && |singles| == |ServersOf(singles)| == spec.minVCenters
    && ServersOf(large) !! ServersOf(singles)
    && "" !in ServersOf(large) + ServersOf(singles)
  }

  /** All pools match and have room, and the single ones have the larger free share. */
  ghost predicate SinglesFirst(spec: LeaseSpec, status: map<string, PoolStatus>, large: set<Pool>, singles: set<Pool>) {
    && (forall p :: p in large + singles ==> p.name in status && Structural(spec, p) && HasRoom(spec, status, p))
    && (forall p, q :: p in large && q in singles ==> Score(status, p) < Score(status, q))
  }

  lemma OwnServer(s: set<Pool>, p: Pool, q: Pool)
    requires |s| == |ServersOf(s)| && p in s && q in s && p.server == q.server
    ensures p == q
  {
    if p != q {
      assert q in s - {p};
      assert ServersOf(s) == ServersOf(s - {p});
      ServersOfCard(s - {p});
    }
  }

  lemma SceneCounts(spec: LeaseSpec, large: set<Pool>, singles: set<Pool>)
    requires Scene(spec, large, singles)
    ensures large !! singles
    ensures |large + singles| == RequiredPools(spec) + 1
    ensures |ServersOf(large + singles)| == spec.vcenters + 1
    ensures forall p :: p in large + singles ==> p.server != ""
  {
    forall p | p in large + singles ensures (p in large <==> p !in singles) && p.server != "" {
      assert p in large ==> p.server in ServersOf(large);
      assert p in singles ==> p.server in ServersOf(singles);
    }
    CardUnion(large, singles);
    ServersUnion(large, singles);
    CardUnion(ServersOf(large), ServersOf(singles));
  }

  /** No other pool is on the vCenter of a single pool. */
  lemma SinglesAlone(large: set<Pool>, singles: set<Pool>, y: Pool, p: Pool)
    requires |singles| == |ServersOf(singles)| && ServersOf(large) !! ServersOf(singles)
    requires y in singles && p in large + singles && p != y
    ensures p.server != y.server
  {
    assert y.server in ServersOf(singles);
    if p in large {
      assert p.server in ServersOf(large);
    } else if p.server == y.server {
      OwnServer(singles, p, y);
    }
  }

  /** Leaving out one single pool, the vCenters of the others are a combination. */
  lemma AllButOne(spec: LeaseSpec, large: set<Pool>, singles: set<Pool>, y: Pool)
    requires Scene(spec, large, singles) && y in singles
    ensures Combination(large + singles, spec.vcenters, RequiredPools(spec), ServersOf(large + singles) - {y.server})
  {
    var f := large + singles;
    var w := ServersOf(f) - {y.server};
    SceneCounts(spec, large, singles);
    assert y in f && y.server in ServersOf(f);
    forall p | p in f - {y} ensures p in OnServers(f, w) {
      assert p.server in ServersOf(f);
      SinglesAlone(large, singles, y, p);
    }
    CardMonotone(f - {y}, OnServers(f, w));
  }

  /** Servers that leave out two others leave out two pools. */
  lemma TwoLeftOut(f: set<Pool>, w: set<string>)
    requires |ServersOf(f)| >= |w| + 2
    ensures |OnServers(f, w)| <= |f| - 2
  {
    var rest := ServersOf(f) - w;
    CardMonotone(ServersOf(f), rest + w);
    CardUnion(rest, w);
    forall v | v in rest ensures CountOn(f, v) >= 1 {
      var p :| p in f && p.server == v;
      assert p in OnServers(f, {v});
      CardMonotone({p}, OnServers(f, {v}));
    }
    ManyOnEach(f, rest, 1);
    OnServersSplit(f, rest, w);
    CardMonotone(OnServers(f, rest + w), f);
  }

  lemma NoSlack(spec: LeaseSpec, large: set<Pool>, singles: set<Pool>)
    requires Scene(spec, large, singles)
    ensures !CombinationExists(large + singles, spec.vcenters - 1, RequiredPools(spec))
  {
    SceneCounts(spec, large, singles);
    if CombinationExists(large + singles, spec.vcenters - 1, RequiredPools(spec)) {
      var w :| Combination(large + singles, spec.vcenters - 1, RequiredPools(spec), w);
      TwoLeftOut(large + singles, w);
    }
  }

  lemma SingleJoins(spec: LeaseSpec, large: set<Pool>, singles: set<Pool>, x: Pool)
    requires Scene(spec, large, singles) && x in singles
    ensures Joins(large + singles, spec.vcenters, RequiredPools(spec), x.server)
  {
    CardOfRest({x}, singles);
    var y :| y in singles - {x};
    AllButOne(spec, large, singles, y);
    SinglesAlone(large, singles, y, x);
    assert x in large + singles && x.server in ServersOf(large + singles);
    assert x.server in ServersOf(large + singles) - {y.server};
  }

  /** Without slack the filter spares whoever is part of a combination. */
  lemma JoiningSpared(f: set<Pool>, cap: nat, required: nat, v: string)
    requires v in ServersOf(f) && Joins(f, cap, required, v) && !CombinationExists(f, cap - 1, required)
    ensures forall excluded :: FirstPickSpec(f, cap, required, excluded) ==> v !in excluded
  {
    var w :| v in w && Combination(f, cap, required, w);
  }

  // ---- What the loop does there ------------------------------------------------------------

  /** While singles are left the minimum is pending, and each of them may be picked. */
  lemma SinglesAllowed(spec: LeaseSpec, large: set<Pool>, singles: set<Pool>, held: set<Pool>, x: Pool)
    requires Scene(spec, large, singles) && held <= singles && x in singles && x !in held
    ensures PickAllowed(spec, large + singles - held, held, x)
  {
    SceneCounts(spec, large, singles);
    CardMonotone(held + {x}, singles);
    ServersOfCard(held);
    NamedServers(spec, held);
    forall y | y in held ensures y.server != x.server {
      if y.server == x.server {
        OwnServer(singles, x, y);
      }
    }
  }

  lemma HigherIsSingle(spec: LeaseSpec, status: map<string, PoolStatus>, large: set<Pool>, singles: set<Pool>, x: Pool,
      p: Pool)
    requires SinglesFirst(spec, status, large, singles) && x in singles && p in large + singles
    requires Score(status, x) <= Score(status, p)
    ensures p in singles
  {
  }

  /** A rule pick scores no less than any pool that is allowed and spared by the filter. */
  lemma ScoresNoLess(spec: LeaseSpec, status: map<string, PoolStatus>, f: set<Pool>, held: set<Pool>, x: Pool, p: Pool)
    requires (forall q :: q in f ==> q.name in status) && RulePick(spec, status, f, held, p)
    requires PickAllowed(spec, f, held, x)
    requires FirstPickFiltered(spec, held) ==>
               forall excluded :: FirstPickSpec(f, spec.vcenters, RequiredPools(spec), excluded) ==>
                   x.server !in excluded
    ensures p in f && Score(status, x) <= Score(status, p)
  {
    if FirstPickFiltered(spec, held) {
      var excluded :| SurvivesBest(spec, status, f, excluded, p);
    }
  }

  /** The filter on the first pick spares every single pool. */
  lemma SinglesSpared(spec: LeaseSpec, large: set<Pool>, singles: set<Pool>, held: set<Pool>, x: Pool)
    requires Scene(spec, large, singles) && x in singles && held == {}
    ensures forall excluded :: FirstPickSpec(large + singles - held, spec.vcenters, RequiredPools(spec), excluded) ==>
              x.server !in excluded
  {
    assert large + singles - held == large + singles;
    SingleJoins(spec, large, singles, x);
    NoSlack(spec, large, singles);
    assert x in large + singles;
    JoiningSpared(large + singles, spec.vcenters, RequiredPools(spec), x.server);
  }

  lemma AllFit(spec: LeaseSpec, status: map<string, PoolStatus>, large: set<Pool>, singles: set<Pool>, held: set<Pool>)
    requires SinglesFirst(spec, status, large, singles)
    ensures FittingPools(spec, status, large + singles, held) == large + singles - held
  {
  }

  /** While singles are left, one of them is picked. */
  lemma NextIsSingle(spec: LeaseSpec, status: map<string, PoolStatus>, large: set<Pool>, singles: set<Pool>,
      picks: seq<Pool>, j: nat)
    requires Scene(spec, large, singles) && SinglesFirst(spec, status, large, singles)
    requires PickedByRules(spec, status, large + singles, [], picks) && Distinct(picks)
    requires j < |picks| && j < spec.minVCenters && ToSet(picks[..j]) <= singles
    ensures picks[j] in singles
  {
    var held := ToSet(picks[..j]);
    DistinctCard(picks[..j]);
    CardOfRest(held, singles);
    var x :| x in singles - held;
    AllFit(spec, status, large, singles, held);
    assert [] + picks[..j] == picks[..j];
    SinglesAllowed(spec, large, singles, held, x);
    if FirstPickFiltered(spec, held) {
      SinglesSpared(spec, large, singles, held, x);
    }
    ScoresNoLess(spec, status, large + singles - held, held, x, picks[j]);
    HigherIsSingle(spec, status, large, singles, x, picks[j]);
  }

  /** If each pick is a single pool as long as those before it were, the first picks all are. */
  lemma {:induction false} FirstOnes(singles: set<Pool>, picks: seq<Pool>, i: nat)
    requires i <= |picks|
    requires forall j :: 0 <= j < i && ToSet(picks[..j]) <= singles ==> picks[j] in singles
    ensures ToSet(picks[..i]) <= singles
  {
    if i > 0 {
      FirstOnes(singles, picks, i - 1);
      assert picks[..i] == picks[..i - 1] + [picks[i - 1]];
    }
  }

  /** With all single pools taken, the cap leaves out two pools or more. */
  lemma NeverEnough(spec: LeaseSpec, large: set<Pool>, singles: set<Pool>, now: set<Pool>)
    requires Scene(spec, large, singles) && singles <= now <= large + singles
    requires |ServersOf(now)| <= spec.vcenters
    ensures |now| < RequiredPools(spec)
  {
    SceneCounts(spec, large, singles);
    var p := UnusedPool(spec, large, singles, now);
    LeavesOut(large, singles, now, p);
  }

  lemma LeavesOut(large: set<Pool>, singles: set<Pool>, now: set<Pool>, p: Pool)
    requires singles <= now <= large + singles && p in large + singles - now && p.server !in ServersOf(now)
    requires forall v :: v in ServersOf(large) ==> CountOn(large, v) >= 2
    ensures |now| <= |large + singles| - 2
  {
    var away := OnServers(large, {p.server});
    assert p in large && p.server in ServersOf(large);
    forall q | q in away ensures q !in now {
      assert q in now ==> q.server in ServersOf(now);
    }
    CardUnion(now, away);
    CardMonotone(now + away, large + singles);
  }

  /** A loop that ends although a vCenter with a fitting pool is unused is stuck. */
  lemma EndsStuck(spec: LeaseSpec, inventory: set<Pool>, now: set<Pool>, p: Pool)
    requires 2 <= spec.minVCenters <= spec.vcenters && |now| < RequiredPools(spec)
    requires p in inventory - now && p.server !in ServersOf(now)
    requires forall q :: q in now ==> q.server != ""
    requires !PickAllowed(spec, inventory - now, now, p)
    ensures FinalOutcome(spec, inventory - now, inventory, now) == Stuck
  {
    NamedServers(spec, now);
    assert ServersOf({}) == {};
    if !CapReached(spec, ServersOf(now)) {
      var slots, rem := spec.vcenters - |ServersOf(now)|, RequiredPools(spec) - |now|;
      if rem <= slots {
        CoversShare(inventory - now, p, slots, rem);
      }
      assert LacksShare(inventory - now, p.server, slots, rem);
    }
  }

  lemma UnusedPool(spec: LeaseSpec, large: set<Pool>, singles: set<Pool>, now: set<Pool>) returns (p: Pool)
    requires Scene(spec, large, singles) && |ServersOf(now)| <= spec.vcenters
    ensures p in large + singles - now && p.server !in ServersOf(now)
  {
    SceneCounts(spec, large, singles);
    var servers := ServersOf(large + singles);
    if servers <= ServersOf(now) {
      CardMonotone(servers, ServersOf(now));
    }
    var v :| v in servers && v !in ServersOf(now);
    p :| p in large + singles && p.server == v;
    assert p in now ==> p.server in ServersOf(now);
  }

  /** In every such scene the lease can be completed, and yet every result of the loop is to be stuck:
      it takes the single pools first, and the cap then closes one vCenter too many. */
  lemma PendingMinimumStrands(lease: Lease, status: map<string, PoolStatus>, large: set<Pool>, singles: set<Pool>,
      picks: seq<Pool>, outcome: PoolOutcome)
    requires Scene(lease.spec, large, singles) && SinglesFirst(lease.spec, status, large, singles)
    requires PoolLoopSpec(lease, status, large + singles, [], picks, outcome)
    ensures CompletionExists(lease.spec, FittingPools(lease.spec, status, large + singles, {}), {})
    ensures outcome == Stuck
  {
    CompletionInScene(lease.spec, status, large, singles);
    StartedEmpty(lease, status, large + singles, picks, outcome);
    Strands(lease.spec, status, large, singles, picks, outcome);
  }

  /** What the specification says of a loop that started with nothing held. */
  ghost predicate Ended(spec: LeaseSpec, status: map<string, PoolStatus>, inventory: set<Pool>, picks: seq<Pool>,
      outcome: PoolOutcome)
    requires forall p :: p in inventory ==> p.name in status
  {
    && Distinct(picks) && ToSet(picks) <= FittingPools(spec, status, inventory, {})
    && PickedByRules(spec, status, inventory, [], picks)
    && |ToSet(picks)| <= RequiredPools(spec) && SpreadKept(spec, ToSet(picks))
    && LoopEnded(spec, status, inventory, ToSet(picks), outcome)
  }

  lemma StartedEmpty(lease: Lease, status: map<string, PoolStatus>, inventory: set<Pool>, picks: seq<Pool>,
      outcome: PoolOutcome)
    requires forall p :: p in inventory ==> p.name in status
    requires PoolLoopSpec(lease, status, inventory, [], picks, outcome)
    ensures Ended(lease.spec, status, inventory, picks, outcome)
  {
    var none: seq<Pool> := [];
    assert none + picks == picks && ToSet(none) == {};
    assert PoolLoopSpec(lease, status, inventory, none, picks, outcome);
    EndedFrom(lease, status, inventory, none, picks, outcome, ToSet(picks));
  }

  lemma EndedFrom(lease: Lease, status: map<string, PoolStatus>, inventory: set<Pool>, held: seq<Pool>,
      picks: seq<Pool>, outcome: PoolOutcome, now: set<Pool>)
    requires forall p :: p in inventory ==> p.name in status
    requires PoolLoopSpec(lease, status, inventory, held, picks, outcome)
    requires now == ToSet(held + picks) == ToSet(picks) && held == [] && ToSet(held) == {}
    ensures Ended(lease.spec, status, inventory, picks, outcome)
  {
  }

  lemma CompletionInScene(spec: LeaseSpec, status: map<string, PoolStatus>, large: set<Pool>, singles: set<Pool>)
    requires Scene(spec, large, singles) && SinglesFirst(spec, status, large, singles)
    ensures CompletionExists(spec, FittingPools(spec, status, large + singles, {}), {})
  {
    AllFit(spec, status, large, singles, {});
    assert large + singles - {} == large + singles;
    CompletionAtTheStart(spec, large, singles);
  }

  lemma Strands(spec: LeaseSpec, status: map<string, PoolStatus>, large: set<Pool>, singles: set<Pool>,
      picks: seq<Pool>, outcome: PoolOutcome)
    requires Scene(spec, large, singles) && SinglesFirst(spec, status, large, singles)
    requires Ended(spec, status, large + singles, picks, outcome)
    ensures outcome == Stuck && |ToSet(picks)| >= spec.minVCenters
  {
    FallsShort(spec, status, large, singles, picks);
    EndsInScene(spec, status, large, singles, ToSet(picks), outcome);
  }

  /** A loop that ends short in a scene ends stuck, and not before the minimum is met. */
  lemma EndsInScene(spec: LeaseSpec, status: map<string, PoolStatus>, large: set<Pool>, singles: set<Pool>,
      now: set<Pool>, outcome: PoolOutcome)
    requires Scene(spec, large, singles) && SinglesFirst(spec, status, large, singles)
    requires now <= large + singles && |now| < RequiredPools(spec) && |ServersOf(now)| <= spec.vcenters
    requires LoopEnded(spec, status, large + singles, now, outcome)
    ensures outcome == Stuck && |now| >= spec.minVCenters
  {
    AllFit(spec, status, large, singles, now);
    EndsShort(spec, status, large + singles, now, outcome, large + singles - now);
    StuckInScene(spec, large, singles, now, outcome);
    if |now| < spec.minVCenters {
      StillPending(spec, large, singles, now);
    }
  }

  lemma EndsShort(spec: LeaseSpec, status: map<string, PoolStatus>, inventory: set<Pool>, now: set<Pool>,
      outcome: PoolOutcome, left: set<Pool>)
    requires forall p :: p in inventory ==> p.name in status
    requires LoopEnded(spec, status, inventory, now, outcome) && left == FittingPools(spec, status, inventory, now)
    requires |now| < RequiredPools(spec) && spec.minVCenters <= spec.vcenters
    ensures outcome == FinalOutcome(spec, left, inventory, now) && forall p :: !PickAllowed(spec, left, now, p)
  {
  }

  /** Whatever else the loop picks, it has taken all single pools. */
  lemma SinglesAllTaken(spec: LeaseSpec, status: map<string, PoolStatus>, large: set<Pool>, singles: set<Pool>,
      picks: seq<Pool>, outcome: PoolOutcome)
    requires Scene(spec, large, singles) && SinglesFirst(spec, status, large, singles)
    requires Ended(spec, status, large + singles, picks, outcome)
    ensures singles <= ToSet(picks)
  {
    Strands(spec, status, large, singles, picks, outcome);
    DistinctCard(picks);
    FirstPicksAreSingles(spec, status, large, singles, picks);
  }

  /** A loop with fewer picks than the minimum could go on. */
  lemma StillPending(spec: LeaseSpec, large: set<Pool>, singles: set<Pool>, now: set<Pool>)
    requires Scene(spec, large, singles) && now <= large + singles && |now| < spec.minVCenters
    ensures exists p :: PickAllowed(spec, large + singles - now, now, p)
  {
    SceneCounts(spec, large, singles);
    ServersOfCard(now);
    NamedServers(spec, now);
    var p := UnusedPool(spec, large, singles, now);
    assert PickAllowed(spec, large + singles - now, now, p);
  }

  lemma StuckInScene(spec: LeaseSpec, large: set<Pool>, singles: set<Pool>, now: set<Pool>, outcome: PoolOutcome)
    requires Scene(spec, large, singles) && now <= large + singles && |now| < RequiredPools(spec)
    requires |ServersOf(now)| <= spec.vcenters
    requires outcome == FinalOutcome(spec, large + singles - now, large + singles, now)
    requires forall p :: !PickAllowed(spec, large + singles - now, now, p)
    ensures outcome == Stuck
  {
    SceneCounts(spec, large, singles);
    var p := UnusedPool(spec, large, singles, now);
    EndsStuck(spec, large + singles, now, p);
  }

  lemma FallsShort(spec: LeaseSpec, status: map<string, PoolStatus>, large: set<Pool>, singles: set<Pool>,
      picks: seq<Pool>)
    requires Scene(spec, large, singles) && SinglesFirst(spec, status, large, singles)
    requires PickedByRules(spec, status, large + singles, [], picks) && Distinct(picks)
    requires ToSet(picks) <= large + singles && |ServersOf(ToSet(picks))| <= spec.vcenters
    ensures |ToSet(picks)| < RequiredPools(spec)
  {
    DistinctCard(picks);
    if |picks| >= spec.minVCenters {
      FirstPicksAreSingles(spec, status, large, singles, picks);
      NeverEnough(spec, large, singles, ToSet(picks));
    }
  }

  lemma FirstPicksAreSingles(spec: LeaseSpec, status: map<string, PoolStatus>, large: set<Pool>, singles: set<Pool>,
      picks: seq<Pool>)
    requires Scene(spec, large, singles) && SinglesFirst(spec, status, large, singles)
    requires PickedByRules(spec, status, large + singles, [], picks) && Distinct(picks)
    requires |picks| >= spec.minVCenters
    ensures ToSet(picks[..spec.minVCenters]) == singles && singles <= ToSet(picks)
  {
    var m := spec.minVCenters;
    forall j | 0 <= j < m && ToSet(picks[..j]) <= singles ensures picks[j] in singles {
      NextIsSingle(spec, status, large, singles, picks, j);
    }
    FirstOnes(singles, picks, m);
    DistinctCard(picks[..m]);
    CardMonotone(ToSet(picks[..m]), singles);
  }

  lemma CompletionAtTheStart(spec: LeaseSpec, large: set<Pool>, singles: set<Pool>)
    requires Scene(spec, large, singles)
    ensures CompletionExists(spec, large + singles, {})
  {
    var f := large + singles;
    var y :| y in singles;
    SceneCounts(spec, large, singles);
    AllButOne(spec, large, singles, y);
    var w := ServersOf(f) - {y.server};
    assert y in f && y.server in ServersOf(f);
    var s := DrawSpread(f, w, RequiredPools(spec), spec.minVCenters, spec.vcenters);
    assert {} + s == s;
  }
}
