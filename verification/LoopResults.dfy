/**
 The specification of the pool loop is never empty: from every state in which the loop can start it
 has a result. Together with the proof that all results of the loop meet the specification, this
 makes statements about "every result" statements about something.
 */
module LoopResults {
  import opened Types
  import opened Combinations
  import opened Scheduling
  import opened Completion
  import opened FirstPick
  import opened PoolLoop

  lemma {:induction false} BestScoring(status: map<string, PoolStatus>, s: set<Pool>) returns (best: Pool)
    requires s != {} && forall p :: p in s ==> p.name in status
    ensures best in s && forall p :: p in s ==> Score(status, p) <= Score(status, best)
  {
    var p :| p in s;
    if s == {p} {
      best := p;
    } else {
      assert s - {p} != {};
      best := BestScoring(status, s - {p});
      if Score(status, best) < Score(status, p) {
        best := p;
      }
    }
  }

  /** The servers can be ranked: the best-filled one first, then the others. */
  lemma {:induction false} RankingExists(f: set<Pool>) returns (order: seq<string>)
    ensures Ranking(f, order)
    decreases |f|
  {
    if f == {} {
      order := [];
      assert ToSet(order) == {} && ServersOf(f) == {};
    } else {
      var some :| some in f;
      assert some.server in ServersOf(f);
      var v := FullestServer(f, ServersOf(f));
      var g := f - OnServers(f, {v});
      var p :| p in f && p.server == v;
      CardMonotone(g, f - {p});
      var rest := RankingExists(g);
      order := [v] + rest;
      RankedFirst(f, v, g, rest);
    }
  }

  lemma {:induction false} FullestServer(f: set<Pool>, servers: set<string>) returns (v: string)
    requires servers != {}
    ensures v in servers && forall u :: u in servers ==> CountOn(f, u) <= CountOn(f, v)
  {
    var u :| u in servers;
    if servers == {u} {
      v := u;
    } else {
      assert servers - {u} != {};
      v := FullestServer(f, servers - {u});
      if CountOn(f, v) < CountOn(f, u) {
        v := u;
      }
    }
  }

  lemma RankedFirst(f: set<Pool>, v: string, g: set<Pool>, rest: seq<string>)
    requires v in ServersOf(f) && g == f - OnServers(f, {v}) && Ranking(g, rest)
    requires forall u :: u in ServersOf(f) ==> CountOn(f, u) <= CountOn(f, v)
    ensures Ranking(f, [v] + rest)
  {
    var order := [v] + rest;
    assert ServersOf(g) == ServersOf(f) - {v} by {
      forall x | x in ServersOf(f) - {v} ensures x in ServersOf(g) {
        var p :| p in f && p.server == x;
        assert p in g;
      }
    }
    assert ToSet(order) == {v} + ToSet(rest);
    forall i | 0 <= i < |rest|
      ensures rest[i] in ServersOf(f) && rest[i] != v && CountOn(g, rest[i]) == CountOn(f, rest[i]) {
      assert rest[i] in ToSet(rest);
      assert OnServers(g, {rest[i]}) == OnServers(f, {rest[i]});
    }
  }

  /** How many of the ranked servers are needed. */
  lemma {:induction false} LeastPrefix(f: set<Pool>, order: seq<string>, required: nat, k: nat) returns (needed: nat)
    requires k <= |order| && |OnServers(f, ToSet(order[..k]))| >= required >= 1
    ensures 1 <= needed <= k
    ensures |OnServers(f, ToSet(order[..needed]))| >= required > |OnServers(f, ToSet(order[..needed - 1]))|
  {
    assert OnServers(f, ToSet(order[..0])) == {};
    if |OnServers(f, ToSet(order[..k - 1]))| >= required {
      needed := LeastPrefix(f, order, required, k - 1);
    } else {
      needed := k;
    }
  }

  lemma FilterHasResult(f: set<Pool>, cap: nat, required: nat) returns (excluded: set<string>)
    requires cap >= 1 && required >= 1
    ensures FirstPickSpec(f, cap, required, excluded)
  {
    var order := RankingExists(f);
    TopIsCombination(f, order, cap, required);
    if !CombinationExists(f, cap, required) {
      excluded := {};
      NoCombinationSpec(f, cap, required);
    } else {
      var needed := LeastPrefix(f, order, required, Smaller(cap, |order|));
      if needed < cap {
        excluded := ResultWithSlack(f, order, needed, cap, required);
      } else {
        excluded := set v | v in ServersOf(f) && !Joins(f, cap, required, v);
        NoSlackSpec(f, order, needed, cap, required, excluded);
      }
    }
  }

  lemma ResultWithSlack(f: set<Pool>, order: seq<string>, needed: nat, cap: nat, required: nat)
    returns (excluded: set<string>)
    requires Ranking(f, order) && 1 <= needed <= |order| && needed < cap
    requires |OnServers(f, ToSet(order[..needed]))| >= required > |OnServers(f, ToSet(order[..needed - 1]))|
    ensures FirstPickSpec(f, cap, required, excluded)
  {
    excluded := set k | needed <= k < |order| && LacksShare(f, order[k], cap, required) :: order[k];
    forall k | 0 <= k < |order|
      ensures order[k] in ServersOf(f)
      ensures order[k] in excluded <==> needed <= k && LacksShare(f, order[k], cap, required)
    {
      assert order[k] in ToSet(order);
    }
    SlackSpec(f, order, needed, cap, required, excluded);
  }

  /** The next round can go on with this pool. */
  ghost predicate CanPick(spec: LeaseSpec, status: map<string, PoolStatus>, f: set<Pool>, held: set<Pool>, p: Pool)
    requires forall q :: q in f ==> q.name in status
  {
    RulePick(spec, status, f, held, p) && (CapReached(spec, ServersOf(held)) ==> p.server in ServersOf(held))
  }

  lemma FirstPickExists(spec: LeaseSpec, status: map<string, PoolStatus>, f: set<Pool>)
    returns (p: Pool)
    requires f != {} && (forall q :: q in f ==> q.name in status) && FirstPickFiltered(spec, {})
    ensures CanPick(spec, status, f, {}, p)
  {
    var excluded := FilterWithSurvivor(f, spec.vcenters, RequiredPools(spec));
    p := BestSurvivor(status, f, excluded);
    SurvivorIsPick(spec, status, f, excluded, p);
  }

  lemma FilterWithSurvivor(f: set<Pool>, cap: nat, required: nat) returns (excluded: set<string>)
    requires cap >= 1 && required >= 1 && f != {}
    ensures FirstPickSpec(f, cap, required, excluded) && exists p :: p in f && p.server !in excluded
  {
    excluded := FilterHasResult(f, cap, required);
    FilterLeavesSome(f, cap, required, excluded);
  }

  lemma SurvivorIsPick(spec: LeaseSpec, status: map<string, PoolStatus>, f: set<Pool>, excluded: set<string>, p: Pool)
    requires FirstPickFiltered(spec, {}) && p in f && forall q :: q in f ==> q.name in status
    requires SurvivesBest(spec, status, f, excluded, p)
    ensures CanPick(spec, status, f, {}, p)
  {
    assert ServersOf({}) == {};
  }

  lemma BestSurvivor(status: map<string, PoolStatus>, f: set<Pool>, excluded: set<string>) returns (p: Pool)
    requires (forall q :: q in f ==> q.name in status) && exists q :: q in f && q.server !in excluded
    ensures p in f && p.server !in excluded
    ensures forall q :: q in f && q.server !in excluded ==> Score(status, q) <= Score(status, p)
  {
    var survivors := set q | q in f && q.server !in excluded;
    var some :| some in f && some.server !in excluded;
    assert some in survivors;
    p := BestScoring(status, survivors);
  }

  lemma LaterPickExists(spec: LeaseSpec, status: map<string, PoolStatus>, f: set<Pool>, held: set<Pool>, q: Pool)
    returns (p: Pool)
    requires (forall q :: q in f ==> q.name in status) && (forall p :: p in held ==> p.server != "")
    requires PickAllowed(spec, f, held, q) && !FirstPickFiltered(spec, held)
    requires spec.vcenters > 0 ==> spec.minVCenters <= spec.vcenters
    ensures CanPick(spec, status, f, held, p)
  {
    var allowed := set x | x in f && PickAllowed(spec, f, held, x);
    assert q in allowed;
    p := BestScoring(status, allowed);
    NamedServers(spec, held);
  }

  /** If no pool can be picked, none is allowed. */
  lemma NothingToPick(spec: LeaseSpec, status: map<string, PoolStatus>, f: set<Pool>, held: set<Pool>)
    requires (forall q :: q in f ==> q.name in status) && (forall p :: p in held ==> p.server != "")
    requires spec.vcenters > 0 ==> spec.minVCenters <= spec.vcenters
    requires forall p :: !CanPick(spec, status, f, held, p)
    ensures forall p :: !PickAllowed(spec, f, held, p)
  {
    if q :| PickAllowed(spec, f, held, q) {
      var p;
      if FirstPickFiltered(spec, held) {
        p := FirstPickExists(spec, status, f);
      } else {
        p := LaterPickExists(spec, status, f, held, q);
      }
    }
  }

  lemma {:induction false} RestOfLoop(lease: Lease, inventory: seq<Pool>, status: map<string, PoolStatus>,
      held: seq<Pool>, before: seq<Pool>)
    returns (picks: seq<Pool>, outcome: PoolOutcome)
    requires Listing(inventory, status) && LoopState(lease, ToSet(inventory), status, held, before)
    ensures PoolLoopSpec(lease, status, ToSet(inventory), held, picks, outcome)
    decreases RequiredPools(lease.spec) - |held + before|
  {
    var now := held + before;
    var f := FittingPools(lease.spec, status, ToSet(inventory), ToSet(now));
    if |now| == RequiredPools(lease.spec) {
      picks, outcome := before, AllAssigned;
      Filled(lease, inventory, status, held, before);
    } else if p :| CanPick(lease.spec, status, f, ToSet(now), p) {
      RoundAdvances(lease, inventory, status, held, before, now, f, p);
      picks, outcome := RestOfLoop(lease, inventory, status, held, before + [p]);
    } else {
      picks, outcome := before, FinalOutcome(lease.spec, f, ToSet(inventory), ToSet(now));
      forall q | q in ToSet(now) ensures q.server != "" {
        assert q in ToSet(inventory);
      }
      if lease.spec.vcenters > 0 ==> lease.spec.minVCenters <= lease.spec.vcenters {
        NothingToPick(lease.spec, status, f, ToSet(now));
      }
      Exhausted(lease, inventory, status, held, before, now, f, outcome);
    }
  }

  /** Wherever the loop may start, it has a result. */
  lemma LoopHasResult(lease: Lease, inventory: seq<Pool>, status: map<string, PoolStatus>, held: seq<Pool>)
    returns (picks: seq<Pool>, outcome: PoolOutcome)
    requires Listing(inventory, status)
    requires Distinct(held) && Holds(lease, ToSet(inventory), ToSet(held))
    requires |held| <= RequiredPools(lease.spec) && SpreadKept(lease.spec, ToSet(held))
    ensures PoolLoopSpec(lease, status, ToSet(inventory), held, picks, outcome)
  {
    LoopStarts(lease, inventory, status, held);
    picks, outcome := RestOfLoop(lease, inventory, status, held, []);
  }
}
