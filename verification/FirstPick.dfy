/**
 The filter on the first pick of a lease that wants more pools than vCenters
 (pkg/controller/leases.go, 1101-1209). It runs while the minimum spread is pending.
 */
module FirstPick {
  import opened Types
  import opened Combinations
  import opened Scheduling
  import opened Completion

  function Smaller(a: nat, b: nat): nat {
    if a < b then a else b
  }

  lemma TopIsCombination(f: set<Pool>, order: seq<string>, cap: nat, required: nat)
    requires Ranking(f, order)
    ensures CombinationExists(f, cap, required) <==>
              |OnServers(f, ToSet(order[..Smaller(cap, |order|)]))| >= required
    ensures |OnServers(f, ToSet(order[..Smaller(cap, |order|)]))| >= required ==>
              Combination(f, cap, required, ToSet(order[..Smaller(cap, |order|)]))
  {
    var top := order[..Smaller(cap, |order|)];
    DistinctCard(top);
    if |OnServers(f, ToSet(top))| >= required {
      assert Combination(f, cap, required, ToSet(top));
    }
    if CombinationExists(f, cap, required) {
      var w :| Combination(f, cap, required, w);
      TopIsBestOf(f, order, cap, w);
    }
  }

  /** Pools on other servers do not notice when the pools on `v` are taken away. */
  lemma WithoutServer(f: set<Pool>, v: string, w: set<string>)
    requires v !in w
    ensures OnServers(f - OnServers(f, {v}), w) == OnServers(f, w)
    ensures |OnServers(f, w + {v})| == |OnServers(f - OnServers(f, {v}), w)| + CountOn(f, v)
  {
    OnServersSplit(f, w, {v});
    assert OnServers(f - OnServers(f, {v}), w) == OnServers(f, w);
  }

  lemma JoinsAny(f: set<Pool>, v: string, others: set<string>, cap: nat, required: nat)
    requires |others| < cap && |OnServers(f, others + {v})| >= required
    ensures Joins(f, cap, required, v)
  {
    assert v in others + {v} && Combination(f, cap, required, others + {v});
  }

  lemma JoinsBest(f: set<Pool>, v: string, rest: seq<string>, cap: nat, required: nat)
    requires cap >= 1 && Ranking(f - OnServers(f, {v}), rest)
    requires Joins(f, cap, required, v)
    ensures CountOn(f, v) + |OnServers(f - OnServers(f, {v}), ToSet(rest[..Smaller(cap - 1, |rest|)]))| >= required
  {
    var w :| v in w && Combination(f, cap, required, w);
    WithoutServer(f, v, w - {v});
    assert w == (w - {v}) + {v};
    TopIsBestOf(f - OnServers(f, {v}), rest, cap - 1, w - {v});
  }

  /** The list without the entry at `idx`. */
  function Others(order: seq<string>, idx: nat): seq<string>
    requires idx < |order|
  {
    order[..idx] + order[idx + 1..]
  }

  function SumOfCounts(counts: map<string, nat>, servers: seq<string>): nat {
    if servers == [] then 0
    else SumOfCounts(counts, servers[..|servers| - 1]) + CountIn(counts, servers[|servers| - 1])
  }

  /** The counts of distinct servers add up to the pools on them. */
  lemma {:induction false} CountsAddUp(f: set<Pool>, counts: map<string, nat>, servers: seq<string>)
    requires CountsOf(f, counts) && Distinct(servers) && ToSet(servers) <= ServersOf(f)
    ensures SumOfCounts(counts, servers) == |OnServers(f, ToSet(servers))|
  {
    if servers == [] {
      assert OnServers(f, ToSet(servers)) == {};
    } else {
      var k := |servers| - 1;
      assert servers[k] in ToSet(servers);
      CountsAddUp(f, counts, servers[..k]);
      OnPrefix(f, servers, k);
      assert servers[..k + 1] == servers;
    }
  }

  /** The counts of the best `needed` vCenters other than the one at `idx`. */
  method BestOthers(counts: map<string, nat>, order: seq<string>, idx: nat, needed: nat) returns (sum: nat)
    requires idx < |order| && forall i :: 0 <= i < |order| ==> order[i] in counts
    ensures sum == SumOfCounts(counts, Others(order, idx)[..Smaller(needed, |order| - 1)])
  {
    ghost var others := Others(order, idx);
    sum := 0;
    var collected: nat := 0;
    var i := 0;
    while i < |order| && collected < needed
      invariant 0 <= i <= |order|
      invariant collected == if i <= idx then i else i - 1
      invariant collected <= needed && collected < |order|
      invariant sum == SumOfCounts(counts, others[..collected])
    {
      if i != idx {
        assert others[collected] == order[i];
        assert others[..collected + 1][..collected] == others[..collected];
        sum := sum + counts[order[i]];
        collected := collected + 1;
      }
      i := i + 1;
    }
  }

  /** The best `k` vCenters other than the one at `idx`. */
  lemma BestOthersListed(f: set<Pool>, order: seq<string>, idx: nat, k: nat)
    requires Ranking(f, order) && idx < |order| && k < |order|
    ensures var best := Others(order, idx)[..k];
            Distinct(best) && ToSet(best) <= ServersOf(f) && order[idx] !in ToSet(best) && order[idx] in ServersOf(f)
  {
    WithoutOne(order, idx);
    assert ToSet(Others(order, idx)[..k]) <= ToSet(Others(order, idx));
    assert order[idx] in ToSet(order);
  }

  lemma CountsWithOne(f: set<Pool>, counts: map<string, nat>, best: seq<string>, v: string)
    requires CountsOf(f, counts) && Distinct(best) && ToSet(best) <= ServersOf(f)
    requires v in ServersOf(f) && v !in ToSet(best)
    ensures counts[v] + SumOfCounts(counts, best) == |OnServers(f, ToSet(best) + {v})|
  {
    CountsAddUp(f, counts, best);
    OnServersSplit(f, ToSet(best), {v});
  }

  /** If the vCenter at `idx` joins a combination, it does so with the best of the others. */
  lemma BestOthersSuffice(f: set<Pool>, order: seq<string>, idx: nat, cap: nat, required: nat)
    requires Ranking(f, order) && idx < |order| && cap >= 1 && Joins(f, cap, required, order[idx])
    ensures var best := Others(order, idx)[..Smaller(cap - 1, |order| - 1)];
            |OnServers(f, ToSet(best) + {order[idx]})| >= required
  {
    var best := Others(order, idx)[..Smaller(cap - 1, |order| - 1)];
    BestOthersListed(f, order, idx, Smaller(cap - 1, |order| - 1));
    RankingWithout(f, order, idx);
    JoinsBest(f, order[idx], Others(order, idx), cap, required);
    WithoutServer(f, order[idx], ToSet(best));
  }

  lemma JoinsWithBestOthers(f: set<Pool>, order: seq<string>, idx: nat, cap: nat, required: nat)
    requires Ranking(f, order) && idx < |order| && cap >= 1
    ensures var best := Others(order, idx)[..Smaller(cap - 1, |order| - 1)];
            Joins(f, cap, required, order[idx]) <==> |OnServers(f, ToSet(best) + {order[idx]})| >= required
  {
    var best := Others(order, idx)[..Smaller(cap - 1, |order| - 1)];
    if Joins(f, cap, required, order[idx]) {
      BestOthersSuffice(f, order, idx, cap, required);
    } else if |OnServers(f, ToSet(best) + {order[idx]})| >= required {
      BestOthersListed(f, order, idx, Smaller(cap - 1, |order| - 1));
      DistinctCard(best);
      JoinsAny(f, order[idx], ToSet(best), cap, required);
    }
  }

  /** The test made for the vCenter at `idx` tells whether it is part of a combination. */
  lemma TestedWithBestOthers(f: set<Pool>, counts: map<string, nat>, order: seq<string>, idx: nat, cap: nat,
      required: nat)
    requires CountsOf(f, counts) && Ranking(f, order) && idx < |order| && cap >= 1
    ensures order[idx] in counts
    ensures Joins(f, cap, required, order[idx]) <==>
              counts[order[idx]] + SumOfCounts(counts, Others(order, idx)[..Smaller(cap - 1, |order| - 1)]) >= required
  {
    BestOthersListed(f, order, idx, Smaller(cap - 1, |order| - 1));
    CountsWithOne(f, counts, Others(order, idx)[..Smaller(cap - 1, |order| - 1)], order[idx]);
    JoinsWithBestOthers(f, order, idx, cap, required);
  }

  lemma PrefixCount(f: set<Pool>, counts: map<string, nat>, order: seq<string>, k: nat)
    requires CountsOf(f, counts) && Ranking(f, order) && k < |order|
    ensures order[k] in counts
    ensures |OnServers(f, ToSet(order[..k + 1]))| == |OnServers(f, ToSet(order[..k]))| + counts[order[k]]
  {
    assert order[k] in ToSet(order);
    OnPrefix(f, order, k);
  }

  /** How many of the best-filled vCenters are needed to reach the required number. */
  method MinVCentersNeeded(ghost f: set<Pool>, counts: map<string, nat>, order: seq<string>, required: nat)
    returns (needed: nat)
    requires CountsOf(f, counts) && Ranking(f, order) && required >= 1
    requires |OnServers(f, ToSet(order))| >= required
    ensures 1 <= needed <= |order|
    ensures |OnServers(f, ToSet(order[..needed]))| >= required
    ensures |OnServers(f, ToSet(order[..needed - 1]))| < required
  {
    var cumulative := 0;
    needed := 0;
    assert ToSet(order[..0]) == {} && OnServers(f, {}) == {};
    assert order[..|order|] == order;
    while needed < |order|
      invariant 0 <= needed <= |order|
      invariant cumulative == |OnServers(f, ToSet(order[..needed]))| < required
    {
      PrefixCount(f, counts, order, needed);
      cumulative := cumulative + counts[order[needed]];
      needed := needed + 1;
      if cumulative >= required {
        return;
      }
    }
    assert false;
  }

  /** With slack, the vCenters beyond the needed ones that hold less than an even share. */
  method LowShareVCenters(ghost f: set<Pool>, counts: map<string, nat>, order: seq<string>, needed: nat, cap: nat,
      required: nat)
    returns (excluded: set<string>)
    requires CountsOf(f, counts) && Ranking(f, order) && needed <= |order| && cap >= 1 && required >= 1
    ensures excluded <= ServersOf(f)
    ensures forall k :: 0 <= k < |order| ==>
              (order[k] in excluded <==> needed <= k && LacksShare(f, order[k], cap, required))
  {
    var ceiling := (required - 1) / cap + 1;
    excluded := {};
    for i := needed to |order|
      invariant excluded <= ServersOf(f)
      invariant forall k :: 0 <= k < |order| ==>
                  (order[k] in excluded <==> needed <= k < i && LacksShare(f, order[k], cap, required))
    {
      assert order[i] in ToSet(order);
      CeilingShare(CountOn(f, order[i]), required, cap);
      if counts[order[i]] < ceiling {
        excluded := excluded + {order[i]};
      }
    }
  }

  ghost function Unjoinable(f: set<Pool>, cap: nat, required: nat, part: set<string>): set<string> {
    set v | v in part && !Joins(f, cap, required, v)
  }

  lemma UnjoinableWith(f: set<Pool>, cap: nat, required: nat, order: seq<string>, idx: nat)
    requires idx < |order|
    ensures Unjoinable(f, cap, required, ToSet(order[..idx + 1])) ==
              Unjoinable(f, cap, required,
                  ToSet(order[..idx])) + (if Joins(f, cap, required, order[idx]) then {} else {order[idx]})
  {
    assert order[..idx + 1] == order[..idx] + [order[idx]];
  }

  /** Without slack, the vCenters that join no combination. */
  method UnjoinableVCenters(ghost f: set<Pool>, counts: map<string, nat>, order: seq<string>, cap: nat, required: nat)
    returns (excluded: set<string>)
    requires CountsOf(f, counts) && Ranking(f, order) && cap >= 1
    ensures excluded == Unjoinable(f, cap, required, ServersOf(f))
  {
    excluded := {};
    RankedAreCounted(f, counts, order);
    for idx := 0 to |order|
      invariant excluded == Unjoinable(f, cap, required, ToSet(order[..idx]))
    {
      var bestOthers := BestOthers(counts, order, idx, cap - 1);
      TestedWithBestOthers(f, counts, order, idx, cap, required);
      UnjoinableWith(f, cap, required, order, idx);
      if counts[order[idx]] + bestOthers < required {
        excluded := excluded + {order[idx]};
      }
    }
    assert order[..|order|] == order;
  }

  lemma RankedAreCounted(f: set<Pool>, counts: map<string, nat>, order: seq<string>)
    requires CountsOf(f, counts) && Ranking(f, order)
    ensures forall i :: 0 <= i < |order| ==> order[i] in counts
  {
    assert forall i :: 0 <= i < |order| ==> order[i] in ToSet(order);
  }

  /** What the filter promises about the vCenters that hold a fitting pool. */
  ghost predicate FirstPickSpec(f: set<Pool>, cap: nat, required: nat, excluded: set<string>) {
    && excluded <= ServersOf(f)
    // nothing is excluded when no combination exists
    && (!CombinationExists(f, cap, required) ==> excluded == {})
    // the survivors still contain a combination
    && (CombinationExists(f, cap, required) ==>
          exists w :: w <= ServersOf(f) - excluded && Combination(f, cap, required, w))
    // without slack, exactly the vCenters that join no combination are excluded
    && (CombinationExists(f, cap, required) && !CombinationExists(f, cap - 1, required) ==>
          forall v :: v in ServersOf(f) ==> (v in excluded <==> !Joins(f, cap, required, v)))
    // with slack, the best-filled of the smallest combinations is kept, and outside it exactly the
    // vCenters that hold less than an even share are excluded
    && (CombinationExists(f, cap - 1, required) ==> exists w :: KeepsSmallest(f, cap, required, excluded, w))
  }

  ghost predicate KeepsSmallest(f: set<Pool>, cap: nat, required: nat, excluded: set<string>, w: set<string>) {
    && w <= ServersOf(f)
    && Combination(f, |w|, required, w) && !CombinationExists(f, |w| - 1, required)
    && BestFilled(f, w)
    && forall v :: v in ServersOf(f) ==> (v in excluded <==> v !in w && LacksShare(f, v, cap, required))
  }

  /** No vCenter outside `w` holds more pools than one inside. */
  ghost predicate BestFilled(f: set<Pool>, w: set<string>) {
    forall u, v :: u in w && v in ServersOf(f) - w ==> CountOn(f, u) >= CountOn(f, v)
  }

  lemma PrefixIsBestFilled(f: set<Pool>, order: seq<string>, k: nat)
    requires Ranking(f, order) && k <= |order|
    ensures BestFilled(f, ToSet(order[..k]))
  {
    assert forall j :: 0 <= j < k ==> order[j] in order[..k];
    forall u, v | u in ToSet(order[..k]) && v in ServersOf(f) - ToSet(order[..k])
      ensures CountOn(f, u) >= CountOn(f, v) {
      var i :| 0 <= i < k && order[i] == u;
      assert v in ToSet(order);
      var j :| 0 <= j < |order| && order[j] == v;
    }
  }

  method FirstPickExclusions(ghost f: set<Pool>, counts: map<string, nat>, cap: nat, required: nat)
    returns (excluded: set<string>)
    requires CountsOf(f, counts) && cap >= 1 && required >= 1
    ensures FirstPickSpec(f, cap, required, excluded)
  {
    var order := RankServers(counts);
    assert Ranking(f, order);
    var top := SumOfTop(f, counts, order, Smaller(cap, |order|));
    TopIsCombination(f, order, cap, required);
    if top < required {
      NoCombinationSpec(f, cap, required);
      return {};
    }
    assert order[..|order|] == order;
    PrefixMonotone(f, order, Smaller(cap, |order|), |order|);
    var needed := MinVCentersNeeded(f, counts, order, required);
    if needed < cap {
      excluded := LowShareVCenters(f, counts, order, needed, cap, required);
      SlackSpec(f, order, needed, cap, required, excluded);
    } else {
      excluded := UnjoinableVCenters(f, counts, order, cap, required);
      NoSlackSpec(f, order, needed, cap, required, excluded);
    }
  }

  lemma FewerServers(f: set<Pool>, cap: nat, required: nat)
    requires cap >= 1 && CombinationExists(f, cap - 1, required)
    ensures CombinationExists(f, cap, required)
  {
    var w :| Combination(f, cap - 1, required, w);
    assert Combination(f, cap, required, w);
  }

  /** With slack every vCenter is part of a combination. */
  lemma SlackJoinsAll(f: set<Pool>, cap: nat, required: nat, v: string)
    requires cap >= 1 && CombinationExists(f, cap - 1, required)
    ensures Joins(f, cap, required, v)
  {
    var w :| Combination(f, cap - 1, required, w);
    OnServersMonotone(f, w, w + {v});
    assert v in w + {v} && Combination(f, cap, required, w + {v});
  }

  /** Whoever survives the filter is part of a combination, if there is any. */
  lemma SurvivorsJoin(f: set<Pool>, cap: nat, required: nat, excluded: set<string>, v: string)
    requires cap >= 1 && FirstPickSpec(f, cap, required, excluded) && CombinationExists(f, cap, required)
    requires v in ServersOf(f) && v !in excluded
    ensures Joins(f, cap, required, v)
  {
    if CombinationExists(f, cap - 1, required) {
      SlackJoinsAll(f, cap, required, v);
    }
  }

  /** With slack, the vCenters that are kept without regard to their share are all vCenters, or leave
      one out that holds no more than any of them. */
  lemma KeptAreAll(f: set<Pool>, cap: nat, required: nat, excluded: set<string>, w: set<string>)
    requires KeepsSmallest(f, cap, required, excluded, w)
    ensures w == ServersOf(f) <==> !CombinationExists(f, |ServersOf(f)| - 1, required)
  {
    CardMonotone(w, ServersOf(f));
    if w != ServersOf(f) {
      assert Combination(f, |ServersOf(f)| - 1, required, w);
    }
  }

  lemma OutsideDecides(f: set<Pool>, cap: nat, required: nat, w: set<string>)
    requires BestFilled(f, w) && w < ServersOf(f)
    requires forall v :: v in ServersOf(f) - w ==> !LacksShare(f, v, cap, required)
    ensures forall v :: v in ServersOf(f) ==> !LacksShare(f, v, cap, required)
  {
    assert !(ServersOf(f) <= w);
    var v :| v in ServersOf(f) && v !in w;
    assert v in ServersOf(f) - w;
    forall u | u in w ensures !LacksShare(f, u, cap, required) {
      Scale(CountOn(f, v), CountOn(f, u), cap);
    }
  }

  /** With slack, nothing is excluded exactly when all vCenters are needed or none lacks its share. */
  lemma ExcludesNothingExactly(f: set<Pool>, cap: nat, required: nat, excluded: set<string>, w: set<string>)
    requires KeepsSmallest(f, cap, required, excluded, w) && excluded <= ServersOf(f)
    ensures excluded == {} <==>
              || !CombinationExists(f, |ServersOf(f)| - 1, required)
              || forall v :: v in ServersOf(f) ==> !LacksShare(f, v, cap, required)
  {
    KeptAreAll(f, cap, required, excluded, w);
    if excluded == {} && w != ServersOf(f) {
      OutsideDecides(f, cap, required, w);
    }
  }

  /** The filter spares all vCenters that are part of a combination exactly when there is no slack, or
      no vCenter can be spared at all, or no vCenter lacks its share. */
  lemma SparesJoiningExactly(f: set<Pool>, cap: nat, required: nat, excluded: set<string>)
    requires cap >= 1 && FirstPickSpec(f, cap, required, excluded)
    ensures (forall v :: v in excluded ==> !Joins(f, cap, required, v)) <==>
              || !CombinationExists(f, cap - 1, required)
              || !CombinationExists(f, |ServersOf(f)| - 1, required)
              || forall v :: v in ServersOf(f) ==> !LacksShare(f, v, cap, required)
  {
    if CombinationExists(f, cap - 1, required) {
      var w :| KeepsSmallest(f, cap, required, excluded, w);
      ExcludesNothingExactly(f, cap, required, excluded, w);
      forall v ensures Joins(f, cap, required, v) {
        SlackJoinsAll(f, cap, required, v);
      }
    } else if CombinationExists(f, cap, required) {
      assert forall v :: v in excluded ==> v in ServersOf(f);
    }
  }

  /** An instance with slack: next to a vCenter that has all the pools the lease wants, a vCenter with
      a single pool is excluded although the two together are a combination. */
  lemma ExcludesJoining(large: set<Pool>, server: string, b: Pool, excluded: set<string>)
    requires |large| >= 3 && (forall p :: p in large ==> p.server == server) && b.server != server
    requires FirstPickSpec(large + {b}, 2, |large|, excluded)
    ensures b.server in excluded && Joins(large + {b}, 2, |large|, b.server)
  {
    var f := large + {b};
    assert OnServers(f, {server}) == large;
    assert Combination(f, 1, |large|, {server});
    SlackJoinsAll(f, 2, |large|, b.server);
    var w :| KeepsSmallest(f, 2, |large|, excluded, w);
    assert |w| >= 2 ==> Combination(f, |w| - 1, |large|, {server});
    assert OnServers(f, {b.server}) == {b};
    assert b in f && b.server in ServersOf(f);
    if b.server in w {
      CardMonotone({b.server}, w);
    }
  }

  lemma NoCombinationSpec(f: set<Pool>, cap: nat, required: nat)
    requires cap >= 1 && !CombinationExists(f, cap, required)
    ensures FirstPickSpec(f, cap, required, {})
  {
    if CombinationExists(f, cap - 1, required) {
      FewerServers(f, cap, required);
    }
  }

  lemma PrefixMonotone(f: set<Pool>, order: seq<string>, a: nat, b: nat)
    requires a <= b <= |order|
    ensures |OnServers(f, ToSet(order[..a]))| <= |OnServers(f, ToSet(order[..b]))|
  {
    assert order[..a] == order[..b][..a];
    OnServersMonotone(f, ToSet(order[..a]), ToSet(order[..b]));
  }

  lemma SlackSpec(f: set<Pool>, order: seq<string>, needed: nat, cap: nat, required: nat, excluded: set<string>)
    requires Ranking(f, order) && 1 <= needed <= |order| && needed < cap
    requires |OnServers(f, ToSet(order[..needed]))| >= required
    requires |OnServers(f, ToSet(order[..needed - 1]))| < required
    requires excluded <= ServersOf(f)
    requires forall k :: 0 <= k < |order| ==>
               (order[k] in excluded <==> needed <= k && LacksShare(f, order[k], cap, required))
    ensures FirstPickSpec(f, cap, required, excluded)
  {
    var top := order[..needed];
    DistinctCard(top);
    var w := ToSet(top);
    assert w <= ToSet(order);
    assert Combination(f, cap - 1, required, w) && Combination(f, cap, required, w);
    assert w <= ServersOf(f) - excluded;
    assert Smaller(needed - 1, |order|) == needed - 1;
    TopIsCombination(f, order, needed - 1, required);
    forall v | v in ServersOf(f) ensures v in excluded <==> v !in w && LacksShare(f, v, cap, required) {
      assert v in ToSet(order);
      var k :| 0 <= k < |order| && order[k] == v;
      assert k < needed ==> top[k] == v;
      assert v in w ==> k < needed;
    }
    PrefixIsBestFilled(f, order, needed);
    assert KeepsSmallest(f, cap, required, excluded, w);
  }

  lemma NoSlackSpec(f: set<Pool>, order: seq<string>, needed: nat, cap: nat, required: nat, excluded: set<string>)
    requires Ranking(f, order) && 1 <= cap <= needed <= |order|
    requires Combination(f, cap, required, ToSet(order[..Smaller(cap, |order|)]))
    requires |OnServers(f, ToSet(order[..needed - 1]))| < required
    requires excluded <= ServersOf(f)
    requires forall v :: v in ServersOf(f) ==> (v in excluded <==> !Joins(f, cap, required, v))
    ensures FirstPickSpec(f, cap, required, excluded)
  {
    PrefixMonotone(f, order, cap - 1, needed - 1);
    TopIsCombination(f, order, cap - 1, required);
    var w := ToSet(order[..Smaller(cap, |order|)]);
    assert w <= ToSet(order);
    forall v | v in w ensures v !in excluded {
      assert Joins(f, cap, required, v);
    }
    assert w <= ServersOf(f) - excluded;
  }
}
