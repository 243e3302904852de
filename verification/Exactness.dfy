/**
 For which requests picking pools one at a time is complete. A request that leaves room to spread
 (`Completion.RoomToSpread`) gets all its pools whenever fitting pools for it exist. For every other
 request that can be completed at all an inventory is built here in which the loop misses an assignment that exists.
 */
module Exactness {
  import opened Types
  import opened Combinations
  import opened Scheduling
  import opened Completion
  import opened PoolLoop
  import opened LoopResults
  import opened Limits

  // ---- Names -------------------------------------------------------------------------------

  function Word(n: nat): string {
    seq(n + 1, _ => 'x')
  }

  lemma WordsDiffer(a: nat, b: nat)
    requires a != b
    ensures Word(a) != Word(b)
  {
    assert |Word(a)| == a + 1 && |Word(b)| == b + 1;
  }

  /** `n` words, starting with the one at `from`. */
  ghost function Words(from: nat, n: nat): seq<string> {
    seq(n, i requires 0 <= i < n => Word(from + i))
  }

  lemma WordsCard(from: nat, n: nat)
    ensures |ToSet(Words(from, n))| == n
  {
    forall i, j | 0 <= i < j < n ensures Words(from, n)[i] != Words(from, n)[j] {
      WordsDiffer(from + i, from + j);
    }
    DistinctCard(Words(from, n));
  }

  lemma WordsApart(m: nat, n: nat)
    ensures ToSet(Words(0, m)) !! ToSet(Words(m, n)) && "" !in ToSet(Words(0, m)) + ToSet(Words(m, n))
  {
    forall i, g | 0 <= i < m && 0 <= g < n ensures Words(0, m)[i] != Words(m, n)[g] {
      WordsDiffer(i, m + g);
    }
    NoEmptyWord(0, m);
    NoEmptyWord(m, n);
  }

  lemma NoEmptyWord(from: nat, n: nat)
    ensures "" !in Words(from, n)
  {
    forall i | 0 <= i < n ensures Words(from, n)[i] != "" {
      assert |Word(from + i)| == from + i + 1;
    }
  }

  // ---- The inventory -----------------------------------------------------------------------

  /** The request leaves no room to spread: a cap, a minimum of two vCenters or more that fits under
      it, and too many pools. */
  predicate Cramped(spec: LeaseSpec) {
    && 2 <= spec.minVCenters <= spec.vcenters
    && RequiredPools(spec) > 2 * spec.vcenters - spec.minVCenters
  }

  /** A pool that matches the request and has nothing in use. */
  function IdlePool(spec: LeaseSpec, name: nat, server: nat, capacity: nat): Pool {
    Pool(Word(name), Word(server), "", "", [], 1, spec.memory + 1, capacity, false, false, spec.poolSelector, [])
  }

  /** The vCenter of the pool at `j`: two to each of the `n` vCenters, and the rest to the last one. */
  function Group(n: nat, j: nat): nat
    requires n >= 1
  {
    if j / 2 < n - 1 then j / 2 else n - 1
  }

  ghost function Singles(spec: LeaseSpec): seq<Pool>
    requires Cramped(spec)
  {
    seq(spec.minVCenters, i requires 0 <= i < spec.minVCenters => IdlePool(spec, i, i, spec.vcpus + 1))
  }

  /** How many vCenters with several pools there are, and how many such pools. */
  function Wide(spec: LeaseSpec): nat
    requires Cramped(spec)
  {
    spec.vcenters - spec.minVCenters + 1
  }

  function Many(spec: LeaseSpec): nat
    requires Cramped(spec)
  {
    RequiredPools(spec) - spec.minVCenters + 1
  }

  ghost function Larges(spec: LeaseSpec): seq<Pool>
    requires Cramped(spec)
  {
    seq(Many(spec), j requires 0 <= j < Many(spec) =>
      IdlePool(spec, spec.minVCenters + j, spec.minVCenters + Group(Wide(spec), j), spec.vcpus))
  }

  /** The servers of a list of pools are known if each pool's server and each server's pool are. */
  lemma ServersListed(pools: seq<Pool>, servers: seq<string>)
    requires forall i :: 0 <= i < |pools| ==> pools[i].server in servers
    requires forall g :: 0 <= g < |servers| ==> servers[g] in ServersOf(ToSet(pools))
    ensures ServersOf(ToSet(pools)) == ToSet(servers)
  {
  }

  lemma SinglesCount(spec: LeaseSpec)
    requires Cramped(spec)
    ensures ServersOf(ToSet(Singles(spec))) == ToSet(Words(0, spec.minVCenters))
    ensures |ToSet(Singles(spec))| == |ServersOf(ToSet(Singles(spec)))| == spec.minVCenters
  {
    var m, s := spec.minVCenters, Singles(spec);
    forall i, j | 0 <= i < j < m ensures s[i] != s[j] {
      WordsDiffer(i, j);
    }
    DistinctCard(s);
    forall i | 0 <= i < m ensures s[i].server in Words(0, m) && Words(0, m)[i] in ServersOf(ToSet(s)) {
      assert Words(0, m)[i] == s[i].server;
      assert s[i] in ToSet(s);
    }
    ServersListed(s, Words(0, m));
    WordsCard(0, m);
  }

  lemma LargesDistinct(spec: LeaseSpec)
    requires Cramped(spec)
    ensures |ToSet(Larges(spec))| == Many(spec)
  {
    var m, s := spec.minVCenters, Larges(spec);
    forall i, j | 0 <= i < j < |s| ensures s[i] != s[j] {
      WordsDiffer(m + i, m + j);
    }
    DistinctCard(s);
  }

  /** Each of the larger vCenters has at least two pools. */
  lemma TwoOnEach(spec: LeaseSpec, g: nat)
    requires Cramped(spec) && g < Wide(spec)
    ensures CountOn(ToSet(Larges(spec)), Word(spec.minVCenters + g)) >= 2
    ensures Word(spec.minVCenters + g) in ServersOf(ToSet(Larges(spec)))
  {
    var m, s := spec.minVCenters, Larges(spec);
    var v := Word(m + g);
    assert Group(Wide(spec), 2 * g) == g && Group(Wide(spec), 2 * g + 1) == g;
    var p, q := s[2 * g], s[2 * g + 1];
    WordsDiffer(m + 2 * g, m + 2 * g + 1);
    assert p in ToSet(s) && q in ToSet(s);
    assert {p, q} <= OnServers(ToSet(s), {v});
    CardMonotone({p, q}, OnServers(ToSet(s), {v}));
  }

  lemma LargesServers(spec: LeaseSpec)
    requires Cramped(spec)
    ensures ServersOf(ToSet(Larges(spec))) == ToSet(Words(spec.minVCenters, Wide(spec)))
    ensures forall v :: v in ServersOf(ToSet(Larges(spec))) ==> CountOn(ToSet(Larges(spec)), v) >= 2
  {
    var m, n, s := spec.minVCenters, Wide(spec), Larges(spec);
    var words := Words(m, n);
    forall j | 0 <= j < |s| ensures s[j].server in words {
      assert words[Group(n, j)] == s[j].server;
    }
    forall g | 0 <= g < |words| ensures words[g] in ServersOf(ToSet(s)) && CountOn(ToSet(s), words[g]) >= 2 {
      TwoOnEach(spec, g);
    }
    ServersListed(s, words);
  }

  lemma SceneExists(spec: LeaseSpec)
    requires Cramped(spec)
    ensures Scene(spec, ToSet(Larges(spec)), ToSet(Singles(spec)))
  {
    SinglesCount(spec);
    LargesDistinct(spec);
    LargesServers(spec);
    WordsCard(spec.minVCenters, Wide(spec));
    WordsApart(spec.minVCenters, Wide(spec));
  }

  // ---- Its figures -------------------------------------------------------------------------

  ghost function IdleFigures(pools: seq<Pool>): map<string, PoolStatus> {
    if pools == [] then map[]
    else
      var last := pools[|pools| - 1];
      IdleFigures(pools[..|pools| - 1])[last.name := PoolStatus(last.capacity, last.memory, 0)]
  }

  lemma {:induction false} IdleFiguresAt(pools: seq<Pool>, p: Pool)
    requires p in pools && forall i, j :: 0 <= i < j < |pools| ==> pools[i].name != pools[j].name
    ensures p.name in IdleFigures(pools) && IdleFigures(pools)[p.name] == PoolStatus(p.capacity, p.memory, 0)
  {
    var k := |pools| - 1;
    if p != pools[k] {
      assert pools == pools[..k] + [pools[k]];
      assert p in pools[..k];
      IdleFiguresAt(pools[..k], p);
    }
  }

  /** The whole inventory, as the controller lists it. */
  ghost function Crowd(spec: LeaseSpec): seq<Pool>
    requires Cramped(spec)
  {
    Singles(spec) + Larges(spec)
  }

  lemma CrowdNames(spec: LeaseSpec)
    requires Cramped(spec)
    ensures forall i, j :: 0 <= i < j < |Crowd(spec)| ==> Crowd(spec)[i].name != Crowd(spec)[j].name
    ensures ToSet(Crowd(spec)) == ToSet(Larges(spec)) + ToSet(Singles(spec))
  {
    var s := Crowd(spec);
    assert forall i :: 0 <= i < |s| ==> s[i].name == Word(i);
    forall i, j | 0 <= i < j < |s| ensures s[i].name != s[j].name {
      WordsDiffer(i, j);
    }
    SetsOfSequence(Singles(spec), Larges(spec));
  }

  /** An idle pool of the inventory matches, has room, and scores by its capacity. */
  lemma IdleFits(spec: LeaseSpec, status: map<string, PoolStatus>, p: Pool, name: nat, server: nat)
    requires spec.requiredPool == "" && p == IdlePool(spec, name, server, p.capacity) && p.capacity >= spec.vcpus
    requires p.name in status && status[p.name] == PoolStatus(p.capacity, p.memory, 0)
    ensures Structural(spec, p) && HasRoom(spec, status, p) && p.server != ""
    ensures Score(status, p) == p.capacity as real + 1.0
  {
    assert |Word(server)| == server + 1;
    assert FreeRatio(p.memory, p.memory) == 1.0;
  }

  lemma SingleFits(spec: LeaseSpec, p: Pool)
    requires Cramped(spec) && spec.requiredPool == "" && p in Singles(spec)
    ensures var status := IdleFigures(Crowd(spec));
            && p.name in status && p.server != "" && Structural(spec, p) && HasRoom(spec, status, p)
            && Score(status, p) == spec.vcpus as real + 2.0
  {
    CrowdNames(spec);
    IdleFiguresAt(Crowd(spec), p);
    var i :| 0 <= i < spec.minVCenters && Singles(spec)[i] == p;
    IdleFits(spec, IdleFigures(Crowd(spec)), p, i, i);
  }

  lemma LargeIsIdle(spec: LeaseSpec, p: Pool) returns (name: nat, server: nat)
    requires Cramped(spec) && p in Larges(spec)
    ensures p == IdlePool(spec, name, server, spec.vcpus)
  {
    var j :| 0 <= j < Many(spec) && Larges(spec)[j] == p;
    name, server := spec.minVCenters + j, spec.minVCenters + Group(Wide(spec), j);
  }

  lemma LargeFits(spec: LeaseSpec, p: Pool)
    requires Cramped(spec) && spec.requiredPool == "" && p in Larges(spec)
    ensures var status := IdleFigures(Crowd(spec));
            && p.name in status && p.server != "" && Structural(spec, p) && HasRoom(spec, status, p)
            && Score(status, p) == spec.vcpus as real + 1.0
  {
    CrowdNames(spec);
    IdleFiguresAt(Crowd(spec), p);
    var name, server := LargeIsIdle(spec, p);
    IdleFits(spec, IdleFigures(Crowd(spec)), p, name, server);
  }

  lemma CrowdListed(spec: LeaseSpec)
    requires Cramped(spec) && spec.requiredPool == ""
    ensures Listing(Crowd(spec), IdleFigures(Crowd(spec)))
    ensures SinglesFirst(spec, IdleFigures(Crowd(spec)), ToSet(Larges(spec)), ToSet(Singles(spec)))
  {
    CrowdNames(spec);
    var status, large, single := IdleFigures(Crowd(spec)), spec.vcpus as real + 1.0, spec.vcpus as real + 2.0;
    forall p | p in ToSet(Singles(spec))
      ensures p.name in status && p.server != "" && Structural(spec, p) && HasRoom(spec, status, p)
          && Score(status, p) == single
    {
      SingleFits(spec, p);
    }
    forall p | p in ToSet(Larges(spec))
      ensures p.name in status && p.server != "" && Structural(spec, p) && HasRoom(spec, status, p)
          && Score(status, p) == large
    {
      LargeFits(spec, p);
    }
    assert forall p :: p in Crowd(spec) ==> p in ToSet(Singles(spec)) || p in ToSet(Larges(spec));
  }

  // ---- The exact condition -----------------------------------------------------------------

  /** Whenever fitting pools exist that complete a new lease with this request, every result of the
      loop has all pools. */
  ghost predicate NeverMisses(spec: LeaseSpec) {
    forall lease: Lease, inventory: seq<Pool>, status: map<string, PoolStatus>, picks: seq<Pool>,
      outcome: PoolOutcome ::
      (&& FirstRun(spec, lease, inventory, status, picks, outcome)
       && CompletionExists(spec, FittingPools(spec, status, ToSet(inventory), {}), {})) ==>
      outcome == AllAssigned
  }

  /** The loop ran for a lease with this request that holds nothing, and this is a result. */
  ghost predicate FirstRun(spec: LeaseSpec, lease: Lease, inventory: seq<Pool>, status: map<string, PoolStatus>,
      picks: seq<Pool>, outcome: PoolOutcome) {
    lease.spec == spec && Listing(inventory, status)
        && PoolLoopSpec(lease, status, ToSet(inventory), [], picks, outcome)
  }

  lemma PicksComplete(spec: LeaseSpec, f: set<Pool>, picks: set<Pool>)
    requires picks <= f && |picks| == RequiredPools(spec) && SpreadKept(spec, picks)
    requires spec.minVCenters <= RequiredPools(spec)
    ensures CompletionExists(spec, f, {})
  {
    assert {} + picks == picks;
    assert Spread({} + picks, RequiredPools(spec), spec.minVCenters, spec.vcenters);
  }

  /** What the loop ends with, if it ends with all pools, is a completion, unless the lease asks for more
      vCenters than pools. */
  lemma AllAssignedCompletes(lease: Lease, status: map<string, PoolStatus>, inventory: set<Pool>, picks: seq<Pool>)
    requires forall p :: p in inventory ==> p.name in status
    requires PoolLoopSpec(lease, status, inventory, [], picks, AllAssigned)
    ensures CompletionExists(lease.spec, FittingPools(lease.spec, status, inventory, {}), {}) <==>
              lease.spec.minVCenters <= RequiredPools(lease.spec)
  {
    StartedEmpty(lease, status, inventory, picks, AllAssigned);
    if lease.spec.minVCenters <= RequiredPools(lease.spec) {
      EndedCompletes(lease.spec, status, inventory, picks);
    } else if CompletionExists(lease.spec, FittingPools(lease.spec, status, inventory, {}), {}) {
      CompletionIsSensible(lease.spec, FittingPools(lease.spec, status, inventory, {}));
    }
  }

  /** Only a request whose minimum fits its pools and its cap can be completed. */
  lemma CompletionIsSensible(spec: LeaseSpec, f: set<Pool>)
    requires CompletionExists(spec, f, {})
    ensures spec.minVCenters <= RequiredPools(spec) && (spec.vcenters > 0 ==> spec.minVCenters <= spec.vcenters)
  {
    var s :| s <= f && Spread({} + s, RequiredPools(spec), spec.minVCenters, spec.vcenters);
    ServersOfCard({} + s);
  }

  lemma EndedCompletes(spec: LeaseSpec, status: map<string, PoolStatus>, inventory: set<Pool>, picks: seq<Pool>)
    requires forall p :: p in inventory ==> p.name in status
    requires spec.minVCenters <= RequiredPools(spec) && Ended(spec, status, inventory, picks, AllAssigned)
    ensures CompletionExists(spec, FittingPools(spec, status, inventory, {}), {})
  {
    PicksComplete(spec, FittingPools(spec, status, inventory, {}), ToSet(picks));
  }

  lemma AtMostOne<T>(s: set<T>)
    requires forall p, q :: p in s && q in s ==> p == q
    ensures |s| <= 1
  {
    if p :| p in s {
      assert s == {p};
    }
  }

  /** A lease that requires one pool by name cannot be given two. */
  lemma OneNameOnePool(spec: LeaseSpec, status: map<string, PoolStatus>, inventory: seq<Pool>)
    requires Listing(inventory, status) && spec.requiredPool != "" && RequiredPools(spec) >= 2
    ensures !CompletionExists(spec, FittingPools(spec, status, ToSet(inventory), {}), {})
  {
    var f := FittingPools(spec, status, ToSet(inventory), {});
    AtMostOne(f);
    if CompletionExists(spec, f, {}) {
      var s :| s <= f && Spread({} + s, RequiredPools(spec), spec.minVCenters, spec.vcenters);
      CardMonotone({} + s, f);
    }
  }

  lemma MissesWhenCramped(spec: LeaseSpec)
    requires Cramped(spec) && spec.requiredPool == ""
    ensures !NeverMisses(spec)
  {
    var inventory, status := Crowd(spec), IdleFigures(Crowd(spec));
    var lease := Lease("", 0, None, spec, [], LeaseStatus(Pending, "", []));
    CrowdListed(spec);
    var picks, outcome := FirstRunExists(lease, inventory, status);
    CrowdStrands(lease, picks, outcome);
    OneMiss(spec, lease, inventory, status, picks, outcome);
  }

  lemma OneMiss(spec: LeaseSpec, lease: Lease, inventory: seq<Pool>, status: map<string, PoolStatus>, picks: seq<Pool>,
      outcome: PoolOutcome)
    requires FirstRun(spec, lease, inventory, status, picks, outcome) && outcome != AllAssigned
    requires CompletionExists(spec, FittingPools(spec, status, ToSet(inventory), {}), {})
    ensures !NeverMisses(spec)
  {
  }

  lemma FirstRunExists(lease: Lease, inventory: seq<Pool>, status: map<string, PoolStatus>)
    returns (picks: seq<Pool>, outcome: PoolOutcome)
    requires Listing(inventory, status) && lease.refs == []
    ensures FirstRun(lease.spec, lease, inventory, status, picks, outcome)
  {
    assert ToSet<Pool>([]) == {} && ServersOf({}) == {};
    picks, outcome := LoopHasResult(lease, inventory, status, []);
  }

  lemma CrowdStrands(lease: Lease, picks: seq<Pool>, outcome: PoolOutcome)
    requires Cramped(lease.spec) && lease.spec.requiredPool == ""
    requires FirstRun(lease.spec, lease, Crowd(lease.spec), IdleFigures(Crowd(lease.spec)), picks, outcome)
    ensures outcome == Stuck
    ensures CompletionExists(lease.spec,
        FittingPools(lease.spec, IdleFigures(Crowd(lease.spec)), ToSet(Crowd(lease.spec)), {}), {})
  {
    SceneExists(lease.spec);
    CrowdNames(lease.spec);
    CrowdListed(lease.spec);
    PendingMinimumStrands(lease, IdleFigures(Crowd(lease.spec)), ToSet(Larges(lease.spec)), ToSet(Singles(lease.spec)),
        picks, outcome);
  }

  lemma CompleteOtherwise(spec: LeaseSpec, lease: Lease, inventory: seq<Pool>, status: map<string, PoolStatus>,
      picks: seq<Pool>, outcome: PoolOutcome)
    requires !Cramped(spec) || spec.requiredPool != ""
    requires FirstRun(spec, lease, inventory, status, picks, outcome)
    requires CompletionExists(spec, FittingPools(spec, status, ToSet(inventory), {}), {})
    ensures outcome == AllAssigned
  {
    assert ToSet<Pool>([]) == {};
    CompletionIsSensible(spec, FittingPools(spec, status, ToSet(inventory), {}));
    if Cramped(spec) {
      OneNameOnePool(spec, status, inventory);
    } else {
      assert Guaranteed(spec, {});
      CompleteByRules(lease, status, ToSet(inventory), [], picks, outcome);
    }
  }

  /** The loop is complete for a request exactly when the request leaves room to spread, or names the
      one pool it wants. */
  lemma CompleteExactlyWithRoom(spec: LeaseSpec)
    ensures NeverMisses(spec) <==> !Cramped(spec) || spec.requiredPool != ""
  {
    if !Cramped(spec) || spec.requiredPool != "" {
      forall lease: Lease, inventory: seq<Pool>, status: map<string, PoolStatus>, picks: seq<Pool>,
        outcome: PoolOutcome |
        && FirstRun(spec, lease, inventory, status, picks, outcome)
        && CompletionExists(spec, FittingPools(spec, status, ToSet(inventory), {}), {})
        ensures outcome == AllAssigned
      {
        CompleteOtherwise(spec, lease, inventory, status, picks, outcome);
      }
    } else {
      MissesWhenCramped(spec);
    }
  }
}
