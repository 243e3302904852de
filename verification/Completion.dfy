/**
 Why picking pools one at a time works. A lease that holds some pools can be completed when
 fitting pools exist that bring it to the requested number and spread. This module proves that
 the picks the pool loop allows never lose that possibility, and that an allowed pick exists
 as long as it is there.
 */
module Completion {
  import opened Types
  import opened Combinations
  import opened Scheduling

  /** Some fitting pools from `f` complete what the lease holds. */
  ghost predicate CompletionExists(spec: LeaseSpec, f: set<Pool>, held: set<Pool>) {
    exists s :: s <= f && Spread(held + s, RequiredPools(spec), spec.minVCenters, spec.vcenters)
  }

  /** At most `cap` vCenters that together hold the required number of fitting pools. */
  ghost predicate Combination(f: set<Pool>, cap: int, required: nat, w: set<string>) {
    |w| <= cap && |OnServers(f, w)| >= required
  }

  ghost predicate CombinationExists(f: set<Pool>, cap: int, required: nat) {
    exists w :: Combination(f, cap, required, w)
  }

  /** The vCenter is part of some combination. */
  ghost predicate Joins(f: set<Pool>, cap: int, required: nat, v: string) {
    exists w :: v in w && Combination(f, cap, required, w)
  }

  ghost predicate CapReached(spec: LeaseSpec, inUse: set<string>) {
    spec.vcenters > 0 && |inUse| >= spec.vcenters
  }

  /** The vCenter holds less than its share of `rem` pools spread over `slots` vCenters. */
  ghost predicate LacksShare(f: set<Pool>, server: string, slots: nat, rem: nat) {
    CountOn(f, server) * slots < rem
  }

  /** A new vCenter may be opened under the cap if it holds at least the share of the `rem`
      missing pools that falls on each of the vCenters still to be opened. */
  ghost predicate MayUse(spec: LeaseSpec, f: set<Pool>, inUse: set<string>, rem: nat, server: string) {
    || server in inUse
    || spec.vcenters <= 0
    || (|inUse| < spec.vcenters && !LacksShare(f, server, spec.vcenters - |inUse|, rem))
  }

  /** The pick keeps to the vCenter rules: a new vCenter while the minimum is not met, and one
      that may be used under the cap otherwise. */
  ghost predicate PickAllowed(spec: LeaseSpec, f: set<Pool>, held: set<Pool>, p: Pool) {
    && p in f
    && |held| < RequiredPools(spec)
    && (DiversityPending(spec, held) ==> p.server !in ServersOf(held))
    && (!DiversityPending(spec, held) ==>
          MayUse(spec, f, ServersOf(held), RequiredPools(spec) - |held|, p.server))
  }

  /** The filter on the first pick is in force. */
  ghost predicate FirstPickFiltered(spec: LeaseSpec, held: set<Pool>) {
    DiversityPending(spec, held) && held == {} && 0 < spec.vcenters < RequiredPools(spec)
  }

  /** The set of fitting and held pools is one the loop can be in. */
  ghost predicate Consistent(spec: LeaseSpec, f: set<Pool>, held: set<Pool>) {
    && f !! held
    && |held| <= RequiredPools(spec)
    && (spec.vcenters > 0 ==> |ServersOf(held)| <= spec.vcenters)
    && forall p :: p in f + held ==> p.server != ""
  }

  /** The servers `w`, which include those in use, hold the `rem` missing pools. */
  ghost predicate Reaches(f: set<Pool>, inUse: set<string>, cap: int, rem: nat, w: set<string>) {
    && inUse <= w
    && (cap > 0 ==> |w| <= cap)
    && |OnServers(f, w)| >= rem
  }

  lemma CompletionReaches(spec: LeaseSpec, f: set<Pool>, held: set<Pool>) returns (w: set<string>)
    requires Consistent(spec, f, held) && CompletionExists(spec, f, held)
    ensures Reaches(f, ServersOf(held), spec.vcenters, RequiredPools(spec) - |held|, w)
  {
    var s :| s <= f && Spread(held + s, RequiredPools(spec), spec.minVCenters, spec.vcenters);
    w := ServersOf(held + s);
    CardMonotone(s, OnServers(f, w));
  }

  lemma ReachesCompletion(spec: LeaseSpec, f: set<Pool>, held: set<Pool>, w: set<string>)
    requires Consistent(spec, f, held) && !DiversityPending(spec, held)
    requires Reaches(f, ServersOf(held), spec.vcenters, RequiredPools(spec) - |held|, w)
    ensures CompletionExists(spec, f, held)
  {
    var s := SubsetOfSize({}, OnServers(f, w), RequiredPools(spec) - |held|);
    CardUnion(held, s);
    ServersUnion(held, s);
    assert ServersOf(held + s) <= w;
    CardMonotone(ServersOf(held + s), w);
    CardMonotone(ServersOf(held), ServersOf(held + s));
    NamedServers(spec, held);
    assert Spread(held + s, RequiredPools(spec), spec.minVCenters, spec.vcenters);
  }

  // ---- The exchange argument ---------------------------------------------------------------

  lemma ReplaceServer(f: set<Pool>, w: set<string>, u: string, v: string)
    requires u in w && v !in w
    ensures |w - {u} + {v}| == |w|
    ensures |OnServers(f, w - {u} + {v})| == |OnServers(f, w)| - CountOn(f, u) + CountOn(f, v)
  {
    OnServersSplit(f, w - {u}, {u});
    assert w == (w - {u}) + {u};
    OnServersSplit(f, w - {u}, {v});
  }

  /** Servers that are all fuller than `v`, with one of them replaced by `v`. */
  lemma ReplaceAmongFuller(f: set<Pool>, extra: set<string>, u: string, v: string)
    requires u in extra && v !in extra
    requires forall x :: x in extra ==> CountOn(f, x) >= CountOn(f, v)
    ensures |OnServers(f, extra - {u} + {v})| >= CountOn(f, v) * |extra|
  {
    var swapped := extra - {u} + {v};
    assert |swapped| == |extra|;
    ManyOnEach(f, swapped, CountOn(f, v));
  }

  /** Opening the vCenter `v` instead of one the plan `w` had in mind still reaches the goal. */
  lemma SwapServer(spec: LeaseSpec, f: set<Pool>, inUse: set<string>, rem: nat, w: set<string>, v: string)
    returns (w': set<string>)
    requires Reaches(f, inUse, spec.vcenters, rem, w) && v !in w
    requires MayUse(spec, f, inUse, rem, v)
    ensures Reaches(f, inUse, spec.vcenters, rem, w') && v in w'
  {
    if spec.vcenters <= 0 || |w| < spec.vcenters {
      w' := w + {v};
      OnServersMonotone(f, w, w');
      return;
    }
    var extra := w - inUse;
    CardOfRest(inUse, w);
    if u :| u in extra && CountOn(f, u) <= CountOn(f, v) {
      w' := w - {u} + {v};
      ReplaceServer(f, w, u, v);
    } else {
      var u :| u in extra;
      w' := w - {u} + {v};
      ReplaceServer(f, w, u, v);
      ReplaceAmongFuller(f, extra, u, v);
      OnServersMonotone(f, extra - {u} + {v}, w');
    }
  }

  lemma CardOfRest<T>(a: set<T>, b: set<T>)
    requires a <= b
    ensures |b - a| == |b| - |a|
    ensures |a| < |b| ==> b - a != {}
  {
    assert b == a + (b - a);
  }

  lemma PickKeepsReach(spec: LeaseSpec, f: set<Pool>, inUse: set<string>, rem: nat, w: set<string>, p: Pool)
    returns (w': set<string>)
    requires Reaches(f, inUse, spec.vcenters, rem, w) && rem >= 1
    requires p in f && MayUse(spec, f, inUse, rem, p.server)
    ensures Reaches(f - {p}, inUse + {p.server}, spec.vcenters, rem - 1, w')
  {
    w' := w;
    if p.server !in w {
      w' := SwapServer(spec, f, inUse, rem, w, p.server);
    }
    assert OnServers(f - {p}, w') == OnServers(f, w') - {p};
  }

  lemma {:induction false} FewOnEach(f: set<Pool>, u: set<string>, m: nat)
    requires forall v :: v in u ==> CountOn(f, v) <= m
    ensures |OnServers(f, u)| <= |u| * m
  {
    if u == {} {
      assert OnServers(f, u) == {};
    } else {
      var v :| v in u;
      FewOnEach(f, u - {v}, m);
      OnServersSplit(f, u - {v}, {v});
      assert u == (u - {v}) + {v};
      OneMore(|u - {v}|, m);
    }
  }

  /** The scheduler's ceiling division decides whether a count covers its share. */
  lemma CeilingShare(count: nat, rem: nat, slots: nat)
    requires rem >= 1 && slots >= 1
    ensures count >= (rem - 1) / slots + 1 <==> count * slots >= rem
  {
    var q := (rem - 1) / slots;
    var r := (rem - 1) % slots;
    assert rem - 1 == q * slots + r;
    if count >= q + 1 {
      assert count * slots >= (q + 1) * slots;
      assert (q + 1) * slots == q * slots + slots;
    } else {
      assert count * slots <= q * slots;
    }
  }

  /** If servers hold `rem` pools together, one of them holds its share. */
  lemma ShareExists(f: set<Pool>, extra: set<string>, rem: nat, slots: nat)
    requires |extra| <= slots && 1 <= rem <= |OnServers(f, extra)|
    ensures exists v :: v in extra && CountOn(f, v) * slots >= rem
  {
    if forall v :: v in extra ==> CountOn(f, v) * slots < rem {
      assert extra != {} by { assert OnServers(f, {}) == {}; }
      var m := (rem - 1) / slots;
      forall v | v in extra ensures CountOn(f, v) <= m { CeilingShare(CountOn(f, v), rem, slots); }
      FewOnEach(f, extra, m);
      Scale(|extra|, slots, m);
    }
  }

  lemma Scale(a: nat, b: nat, m: nat)
    requires a <= b
    ensures a * m <= b * m
  {
  }

  lemma UsableServerExists(spec: LeaseSpec, f: set<Pool>, inUse: set<string>, rem: nat, w: set<string>)
    requires Reaches(f, inUse, spec.vcenters, rem, w) && rem >= 1
    ensures exists p :: p in f && MayUse(spec, f, inUse, rem, p.server)
  {
    if p :| p in f && p.server in inUse {
    } else if spec.vcenters <= 0 {
      assert OnServers(f, w) != {};
      var p :| p in OnServers(f, w);
    } else {
      var extra := w - inUse;
      CardOfRest(inUse, w);
      assert OnServers(f, w) == OnServers(f, extra);
      ShareExists(f, extra, rem, spec.vcenters - |inUse|);
      var v :| v in extra && CountOn(f, v) * (spec.vcenters - |inUse|) >= rem;
      assert CountOn(f, v) > 0;
      assert OnServers(f, {v}) != {};
      var p :| p in OnServers(f, {v});
      CardMonotone({v}, extra);
    }
  }

  // ---- One pick ----------------------------------------------------------------------------

  /** What has to be true of a lease for picking one by one to be complete from the start: no cap, a
      minimum of at most one vCenter, or so few pools that the vCenters opened for the minimum cannot
      use up the cap. */
  predicate RoomToSpread(spec: LeaseSpec) {
    || spec.vcenters <= 0
    || spec.minVCenters <= 1
    || RequiredPools(spec) <= 2 * spec.vcenters - spec.minVCenters
  }

  /** Where picking one by one is complete: for such leases, and for all once the minimum is met. */
  ghost predicate Guaranteed(spec: LeaseSpec, held: set<Pool>) {
    && spec.minVCenters <= RequiredPools(spec)
    && (RoomToSpread(spec) || !DiversityPending(spec, held))
  }

  lemma ServersWith(held: set<Pool>, p: Pool)
    ensures ServersOf(held + {p}) == ServersOf(held) + {p.server}
    ensures |ServersOf(held + {p})| == |ServersOf(held)| + (if p.server in ServersOf(held) then 0 else 1)
  {
    assert ServersOf(held + {p}) == ServersOf(held) + {p.server};
    if p.server in ServersOf(held) {
      assert ServersOf(held + {p}) == ServersOf(held);
    }
  }

  /** With named servers only, the minimum is pending iff the held pools span too few. */
  lemma NamedServers(spec: LeaseSpec, held: set<Pool>)
    requires forall p :: p in held ==> p.server != ""
    ensures DiversityPending(spec, held) <==> spec.minVCenters > 0 && |ServersOf(held)| < spec.minVCenters
  {
    assert ServersOf(held) - {""} == ServersOf(held);
  }

  lemma MorePoolsMoreServers(spec: LeaseSpec, held: set<Pool>, p: Pool)
    requires forall q :: q in held + {p} ==> q.server != ""
    ensures Guaranteed(spec, held) ==> Guaranteed(spec, held + {p})
    ensures DiversityPending(spec, held + {p}) ==> DiversityPending(spec, held)
  {
    NamedServers(spec, held);
    NamedServers(spec, held + {p});
    ServersWith(held, p);
  }

  /** An allowed pick neither loses nor creates the possibility to complete the lease. */
  lemma PickKeepsCompletion(spec: LeaseSpec, f: set<Pool>, held: set<Pool>, p: Pool)
    requires Consistent(spec, f, held) && PickAllowed(spec, f, held, p) && Guaranteed(spec, held)
    requires Consistent(spec, f - {p}, held + {p})
    requires FirstPickFiltered(spec, held) && CompletionExists(spec, f, held) ==>
               Joins(f, spec.vcenters, RequiredPools(spec), p.server)
    ensures CompletionExists(spec, f - {p}, held + {p}) <==> CompletionExists(spec, f, held)
  {
    if CompletionExists(spec, f - {p}, held + {p}) {
      CompletionBefore(spec, f, held, p);
    }
    if CompletionExists(spec, f, held) {
      if !DiversityPending(spec, held) {
        CappedPickKeeps(spec, f, held, p);
      } else if spec.vcenters <= 0 {
        UncappedPickKeeps(spec, f, held, p);
      } else if RequiredPools(spec) <= 2 * spec.vcenters - spec.minVCenters {
        RoomyPickKeeps(spec, f, held, p);
      } else {
        NamedServers(spec, held);
        NoServersNoPools(held);
        JoiningPickKeeps(spec, f, p);
        assert {p} == held + {p};
      }
    }
  }

  lemma CompletionBefore(spec: LeaseSpec, f: set<Pool>, held: set<Pool>, p: Pool)
    requires p in f && CompletionExists(spec, f - {p}, held + {p})
    ensures CompletionExists(spec, f, held)
  {
    var s :| s <= f - {p} && Spread(held + {p} + s, RequiredPools(spec), spec.minVCenters, spec.vcenters);
    var t := s + {p};
    assert held + {p} + s == held + t;
    assert t <= f;
  }

  lemma CappedPickKeeps(spec: LeaseSpec, f: set<Pool>, held: set<Pool>, p: Pool)
    requires Consistent(spec, f, held) && Consistent(spec, f - {p}, held + {p})
    requires !DiversityPending(spec, held) && PickAllowed(spec, f, held, p)
    requires CompletionExists(spec, f, held)
    ensures CompletionExists(spec, f - {p}, held + {p})
  {
    var w := CompletionReaches(spec, f, held);
    var w' := PickKeepsReach(spec, f, ServersOf(held), RequiredPools(spec) - |held|, w, p);
    ServersWith(held, p);
    MorePoolsMoreServers(spec, held, p);
    assert |held + {p}| == |held| + 1;
    ReachesCompletion(spec, f - {p}, held + {p}, w');
  }

  /** Without a cap only the number of pools and the number of servers matter. */
  ghost predicate Ample(spec: LeaseSpec, f: set<Pool>, held: set<Pool>) {
    && |held| + |f| >= RequiredPools(spec)
    && |ServersOf(held + f)| >= spec.minVCenters
    && |ServersOf(held)| + RequiredPools(spec) - |held| >= spec.minVCenters
  }

  lemma CompletionIsAmple(spec: LeaseSpec, f: set<Pool>, held: set<Pool>)
    requires f !! held && CompletionExists(spec, f, held)
    ensures Ample(spec, f, held)
  {
    var s :| s <= f && Spread(held + s, RequiredPools(spec), spec.minVCenters, spec.vcenters);
    CardMonotone(s, f);
    CardUnion(held, s);
    ServersUnion(held, s);
    ServersUnion(held, f);
    CardMonotone(ServersOf(held + s), ServersOf(held + f));
    ServersOfCard(s);
    CardUnion(ServersOf(held), ServersOf(s));
  }

  lemma AmpleCompletion(spec: LeaseSpec, f: set<Pool>, held: set<Pool>)
    requires f !! held && |held| <= RequiredPools(spec) && spec.vcenters <= 0
    requires Ample(spec, f, held)
    ensures CompletionExists(spec, f, held)
  {
    var rem := RequiredPools(spec) - |held|;
    var unused := ServersOf(f) - ServersOf(held);
    ServersUnion(held, f);
    assert ServersOf(held) + ServersOf(f) == ServersOf(held) + unused;
    CardUnion(ServersOf(held), unused);
    var need := spec.minVCenters - |ServersOf(held)|;
    var v := SubsetOfSize({}, unused, if need > 0 then need else 0);
    var base := Representatives(f, v);
    var s := SubsetOfSize(base, f, rem);
    DrawnCompletes(spec, f, held, v, s);
  }

  lemma DrawnCompletes(spec: LeaseSpec, f: set<Pool>, held: set<Pool>, v: set<string>, s: set<Pool>)
    requires f !! held && spec.vcenters <= 0 && s <= f && |held| + |s| == RequiredPools(spec)
    requires v !! ServersOf(held) && v <= ServersOf(s) && |ServersOf(held)| + |v| >= spec.minVCenters
    ensures CompletionExists(spec, f, held)
  {
    CardUnion(held, s);
    ServersUnion(held, s);
    CardUnion(ServersOf(held), v);
    CardMonotone(ServersOf(held) + v, ServersOf(held + s));
    assert Spread(held + s, RequiredPools(spec), spec.minVCenters, spec.vcenters);
  }

  lemma UncappedPickKeeps(spec: LeaseSpec, f: set<Pool>, held: set<Pool>, p: Pool)
    requires Consistent(spec, f, held) && Consistent(spec, f - {p}, held + {p})
    requires spec.vcenters <= 0 && DiversityPending(spec, held) && PickAllowed(spec, f, held, p)
    requires CompletionExists(spec, f, held)
    ensures CompletionExists(spec, f - {p}, held + {p})
  {
    CompletionIsAmple(spec, f, held);
    ServersWith(held, p);
    assert held + {p} + (f - {p}) == held + f;
    assert |held + {p}| == |held| + 1 && |f - {p}| == |f| - 1;
    AmpleCompletion(spec, f - {p}, held + {p});
  }

  // ---- A pick under the cap while the minimum is pending -----------------------------------

  lemma NoServersNoPools(held: set<Pool>)
    requires |ServersOf(held)| == 0
    ensures held == {}
  {
    assert forall p :: p in held ==> p.server in ServersOf(held);
  }

  /** A completion of a lease that holds nothing yet lies on a combination. */
  lemma CompletionIsCombination(spec: LeaseSpec, f: set<Pool>)
    requires CompletionExists(spec, f, {}) && spec.vcenters > 0
    ensures CombinationExists(f, spec.vcenters, RequiredPools(spec))
  {
    var s :| s <= f && Spread({} + s, RequiredPools(spec), spec.minVCenters, spec.vcenters);
    assert {} + s == s;
    WithinServers(f, s);
    assert Combination(f, spec.vcenters, RequiredPools(spec), ServersOf(s));
  }

  /** With a minimum of one vCenter the first pick meets it, and a combination with its vCenter leaves
      room for the rest. */
  lemma JoiningPickKeeps(spec: LeaseSpec, f: set<Pool>, p: Pool)
    requires Consistent(spec, f - {p}, {p}) && p in f && spec.minVCenters <= 1 && spec.vcenters > 0
    requires Joins(f, spec.vcenters, RequiredPools(spec), p.server)
    ensures CompletionExists(spec, f - {p}, {p})
  {
    var w :| p.server in w && Combination(f, spec.vcenters, RequiredPools(spec), w);
    assert OnServers(f - {p}, w) == OnServers(f, w) - {p};
    assert ServersOf({p}) == {p.server};
    NamedServers(spec, {p});
    ReachesCompletion(spec, f - {p}, {p}, w);
  }

  /** In a completion, `p` may take the place of `q` if the number of vCenters stays right. */
  lemma PoolSwapped(spec: LeaseSpec, f: set<Pool>, held: set<Pool>, s: set<Pool>, q: Pool, p: Pool)
    requires f !! held && s <= f && |held + s| == RequiredPools(spec) && q in s && p in f && p !in s
    requires var servers := ServersOf(held + {p} + (s - {q}));
             |servers| >= spec.minVCenters && (spec.vcenters > 0 ==> |servers| <= spec.vcenters)
    ensures CompletionExists(spec, f - {p}, held + {p})
  {
    var t := s - {q};
    CardUnion(held, s);
    CardUnion(held + {p}, t);
    CardUnion(held, {p});
    assert t <= f - {p} && Spread(held + {p} + t, RequiredPools(spec), spec.minVCenters, spec.vcenters);
  }

  /** The vCenters after `p`, on a vCenter that is not in use, has taken the place of `q`. */
  lemma ServersSwapped(held: set<Pool>, s: set<Pool>, q: Pool, p: Pool)
    requires q in s
    ensures var servers, swapped := ServersOf(held + s), ServersOf(held + {p} + (s - {q}));
            && swapped <= servers + {p.server} && servers - {q.server} + {p.server} <= swapped
            && (q.server !in ServersOf(held) && CountOn(s, q.server) == 1 ==> q.server in swapped ==>
                q.server == p.server)
  {
    var servers, swapped := ServersOf(held + s), ServersOf(held + {p} + (s - {q}));
    forall v | v in servers - {q.server} + {p.server} ensures v in swapped {
      var x :| x in held + s + {p} && x.server == v && (v == p.server ==> x == p);
      assert x in held + {p} + (s - {q});
    }
    if q.server !in ServersOf(held) && CountOn(s, q.server) == 1 && q.server in swapped {
      var x :| x in held + {p} + (s - {q}) && x.server == q.server;
      assert x in held ==> x.server in ServersOf(held);
      if x in s {
        assert {x, q} <= OnServers(s, {q.server});
        CardMonotone({x, q}, OnServers(s, {q.server}));
      }
    }
  }

  /** A completion that opens all vCenters under the cap while the minimum is pending has a single pool
      on one of the new ones, or else the lease wants too many pools. */
  lemma SinglePoolExists(spec: LeaseSpec, held: set<Pool>, s: set<Pool>) returns (q: Pool)
    requires held !! s && |held + s| == RequiredPools(spec) <= 2 * spec.vcenters - spec.minVCenters
    requires |ServersOf(held + s)| == spec.vcenters && |ServersOf(held)| < spec.minVCenters
    ensures q in s && q.server !in ServersOf(held) && CountOn(s, q.server) == 1
  {
    var extra := ServersOf(held + s) - ServersOf(held);
    ServersUnion(held, s);
    CardOfRest(ServersOf(held), ServersOf(held + s));
    CardUnion(held, s);
    ServersOfCard(held);
    if forall v :: v in extra ==> CountOn(s, v) >= 2 {
      ManyOnEach(s, extra, 2);
      CardMonotone(OnServers(s, extra), s);
    }
    var v :| v in extra && CountOn(s, v) < 2;
    q :| q in s && q.server == v;
    assert q in OnServers(s, {v});
    CardMonotone({q}, OnServers(s, {v}));
  }

  lemma RoomyPickKeeps(spec: LeaseSpec, f: set<Pool>, held: set<Pool>, p: Pool)
    requires Consistent(spec, f, held) && spec.vcenters > 0 && DiversityPending(spec, held)
    requires PickAllowed(spec, f, held, p) && RequiredPools(spec) <= 2 * spec.vcenters - spec.minVCenters
    requires CompletionExists(spec, f, held)
    ensures CompletionExists(spec, f - {p}, held + {p})
  {
    var s :| s <= f && Spread(held + s, RequiredPools(spec), spec.minVCenters, spec.vcenters);
    if p in s {
      PickIsPlanned(spec, f, held, s, p);
    } else {
      NamedServers(spec, held);
      PickReplacesPool(spec, f, held, s, p);
    }
  }

  lemma PickIsPlanned(spec: LeaseSpec, f: set<Pool>, held: set<Pool>, s: set<Pool>, p: Pool)
    requires s <= f && p in s && Spread(held + s, RequiredPools(spec), spec.minVCenters, spec.vcenters)
    ensures CompletionExists(spec, f - {p}, held + {p})
  {
    assert held + {p} + (s - {p}) == held + s;
    assert s - {p} <= f - {p};
  }

  lemma PickReplacesPool(spec: LeaseSpec, f: set<Pool>, held: set<Pool>, s: set<Pool>, p: Pool)
    requires f !! held && s <= f && p in f && p !in s && spec.vcenters > 0
    requires |held| < RequiredPools(spec) <= 2 * spec.vcenters - spec.minVCenters
    requires Spread(held + s, RequiredPools(spec), spec.minVCenters, spec.vcenters)
    requires |ServersOf(held)| < spec.minVCenters && p.server !in ServersOf(held)
    ensures CompletionExists(spec, f - {p}, held + {p})
  {
    var q := ReplacedPool(spec, held, s, p);
    SwapKeepsCount(spec, held, s, q, p);
    PoolSwapped(spec, f, held, s, q, p);
  }

  /** Which pool of the completion gives way: one on the same vCenter, any one below the cap, and at
      the cap a single one. */
  ghost predicate GivesWay(spec: LeaseSpec, held: set<Pool>, s: set<Pool>, q: Pool, p: Pool) {
    && q in s
    && (|| q.server == p.server
        || (p.server !in ServersOf(held + s) && |ServersOf(held + s)| < spec.vcenters)
        || (p.server !in ServersOf(held + s) && q.server !in ServersOf(held) && CountOn(s, q.server) == 1))
  }

  lemma ReplacedPool(spec: LeaseSpec, held: set<Pool>, s: set<Pool>, p: Pool) returns (q: Pool)
    requires held !! s && |held| < RequiredPools(spec) <= 2 * spec.vcenters - spec.minVCenters
    requires Spread(held + s, RequiredPools(spec), spec.minVCenters, spec.vcenters) && spec.vcenters > 0
    requires |ServersOf(held)| < spec.minVCenters && p.server !in ServersOf(held)
    ensures GivesWay(spec, held, s, q, p)
  {
    CardUnion(held, s);
    ServersUnion(held, s);
    if p.server in ServersOf(held + s) {
      q :| q in s && q.server == p.server;
    } else if |ServersOf(held + s)| < spec.vcenters {
      assert s != {};
      q :| q in s;
    } else {
      q := SinglePoolExists(spec, held, s);
    }
  }

  lemma SwapKeepsCount(spec: LeaseSpec, held: set<Pool>, s: set<Pool>, q: Pool, p: Pool)
    requires Spread(held + s, RequiredPools(spec), spec.minVCenters, spec.vcenters) && spec.vcenters > 0
    requires GivesWay(spec, held, s, q, p)
    ensures var servers := ServersOf(held + {p} + (s - {q}));
            |servers| >= spec.minVCenters && |servers| <= spec.vcenters
  {
    var servers, swapped := ServersOf(held + s), ServersOf(held + {p} + (s - {q}));
    ServersSwapped(held, s, q, p);
    assert q in held + s && q.server in servers;
    CardMonotone(servers - {q.server} + {p.server}, swapped);
    if q.server == p.server {
      assert servers + {p.server} == servers;
      CardMonotone(swapped, servers);
    } else if |servers| < spec.vcenters {
      CardMonotone(swapped, servers + {p.server});
    } else {
      assert swapped <= servers - {q.server} + {p.server};
      CardMonotone(swapped, servers - {q.server} + {p.server});
    }
  }

  /** As long as the lease can be completed, some pick is allowed. */
  lemma AllowedPickExists(spec: LeaseSpec, f: set<Pool>, held: set<Pool>)
    requires Consistent(spec, f, held) && |held| < RequiredPools(spec)
    requires CompletionExists(spec, f, held)
    ensures exists p :: PickAllowed(spec, f, held, p)
  {
    if DiversityPending(spec, held) {
      CompletionIsAmple(spec, f, held);
      NamedServers(spec, held);
      assert ServersOf(held + f) == ServersOf(held) + ServersOf(f);
      assert !(ServersOf(f) <= ServersOf(held)) by {
        if ServersOf(f) <= ServersOf(held) {
          CardMonotone(ServersOf(held + f), ServersOf(held));
        }
      }
      var v :| v in ServersOf(f) && v !in ServersOf(held);
      var p :| p in f && p.server == v;
      assert PickAllowed(spec, f, held, p);
    } else {
      var rem := RequiredPools(spec) - |held|;
      var w := CompletionReaches(spec, f, held);
      UsableServerExists(spec, f, ServersOf(held), rem, w);
      var p :| p in f && MayUse(spec, f, ServersOf(held), rem, p.server);
      assert PickAllowed(spec, f, held, p);
    }
  }

  // ---- What every pick keeps ---------------------------------------------------------------

  /** The held pools respect the cap, and until the minimum is met each has its own vCenter. */
  ghost predicate SpreadKept(spec: LeaseSpec, held: set<Pool>) {
    && (spec.vcenters > 0 ==> |ServersOf(held)| <= spec.vcenters)
    && (|ServersOf(held)| >= spec.minVCenters || |ServersOf(held)| == |held|)
  }

  lemma PickKeepsSpread(spec: LeaseSpec, held: set<Pool>, p: Pool)
    requires SpreadKept(spec, held) && p !in held
    requires forall q :: q in held + {p} ==> q.server != ""
    requires CapReached(spec, ServersOf(held)) ==> p.server in ServersOf(held)
    requires DiversityPending(spec, held) ==> p.server !in ServersOf(held)
    ensures SpreadKept(spec, held + {p})
  {
    ServersWith(held, p);
    NamedServers(spec, held);
  }
}
