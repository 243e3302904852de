/**
 The parts of a lease that its life cycle changes: the references it holds pools and networks by,
 and its status with the phase and the conditions (pkg/controller/leases.go, 640-668, 787-836,
 956-988, 1246-1312, 1606-1697).
 */
module LeaseStates {
  import opened Types
  import opened Conditions
  import opened NetworkAssignment
  import opened PoolLoop

  // ---- References --------------------------------------------------------------------------

  ghost predicate ValidPools(pools: map<string, Pool>) {
    forall n :: n in pools ==> pools[n].name == n && pools[n].server != ""
  }

  ghost function AllPools(pools: map<string, Pool>): set<Pool> {
    set n | n in pools :: pools[n]
  }

  /** The pools a lease holds, in the order of its references. */
  function HeldPools(pools: map<string, Pool>, refs: seq<OwnerRef>): seq<Pool> {
    if refs == [] then []
    else
      var last := refs[|refs| - 1];
      var before := HeldPools(pools, refs[..|refs| - 1]);
      if last.PoolRef? && last.name in pools then before + [pools[last.name]] else before
  }

  /** What is left when all pools and networks are released. */
  function OtherRefs(refs: seq<OwnerRef>): seq<OwnerRef> {
    if refs == [] then []
    else if refs[0].OtherRef? then [refs[0]] + OtherRefs(refs[1..])
    else OtherRefs(refs[1..])
  }

  lemma {:induction false} OtherRefsOnly(refs: seq<OwnerRef>)
    ensures forall r :: r in OtherRefs(refs) <==> r in refs && r.OtherRef?
  {
    if refs != [] {
      OtherRefsOnly(refs[1..]);
      assert refs == [refs[0]] + refs[1..];
    }
  }

  lemma {:induction false} HeldMembers(pools: map<string, Pool>, refs: seq<OwnerRef>)
    requires ValidPools(pools)
    ensures forall p :: p in HeldPools(pools, refs) <==>
        PoolRef(p.name) in refs && p.name in pools && pools[p.name] == p
  {
    if refs != [] {
      var k := |refs| - 1;
      HeldMembers(pools, refs[..k]);
      assert refs == refs[..k] + [refs[k]];
    }
  }

  lemma {:induction false} HeldDistinct(pools: map<string, Pool>, refs: seq<OwnerRef>)
    requires ValidPools(pools) && DistinctRefs(refs)
    ensures Distinct(HeldPools(pools, refs))
  {
    if refs != [] {
      var k := |refs| - 1;
      HeldDistinct(pools, refs[..k]);
      HeldMembers(pools, refs[..k]);
      if refs[k].PoolRef? && refs[k].name in pools {
        assert refs[k] !in refs[..k];
        assert pools[refs[k].name] !in HeldPools(pools, refs[..k]);
      }
    }
  }

  lemma {:induction false} HeldAfter(pools: map<string, Pool>, refs: seq<OwnerRef>, more: seq<OwnerRef>)
    ensures HeldPools(pools, refs + more) == HeldPools(pools, refs) + HeldPools(pools, more)
  {
    if more == [] {
      assert refs + more == refs;
    } else {
      var k := |more| - 1;
      HeldAfter(pools, refs, more[..k]);
      assert (refs + more)[..|refs + more| - 1] == refs + more[..k];
    }
  }

  lemma {:induction false} HeldOfPicks(pools: map<string, Pool>, picks: seq<Pool>)
    requires ValidPools(pools) && forall p :: p in picks ==> p in AllPools(pools)
    ensures HeldPools(pools, PoolRefsOf(picks)) == picks
  {
    if picks != [] {
      var k := |picks| - 1;
      HeldOfPicks(pools, picks[..k]);
      assert PoolRefsOf(picks)[..k] == PoolRefsOf(picks[..k]);
      assert picks[k] in picks;
      assert picks == picks[..k] + [picks[k]];
    }
  }

  lemma {:induction false} HeldOfNone(pools: map<string, Pool>, refs: seq<OwnerRef>)
    requires forall r :: r in refs ==> !r.PoolRef?
    ensures HeldPools(pools, refs) == []
  {
    if refs != [] {
      HeldOfNone(pools, refs[..|refs| - 1]);
    }
  }

  /** Pools that join the inventory later do not change what a lease holds. */
  lemma {:induction false} HeldInGrown(pools: map<string, Pool>, more: map<string, Pool>, refs: seq<OwnerRef>)
    requires forall n :: n in pools ==> n in more && more[n] == pools[n]
    requires forall n :: PoolRef(n) in refs ==> n in pools
    ensures HeldPools(more, refs) == HeldPools(pools, refs)
  {
    if refs != [] {
      HeldInGrown(pools, more, refs[..|refs| - 1]);
      assert refs[|refs| - 1] in refs;
    }
  }

  // ---- Status ------------------------------------------------------------------------------

  const FULFILLED := "Fulfilled"
  const PARTIAL := "Partial"
  const PENDING := "Pending"
  const DELAYED := "Delayed"

  ghost predicate IsTrue(conditions: seq<Condition>, t: string) {
    Lookup(conditions, t).Some? && Lookup(conditions, t).value.status == True
  }

  /** Phase and conditions agree: the condition named after the phase is the true one of the three,
      and only a pending lease is delayed. */
  ghost predicate Coherent(status: LeaseStatus) {
    && StrictlySorted(status.conditions)
    && (IsTrue(status.conditions, FULFILLED) <==> status.phase == Fulfilled)
    && (IsTrue(status.conditions, PARTIAL) <==> status.phase == Partial)
    && (IsTrue(status.conditions, PENDING) <==> status.phase == Pending)
    && (IsTrue(status.conditions, DELAYED) ==> status.phase == Pending)
  }

  lemma TrueAfterApply(list: seq<Condition>, c: Condition, now: nat)
    requires StrictlySorted(list)
    ensures StrictlySorted(Apply(list, c, now))
    ensures IsTrue(Apply(list, c, now), c.ctype) <==> c.status == True
    ensures forall t :: t != c.ctype ==> (IsTrue(Apply(list, c, now), t) <==> IsTrue(list, t))
  {
    ApplySorted(list, c, now);
    LookupAfterApply(list, c, now, c.ctype);
    LookupAbsent(list, c.ctype);
    forall t | t != c.ctype ensures IsTrue(Apply(list, c, now), t) <==> IsTrue(list, t) {
      LookupAfterApply(list, c, now, t);
    }
  }

  function AdmittedStatus(status: LeaseStatus, now: nat): LeaseStatus {
    var c1 := Apply(status.conditions, FalseCondition(FULFILLED), now);
    var c2 := Apply(c1, FalseCondition(DELAYED), now);
    var c3 := Apply(c2, TrueCondition(PENDING), now);
    LeaseStatus(Pending, "pending", Apply(c3, FalseCondition(PARTIAL), now))
  }

  function FailedStatus(status: LeaseStatus, now: nat, note: string): LeaseStatus {
    var c1 := Apply(status.conditions, FalseConditionWithReason(FULFILLED, "Unschedulable", "Error", note), now);
    var c2 := Apply(c1, FalseCondition(PENDING), now);
    var c3 := Apply(c2, FalseCondition(PARTIAL), now);
    status.(phase := Failed, conditions := Apply(c3, FalseCondition(DELAYED), now))
  }

  const DELAY_NOTE := "lease is being delayed due to presence of higher priority leases"

  function DelayedStatus(status: LeaseStatus, now: nat): LeaseStatus {
    var c1 := Apply(status.conditions, TrueCondition(DELAYED), now);
    status.(conditions := Apply(c1, FalseConditionWithReason(FULFILLED, "LeaseDelayed", "Info", DELAY_NOTE), now))
  }

  function NotDelayedStatus(status: LeaseStatus, now: nat): LeaseStatus {
    status.(conditions := Apply(status.conditions, FalseCondition(DELAYED), now))
  }

  function NoPoolStatus(status: LeaseStatus, now: nat, note: string): LeaseStatus {
    status.(conditions := Apply(status.conditions,
        FalseConditionWithReason(FULFILLED, "NoAvailablePool", "Warning", note), now))
  }

  function FulfilledStatus(status: LeaseStatus, now: nat): LeaseStatus {
    var c1 := Apply(status.conditions, TrueCondition(FULFILLED), now);
    var c2 := Apply(c1, FalseCondition(PENDING), now);
    status.(phase := Fulfilled, conditions := Apply(c2, FalseCondition(PARTIAL), now))
  }

  function PartialStatus(status: LeaseStatus, now: nat, note: string): LeaseStatus {
    var c1 := Apply(status.conditions, FalseCondition(PENDING), now);
    var c2 := Apply(c1, FalseConditionWithReason(FULFILLED, "LeasePartial", "Info", note), now);
    status.(phase := Partial, conditions := Apply(c2, TrueCondition(PARTIAL), now))
  }

  lemma AdmittedCoherent(status: LeaseStatus, now: nat)
    requires status.conditions == []
    ensures Coherent(AdmittedStatus(status, now))
  {
    var c1 := Apply([], FalseCondition(FULFILLED), now);
    var c2 := Apply(c1, FalseCondition(DELAYED), now);
    var c3 := Apply(c2, TrueCondition(PENDING), now);
    TrueAfterApply([], FalseCondition(FULFILLED), now);
    TrueAfterApply(c1, FalseCondition(DELAYED), now);
    TrueAfterApply(c2, TrueCondition(PENDING), now);
    TrueAfterApply(c3, FalseCondition(PARTIAL), now);
  }

  lemma FailedCoherent(status: LeaseStatus, now: nat, note: string)
    requires Coherent(status)
    ensures Coherent(FailedStatus(status, now, note))
  {
    var c := FalseConditionWithReason(FULFILLED, "Unschedulable", "Error", note);
    var c1 := Apply(status.conditions, c, now);
    var c2 := Apply(c1, FalseCondition(PENDING), now);
    var c3 := Apply(c2, FalseCondition(PARTIAL), now);
    TrueAfterApply(status.conditions, c, now);
    TrueAfterApply(c1, FalseCondition(PENDING), now);
    TrueAfterApply(c2, FalseCondition(PARTIAL), now);
    TrueAfterApply(c3, FalseCondition(DELAYED), now);
  }

  /** Waiting changes no phase: the delay, its end and the lack of a pool keep the agreement. */
  lemma WaitingCoherent(status: LeaseStatus, now: nat, note: string)
    requires Coherent(status) && (status.phase == Pending || status.phase == Partial)
    ensures Coherent(NotDelayedStatus(status, now))
    ensures Coherent(NoPoolStatus(status, now, note))
    ensures status.phase == Pending ==> Coherent(DelayedStatus(status, now))
  {
    TrueAfterApply(status.conditions, FalseCondition(DELAYED), now);
    TrueAfterApply(status.conditions, FalseConditionWithReason(FULFILLED, "NoAvailablePool", "Warning", note), now);
    TrueAfterApply(status.conditions, TrueCondition(DELAYED), now);
    TrueAfterApply(Apply(status.conditions, TrueCondition(DELAYED), now),
                   FalseConditionWithReason(FULFILLED, "LeaseDelayed", "Info", DELAY_NOTE), now);
  }

  /** The two outcomes of an assignment agree with their conditions once the delay is cleared. */
  lemma AssignedCoherent(status: LeaseStatus, now: nat, note: string)
    requires Coherent(status) && !IsTrue(status.conditions, DELAYED)
    ensures Coherent(FulfilledStatus(status, now))
    ensures Coherent(PartialStatus(status, now, note))
  {
    var f1 := Apply(status.conditions, TrueCondition(FULFILLED), now);
    var f2 := Apply(f1, FalseCondition(PENDING), now);
    TrueAfterApply(status.conditions, TrueCondition(FULFILLED), now);
    TrueAfterApply(f1, FalseCondition(PENDING), now);
    TrueAfterApply(f2, FalseCondition(PARTIAL), now);
    var c := FalseConditionWithReason(FULFILLED, "LeasePartial", "Info", note);
    var p1 := Apply(status.conditions, FalseCondition(PENDING), now);
    var p2 := Apply(p1, c, now);
    TrueAfterApply(status.conditions, FalseCondition(PENDING), now);
    TrueAfterApply(p1, c, now);
    TrueAfterApply(p2, TrueCondition(PARTIAL), now);
  }
}
