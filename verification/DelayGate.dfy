/**
 The delay gate (shouldLeaseBeDelayed, pkg/controller/leases.go, 671-723): a pending lease waits
 for partial leases and for older pending leases that may want the same pools.
 */
module DelayGate {
  import opened Types

  /** The pool a lease is taken to compete for; a multi-network lease that named none counts for
      the one its status shows. */
  ghost function WantedPool(lease: Lease): string {
    if lease.spec.networks > 1 && lease.spec.requiredPool == "" then lease.status.failureDomain
    else lease.spec.requiredPool
  }

  /** `lease` has to wait for `other`. */
  ghost predicate DelayedBy(lease: Lease, other: Lease) {
    && lease.status.phase == Pending
    && other.name != lease.name
    && other.spec.networkType == lease.spec.networkType
    && (|| (&& other.status.phase == Partial
            && (WantedPool(other) == lease.spec.requiredPool || lease.spec.requiredPool == ""))
        || (&& other.status.phase == Pending
            && (WantedPool(other) == lease.spec.requiredPool || WantedPool(other) == ""
                || lease.spec.requiredPool == "")
            && other.created < lease.created))
  }

  ghost predicate IsDelayed(lease: Lease, leases: map<string, Lease>) {
    exists k <- leases :: DelayedBy(lease, leases[k])
  }

  method ShouldLeaseBeDelayed(lease: Lease, leases: map<string, Lease>) returns (delayed: bool)
    ensures delayed <==> IsDelayed(lease, leases)
  {
    if lease.status.phase == Pending {
      var left := leases.Keys;
      while left != {}
        invariant left <= leases.Keys
        invariant forall k :: k in leases && k !in left ==> !DelayedBy(lease, leases[k])
        decreases |left|
      {
        var k :| k in left;
        var cur := leases[k];
        left := left - {k};
        if cur.name == lease.name {
          continue;
        }
        if cur.spec.networkType != lease.spec.networkType {
          continue;
        }
        var requiredPool := cur.spec.requiredPool;
        if cur.spec.networks > 1 && requiredPool == "" {
          requiredPool := cur.status.failureDomain;
        }
        match cur.status.phase {
          case Fulfilled =>
          case Failed =>
          case Partial =>
            if requiredPool == lease.spec.requiredPool || lease.spec.requiredPool == "" {
              return true;
            }
          case Pending =>
            if requiredPool == lease.spec.requiredPool || requiredPool == "" || lease.spec.requiredPool == "" {
              if cur.created < lease.created {
                return true;
              }
            }
          case Unset =>
        }
      }
    }
    return false;
  }

  // ---- The gate cannot deadlock ------------------------------------------------------------

  ghost predicate Unfinished(lease: Lease, networkType: string) {
    lease.spec.networkType == networkType && (lease.status.phase == Pending || lease.status.phase == Partial)
  }

  /** Among the unfinished leases of a network type, if there are any, one is not delayed: a
      partial one if there is one, and otherwise the oldest. */
  lemma SomeLeaseNotDelayed(leases: map<string, Lease>, networkType: string)
    requires exists k :: k in leases && Unfinished(leases[k], networkType)
    ensures exists k :: k in leases && Unfinished(leases[k], networkType) && !IsDelayed(leases[k], leases)
  {
    if k :| k in leases && Unfinished(leases[k], networkType) && leases[k].status.phase == Partial {
      assert !IsDelayed(leases[k], leases);
    } else {
      var some :| some in leases && Unfinished(leases[some], networkType);
      var unfinished := set k | k in leases && Unfinished(leases[k], networkType);
      assert some in unfinished;
      var oldest := Oldest(leases, unfinished);
      assert forall k :: k in leases && DelayedBy(leases[oldest], leases[k]) ==> k in unfinished;
    }
  }

  lemma {:induction false} Oldest(leases: map<string, Lease>, s: set<string>) returns (oldest: string)
    requires s != {} && forall k :: k in s ==> k in leases
    ensures oldest in s && forall k :: k in s ==> leases[oldest].created <= leases[k].created
  {
    var k :| k in s;
    if s == {k} {
      oldest := k;
    } else {
      assert s - {k} != {};
      oldest := Oldest(leases, s - {k});
      if leases[k].created < leases[oldest].created {
        oldest := k;
      }
    }
  }

  /** Each lease of the chain waits for the next one. */
  ghost predicate WaitChain(leases: map<string, Lease>, chain: seq<string>) {
    && (forall i :: 0 <= i < |chain| ==> chain[i] in leases)
    && forall i :: 0 <= i < |chain| - 1 ==> DelayedBy(leases[chain[i]], leases[chain[i + 1]])
  }

  /** Along a chain every later lease is a partial one or an older one. */
  lemma {:induction false} ChainDescends(leases: map<string, Lease>, chain: seq<string>, i: nat, j: nat)
    requires WaitChain(leases, chain) && i < j < |chain|
    ensures leases[chain[i]].status.phase == Pending
    ensures leases[chain[j]].status.phase == Partial || leases[chain[j]].created < leases[chain[i]].created
    decreases j
  {
    assert DelayedBy(leases[chain[j - 1]], leases[chain[j - 1 + 1]]);
    if i < j - 1 {
      ChainDescends(leases, chain, i, j - 1);
    }
  }

  /** Waiting is well-founded: no chain comes back to a lease, so none is longer than the table. */
  lemma WaitChainsAreShort(leases: map<string, Lease>, chain: seq<string>)
    requires WaitChain(leases, chain)
    ensures Distinct(chain)
    ensures |chain| <= |leases|
  {
    forall i, j | 0 <= i < j < |chain| ensures chain[i] != chain[j] {
      ChainDescends(leases, chain, i, j);
    }
    DistinctCard(chain);
    var names := ToSet(chain);
    assert names <= leases.Keys;
    assert leases.Keys == names + (leases.Keys - names);
  }
}
