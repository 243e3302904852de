/**
 What the leases take from each pool (reconcilePoolStates, pkg/controller/leases.go, 191-239).
 */
module Accounting {
  import opened Types

  ghost function Total(m: map<string, nat>): nat
    decreases |m|
  {
    if m == map[] then 0
    else
      var k :| k in m;
      m[k] + Total(m - {k})
  }

  /** The sum does not depend on the order in which the entries are added. */
  lemma {:induction false} TotalWithout(m: map<string, nat>, k: string)
    requires k in m
    ensures Total(m) == m[k] + Total(m - {k})
    decreases |m|
  {
    var c :| c in m && Total(m) == m[c] + Total(m - {c});
    if c != k {
      TotalWithout(m - {c}, k);
      TotalWithout(m - {k}, c);
      assert m - {c} - {k} == m - {k} - {c};
    }
  }

  lemma TotalWith(m: map<string, nat>, k: string, x: nat)
    requires k !in m
    ensures Total(m[k := x]) == Total(m) + x
  {
    TotalWithout(m[k := x], k);
    assert m[k := x] - {k} == m;
  }

  datatype Resource = Cpu | Memory

  function Asks(spec: LeaseSpec, r: Resource): nat {
    if r == Cpu then spec.vcpus else spec.memory
  }

  /** What a lease takes from a pool: its request if it holds the pool, nothing otherwise. */
  ghost function Takes(lease: Lease, pool: string, r: Resource): nat {
    if PoolRef(pool) in lease.refs then Asks(lease.spec, r) else 0
  }

  ghost function Shares(leases: map<string, Lease>, pool: string, r: Resource): map<string, nat> {
    map k | k in leases :: Takes(leases[k], pool, r)
  }

  /** What all the leases together take from a pool. */
  ghost function Used(leases: map<string, Lease>, pool: string, r: Resource): nat {
    Total(Shares(leases, pool, r))
  }

  /** The sums, field by field. */
  lemma UsedByField(leases: map<string, Lease>, pool: string)
    ensures Used(leases, pool, Cpu) ==
        Total(map k | k in leases :: if PoolRef(pool) in leases[k].refs then leases[k].spec.vcpus else 0)
    ensures Used(leases, pool, Memory) ==
        Total(map k | k in leases :: if PoolRef(pool) in leases[k].refs then leases[k].spec.memory else 0)
  {
    assert Shares(leases, pool, Cpu) ==
        map k | k in leases :: if PoolRef(pool) in leases[k].refs then leases[k].spec.vcpus else 0;
    assert Shares(leases, pool, Memory) ==
        map k | k in leases :: if PoolRef(pool) in leases[k].refs then leases[k].spec.memory else 0;
  }

  ghost function Holders(leases: map<string, Lease>, pool: string): set<string> {
    set k | k in leases && PoolRef(pool) in leases[k].refs
  }

  /** One more lease adds what it takes. */
  lemma UsedWith(leases: map<string, Lease>, k: string, lease: Lease, pool: string, r: Resource)
    requires k !in leases
    ensures Used(leases[k := lease], pool, r) == Used(leases, pool, r) + Takes(lease, pool, r)
  {
    TotalWith(Shares(leases, pool, r), k, Takes(lease, pool, r));
    assert Shares(leases[k := lease], pool, r) == Shares(leases, pool, r)[k := Takes(lease, pool, r)];
  }

  /** Replacing a lease changes the sum by the difference. */
  lemma UsedAfterChange(leases: map<string, Lease>, k: string, lease: Lease, pool: string, r: Resource)
    requires k in leases
    ensures Used(leases[k := lease], pool, r)
         == Used(leases, pool, r) - Takes(leases[k], pool, r) + Takes(lease, pool, r)
  {
    var others := leases - {k};
    assert leases == others[k := leases[k]];
    assert leases[k := lease] == others[k := lease];
    UsedWith(others, k, leases[k], pool, r);
    UsedWith(others, k, lease, pool, r);
  }

  function Capacity(pool: Pool, r: Resource): nat {
    if r == Cpu then pool.capacity else pool.memory
  }

  function Available(status: PoolStatus, r: Resource): int {
    if r == Cpu then status.vcpusAvailable else status.memoryAvailable
  }

  /** Capacity is split exactly between what is available and what the holders asked for. */
  ghost predicate Balanced(pool: Pool, status: PoolStatus, leases: map<string, Lease>) {
    && (forall r :: Available(status, r) + Used(leases, pool.name, r) == Capacity(pool, r))
    && status.leaseCount == |Holders(leases, pool.name)|
  }

  method HoldsPool(lease: Lease, pool: string) returns (found: bool)
    ensures found <==> PoolRef(pool) in lease.refs
  {
    for i := 0 to |lease.refs|
      invariant PoolRef(pool) !in lease.refs[..i]
    {
      if lease.refs[i] == PoolRef(pool) {
        return true;
      }
    }
    assert lease.refs[..|lease.refs|] == lease.refs;
    return false;
  }

  lemma HoldersWith(leases: map<string, Lease>, k: string, lease: Lease, pool: string)
    requires k !in leases
    ensures |Holders(leases[k := lease], pool)| ==
        |Holders(leases, pool)| + (if PoolRef(pool) in lease.refs then 1 else 0)
  {
    if PoolRef(pool) in lease.refs {
      assert Holders(leases[k := lease], pool) == Holders(leases, pool) + {k};
    } else {
      assert Holders(leases[k := lease], pool) == Holders(leases, pool);
    }
  }

  ghost predicate Tallied(status: PoolStatus, seen: map<string, Lease>, pool: string) {
    && status.vcpusAvailable == Used(seen, pool, Cpu)
    && status.memoryAvailable == Used(seen, pool, Memory)
    && status.leaseCount == |Holders(seen, pool)|
  }

  /** Adds one lease to the sums. */
  method Tally(sums: PoolStatus, ghost seen: map<string, Lease>, k: string, lease: Lease, pool: string)
    returns (sums': PoolStatus)
    requires k !in seen && Tallied(sums, seen, pool)
    ensures Tallied(sums', seen[k := lease], pool)
  {
    UsedWith(seen, k, lease, pool, Cpu);
    UsedWith(seen, k, lease, pool, Memory);
    HoldersWith(seen, k, lease, pool);
    var holds := HoldsPool(lease, pool);
    if holds {
      return PoolStatus(sums.vcpusAvailable + lease.spec.vcpus, sums.memoryAvailable + lease.spec.memory,
          sums.leaseCount + 1);
    }
    return sums;
  }

  method PoolUsage(pool: Pool, leases: map<string, Lease>) returns (status: PoolStatus)
    ensures Balanced(pool, status, leases)
  {
    var sums := PoolStatus(0, 0, 0);
    var left := leases.Keys;
    NothingTallied(pool.name);
    assert leases - leases.Keys == map[];
    while left != {}
      invariant left <= leases.Keys && Tallied(sums, leases - left, pool.name)
      decreases |left|
    {
      var k :| k in left;
      sums := Tally(sums, leases - left, k, leases[k], pool.name);
      PutBack(leases, left, k);
      left := left - {k};
    }
    assert leases - left == leases;
    status := PoolStatus(pool.capacity - sums.vcpusAvailable, pool.memory - sums.memoryAvailable, sums.leaseCount);
    TalliedBalances(pool, sums, status, leases);
  }

  lemma PutBack<V>(m: map<string, V>, left: set<string>, k: string)
    requires k in left && left <= m.Keys
    ensures (m - left)[k := m[k]] == m - (left - {k})
  {
  }

  lemma NothingTallied(pool: string)
    ensures Tallied(PoolStatus(0, 0, 0), map[], pool)
  {
    assert Shares(map[], pool, Cpu) == map[];
    assert Shares(map[], pool, Memory) == map[];
    assert Holders(map[], pool) == {};
  }

  lemma TalliedBalances(pool: Pool, sums: PoolStatus, status: PoolStatus, leases: map<string, Lease>)
    requires Tallied(sums, leases, pool.name)
    requires status ==
        PoolStatus(pool.capacity - sums.vcpusAvailable, pool.memory - sums.memoryAvailable, sums.leaseCount)
    ensures Balanced(pool, status, leases)
  {
    forall r ensures Available(status, r) + Used(leases, pool.name, r) == Capacity(pool, r) {
      match r
      case Cpu =>
      case Memory =>
    }
  }

  /** What is available is the capacity less the requests of the leases that refer to the pool. */
  lemma BalancedByField(pool: Pool, status: PoolStatus, leases: map<string, Lease>)
    requires Balanced(pool, status, leases)
    ensures var n := pool.name;
            && status.vcpusAvailable == pool.capacity
                 - Total(map k | k in leases :: if PoolRef(n) in leases[k].refs then leases[k].spec.vcpus else 0)
            && status.memoryAvailable == pool.memory
                 - Total(map k | k in leases :: if PoolRef(n) in leases[k].refs then leases[k].spec.memory else 0)
            && status.leaseCount == |set k | k in leases && PoolRef(n) in leases[k].refs|
  {
    UsedByField(leases, pool.name);
    assert Available(status, Cpu) + Used(leases, pool.name, Cpu) == Capacity(pool, Cpu);
    assert Available(status, Memory) + Used(leases, pool.name, Memory) == Capacity(pool, Memory);
  }

  /** Recomputes the figures of every pool from the leases that hold it. */
  method ReconcilePoolStates(pools: map<string, Pool>, leases: map<string, Lease>)
    returns (status: map<string, PoolStatus>)
    ensures status.Keys == pools.Keys
    ensures forall n :: n in pools ==> Balanced(pools[n], status[n], leases)
  {
    status := map[];
    var left := pools.Keys;
    while left != {}
      invariant left <= pools.Keys && status.Keys == pools.Keys - left
      invariant forall n :: n in status ==> Balanced(pools[n], status[n], leases)
      decreases |left|
    {
      var n :| n in left;
      var usage := PoolUsage(pools[n], leases);
      status := status[n := usage];
      left := left - {n};
    }
  }

  /** Assigning pools to a lease lowers exactly the pools it did not hold before, each by the
      request; every other pool's figures stay as they were. */
  lemma AssigningLowers(leases: map<string, Lease>, k: string, lease: Lease, pool: Pool, before: PoolStatus,
      after: PoolStatus, r: Resource)
    requires k in leases && leases[k].spec == lease.spec
    requires forall ref :: ref in leases[k].refs ==> ref in lease.refs
    requires Balanced(pool, before, leases) && Balanced(pool, after, leases[k := lease])
    ensures Available(after, r) == Available(before, r)
              - (if PoolRef(pool.name) in lease.refs && PoolRef(pool.name) !in leases[k].refs
                 then Asks(lease.spec, r) else 0)
  {
    UsedAfterChange(leases, k, lease, pool.name, r);
  }

  /** A lease that comes, takes what it takes, and goes leaves every pool's figures as they were. */
  lemma DeletionRestores(leases: map<string, Lease>, k: string, lease: Lease, pool: Pool, before: PoolStatus,
      during: PoolStatus, after: PoolStatus)
    requires k !in leases
    requires Balanced(pool, before, leases)
    requires Balanced(pool, during, leases[k := lease])
    requires Balanced(pool, after, leases[k := lease] - {k})
    ensures after == before
    ensures forall r :: Available(during, r) == Available(before, r) - Takes(lease, pool.name, r)
  {
    UsedWith(leases, k, lease, pool.name, Cpu);
    UsedWith(leases, k, lease, pool.name, Memory);
    assert leases[k := lease] - {k} == leases;
    assert Available(after, Cpu) == Available(before, Cpu);
    assert Available(after, Memory) == Available(before, Memory);
  }

  /** No pool gives out more than it has. */
  ghost predicate WithinCapacity(pools: map<string, Pool>, leases: map<string, Lease>) {
    forall n, r :: n in pools ==> Used(leases, n, r) <= Capacity(pools[n], r)
  }
}
