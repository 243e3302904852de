/**
 The resources of the capacity manager: pools, networks and leases, with the fields that
 scheduling reads. A pool's static record is kept apart from its availability figures,
 which the controller recomputes before it places a lease.
 */
module Types {

  datatype Option<+T> = None | Some(value: T)

  datatype Taint = Taint(key: string, value: string, effect: string)

  datatype Toleration = Toleration(key: string, operator: string, value: string, effect: string)

  /** `capacity` is the over-committed number of vCPUs; `portGroups` holds the last component
      of each of the pool's topology network paths. */
  datatype Pool = Pool(
    name: string,
    server: string,
    pod: string,
    failureDomain: string,
    portGroups: seq<string>,
    vcpus: nat,
    memory: nat,
    capacity: nat,
    exclude: bool,
    noSchedule: bool,
    labels: map<string, string>,
    taints: seq<Taint>)

  datatype PoolStatus = PoolStatus(vcpusAvailable: int, memoryAvailable: int, leaseCount: nat)

  datatype Network = Network(
    name: string,
    pod: string,
    portGroup: string,
    vlan: string,
    datacenter: string,
    typeLabel: Option<string>)

  datatype LeaseSpec = LeaseSpec(
    vcpus: nat,
    memory: nat,
    pools: nat,
    vcenters: int,
    minVCenters: int,
    networks: nat,
    requiredPool: string,
    poolSelector: map<string, string>,
    tolerations: seq<Toleration>,
    networkType: string)

  /** The owner references of a lease are how it holds pools and networks. */
  datatype OwnerRef =
    | PoolRef(name: string)
    | NetworkRef(name: string)
    | OtherRef(kind: string, name: string)

  datatype Phase = Unset | Pending | Partial | Fulfilled | Failed

  datatype ConditionStatus = True | False | Unknown

  /** A transition time of 0 is the zero time, that is, not set. */
  datatype Condition = Condition(
    ctype: string,
    status: ConditionStatus,
    severity: string,
    reason: string,
    message: string,
    time: nat)

  datatype LeaseStatus = LeaseStatus(phase: Phase, failureDomain: string, conditions: seq<Condition>)

  datatype Lease = Lease(
    name: string,
    created: nat,
    boskosId: Option<string>,
    spec: LeaseSpec,
    refs: seq<OwnerRef>,
    status: LeaseStatus)

  const SINGLE_TENANT := "single-tenant"
  const MULTI_TENANT := "multi-tenant"

  /** A lease that asks for no particular number of pools asks for one. */
  function RequiredPools(spec: LeaseSpec): nat {
    if spec.pools == 0 then 1 else spec.pools
  }

  function ToSet<T>(s: seq<T>): set<T> {
    set x | x in s
  }

  ghost predicate Distinct<T>(s: seq<T>) {
    forall i, j :: 0 <= i < j < |s| ==> s[i] != s[j]
  }

  lemma {:induction false} DistinctCard<T>(s: seq<T>)
    requires Distinct(s)
    ensures |ToSet(s)| == |s|
  {
    if s == [] {
      assert ToSet(s) == {};
    } else {
      var k := |s| - 1;
      DistinctCard(s[..k]);
      assert ToSet(s) == ToSet(s[..k]) + {s[k]};
    }
  }
}
