/**
 * The call sequences the AWSService operations issue, as functions of what they start
 * from (the instance snapshot, the limits, the control plane's answers and the position
 * `t` in the call log where the operation begins), and what those sequences promise:
 * counts, orderings, device-index ranges and the conditions under which nothing is issued.
 */
module Plans {
  import opened Optional
  import opened Ec2

  /** The only allocation domain the service asks for. */
  const Vpc := "vpc"

  function Lookup(table: map<string, int>, key: string): Option<int>
  {
    if key in table then Some(table[key]) else None
  }

  /** The group ids of the instance's security groups, in order. */
  function GroupIds(inst: Instance): seq<string>
  {
    seq(|inst.securityGroups|, k requires 0 <= k < |inst.securityGroups| => inst.securityGroups[k].groupId)
  }

  /** What createENI sends as the secondary count: the limit minus the primary. */
  function SecondaryCount(ipLimit: Option<int>): Option<int>
  {
    if ipLimit.Some? then Some(ipLimit.value - 1) else None
  }

  /** The private addresses that have no elastic IP, in list order. */
  function Unassociated(ips: seq<PrivateIp>): (r: seq<PrivateIp>)
    ensures |r| <= |ips|
  {
    if ips == [] then []
    else (if ips[0].association.None? then [ips[0]] else []) + Unassociated(ips[1..])
  }

  function AddressesOf(ips: seq<PrivateIp>): seq<string>
  {
    seq(|ips|, k requires 0 <= k < |ips| => ips[k].privateIpAddress)
  }

  // ---------------------------------------------------------------------------------
  // Call sequences
  // ---------------------------------------------------------------------------------

  /** allocateAddressToInterface: one allocate and one associate per unassociated address. */
  function AllocatePlan(cloud: Cloud, nicId: string, ips: seq<PrivateIp>, t: nat): seq<Call>
  {
    if ips == [] then []
    else if ips[0].association.Some? then AllocatePlan(cloud, nicId, ips[1..], t)
    else
      [AllocateAddress(Vpc), AssociateAddress(nicId, cloud.allocateAddress(t), ips[0].privateIpAddress)]
      + AllocatePlan(cloud, nicId, ips[1..], t + 2)
  }

  /**
   * assignAndAllocatePrivateIpAddress: assign, re-describe the interface, then allocate
   * for the refreshed interface's unassociated addresses.
   */
  function AssignPlan(cloud: Cloud, nicId: string, count: int, t: nat): seq<Call>
  {
    [AssignPrivateIpAddresses(nicId, count), DescribeNetworkInterfaces(nicId)]
    + AllocatePlan(cloud, nicId, cloud.describeNetworkInterface(nicId, t + 1), t + 2)
  }

  /** An interface that has fewer private addresses than the (defined) per-interface limit. */
  predicate BelowLimit(nic: NetworkInterface, ipLimit: Option<int>)
  {
    ipLimit.Some? && |nic.privateIpAddresses| < ipLimit.value
  }

  /** The assign step of one interface-loop iteration, taken only below the limit. */
  function TopUpPlan(cloud: Cloud, nic: NetworkInterface, ipLimit: Option<int>, t: nat): seq<Call>
  {
    if BelowLimit(nic, ipLimit)
    then AssignPlan(cloud, nic.networkInterfaceId, ipLimit.value - |nic.privateIpAddresses|, t)
    else []
  }

  /** The allocation pass over the interface as it was in the snapshot. */
  function StalePlan(cloud: Cloud, nic: NetworkInterface, t: nat): seq<Call>
  {
    if Unassociated(nic.privateIpAddresses) != []
    then AllocatePlan(cloud, nic.networkInterfaceId, nic.privateIpAddresses, t)
    else []
  }

  /** One iteration of the loop over existing interfaces: the assign step, then the stale pass. */
  function NicPlan(cloud: Cloud, nic: NetworkInterface, ipLimit: Option<int>, t: nat): seq<Call>
  {
    var assign := TopUpPlan(cloud, nic, ipLimit, t);
    assign + StalePlan(cloud, nic, t + |assign|)
  }

  /** The loop over existing interfaces, from position `from` to the end. */
  function NicsPlan(cloud: Cloud, nics: seq<NetworkInterface>, ipLimit: Option<int>, from: nat, t: nat): seq<Call>
    decreases |nics| - from
  {
    if from >= |nics| then []
    else
      var first := NicPlan(cloud, nics[from], ipLimit, t);
      first + NicsPlan(cloud, nics, ipLimit, from + 1, t + |first|)
  }

  /** createENI: create, attach at the device index, allocate for the new interface. */
  function CreateEniPlan(cloud: Cloud, inst: Instance, deviceIndex: int, ipLimit: Option<int>, t: nat): seq<Call>
  {
    var created := cloud.createNetworkInterface(t);
    [ CreateNetworkInterface(inst.subnetId, SecondaryCount(ipLimit), GroupIds(inst)),
      AttachNetworkInterface(deviceIndex, inst.instanceId, created.networkInterfaceId) ]
    + AllocatePlan(cloud, created.networkInterfaceId, created.privateIpAddresses, t + 2)
  }

  /** The device-index loop: one createENI per index from `deviceIdx` up to `eniLimit`. */
  function NewEnisPlan(cloud: Cloud, inst: Instance, deviceIdx: int, eniLimit: int, ipLimit: Option<int>, t: nat)
    : seq<Call>
    decreases eniLimit - deviceIdx
  {
    if deviceIdx >= eniLimit then []
    else
      var first := CreateEniPlan(cloud, inst, deviceIdx, ipLimit, t);
      first + NewEnisPlan(cloud, inst, deviceIdx + 1, eniLimit, ipLimit, t + |first|)
  }

  /** The interface limit is defined and exceeds the number of attached interfaces. */
  predicate AddsEnis(inst: Instance, eniLimit: Option<int>)
  {
    eniLimit.Some? && eniLimit.value > |inst.networkInterfaces|
  }

  /** checkIfInstanceHasValidInterfaces, once the service is initialised. */
  function ReconcilePlan(cloud: Cloud, inst: Instance, eniLimit: Option<int>, ipLimit: Option<int>, t: nat)
    : seq<Call>
  {
    var fix := NicsPlan(cloud, inst.networkInterfaces, ipLimit, 0, t);
    fix
    + if AddsEnis(inst, eniLimit)
      then NewEnisPlan(cloud, inst, |inst.networkInterfaces|, eniLimit.value, ipLimit, t + |fix|)
      else []
  }

  /** init on a fresh service: describe the instance, then (if found) its addresses. */
  function InitPlan(cloud: Cloud, t: nat): seq<Call>
  {
    var id := cloud.instanceIdentity;
    [DescribeInstances(id)] + if cloud.describeInstances(id, t).Some? then [DescribeAddresses(id)] else []
  }

  /**
   * removeAddress for a bound, non-primary address: disassociate, release, and when
   * reattaching, re-describe the interface, allocate and associate the new allocation.
   */
  function ReleasePlan(cloud: Cloud, rec: AddressRecord, privateIp: string, reattach: bool, t: nat): seq<Call>
  {
    [DisassociateAddress(rec.associationId), ReleaseAddress(rec.allocationId)]
    + if reattach
      then [ DescribeNetworkInterfaces(rec.networkInterfaceId),
             AllocateAddress(Vpc),
             AssociateAddress(rec.networkInterfaceId, cloud.allocateAddress(t + 3), privateIp) ]
      else []
  }

  // ---------------------------------------------------------------------------------
  // Views of a call sequence
  // ---------------------------------------------------------------------------------

  /** The values `f` extracts from the calls it applies to, in call order. */
  function Select<T>(calls: seq<Call>, f: Call -> Option<T>): seq<T>
  {
    if calls == [] then [] else Picked(calls[0], f) + Select(calls[1..], f)
  }

  function Picked<T>(c: Call, f: Call -> Option<T>): seq<T>
  {
    if f(c).Some? then [f(c).value] else []
  }

  function AttachIndex(c: Call): Option<int>
  {
    if c.AttachNetworkInterface? then Some(c.deviceIndex) else None
  }

  function AssignRequest(c: Call): Option<(string, int)>
  {
    if c.AssignPrivateIpAddresses? then Some((c.networkInterfaceId, c.secondaryPrivateIpAddressCount)) else None
  }

  function CreateRequest(c: Call): Option<Call>
  {
    if c.CreateNetworkInterface? then Some(c) else None
  }

  function AssociatedAddress(c: Call): Option<string>
  {
    if c.AssociateAddress? then Some(c.privateIpAddress) else None
  }

  /** The consecutive integers from `lo` up to, not including, `hi`. */
  function Range(lo: int, hi: int): (r: seq<int>)
    ensures |r| == if lo < hi then hi - lo else 0
    decreases hi - lo
  {
    if lo >= hi then [] else [lo] + Range(lo + 1, hi)
  }

  /** `n` copies of `c`. */
  function Repeat(c: Call, n: nat): (r: seq<Call>)
    ensures |r| == n
  {
    if n == 0 then [] else [c] + Repeat(c, n - 1)
  }

  /**
   * Reference definition: one assign request per interface, from position `from` on, that
   * is below the limit, asking for the difference, in interface order.
   */
  function ExpectedAssigns(nics: seq<NetworkInterface>, ipLimit: Option<int>, from: nat): seq<(string, int)>
    decreases |nics| - from
  {
    if from >= |nics| then []
    else
      AssignHead(nics[from], ipLimit) + ExpectedAssigns(nics, ipLimit, from + 1)
  }

  /** The k-th element of `Range(lo, hi)` is `lo + k`. */
  lemma {:induction false} RangeElements(lo: int, hi: int)
    ensures forall k :: 0 <= k < |Range(lo, hi)| ==> Range(lo, hi)[k] == lo + k
    decreases hi - lo
  {
    if lo < hi {
      RangeElements(lo + 1, hi);
      assert forall k :: 1 <= k < |Range(lo, hi)| ==> Range(lo, hi)[k] == Range(lo + 1, hi)[k - 1];
    }
  }

  /** Every element of `Repeat(c, n)` is `c`. */
  lemma {:induction false} RepeatElements(c: Call, n: nat)
    ensures forall k :: 0 <= k < n ==> Repeat(c, n)[k] == c
  {
    if n > 0 {
      RepeatElements(c, n - 1);
      assert forall k :: 1 <= k < n ==> Repeat(c, n)[k] == Repeat(c, n - 1)[k - 1];
    }
  }

  /**
   * Every expected request asks for a positive number of addresses, and there are no more
   * requests than interfaces examined.
   */
  lemma {:induction false} ExpectedAssignsBounds(nics: seq<NetworkInterface>, ipLimit: Option<int>, from: nat)
    ensures var r := ExpectedAssigns(nics, ipLimit, from);
      && (forall k :: 0 <= k < |r| ==> r[k].1 > 0)
      && (from <= |nics| ==> |r| <= |nics| - from)
    decreases |nics| - from
  {
    if from < |nics| {
      ExpectedAssignsBounds(nics, ipLimit, from + 1);
    }
  }

  /** An interface that needs neither more addresses nor any elastic IP. */
  predicate NicConverged(nic: NetworkInterface, ipLimit: Option<int>)
  {
    !BelowLimit(nic, ipLimit) && Unassociated(nic.privateIpAddresses) == []
  }

  predicate Converged(inst: Instance, eniLimit: Option<int>, ipLimit: Option<int>)
  {
    && (forall i :: 0 <= i < |inst.networkInterfaces| ==> NicConverged(inst.networkInterfaces[i], ipLimit))
    && !AddsEnis(inst, eniLimit)
  }

  /** A call that adjusts an existing interface: assign, describe, allocate or associate. */
  predicate Adjusts(c: Call)
  {
    c.AssignPrivateIpAddresses? || c.DescribeNetworkInterfaces? || c.AllocateAddress? || c.AssociateAddress?
  }

  /** Only allocate and associate calls. */
  predicate OnlyAllocates(calls: seq<Call>)
  {
    calls == [] || ((calls[0].AllocateAddress? || calls[0].AssociateAddress?) && OnlyAllocates(calls[1..]))
  }

  /** Only calls that adjust an existing interface. */
  predicate OnlyAdjusts(calls: seq<Call>)
  {
    calls == [] || (Adjusts(calls[0]) && OnlyAdjusts(calls[1..]))
  }

  // ---------------------------------------------------------------------------------
  // Lemmas
  // ---------------------------------------------------------------------------------

  lemma {:induction false} SelectConcat<T>(a: seq<Call>, b: seq<Call>, f: Call -> Option<T>)
    ensures Select(a + b, f) == Select(a, f) + Select(b, f)
  {
    if a == [] {
      assert a + b == b;
    } else {
      assert (a + b)[1..] == a[1..] + b;
      SelectConcat(a[1..], b, f);
    }
  }

  lemma SelectPair<T>(a: Call, b: Call, rest: seq<Call>, f: Call -> Option<T>)
    ensures Select([a, b] + rest, f) == Picked(a, f) + Picked(b, f) + Select(rest, f)
  {
    assert ([a, b] + rest)[1..] == [b] + rest;
    assert ([b] + rest)[1..] == rest;
  }

  lemma SelectSplit<T>(whole: seq<Call>, first: seq<Call>, rest: seq<Call>, f: Call -> Option<T>, a: seq<T>, b: seq<T>)
    requires whole == first + rest
    requires Select(first, f) == a && Select(rest, f) == b
    ensures Select(whole, f) == a + b
  {
    SelectConcat(first, rest, f);
  }

  lemma {:induction false} OnlyAdjustsConcat(a: seq<Call>, b: seq<Call>)
    requires OnlyAdjusts(a) && OnlyAdjusts(b)
    ensures OnlyAdjusts(a + b)
  {
    if a == [] {
      assert a + b == b;
    } else {
      assert (a + b)[1..] == a[1..] + b;
      OnlyAdjustsConcat(a[1..], b);
    }
  }

  lemma {:induction false} AllocatesAdjust(calls: seq<Call>)
    requires OnlyAllocates(calls)
    ensures OnlyAdjusts(calls)
  {
    if calls != [] {
      AllocatesAdjust(calls[1..]);
    }
  }

  /** Calls that only adjust existing interfaces create and attach nothing. */
  lemma {:induction false} AdjustsSelectNothing(calls: seq<Call>)
    requires OnlyAdjusts(calls)
    ensures Select(calls, AttachIndex) == [] && Select(calls, CreateRequest) == []
  {
    if calls != [] {
      AdjustsSelectNothing(calls[1..]);
    }
  }

  /** Allocate and associate calls create, attach and assign nothing. */
  lemma {:induction false} AllocatesSelectNothing(calls: seq<Call>)
    requires OnlyAllocates(calls)
    ensures Select(calls, AttachIndex) == [] && Select(calls, CreateRequest) == []
    ensures Select(calls, AssignRequest) == []
  {
    if calls != [] {
      AllocatesSelectNothing(calls[1..]);
    }
  }

  lemma {:induction false} AllocatePlanLength(cloud: Cloud, nicId: string, ips: seq<PrivateIp>, t: nat)
    ensures |AllocatePlan(cloud, nicId, ips, t)| == 2 * |Unassociated(ips)|
  {
    if ips != [] {
      if ips[0].association.Some? {
        AllocatePlanLength(cloud, nicId, ips[1..], t);
        assert Unassociated(ips) == Unassociated(ips[1..]);
      } else {
        AllocatePlanLength(cloud, nicId, ips[1..], t + 2);
        assert Unassociated(ips) == [ips[0]] + Unassociated(ips[1..]);
      }
    }
  }

  /**
   * allocateAddressToInterface issues, for the k-th unassociated address in list order,
   * an allocate followed by an associate, to that address on that interface, of the
   * allocation that very allocate returned.
   */
  lemma {:induction false} AllocatePlanAt(cloud: Cloud, nicId: string, ips: seq<PrivateIp>, t: nat, k: nat)
    requires k < |Unassociated(ips)|
    ensures var plan := AllocatePlan(cloud, nicId, ips, t); var u := Unassociated(ips);
      && 2 * k + 1 < |plan|
      && plan[2 * k] == AllocateAddress(Vpc)
      && plan[2 * k + 1] == AssociateAddress(nicId, cloud.allocateAddress(t + 2 * k), u[k].privateIpAddress)
  {
    AllocatePlanLength(cloud, nicId, ips, t);
    if ips[0].association.Some? {
      assert Unassociated(ips) == Unassociated(ips[1..]);
      AllocatePlanAt(cloud, nicId, ips[1..], t, k);
    } else {
      assert Unassociated(ips) == [ips[0]] + Unassociated(ips[1..]);
      if k > 0 {
        AllocatePlanAt(cloud, nicId, ips[1..], t + 2, k - 1);
      }
    }
  }

  /**
   * allocateAddressToInterface issues exactly two calls per unassociated address, an
   * allocate then an associate of that allocation, in list order, and nothing for the
   * addresses that already have an elastic IP.
   */
  lemma AllocatePlanShape(cloud: Cloud, nicId: string, ips: seq<PrivateIp>, t: nat)
    ensures var plan := AllocatePlan(cloud, nicId, ips, t); var u := Unassociated(ips);
      && |plan| == 2 * |u|
      && forall k :: 0 <= k < |u| ==>
           && plan[2 * k] == AllocateAddress(Vpc)
           && plan[2 * k + 1] == AssociateAddress(nicId, cloud.allocateAddress(t + 2 * k), u[k].privateIpAddress)
  {
    AllocatePlanLength(cloud, nicId, ips, t);
    forall k | 0 <= k < |Unassociated(ips)| {
      AllocatePlanAt(cloud, nicId, ips, t, k);
    }
  }

  /** allocateAddressToInterface issues only allocate and associate calls. */
  lemma {:induction false} AllocatePlanCalls(cloud: Cloud, nicId: string, ips: seq<PrivateIp>, t: nat)
    ensures OnlyAllocates(AllocatePlan(cloud, nicId, ips, t))
  {
    if ips != [] {
      if ips[0].association.Some? {
        AllocatePlanCalls(cloud, nicId, ips[1..], t);
      } else {
        var rest := AllocatePlan(cloud, nicId, ips[1..], t + 2);
        var pair := [AllocateAddress(Vpc), AssociateAddress(nicId, cloud.allocateAddress(t), ips[0].privateIpAddress)];
        AllocatePlanCalls(cloud, nicId, ips[1..], t + 2);
        assert (pair + rest)[1..] == [pair[1]] + rest;
        assert ([pair[1]] + rest)[1..] == rest;
      }
    }
  }

  /** The addresses associated by allocateAddressToInterface: the unassociated ones, in order. */
  lemma {:induction false} AllocatePlanAssociates(cloud: Cloud, nicId: string, ips: seq<PrivateIp>, t: nat)
    ensures Select(AllocatePlan(cloud, nicId, ips, t), AssociatedAddress) == AddressesOf(Unassociated(ips))
  {
    if ips != [] {
      var u := Unassociated(ips);
      if ips[0].association.Some? {
        AllocatePlanAssociates(cloud, nicId, ips[1..], t);
        assert u == Unassociated(ips[1..]);
      } else {
        AllocatePlanAssociates(cloud, nicId, ips[1..], t + 2);
        var a := AllocateAddress(Vpc);
        var b := AssociateAddress(nicId, cloud.allocateAddress(t), ips[0].privateIpAddress);
        SelectPair(a, b, AllocatePlan(cloud, nicId, ips[1..], t + 2), AssociatedAddress);
        assert u == [ips[0]] + Unassociated(ips[1..]);
        assert AddressesOf(u) == [ips[0].privateIpAddress] + AddressesOf(Unassociated(ips[1..]));
      }
    }
  }

  /** assignAndAllocatePrivateIpAddress sends one assign request, for the interface and the count asked. */
  lemma AssignPlanAssigns(cloud: Cloud, nicId: string, count: int, t: nat)
    ensures Select(AssignPlan(cloud, nicId, count, t), AssignRequest) == [(nicId, count)]
  {
    var refreshed := cloud.describeNetworkInterface(nicId, t + 1);
    var allocs := AllocatePlan(cloud, nicId, refreshed, t + 2);
    var assign := AssignPrivateIpAddresses(nicId, count);
    var describe := DescribeNetworkInterfaces(nicId);
    assert AssignPlan(cloud, nicId, count, t) == [assign, describe] + allocs;
    assert Select(allocs, AssignRequest) == [] by {
      AllocatePlanCalls(cloud, nicId, refreshed, t + 2);
      AllocatesSelectNothing(allocs);
    }
    SelectPair(assign, describe, allocs, AssignRequest);
  }

  /**
   * assignAndAllocatePrivateIpAddress associates the addresses that the re-described
   * interface shows without an elastic IP, in order.
   */
  lemma AssignPlanAssociates(cloud: Cloud, nicId: string, count: int, t: nat)
    ensures Select(AssignPlan(cloud, nicId, count, t), AssociatedAddress)
         == AddressesOf(Unassociated(cloud.describeNetworkInterface(nicId, t + 1)))
  {
    var refreshed := cloud.describeNetworkInterface(nicId, t + 1);
    var allocs := AllocatePlan(cloud, nicId, refreshed, t + 2);
    var assign := AssignPrivateIpAddresses(nicId, count);
    var describe := DescribeNetworkInterfaces(nicId);
    assert AssignPlan(cloud, nicId, count, t) == [assign, describe] + allocs;
    assert Select(allocs, AssociatedAddress) == AddressesOf(Unassociated(refreshed)) by {
      AllocatePlanAssociates(cloud, nicId, refreshed, t + 2);
    }
    SelectPair(assign, describe, allocs, AssociatedAddress);
  }

  /** assignAndAllocatePrivateIpAddress only adjusts the interface it is given. */
  lemma AssignPlanCalls(cloud: Cloud, nicId: string, count: int, t: nat)
    ensures OnlyAdjusts(AssignPlan(cloud, nicId, count, t))
  {
    var refreshed := cloud.describeNetworkInterface(nicId, t + 1);
    var allocs := AllocatePlan(cloud, nicId, refreshed, t + 2);
    var assign := AssignPrivateIpAddresses(nicId, count);
    var describe := DescribeNetworkInterfaces(nicId);
    assert AssignPlan(cloud, nicId, count, t) == [assign, describe] + allocs;
    assert OnlyAdjusts(allocs) by {
      AllocatePlanCalls(cloud, nicId, refreshed, t + 2);
      AllocatesAdjust(allocs);
    }
    assert OnlyAdjusts([assign, describe]) by {
      assert [assign, describe][1..] == [describe];
    }
    OnlyAdjustsConcat([assign, describe], allocs);
  }

  /**
   * One iteration of the interface loop associates, in order, the addresses the refreshed
   * interface shows without an elastic IP (when the assign step ran), and then those the
   * snapshot's stale copy of the interface shows without one.
   */
  lemma NicPlanAssociates(cloud: Cloud, nic: NetworkInterface, ipLimit: Option<int>, t: nat)
    ensures var id := nic.networkInterfaceId;
      Select(NicPlan(cloud, nic, ipLimit, t), AssociatedAddress) ==
        (if BelowLimit(nic, ipLimit)
         then AddressesOf(Unassociated(cloud.describeNetworkInterface(id, t + 1)))
         else [])
        + AddressesOf(Unassociated(nic.privateIpAddresses))
  {
    hide AssignPlan, AllocatePlan, Unassociated, AddressesOf;
    var id := nic.networkInterfaceId;
    var assign := TopUpPlan(cloud, nic, ipLimit, t);
    var stale := StalePlan(cloud, nic, t + |assign|);
    var refreshed := if BelowLimit(nic, ipLimit)
                     then AddressesOf(Unassociated(cloud.describeNetworkInterface(id, t + 1)))
                     else [];
    assert Select(stale, AssociatedAddress) == AddressesOf(Unassociated(nic.privateIpAddresses)) by {
      StalePlanAssociates(cloud, nic, t + |assign|);
    }
    assert Select(assign, AssociatedAddress) == refreshed by {
      if BelowLimit(nic, ipLimit) {
        AssignPlanAssociates(cloud, id, ipLimit.value - |nic.privateIpAddresses|, t);
      }
    }
    SelectSplit(NicPlan(cloud, nic, ipLimit, t), assign, stale, AssociatedAddress,
                refreshed, AddressesOf(Unassociated(nic.privateIpAddresses)));
  }

  /** The stale pass associates the snapshot's addresses that have no elastic IP. */
  lemma StalePlanAssociates(cloud: Cloud, nic: NetworkInterface, t: nat)
    ensures Select(StalePlan(cloud, nic, t), AssociatedAddress) == AddressesOf(Unassociated(nic.privateIpAddresses))
  {
    var ips := nic.privateIpAddresses;
    if Unassociated(ips) != [] {
      AllocatePlanAssociates(cloud, nic.networkInterfaceId, ips, t);
    } else {
      assert AddressesOf(Unassociated(ips)) == [];
    }
  }

  /** One iteration of the interface loop issues only assign, describe, allocate and associate calls. */
  lemma NicPlanCalls(cloud: Cloud, nic: NetworkInterface, ipLimit: Option<int>, t: nat)
    ensures OnlyAdjusts(NicPlan(cloud, nic, ipLimit, t))
  {
    hide AssignPlan, AllocatePlan;
    var id := nic.networkInterfaceId;
    var assign := TopUpPlan(cloud, nic, ipLimit, t);
    var stale := StalePlan(cloud, nic, t + |assign|);
    assert OnlyAdjusts(assign) by {
      if BelowLimit(nic, ipLimit) {
        AssignPlanCalls(cloud, id, ipLimit.value - |nic.privateIpAddresses|, t);
      }
    }
    assert OnlyAdjusts(stale) by {
      AllocatePlanCalls(cloud, id, nic.privateIpAddresses, t + |assign|);
      AllocatesAdjust(AllocatePlan(cloud, id, nic.privateIpAddresses, t + |assign|));
    }
    OnlyAdjustsConcat(assign, stale);
  }

  /** The interface loop never creates or attaches an interface. */
  lemma {:induction false} NicsPlanCalls(cloud: Cloud, nics: seq<NetworkInterface>, ipLimit: Option<int>, from: nat, t: nat)
    ensures OnlyAdjusts(NicsPlan(cloud, nics, ipLimit, from, t))
    decreases |nics| - from
  {
    hide NicPlan;
    if from < |nics| {
      var first := NicPlan(cloud, nics[from], ipLimit, t);
      var rest := NicsPlan(cloud, nics, ipLimit, from + 1, t + |first|);
      assert OnlyAdjusts(first) by {
        NicPlanCalls(cloud, nics[from], ipLimit, t);
      }
      assert OnlyAdjusts(rest) by {
        NicsPlanCalls(cloud, nics, ipLimit, from + 1, t + |first|);
      }
      OnlyAdjustsConcat(first, rest);
      assert NicsPlan(cloud, nics, ipLimit, from, t) == first + rest;
    }
  }

  lemma CreateEniPlanSelects(cloud: Cloud, inst: Instance, deviceIndex: int, ipLimit: Option<int>, t: nat)
    ensures var plan := CreateEniPlan(cloud, inst, deviceIndex, ipLimit, t);
      && Select(plan, AttachIndex) == [deviceIndex]
      && Select(plan, CreateRequest) == [CreateNetworkInterface(inst.subnetId, SecondaryCount(ipLimit), GroupIds(inst))]
      && Select(plan, AssignRequest) == []
  {
    var created := cloud.createNetworkInterface(t);
    var a := CreateNetworkInterface(inst.subnetId, SecondaryCount(ipLimit), GroupIds(inst));
    var b := AttachNetworkInterface(deviceIndex, inst.instanceId, created.networkInterfaceId);
    var allocs := AllocatePlan(cloud, created.networkInterfaceId, created.privateIpAddresses, t + 2);
    assert CreateEniPlan(cloud, inst, deviceIndex, ipLimit, t) == [a, b] + allocs;
    assert Select(allocs, AttachIndex) == [] && Select(allocs, CreateRequest) == []
        && Select(allocs, AssignRequest) == [] by {
      AllocatePlanCalls(cloud, created.networkInterfaceId, created.privateIpAddresses, t + 2);
      AllocatesSelectNothing(allocs);
    }
    SelectPair(a, b, allocs, AttachIndex);
    SelectPair(a, b, allocs, CreateRequest);
    SelectPair(a, b, allocs, AssignRequest);
  }

  /**
   * createENI, in order: create the interface (limit minus one secondaries, the instance's
   * subnet and groups), attach the very interface that create returned at the given device
   * index, then only allocations, which associate exactly the new interface's addresses
   * that have no elastic IP.
   */
  lemma CreateEniPlanOrder(cloud: Cloud, inst: Instance, deviceIndex: int, ipLimit: Option<int>, t: nat)
    ensures var plan := CreateEniPlan(cloud, inst, deviceIndex, ipLimit, t);
      var created := cloud.createNetworkInterface(t);
      && |plan| >= 2
      && plan[0] == CreateNetworkInterface(inst.subnetId, SecondaryCount(ipLimit), GroupIds(inst))
      && plan[1] == AttachNetworkInterface(deviceIndex, inst.instanceId, created.networkInterfaceId)
      && OnlyAllocates(plan[2..])
      && Select(plan[2..], AssociatedAddress) == AddressesOf(Unassociated(created.privateIpAddresses))
  {
    var created := cloud.createNetworkInterface(t);
    var plan := CreateEniPlan(cloud, inst, deviceIndex, ipLimit, t);
    var allocs := AllocatePlan(cloud, created.networkInterfaceId, created.privateIpAddresses, t + 2);
    assert plan[2..] == allocs;
    AllocatePlanCalls(cloud, created.networkInterfaceId, created.privateIpAddresses, t + 2);
    AllocatePlanAssociates(cloud, created.networkInterfaceId, created.privateIpAddresses, t + 2);
  }

  /** The device-index loop attaches new interfaces at exactly `deviceIdx`, ..., `eniLimit - 1`, in that order. */
  lemma {:induction false} NewEnisAttaches(
    cloud: Cloud, inst: Instance, deviceIdx: int, eniLimit: int, ipLimit: Option<int>, t: nat)
    ensures Select(NewEnisPlan(cloud, inst, deviceIdx, eniLimit, ipLimit, t), AttachIndex) == Range(deviceIdx, eniLimit)
    decreases eniLimit - deviceIdx
  {
    hide CreateEniPlan, AllocatePlan, GroupIds;
    if deviceIdx < eniLimit {
      var create := CreateNetworkInterface(inst.subnetId, SecondaryCount(ipLimit), GroupIds(inst));
      var first := CreateEniPlan(cloud, inst, deviceIdx, ipLimit, t);
      var rest := NewEnisPlan(cloud, inst, deviceIdx + 1, eniLimit, ipLimit, t + |first|);
      var plan := NewEnisPlan(cloud, inst, deviceIdx, eniLimit, ipLimit, t);
      assert plan == first + rest;
      assert Select(first, AttachIndex) == [deviceIdx] by {
        CreateEniPlanSelects(cloud, inst, deviceIdx, ipLimit, t);
      }
      assert Select(rest, AttachIndex) == Range(deviceIdx + 1, eniLimit) by {
        NewEnisAttaches(cloud, inst, deviceIdx + 1, eniLimit, ipLimit, t + |first|);
      }
      SelectSplit(plan, first, rest, AttachIndex, [deviceIdx], Range(deviceIdx + 1, eniLimit));
      assert Range(deviceIdx, eniLimit) == [deviceIdx] + Range(deviceIdx + 1, eniLimit);
    }
  }

  /** The device-index loop creates one interface per index, each with the instance's subnet and
   * security groups and the limit-minus-one secondary count. */
  lemma {:induction false} NewEnisCreates(
    cloud: Cloud, inst: Instance, deviceIdx: int, eniLimit: int, ipLimit: Option<int>, t: nat)
    ensures Select(NewEnisPlan(cloud, inst, deviceIdx, eniLimit, ipLimit, t), CreateRequest) ==
      Repeat(CreateNetworkInterface(inst.subnetId, SecondaryCount(ipLimit), GroupIds(inst)),
             if deviceIdx < eniLimit then eniLimit - deviceIdx else 0)
    decreases eniLimit - deviceIdx
  {
    hide CreateEniPlan, AllocatePlan, GroupIds;
    if deviceIdx < eniLimit {
      var create := CreateNetworkInterface(inst.subnetId, SecondaryCount(ipLimit), GroupIds(inst));
      var first := CreateEniPlan(cloud, inst, deviceIdx, ipLimit, t);
      var rest := NewEnisPlan(cloud, inst, deviceIdx + 1, eniLimit, ipLimit, t + |first|);
      var plan := NewEnisPlan(cloud, inst, deviceIdx, eniLimit, ipLimit, t);
      assert plan == first + rest;
      assert Select(first, CreateRequest) == [create] by {
        CreateEniPlanSelects(cloud, inst, deviceIdx, ipLimit, t);
      }
      assert Select(rest, CreateRequest) == Repeat(create, eniLimit - (deviceIdx + 1)) by {
        NewEnisCreates(cloud, inst, deviceIdx + 1, eniLimit, ipLimit, t + |first|);
      }
      SelectSplit(plan, first, rest, CreateRequest, [create], Repeat(create, eniLimit - (deviceIdx + 1)));
      assert Repeat(create, eniLimit - deviceIdx) == [create] + Repeat(create, eniLimit - (deviceIdx + 1));
    }
  }

  /** The device-index loop sends no assign request. */
  lemma {:induction false} NewEnisAssignNothing(
    cloud: Cloud, inst: Instance, deviceIdx: int, eniLimit: int, ipLimit: Option<int>, t: nat)
    ensures Select(NewEnisPlan(cloud, inst, deviceIdx, eniLimit, ipLimit, t), AssignRequest) == []
    decreases eniLimit - deviceIdx
  {
    hide CreateEniPlan, AllocatePlan, GroupIds;
    if deviceIdx < eniLimit {
      var create := CreateNetworkInterface(inst.subnetId, SecondaryCount(ipLimit), GroupIds(inst));
      var first := CreateEniPlan(cloud, inst, deviceIdx, ipLimit, t);
      var rest := NewEnisPlan(cloud, inst, deviceIdx + 1, eniLimit, ipLimit, t + |first|);
      var plan := NewEnisPlan(cloud, inst, deviceIdx, eniLimit, ipLimit, t);
      assert plan == first + rest;
      assert Select(first, AssignRequest) == [] by {
        CreateEniPlanSelects(cloud, inst, deviceIdx, ipLimit, t);
      }
      assert Select(rest, AssignRequest) == [] by {
        NewEnisAssignNothing(cloud, inst, deviceIdx + 1, eniLimit, ipLimit, t + |first|);
      }
      SelectSplit(plan, first, rest, AssignRequest, [], []);
    }
  }

  /** The two parts of the reconciliation: the interface loop, then the device-index loop. */
  lemma ReconcilePlanParts(cloud: Cloud, inst: Instance, eniLimit: Option<int>, ipLimit: Option<int>, t: nat)
    ensures var fix := NicsPlan(cloud, inst.networkInterfaces, ipLimit, 0, t);
      ReconcilePlan(cloud, inst, eniLimit, ipLimit, t) ==
        fix + if AddsEnis(inst, eniLimit)
              then NewEnisPlan(cloud, inst, |inst.networkInterfaces|, eniLimit.value, ipLimit, t + |fix|)
              else []
  {
    hide NicsPlan, NewEnisPlan;
  }

  /**
   * Device indices of checkIfInstanceHasValidInterfaces: when the interface limit exceeds
   * the number N of attached interfaces, the new ones are attached at N, ..., limit - 1
   * in increasing order (no gap, no reuse of an occupied index), each created once with
   * the instance's subnet and security groups and the limit-minus-one secondary count;
   * otherwise nothing is created or attached.
   */
  lemma ReconcileDeviceIndices(cloud: Cloud, inst: Instance, eniLimit: Option<int>, ipLimit: Option<int>, t: nat)
    ensures var plan := ReconcilePlan(cloud, inst, eniLimit, ipLimit, t); var n := |inst.networkInterfaces|;
      && Select(plan, AttachIndex) == (if AddsEnis(inst, eniLimit) then Range(n, eniLimit.value) else [])
      && Select(plan, CreateRequest) ==
           (if AddsEnis(inst, eniLimit)
            then Repeat(CreateNetworkInterface(inst.subnetId, SecondaryCount(ipLimit), GroupIds(inst)), eniLimit.value - n)
            else [])
  {
    hide ReconcilePlan, NicsPlan, NewEnisPlan, Range, Repeat, GroupIds;
    var n := |inst.networkInterfaces|;
    var plan := ReconcilePlan(cloud, inst, eniLimit, ipLimit, t);
    var fix := NicsPlan(cloud, inst.networkInterfaces, ipLimit, 0, t);
    assert Select(fix, AttachIndex) == [] && Select(fix, CreateRequest) == [] by {
      NicsPlanCalls(cloud, inst.networkInterfaces, ipLimit, 0, t);
      AdjustsSelectNothing(fix);
    }
    ReconcilePlanParts(cloud, inst, eniLimit, ipLimit, t);
    if AddsEnis(inst, eniLimit) {
      var create := CreateNetworkInterface(inst.subnetId, SecondaryCount(ipLimit), GroupIds(inst));
      var enis := NewEnisPlan(cloud, inst, n, eniLimit.value, ipLimit, t + |fix|);
      assert Select(enis, AttachIndex) == Range(n, eniLimit.value) by {
        NewEnisAttaches(cloud, inst, n, eniLimit.value, ipLimit, t + |fix|);
      }
      assert Select(enis, CreateRequest) == Repeat(create, eniLimit.value - n) by {
        NewEnisCreates(cloud, inst, n, eniLimit.value, ipLimit, t + |fix|);
      }
      SelectSplit(plan, fix, enis, AttachIndex, [], Range(n, eniLimit.value));
      SelectSplit(plan, fix, enis, CreateRequest, [], Repeat(create, eniLimit.value - n));
    } else {
      assert plan == fix;
    }
  }


  /** The assign request of one interface-loop iteration, if any. */
  function AssignHead(nic: NetworkInterface, ipLimit: Option<int>): seq<(string, int)>
  {
    if BelowLimit(nic, ipLimit)
    then [(nic.networkInterfaceId, ipLimit.value - |nic.privateIpAddresses|)]
    else []
  }

  /** One iteration of the interface loop sends its interface's assign request, if any, and no other. */
  lemma NicPlanAssigns(cloud: Cloud, nic: NetworkInterface, ipLimit: Option<int>, t: nat)
    ensures Select(NicPlan(cloud, nic, ipLimit, t), AssignRequest) == AssignHead(nic, ipLimit)
  {
    hide AssignPlan, AllocatePlan;
    var assign := TopUpPlan(cloud, nic, ipLimit, t);
    var stale := StalePlan(cloud, nic, t + |assign|);
    assert Select(stale, AssignRequest) == [] by {
      if Unassociated(nic.privateIpAddresses) != [] {
        AllocatePlanCalls(cloud, nic.networkInterfaceId, nic.privateIpAddresses, t + |assign|);
        AllocatesSelectNothing(stale);
      }
    }
    assert Select(assign, AssignRequest) == AssignHead(nic, ipLimit) by {
      if BelowLimit(nic, ipLimit) {
        AssignPlanAssigns(cloud, nic.networkInterfaceId, ipLimit.value - |nic.privateIpAddresses|, t);
      }
    }
    SelectSplit(NicPlan(cloud, nic, ipLimit, t), assign, stale, AssignRequest, AssignHead(nic, ipLimit), []);
  }

  lemma NicsPlanAssignsStep(cloud: Cloud, nics: seq<NetworkInterface>, ipLimit: Option<int>, from: nat, t: nat)
    requires from < |nics|
    ensures var first := NicPlan(cloud, nics[from], ipLimit, t);
      Select(NicsPlan(cloud, nics, ipLimit, from, t), AssignRequest)
      == AssignHead(nics[from], ipLimit) + Select(NicsPlan(cloud, nics, ipLimit, from + 1, t + |first|), AssignRequest)
  {
    hide NicPlan;
    var first := NicPlan(cloud, nics[from], ipLimit, t);
    var rest := NicsPlan(cloud, nics, ipLimit, from + 1, t + |first|);
    NicPlanAssigns(cloud, nics[from], ipLimit, t);
    SelectConcat(first, rest, AssignRequest);
  }

  lemma {:induction false} NicsPlanAssigns(cloud: Cloud, nics: seq<NetworkInterface>, ipLimit: Option<int>, from: nat, t: nat)
    ensures Select(NicsPlan(cloud, nics, ipLimit, from, t), AssignRequest) == ExpectedAssigns(nics, ipLimit, from)
    decreases |nics| - from
  {
    hide NicPlan;
    if from < |nics| {
      var first := NicPlan(cloud, nics[from], ipLimit, t);
      NicsPlanAssignsStep(cloud, nics, ipLimit, from, t);
      NicsPlanAssigns(cloud, nics, ipLimit, from + 1, t + |first|);
    }
  }

  /**
   * Assign requests of checkIfInstanceHasValidInterfaces: exactly one per existing
   * interface with fewer private addresses than the limit, in interface order, asking for
   * the difference; none for an interface at or above the limit, none when the limit is
   * undefined, and none for the interfaces it creates.
   */
  lemma ReconcileAssigns(cloud: Cloud, inst: Instance, eniLimit: Option<int>, ipLimit: Option<int>, t: nat)
    ensures Select(ReconcilePlan(cloud, inst, eniLimit, ipLimit, t), AssignRequest)
         == ExpectedAssigns(inst.networkInterfaces, ipLimit, 0)
  {
    hide ReconcilePlan, NicsPlan, NewEnisPlan;
    var fix := NicsPlan(cloud, inst.networkInterfaces, ipLimit, 0, t);
    var enis := if AddsEnis(inst, eniLimit)
                then NewEnisPlan(cloud, inst, |inst.networkInterfaces|, eniLimit.value, ipLimit, t + |fix|)
                else [];
    ReconcilePlanParts(cloud, inst, eniLimit, ipLimit, t);
    NicsPlanAssigns(cloud, inst.networkInterfaces, ipLimit, 0, t);
    if AddsEnis(inst, eniLimit) {
      NewEnisAssignNothing(cloud, inst, |inst.networkInterfaces|, eniLimit.value, ipLimit, t + |fix|);
    }
    SelectConcat(fix, enis, AssignRequest);
    assert Select(enis, AssignRequest) == [];
    assert ExpectedAssigns(inst.networkInterfaces, ipLimit, 0) + [] == ExpectedAssigns(inst.networkInterfaces, ipLimit, 0);
  }

  lemma NicPlanEmpty(cloud: Cloud, nic: NetworkInterface, ipLimit: Option<int>, t: nat)
    ensures NicPlan(cloud, nic, ipLimit, t) == [] <==> NicConverged(nic, ipLimit)
  {
    var ips := nic.privateIpAddresses;
    if !BelowLimit(nic, ipLimit) && Unassociated(ips) != [] {
      AllocatePlanLength(cloud, nic.networkInterfaceId, ips, t);
    }
  }

  lemma {:induction false} NicsPlanEmpty(cloud: Cloud, nics: seq<NetworkInterface>, ipLimit: Option<int>, from: nat, t: nat)
    ensures NicsPlan(cloud, nics, ipLimit, from, t) == [] <==>
      forall i :: from <= i < |nics| ==> NicConverged(nics[i], ipLimit)
    decreases |nics| - from
  {
    hide NicPlan;
    if from < |nics| {
      var first := NicPlan(cloud, nics[from], ipLimit, t);
      var rest := NicsPlan(cloud, nics, ipLimit, from + 1, t + |first|);
      assert NicsPlan(cloud, nics, ipLimit, from, t) == first + rest;
      assert first == [] <==> NicConverged(nics[from], ipLimit) by {
        NicPlanEmpty(cloud, nics[from], ipLimit, t);
      }
      assert rest == [] <==> forall i :: from + 1 <= i < |nics| ==> NicConverged(nics[i], ipLimit) by {
        NicsPlanEmpty(cloud, nics, ipLimit, from + 1, t + |first|);
      }
    }
  }

  /**
   * The "no calls" guard of checkIfInstanceHasValidInterfaces: it issues nothing exactly
   * when every interface is at or above the address limit with every address holding an
   * elastic IP, and the interface limit does not exceed the attached interfaces.
   */
  lemma ReconcileQuietIffConverged(cloud: Cloud, inst: Instance, eniLimit: Option<int>, ipLimit: Option<int>, t: nat)
    ensures ReconcilePlan(cloud, inst, eniLimit, ipLimit, t) == [] <==> Converged(inst, eniLimit, ipLimit)
  {
    NicsPlanEmpty(cloud, inst.networkInterfaces, ipLimit, 0, t);
  }

  /**
   * removeAddress past the primary guard: disassociate with the record's association id,
   * then release its allocation id; with `reattach`, one allocate then one associate of
   * that allocation to the same private address on the record's interface, and nothing
   * more; without it, nothing more.
   */
  lemma ReleasePlanOrder(cloud: Cloud, rec: AddressRecord, privateIp: string, reattach: bool, t: nat)
    ensures var plan := ReleasePlan(cloud, rec, privateIp, reattach, t);
      && |plan| >= 2
      && plan[0] == DisassociateAddress(rec.associationId)
      && plan[1] == ReleaseAddress(rec.allocationId)
      && Select(plan, AssociatedAddress) == (if reattach then [privateIp] else [])
      && (reattach ==>
            && |plan| == 5
            && plan[3] == AllocateAddress(Vpc)
            && plan[4] == AssociateAddress(rec.networkInterfaceId, cloud.allocateAddress(t + 3), privateIp))
      && (!reattach ==> |plan| == 2)
  {
    var plan := ReleasePlan(cloud, rec, privateIp, reattach, t);
    var d := DisassociateAddress(rec.associationId);
    var r := ReleaseAddress(rec.allocationId);
    var tail := if reattach
                then [ DescribeNetworkInterfaces(rec.networkInterfaceId),
                       AllocateAddress(Vpc),
                       AssociateAddress(rec.networkInterfaceId, cloud.allocateAddress(t + 3), privateIp) ]
                else [];
    assert plan == [d, r] + tail;
    SelectPair(d, r, tail, AssociatedAddress);
    if reattach {
      assert tail == [tail[0], tail[1]] + [tail[2]];
      SelectPair(tail[0], tail[1], [tail[2]], AssociatedAddress);
      assert [tail[2]][1..] == [];
    }
  }

  /** The filter keeps exactly the addresses without an elastic IP. */
  lemma {:induction false} UnassociatedMembers(ips: seq<PrivateIp>, p: PrivateIp)
    ensures p in Unassociated(ips) <==> p in ips && p.association.None?
  {
    if ips != [] {
      UnassociatedMembers(ips[1..], p);
      assert ips == [ips[0]] + ips[1..];
    }
  }

  lemma AddressOfMember(ips: seq<PrivateIp>, p: PrivateIp)
    requires p in ips && p.association.None?
    ensures p.privateIpAddress in AddressesOf(Unassociated(ips))
  {
    UnassociatedMembers(ips, p);
    var u := Unassociated(ips);
    var k :| 0 <= k < |u| && u[k] == p;
    assert AddressesOf(u)[k] == p.privateIpAddress;
  }

  /**
   * The stale re-filter: an address that lacks an elastic IP in the snapshot, on an
   * interface below the address limit, and that the refreshed interface still shows
   * without one, is associated twice in the same iteration: once from the refreshed
   * interface and once from the stale one.
   */
  lemma StaleRefilterAssociatesTwice(cloud: Cloud, nic: NetworkInterface, ipLimit: Option<int>, t: nat, p: PrivateIp)
    requires BelowLimit(nic, ipLimit)
    requires p in nic.privateIpAddresses && p.association.None?
    requires p in cloud.describeNetworkInterface(nic.networkInterfaceId, t + 1)
    ensures var assoc := Select(NicPlan(cloud, nic, ipLimit, t), AssociatedAddress);
      exists i, j :: 0 <= i < j < |assoc| && assoc[i] == p.privateIpAddress && assoc[j] == p.privateIpAddress
  {
    hide NicPlan;
    var refreshed := cloud.describeNetworkInterface(nic.networkInterfaceId, t + 1);
    var a := AddressesOf(Unassociated(refreshed));
    var b := AddressesOf(Unassociated(nic.privateIpAddresses));
    NicPlanAssociates(cloud, nic, ipLimit, t);
    AddressOfMember(refreshed, p);
    AddressOfMember(nic.privateIpAddresses, p);
    var assoc := Select(NicPlan(cloud, nic, ipLimit, t), AssociatedAddress);
    assert assoc == a + b;
    var i :| 0 <= i < |a| && a[i] == p.privateIpAddress;
    var j :| 0 <= j < |b| && b[j] == p.privateIpAddress;
    assert assoc[i] == p.privateIpAddress && assoc[|a| + j] == p.privateIpAddress;
  }
}
