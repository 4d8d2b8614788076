/**
 * The AWSService of aws.js: it loads a snapshot of its own instance once (instance id,
 * instance description, elastic IPs indexed by private address), tops each attached
 * interface up to the per-interface address limit, gives an elastic IP to every private
 * address lacking one, creates and attaches interfaces up to the interface limit, and
 * releases (optionally replacing) the elastic IP of a private address.
 */
module Aws {
  import opened Optional
  import opened Ec2
  import opened Plans
  import Interfaces

  datatype Error =
    | InstanceNotFound   // describeInstances returned no instance
    | AddressNotBound    // no described elastic IP for the private address

  datatype Outcome = Done | PrimaryProtected | Failed(error: Error)

  /** `i` is the last record that describes its private address. */
  ghost predicate IsLastFor(records: seq<AddressRecord>, i: int)
    requires 0 <= i < |records|
  {
    forall j :: i < j < |records| ==> records[j].privateIpAddress != records[i].privateIpAddress
  }

  /**
   * `index` is the describeAddresses dictionary of `records`: keyed by exactly the
   * private addresses the records describe, each mapped to the last record for it.
   */
  ghost predicate IsAddressIndex(records: seq<AddressRecord>, index: map<string, AddressRecord>)
  {
    && (forall ip :: ip in index <==> exists i :: 0 <= i < |records| && records[i].privateIpAddress == ip)
    && (forall i :: 0 <= i < |records| && IsLastFor(records, i) ==>
          records[i].privateIpAddress in index && index[records[i].privateIpAddress] == records[i])
  }

  /** The reduce of describeAddresses: later records overwrite earlier ones with the same key. */
  method IndexAddresses(records: seq<AddressRecord>) returns (index: map<string, AddressRecord>)
    ensures IsAddressIndex(records, index)
  {
    index := map[];
    for n := 0 to |records|
      invariant IsAddressIndex(records[..n], index)
    {
      IndexStep(records[..n], records[n], index);
      assert records[..n + 1] == records[..n] + [records[n]];
      index := index[records[n].privateIpAddress := records[n]];
    }
    assert records[..|records|] == records;
  }

  /** One step of the reduce: adding a record to an index overwrites its key. */
  lemma IndexStep(records: seq<AddressRecord>, a: AddressRecord, index: map<string, AddressRecord>)
    requires IsAddressIndex(records, index)
    ensures IsAddressIndex(records + [a], index[a.privateIpAddress := a])
  {
    var next := records + [a];
    var updated := index[a.privateIpAddress := a];
    forall ip
      ensures ip in updated <==> exists i :: 0 <= i < |next| && next[i].privateIpAddress == ip
    {
      if ip in index {
        var i :| 0 <= i < |records| && records[i].privateIpAddress == ip;
        assert next[i] == records[i];
      }
      if ip == a.privateIpAddress {
        assert next[|records|] == a;
      }
      if i :| 0 <= i < |next| && next[i].privateIpAddress == ip {
        if i < |records| {
          assert records[i] == next[i];
        }
      }
    }
    forall i | 0 <= i < |next| && IsLastFor(next, i)
      ensures next[i].privateIpAddress in updated && updated[next[i].privateIpAddress] == next[i]
    {
      if i < |records| {
        assert next[i] == records[i];
        assert IsLastFor(records, i) by {
          forall j | i < j < |records|
            ensures records[j].privateIpAddress != records[i].privateIpAddress
          {
            assert next[j] == records[j];
          }
        }
        assert next[|records|] == a;
      }
    }
  }

  /** The last record for the private address of record `i` exists. */
  lemma LastFor(records: seq<AddressRecord>, i: int) returns (j: int)
    requires 0 <= i < |records|
    ensures i <= j < |records| && records[j].privateIpAddress == records[i].privateIpAddress
    ensures IsLastFor(records, j)
  {
    j := |records| - 1;
    while records[j].privateIpAddress != records[i].privateIpAddress
      invariant i <= j < |records|
      invariant forall m :: j < m < |records| ==> records[m].privateIpAddress != records[i].privateIpAddress
      decreases j
    {
      j := j - 1;
    }
  }

  /** The records determine their index: there is only one. */
  lemma AddressIndexUnique(records: seq<AddressRecord>, m1: map<string, AddressRecord>, m2: map<string, AddressRecord>)
    requires IsAddressIndex(records, m1) && IsAddressIndex(records, m2)
    ensures m1 == m2
  {
    forall ip | ip in m1
      ensures ip in m2 && m1[ip] == m2[ip]
    {
      var i :| 0 <= i < |records| && records[i].privateIpAddress == ip;
      var j := LastFor(records, i);
    }
    assert m1.Keys == m2.Keys;
  }

  /** Every entry of the index is a record for its own key, taken from the records. */
  lemma AddressIndexEntries(records: seq<AddressRecord>, index: map<string, AddressRecord>, ip: string)
    requires IsAddressIndex(records, index)
    requires ip in index
    ensures index[ip].privateIpAddress == ip && index[ip] in records
  {
    var i :| 0 <= i < |records| && records[i].privateIpAddress == ip;
    var j := LastFor(records, i);
  }

  /**
   * The elastic IP that removeAddress disassociates and releases for `ip` is the one of the
   * last described record for `ip`: when several records share a private address, the
   * later one wins.
   */
  lemma RemovalUsesLastRecord(records: seq<AddressRecord>, index: map<string, AddressRecord>, ip: string,
                              cloud: Cloud, reattach: bool, t: nat)
    requires IsAddressIndex(records, index)
    requires ip in index
    ensures exists i :: (0 <= i < |records| && records[i].privateIpAddress == ip && IsLastFor(records, i)
      && ReleasePlan(cloud, index[ip], ip, reattach, t)[0] == DisassociateAddress(records[i].associationId)
      && ReleasePlan(cloud, index[ip], ip, reattach, t)[1] == ReleaseAddress(records[i].allocationId))
  {
    var i :| 0 <= i < |records| && records[i].privateIpAddress == ip;
    var j := LastFor(records, i);
    ReleasePlanOrder(cloud, index[ip], ip, reattach, t);
  }

  /**
   * Bookkeeping of the "remaining plan" loop invariants: once `step` is issued after
   * `before`, what remains is `later`.
   */
  lemma RemainingPlanStep(calls: seq<Call>, before: seq<Call>, step: seq<Call>, later: seq<Call>,
                          whole: seq<Call>, rest: seq<Call>)
    requires calls == before + step
    requires whole == step + later && rest == later
    ensures calls + rest == before + whole
  {
  }

  class AwsService {
    const ec2: Client
    /** The host's non-internal IPv4 addresses; the first is the protected primary. */
    const interfaces: seq<string>
    /** InstanceENIsAvailable and InstanceIPsAvailable, by instance type. */
    const eniLimits: map<string, int>
    const ipLimits: map<string, int>

    var hasInitialized: bool
    var instanceId: Option<string>
    var instance: Option<Instance>
    var addresses: map<string, AddressRecord>

    ghost predicate Valid()
      reads this
    {
      hasInitialized ==> instanceId.Some? && instance.Some?
    }

    constructor (ec2: Client, localNics: seq<seq<Interfaces.NicEntry>>, eniLimits: map<string, int>, ipLimits: map<string, int>)
      ensures Valid() && !hasInitialized
      ensures this.ec2 == ec2 && interfaces == Interfaces.LocalAddresses(localNics)
      ensures this.eniLimits == eniLimits && this.ipLimits == ipLimits
      ensures instanceId == None && instance == None && addresses == map[]
    {
      this.ec2 := ec2;
      interfaces := Interfaces.LocalAddresses(localNics);
      this.eniLimits := eniLimits;
      this.ipLimits := ipLimits;
      hasInitialized := false;
      instanceId := None;
      instance := None;
      addresses := map[];
    }

    /** The per-interface address limit of the instance's type, if the table has one. */
    function IpLimit(inst: Instance): Option<int>
      reads this
    {
      Lookup(ipLimits, inst.instanceType)
    }

    function EniLimit(inst: Instance): Option<int>
      reads this
    {
      Lookup(eniLimits, inst.instanceType)
    }

    /**
     * Loads the snapshot once. A call on an initialised service changes nothing and
     * issues nothing.
     */
    method Init() returns (r: Outcome)
      requires Valid()
      modifies this, ec2
      ensures Valid()
      ensures r == Done <==> hasInitialized
      ensures old(hasInitialized) ==> r == Done && unchanged(this) && ec2.calls == old(ec2.calls)
      ensures !old(hasInitialized) ==>
        && instanceId == Some(ec2.cloud.instanceIdentity)
        && ec2.calls == old(ec2.calls) + InitPlan(ec2.cloud, |old(ec2.calls)|)
      ensures !old(hasInitialized) ==>
        var found := ec2.cloud.describeInstances(ec2.cloud.instanceIdentity, |old(ec2.calls)|);
        if found.None? then
          r == Failed(InstanceNotFound) && instance == old(instance) && addresses == old(addresses)
        else
          && r == Done
          && instance == found
          && IsAddressIndex(ec2.cloud.describeAddresses(ec2.cloud.instanceIdentity, |old(ec2.calls)| + 1), addresses)
    {
      if hasInitialized {
        return Done;
      }
      // getInstancId: the instance-id metadata
      instanceId := Some(ec2.cloud.instanceIdentity);
      // getInstance: Reservations[0].Instances[0]; None stands for an empty Reservations list
      var found := ec2.DescribeInstances(instanceId.value);
      if found.None? {
        return Failed(InstanceNotFound);
      }
      instance := found;
      DescribeAddresses();
      hasInitialized := true;
      r := Done;
    }

    /** Indexes the instance's elastic IPs by private address. */
    method DescribeAddresses()
      requires instanceId.Some?
      modifies this`addresses, ec2
      ensures ec2.calls == old(ec2.calls) + [Call.DescribeAddresses(instanceId.value)]
      ensures IsAddressIndex(ec2.cloud.describeAddresses(instanceId.value, |old(ec2.calls)|), addresses)
    {
      var records := ec2.DescribeAddresses(instanceId.value);
      addresses := IndexAddresses(records);
    }

    /** Allocates and associates an elastic IP for each private address that has none. */
    method AllocateAddressToInterface(nic: NetworkInterface)
      modifies ec2
      ensures ec2.calls == old(ec2.calls)
        + AllocatePlan(ec2.cloud, nic.networkInterfaceId, nic.privateIpAddresses, |old(ec2.calls)|)
    {
      var ips := nic.privateIpAddresses;
      for i := 0 to |ips|
        invariant ec2.calls + AllocatePlan(ec2.cloud, nic.networkInterfaceId, ips[i..], |ec2.calls|)
               == old(ec2.calls) + AllocatePlan(ec2.cloud, nic.networkInterfaceId, ips, |old(ec2.calls)|)
      {
        assert ips[i..] == [ips[i]] + ips[i + 1..];
        if ips[i].association.None? {
          var allocationId := ec2.AllocateAddress(Vpc);
          ec2.AssociateAddress(nic.networkInterfaceId, allocationId, ips[i].privateIpAddress);
        }
      }
      assert ips[|ips|..] == [];
    }

    /**
     * Assigns `limit` secondary addresses, re-describes the interface and allocates for
     * its unassociated addresses. The source hands element [0] of the describe response
     * to the allocation step; the refreshed interface it evidently means is modelled.
     */
    method AssignAndAllocatePrivateIpAddress(nic: NetworkInterface, limit: int)
      modifies ec2
      ensures ec2.calls == old(ec2.calls) + AssignPlan(ec2.cloud, nic.networkInterfaceId, limit, |old(ec2.calls)|)
    {
      ec2.AssignPrivateIpAddresses(nic.networkInterfaceId, limit);
      var refreshed := ec2.DescribeNetworkInterfaces(nic.networkInterfaceId);
      AllocateAddressToInterface(refreshed);
    }

    /** Creates an interface with `limit - 1` secondary addresses, attaches it, allocates for it. */
    method CreateEni(deviceIndex: int, limit: Option<int>)
      requires instance.Some?
      modifies ec2
      ensures ec2.calls == old(ec2.calls)
        + CreateEniPlan(ec2.cloud, instance.value, deviceIndex, limit, |old(ec2.calls)|)
    {
      var inst := instance.value;
      var created := ec2.CreateNetworkInterface(inst.subnetId, SecondaryCount(limit), GroupIds(inst));
      ec2.AttachNetworkInterface(deviceIndex, inst.instanceId, created.networkInterfaceId);
      AllocateAddressToInterface(created);
    }

    /**
     * Initialises if needed, then reconciles the snapshot against the limits of its
     * instance type. The snapshot is never refreshed, so the reconciliation a second call
     * performs is computed from the same snapshot as the first.
     */
    method CheckIfInstanceHasValidInterfaces() returns (r: Outcome)
      requires Valid()
      modifies this, ec2
      ensures Valid()
      ensures r == Done <==> hasInitialized
      ensures old(hasInitialized) ==> unchanged(this)
      ensures !old(hasInitialized) ==>
        var found := ec2.cloud.describeInstances(ec2.cloud.instanceIdentity, |old(ec2.calls)|);
        && instanceId == Some(ec2.cloud.instanceIdentity)
        && (r == Done <==> found.Some?)
        && (found.None? ==> instance == old(instance) && addresses == old(addresses))
        && (found.Some? ==>
              && instance == found
              && IsAddressIndex(ec2.cloud.describeAddresses(ec2.cloud.instanceIdentity, |old(ec2.calls)| + 1), addresses))
      ensures var before := if old(hasInitialized) then [] else InitPlan(ec2.cloud, |old(ec2.calls)|);
        ec2.calls == old(ec2.calls) + before
          + if hasInitialized
            then ReconcilePlan(ec2.cloud, instance.value, EniLimit(instance.value), IpLimit(instance.value),
                               |old(ec2.calls)| + |before|)
            else []
    {
      r := Init();
      if r == Done {
        Reconcile();
      }
    }

    /** The body of checkIfInstanceHasValidInterfaces after init: the snapshot against its limits. */
    method Reconcile()
      requires Valid() && hasInitialized
      modifies ec2
      ensures ec2.calls == old(ec2.calls)
        + ReconcilePlan(ec2.cloud, instance.value, EniLimit(instance.value), IpLimit(instance.value), |old(ec2.calls)|)
    {
      var inst := instance.value;
      var eniLimit := EniLimit(inst);
      var ipLimit := IpLimit(inst);
      var currentInterfaces := inst.networkInterfaces;
      ghost var t := |ec2.calls|;
      ghost var fix := NicsPlan(ec2.cloud, currentInterfaces, ipLimit, 0, t);
      TopUpInterfaces(currentInterfaces, ipLimit);
      ghost var fixed := ec2.calls;
      assert fixed == old(ec2.calls) + fix;
      if eniLimit.Some? && eniLimit.value > |currentInterfaces| {
        ghost var more := NewEnisPlan(ec2.cloud, inst, |currentInterfaces|, eniLimit.value, ipLimit, t + |fix|);
        CreateMissingEnis(|currentInterfaces|, eniLimit.value, ipLimit);
        assert ec2.calls == fixed + more;
        RemainingPlanStep(fixed, old(ec2.calls), fix, more,
                          ReconcilePlan(ec2.cloud, inst, eniLimit, ipLimit, t), more);
      }
    }

    /**
     * The loop over the snapshot's interfaces: assign up to the limit when below it, then
     * allocate for the snapshot's copy of the interface if it had an unassociated address.
     */
    method TopUpInterfaces(currentInterfaces: seq<NetworkInterface>, ipLimit: Option<int>)
      modifies ec2
      ensures ec2.calls == old(ec2.calls) + NicsPlan(ec2.cloud, currentInterfaces, ipLimit, 0, |old(ec2.calls)|)
    {
      hide NicPlan;
      for i := 0 to |currentInterfaces|
        invariant ec2.calls + NicsPlan(ec2.cloud, currentInterfaces, ipLimit, i, |ec2.calls|)
               == old(ec2.calls) + NicsPlan(ec2.cloud, currentInterfaces, ipLimit, 0, |old(ec2.calls)|)
      {
        ghost var before := ec2.calls;
        ghost var step := NicPlan(ec2.cloud, currentInterfaces[i], ipLimit, |before|);
        ghost var later := NicsPlan(ec2.cloud, currentInterfaces, ipLimit, i + 1, |before| + |step|);
        TopUpInterface(currentInterfaces[i], ipLimit);
        RemainingPlanStep(ec2.calls, before, step, later,
                          NicsPlan(ec2.cloud, currentInterfaces, ipLimit, i, |before|),
                          NicsPlan(ec2.cloud, currentInterfaces, ipLimit, i + 1, |ec2.calls|));
      }
    }

    /** One iteration of the loop over the snapshot's interfaces. */
    method TopUpInterface(nic: NetworkInterface, ipLimit: Option<int>)
      modifies ec2
      ensures ec2.calls == old(ec2.calls) + NicPlan(ec2.cloud, nic, ipLimit, |old(ec2.calls)|)
    {
      hide AllocatePlan, AssignPlan;
      ghost var start := ec2.calls;
      var attachedIps := |nic.privateIpAddresses|;
      if ipLimit.Some? && attachedIps < ipLimit.value {
        AssignAndAllocatePrivateIpAddress(nic, ipLimit.value - attachedIps);
      }
      ghost var assign := TopUpPlan(ec2.cloud, nic, ipLimit, |start|);
      assert ec2.calls == start + assign;
      // re-filters the snapshot's copy of the interface, not the refreshed one
      var noAssociatedIpAddresses := Unassociated(nic.privateIpAddresses);
      if |noAssociatedIpAddresses| > 0 {
        AllocateAddressToInterface(nic);
      }
      ghost var stale := StalePlan(ec2.cloud, nic, |start| + |assign|);
      assert ec2.calls == start + assign + stale;
    }

    /** The device-index loop: one createENI per index from `firstIdx` up to `eniLimit`. */
    method CreateMissingEnis(firstIdx: int, eniLimit: int, ipLimit: Option<int>)
      requires instance.Some?
      requires firstIdx <= eniLimit
      modifies ec2
      ensures ec2.calls == old(ec2.calls)
        + NewEnisPlan(ec2.cloud, instance.value, firstIdx, eniLimit, ipLimit, |old(ec2.calls)|)
    {
      hide CreateEniPlan, AllocatePlan, GroupIds;
      var deviceIdx := firstIdx;
      ghost var inst := instance.value;
      while deviceIdx != eniLimit
        invariant instance == Some(inst)
        invariant firstIdx <= deviceIdx <= eniLimit
        invariant ec2.calls + NewEnisPlan(ec2.cloud, inst, deviceIdx, eniLimit, ipLimit, |ec2.calls|)
               == old(ec2.calls) + NewEnisPlan(ec2.cloud, inst, firstIdx, eniLimit, ipLimit, |old(ec2.calls)|)
        decreases eniLimit - deviceIdx
      {
        ghost var before := ec2.calls;
        ghost var step := CreateEniPlan(ec2.cloud, inst, deviceIdx, ipLimit, |before|);
        ghost var later := NewEnisPlan(ec2.cloud, inst, deviceIdx + 1, eniLimit, ipLimit, |before| + |step|);
        assert NewEnisPlan(ec2.cloud, inst, deviceIdx, eniLimit, ipLimit, |before|) == step + later;
        deviceIdx := deviceIdx + 1;
        // the source calls this.createEni, which is not defined; createENI is meant
        CreateEni(deviceIdx - 1, ipLimit);
        assert ec2.calls == before + step;
        assert NewEnisPlan(ec2.cloud, inst, deviceIdx, eniLimit, ipLimit, |ec2.calls|) == later;
        RemainingPlanStep(ec2.calls, before, step, later,
                          NewEnisPlan(ec2.cloud, inst, deviceIdx - 1, eniLimit, ipLimit, |before|),
                          NewEnisPlan(ec2.cloud, inst, deviceIdx, eniLimit, ipLimit, |ec2.calls|));
      }
    }

    /** The address `interfaces[0]`, which removal refuses to touch: always a local address. */
    predicate IsPrimary(privateIp: string): (b: bool)
      ensures b ==> privateIp in interfaces
    {
      |interfaces| > 0 && interfaces[0] == privateIp
    }

    method DisassociateAddress(privateIp: string) returns (r: Outcome)
      modifies ec2
      ensures privateIp in addresses ==>
        r == Done && ec2.calls == old(ec2.calls) + [Call.DisassociateAddress(addresses[privateIp].associationId)]
      ensures privateIp !in addresses ==> r == Failed(AddressNotBound) && ec2.calls == old(ec2.calls)
    {
      if privateIp !in addresses {
        return Failed(AddressNotBound);
      }
      var address := addresses[privateIp];
      ec2.DisassociateAddress(address.associationId);
      r := Done;
    }

    method ReleaseAddress(privateIp: string) returns (r: Outcome)
      modifies ec2
      ensures privateIp in addresses ==>
        r == Done && ec2.calls == old(ec2.calls) + [Call.ReleaseAddress(addresses[privateIp].allocationId)]
      ensures privateIp !in addresses ==> r == Failed(AddressNotBound) && ec2.calls == old(ec2.calls)
    {
      if privateIp !in addresses {
        return Failed(AddressNotBound);
      }
      var address := addresses[privateIp];
      ec2.ReleaseAddress(address.allocationId);
      r := Done;
    }

    /**
     * Releases the elastic IP of `privateIp`: nothing for the primary address; otherwise
     * disassociate then release, using the handles of its indexed record, and when
     * `reattach`, allocate a new elastic IP and associate it with the same private
     * address on the same interface. The index itself is left as it was.
     */
    method RemoveAddress(privateIp: string, reattach: bool) returns (r: Outcome)
      modifies ec2
      ensures IsPrimary(privateIp) ==> r == PrimaryProtected && ec2.calls == old(ec2.calls)
      ensures !IsPrimary(privateIp) && privateIp !in addresses ==>
        r == Failed(AddressNotBound) && ec2.calls == old(ec2.calls)
      ensures !IsPrimary(privateIp) && privateIp in addresses ==>
        r == Done
        && ec2.calls == old(ec2.calls) + ReleasePlan(ec2.cloud, addresses[privateIp], privateIp, reattach, |old(ec2.calls)|)
    {
      if IsPrimary(privateIp) {
        return PrimaryProtected;
      }
      r := DisassociateAddress(privateIp);
      if r != Done {
        return;
      }
      r := ReleaseAddress(privateIp);
      if reattach {
        var interfaceWithAddress := ec2.DescribeNetworkInterfaces(addresses[privateIp].networkInterfaceId);
        var allocationId := ec2.AllocateAddress(Vpc);
        // the source passes the whole describe response; its interface is meant
        ec2.AssociateAddress(interfaceWithAddress.networkInterfaceId, allocationId, privateIp);
      }
    }
  }
}
