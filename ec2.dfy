module Optional {
  datatype Option<T> = None | Some(value: T)
}

/**
 * The EC2 control plane as the service sees it. Every remote call is appended to the
 * client's call log; what the control plane answers is given by a `Cloud` value, as a
 * function of the request and of the call's position in the log (so two calls made at
 * different times may get different answers, as a live control plane does).
 */
module Ec2 {
  import opened Optional

  /** A private address of a network interface; `association` is its elastic IP, if any. */
  datatype PrivateIp = PrivateIp(privateIpAddress: string, association: Option<string>)

  datatype NetworkInterface = NetworkInterface(networkInterfaceId: string, privateIpAddresses: seq<PrivateIp>)

  datatype SecurityGroup = SecurityGroup(groupId: string, groupName: string)

  /** The fields of a described instance that the service reads. */
  datatype Instance = Instance(
    instanceId: string,
    instanceType: string,
    subnetId: string,
    securityGroups: seq<SecurityGroup>,
    networkInterfaces: seq<NetworkInterface>)

  /** One entry of a describeAddresses response. */
  datatype AddressRecord = AddressRecord(
    privateIpAddress: string,
    allocationId: string,
    associationId: string,
    networkInterfaceId: string,
    publicIp: string)

  /** A remote call, with the request parameters the service sends. */
  datatype Call =
    | DescribeInstances(instanceId: string)
    | DescribeAddresses(instanceId: string)
    | DescribeNetworkInterfaces(networkInterfaceId: string)
      // `secondaryCount` is None when the count is not a number (an undefined limit minus 1)
    | CreateNetworkInterface(subnetId: string, secondaryCount: Option<int>, groups: seq<string>)
    | AttachNetworkInterface(deviceIndex: int, instanceId: string, networkInterfaceId: string)
    | AssignPrivateIpAddresses(networkInterfaceId: string, secondaryPrivateIpAddressCount: int)
    | AllocateAddress(domain: string)
    | AssociateAddress(networkInterfaceId: string, allocationId: string, privateIpAddress: string)
    | DisassociateAddress(associationId: string)
    | ReleaseAddress(allocationId: string)

  /**
   * The control plane's answers. The `nat` argument is the position in the call log of
   * the call being answered.
   */
  datatype Cloud = Cloud(
    // the instance-id the metadata service reports
    instanceIdentity: string,
    // Reservations[0].Instances[0] of the response; None stands for an empty Reservations list
    describeInstances: (string, nat) -> Option<Instance>,
    describeAddresses: (string, nat) -> seq<AddressRecord>,
    // the private addresses the described interface currently has
    describeNetworkInterface: (string, nat) -> seq<PrivateIp>,
    createNetworkInterface: nat -> NetworkInterface,
    // the AllocationId of a newly allocated elastic IP
    allocateAddress: nat -> string)

  /** The SDK client: issues calls, records them, returns the control plane's answers. */
  class Client {
    const cloud: Cloud
    var calls: seq<Call>

    constructor (cloud: Cloud)
      ensures this.cloud == cloud && calls == []
    {
      this.cloud := cloud;
      calls := [];
    }

    method DescribeInstances(instanceId: string) returns (instance: Option<Instance>)
      modifies this
      ensures calls == old(calls) + [Call.DescribeInstances(instanceId)]
      ensures instance == cloud.describeInstances(instanceId, |old(calls)|)
    {
      instance := cloud.describeInstances(instanceId, |calls|);
      calls := calls + [Call.DescribeInstances(instanceId)];
    }

    method DescribeAddresses(instanceId: string) returns (records: seq<AddressRecord>)
      modifies this
      ensures calls == old(calls) + [Call.DescribeAddresses(instanceId)]
      ensures records == cloud.describeAddresses(instanceId, |old(calls)|)
    {
      records := cloud.describeAddresses(instanceId, |calls|);
      calls := calls + [Call.DescribeAddresses(instanceId)];
    }

    method DescribeNetworkInterfaces(networkInterfaceId: string) returns (nic: NetworkInterface)
      modifies this
      ensures calls == old(calls) + [Call.DescribeNetworkInterfaces(networkInterfaceId)]
      ensures nic == NetworkInterface(networkInterfaceId,
                                      cloud.describeNetworkInterface(networkInterfaceId, |old(calls)|))
    {
      nic := NetworkInterface(networkInterfaceId, cloud.describeNetworkInterface(networkInterfaceId, |calls|));
      calls := calls + [Call.DescribeNetworkInterfaces(networkInterfaceId)];
    }

    method CreateNetworkInterface(subnetId: string, secondaryCount: Option<int>, groups: seq<string>)
      returns (nic: NetworkInterface)
      modifies this
      ensures calls == old(calls) + [Call.CreateNetworkInterface(subnetId, secondaryCount, groups)]
      ensures nic == cloud.createNetworkInterface(|old(calls)|)
    {
      nic := cloud.createNetworkInterface(|calls|);
      calls := calls + [Call.CreateNetworkInterface(subnetId, secondaryCount, groups)];
    }

    method AttachNetworkInterface(deviceIndex: int, instanceId: string, networkInterfaceId: string)
      modifies this
      ensures calls == old(calls) + [Call.AttachNetworkInterface(deviceIndex, instanceId, networkInterfaceId)]
    {
      calls := calls + [Call.AttachNetworkInterface(deviceIndex, instanceId, networkInterfaceId)];
    }

    method AssignPrivateIpAddresses(networkInterfaceId: string, count: int)
      modifies this
      ensures calls == old(calls) + [Call.AssignPrivateIpAddresses(networkInterfaceId, count)]
    {
      calls := calls + [Call.AssignPrivateIpAddresses(networkInterfaceId, count)];
    }

    method AllocateAddress(domain: string) returns (allocationId: string)
      modifies this
      ensures calls == old(calls) + [Call.AllocateAddress(domain)]
      ensures allocationId == cloud.allocateAddress(|old(calls)|)
    {
      allocationId := cloud.allocateAddress(|calls|);
      calls := calls + [Call.AllocateAddress(domain)];
    }

    method AssociateAddress(networkInterfaceId: string, allocationId: string, privateIpAddress: string)
      modifies this
      ensures calls == old(calls) + [Call.AssociateAddress(networkInterfaceId, allocationId, privateIpAddress)]
    {
      calls := calls + [Call.AssociateAddress(networkInterfaceId, allocationId, privateIpAddress)];
    }

    method DisassociateAddress(associationId: string)
      modifies this
      ensures calls == old(calls) + [Call.DisassociateAddress(associationId)]
    {
      calls := calls + [Call.DisassociateAddress(associationId)];
    }

    method ReleaseAddress(allocationId: string)
      modifies this
      ensures calls == old(calls) + [Call.ReleaseAddress(allocationId)]
    {
      calls := calls + [Call.ReleaseAddress(allocationId)];
    }
  }
}
