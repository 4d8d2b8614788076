# aws-cni: address and interface reconciliation, modelled in Dafny

This project models the core of aws-cni, which manages the network interfaces (ENIs) and
elastic IPs of the EC2 instance it runs on.

- **`AWSService` (aws.js).** It loads a snapshot of its own instance once: the instance
  id, the instance description, and the elastic IPs indexed by private address. It then
  reconciles that snapshot against the per-instance-type limits:
  - it tops every attached interface up to the per-interface address limit;
  - it gives an elastic IP to every private address that lacks one;
  - it creates and attaches new interfaces at the next device indices, up to the
    interface limit.

  It can also remove the elastic IP of a private address, and optionally replace it,
  unless that address is the host's primary address.
- **The local identity resolver (interfaces.js).** It flattens the host's interface list,
  keeps the non-internal entries whose family is "ipv4" in any letter case, and takes
  their addresses. The first of these is the protected primary.

Files:

- `interfaces.dfy` (module `Interfaces`) is the resolver. It is written as pure functions,
  with lemmas for soundness, completeness, order and the length bound.
- `ec2.dfy` (modules `Optional` and `Ec2`) describes the EC2 control plane as the service
  sees it.
  - `Ec2.Client` is a class whose `calls` field is the log of every remote call issued.
  - What the control plane answers comes from a `Cloud` value. Each answer is a function of
    the request and of the call's position in the log.
- `plans.dfy` (module `Plans`) gives, for each operation, the exact call sequence it issues
  from a given state. These sequences are its "plan". The module also proves what the
  plans promise:
  - counts and orderings;
  - device-index ranges;
  - the request sizes;
  - the conditions under which nothing is issued;
  - the double association caused by the stale re-filter.
- `aws.dfy` (module `Aws`) holds the `AwsService` class and the `describeAddresses` index.
  - The class keeps the source's mutable fields (`hasInitialized`, `instanceId`,
    `instance`, `addresses`).
  - Each of its methods issues its calls through the client, in the source's loops. Its
    contract states the new call log as the old log followed by the operation's plan.

## Model

| member | source | states |
|---|---|---|
| Interfaces.LocalAddresses | interfaces.js:4-10 | the flatten, filter and map pipeline that builds the exported list; it never yields more addresses than flattened entries |
| Interfaces.Positions | interfaces.js:9 | the positions of the entries the filter accepts: each accepted, strictly increasing, none missing |
| Interfaces.IPv4FamilySpellings | interfaces.js:9 | the family test accepts exactly the four letters i, p, v, 4, with i, p and v in either case |
| Interfaces.KeepAtPositions | interfaces.js:9 | the filter returns exactly the accepted entries, in their original order |
| Interfaces.LocalAddressesAtPositions | interfaces.js:4-10 | the k-th exported address is the address of the k-th accepted entry of the flattened list |
| Interfaces.FlattenMembership | interfaces.js:5-8 | an entry is in the flattened list iff it is in some interface's list |
| Interfaces.FlattenConcat | interfaces.js:5-8 | flattening two runs of interfaces is the concatenation of their flattenings |
| Interfaces.KeepConcat | interfaces.js:9 | the filter distributes over concatenation |
| Interfaces.LocalAddressSound | interfaces.js:9-10 | every exported address is the address of a non-internal IPv4 entry of some interface |
| Interfaces.LocalAddressComplete | interfaces.js:4-10 | every non-internal IPv4 entry of every interface contributes its address |
| Interfaces.LocalAddressesConcat | interfaces.js:4-10 | order by interface: the addresses of `a + b` are those of `a` followed by those of `b` |
| Interfaces.FlattenLength | interfaces.js:5-8 | the flattened list has as many entries as all interfaces together |
| Interfaces.KeepLength | interfaces.js:9 | the filter never lengthens its input |
| Interfaces.LocalAddressesBound | interfaces.js:5-10 | there are at most as many addresses as entries over all interfaces |
| Interfaces.FirstAddressIsFirstQualifying | interfaces.js:4-10 | the first address, the one protected from removal, belongs to the first non-internal IPv4 entry; no earlier entry qualifies |
| Ec2.Client.DescribeInstances | aws.js:200-205 | logs one describeInstances call for the id; returns the control plane's instance, or none |
| Ec2.Client.DescribeAddresses | aws.js:189 | logs one describeAddresses call filtered by the instance id; returns the described records |
| Ec2.Client.DescribeNetworkInterfaces | aws.js:119 | logs one describeNetworkInterfaces call for the interface id; returns that interface's current addresses |
| Ec2.Client.CreateNetworkInterface | aws.js:53 | logs one createNetworkInterface call with the subnet, secondary count and groups; returns the new interface |
| Ec2.Client.AttachNetworkInterface | aws.js:60 | logs one attachNetworkInterface call with device index, instance id and interface id |
| Ec2.Client.AssignPrivateIpAddresses | aws.js:114 | logs one assignPrivateIpAddresses call with the interface id and the count |
| Ec2.Client.AllocateAddress | aws.js:143-151 | logs one allocateAddress call in the "vpc" domain; returns the new allocation id |
| Ec2.Client.AssociateAddress | aws.js:162-171 | logs one associateAddress call with interface id, allocation id and private address |
| Ec2.Client.DisassociateAddress | aws.js:263 | logs one disassociateAddress call with the association id |
| Ec2.Client.ReleaseAddress | aws.js:280 | logs one releaseAddress call with the allocation id |
| Plans.RangeElements | aws.js:91-98 | the k-th device index of the reference range `Range(lo, hi)` is `lo + k` |
| Plans.RepeatElements | aws.js:94-97 | every create request of the reference `Repeat(c, n)` is `c` |
| Plans.ExpectedAssignsBounds | aws.js:74-79 | every expected assign request asks for a positive count; there are no more requests than interfaces examined |
| Plans.AllocatePlanLength | aws.js:128-136 | allocateAddressToInterface issues exactly two calls per address without an elastic IP |
| Plans.AllocatePlanAt | aws.js:128-136 | for the k-th unassociated address: an allocate, then an associate of that allocation to that address on that interface |
| Plans.AllocatePlanShape | aws.js:128-136 | the whole plan is those allocate/associate pairs, in list order, and nothing for associated addresses |
| Plans.AllocatePlanCalls | aws.js:128-136 | allocateAddressToInterface issues only allocate and associate calls |
| Plans.AllocatePlanAssociates | aws.js:128-136 | the addresses it associates are exactly the unassociated ones, in order |
| Plans.AssignPlanAssigns | aws.js:108-114 | assignAndAllocatePrivateIpAddress sends exactly one assign request, for the interface and the count asked |
| Plans.AssignPlanAssociates | aws.js:115-120 | it then associates exactly the addresses that the re-described interface shows without an elastic IP |
| Plans.AssignPlanCalls | aws.js:108-121 | it only assigns, describes, allocates and associates: it creates and attaches nothing |
| Plans.NicPlanAssigns | aws.js:75-79 | one loop iteration sends one assign request asking for the limit minus the attached count when below the limit, otherwise none |
| Plans.NicPlanAssociates | aws.js:74-89 | one loop iteration associates the refreshed interface's unassociated addresses (when assigned), then the stale snapshot's |
| Plans.StalePlanAssociates | aws.js:81-88 | the second pass associates the snapshot copy's unassociated addresses |
| Plans.NicPlanCalls | aws.js:74-89 | one loop iteration only assigns, describes, allocates and associates |
| Plans.NicsPlanCalls | aws.js:74-89 | the loop over existing interfaces creates and attaches nothing |
| Plans.NicsPlanAssigns | aws.js:74-79 | the loop's assign requests are the reference list: one per interface below the limit, in order, asking for the difference |
| Plans.CreateEniPlanSelects | aws.js:43-61 | createENI creates one interface with the limit-minus-one secondary count, attaches it once at the given index, assigns nothing |
| Plans.CreateEniPlanOrder | aws.js:43-61 | createENI orders create, then attach of the interface create returned, then only allocations for that interface's unassociated addresses |
| Plans.NewEnisAttaches | aws.js:94-98 | the device-index loop attaches at exactly deviceIdx, ..., eniLimit - 1, increasing |
| Plans.NewEnisCreates | aws.js:94-98 | the device-index loop creates one interface per index, each with the instance's subnet and groups |
| Plans.NewEnisAssignNothing | aws.js:94-98 | the device-index loop sends no assign request |
| Plans.ReconcileDeviceIndices | aws.js:91-99 | new interfaces are attached at exactly N, ..., eniLimit - 1 when eniLimit exceeds the N attached ones, each created once; otherwise none is created or attached |
| Plans.ReconcileAssigns | aws.js:70-79 | the assign requests of the whole reconciliation are exactly the reference list over the existing interfaces, and none for new interfaces |
| Plans.NicPlanEmpty | aws.js:75-88 | one iteration issues nothing iff the interface is at or above the limit and all its addresses have an elastic IP |
| Plans.NicsPlanEmpty | aws.js:74-89 | the loop issues nothing iff every remaining interface is in that state |
| Plans.ReconcileQuietIffConverged | aws.js:68-100 | the reconciliation issues no call iff every interface is full and fully associated and the interface limit does not exceed the attached count |
| Plans.Unassociated | aws.js:82-84 | the filter of private addresses without an association, in list order; it never lengthens its input |
| Plans.UnassociatedMembers | aws.js:82-84 | the filter keeps exactly the private addresses without an association |
| Plans.AddressOfMember | aws.js:82-87 | an unassociated address of an interface is among the addresses its allocation pass associates |
| Plans.StaleRefilterAssociatesTwice | aws.js:76-88 | an address unassociated in the snapshot and still in the refreshed interface is associated twice in one iteration |
| Plans.ReleasePlanOrder | aws.js:228-239 | removal disassociates the association id, then releases the allocation id; with reattach, exactly one allocate then one associate of it to the same address |
| Aws.IndexAddresses | aws.js:189-193 | the reduce builds the index: keys are exactly the described private addresses, each mapped to its last record |
| Aws.IndexStep | aws.js:190-192 | adding a record to an index overwrites its key and keeps the index property |
| Aws.LastFor | aws.js:190-193 | every described private address has a last record |
| Aws.AddressIndexUnique | aws.js:190-193 | the records determine the index: two indexes of the same records are equal |
| Aws.AddressIndexEntries | aws.js:190-193 | every index entry is a described record for its own key |
| Aws.RemovalUsesLastRecord | aws.js:257-276 | the handles removal disassociates and releases are those of the last described record for the address |
| Aws.AwsService.constructor | aws.js:16-18 | a new service is not initialised, has no snapshot, and holds the resolver's addresses |
| Aws.AwsService.Init | aws.js:24-35 | on an initialised service: no state change, no call. Otherwise: describe the instance, then its addresses; when an instance is found the service becomes initialised with that instance and the index of the addresses. An empty reservation list fails the call, with no index built |
| Aws.AwsService.DescribeAddresses | aws.js:179-194 | issues one describeAddresses call and stores the index of its answer |
| Aws.AwsService.AllocateAddressToInterface | aws.js:128-136 | the calls issued are the allocation plan of the interface's addresses |
| Aws.AwsService.AssignAndAllocatePrivateIpAddress | aws.js:108-121 | the calls issued are assign, describe, then the allocation plan of the refreshed interface |
| Aws.AwsService.CreateEni | aws.js:43-62 | the calls issued are create, attach, then the allocation plan of the created interface |
| Aws.AwsService.CheckIfInstanceHasValidInterfaces | aws.js:68-100 | init (if needed), then the reconciliation plan of the snapshot. On a first call it records the instance id and succeeds iff the instance is found. When found, it reconciles that described instance with the index of its described addresses. When not found, the snapshot and index stay as they were. A later call leaves the snapshot unchanged and reconciles it again |
| Aws.AwsService.Reconcile | aws.js:70-99 | the calls issued are the interface loop followed, when needed, by the device-index loop |
| Aws.AwsService.TopUpInterfaces | aws.js:74-89 | the loop over the snapshot's interfaces issues each iteration's plan in order |
| Aws.AwsService.TopUpInterface | aws.js:75-88 | one iteration: the assign step when below the limit, then the allocation pass over the stale interface |
| Aws.AwsService.CreateMissingEnis | aws.js:91-99 | the device-index loop issues one createENI plan per index, in increasing order |
| Aws.AwsService.IsPrimary | aws.js:223 | the primary-address guard compares with `interfaces[0]` only; a protected address is always one of the local addresses |
| Aws.AwsService.DisassociateAddress | aws.js:247-265 | one disassociate with the indexed association id; fails as not bound when the address is not indexed |
| Aws.AwsService.ReleaseAddress | aws.js:272-282 | one release with the indexed allocation id; fails as not bound when the address is not indexed |
| Aws.AwsService.RemoveAddress | aws.js:222-240 | nothing is issued for the primary address. Otherwise: disassociate, release, then (when reattaching) describe, allocate and associate. Fails as not bound when the address is unindexed |

## Left out

- The AWS SDK, its region setting and the metadata service are not modelled. The instance
  id the metadata service reports is a field of `Cloud`. Every control-plane answer is a
  total function of the request and the call's position in the log.
- Failure of remote calls (rejected promises), and the partial progress they leave, are not
  modelled: every remote call returns. Only the two failures the code itself raises are
  modelled, as `Outcome.Failed`:
  - an empty `Reservations` list in the describeInstances answer, where
    `Reservations[0]` is undefined and reading `Instances` from it throws;
  - an address missing from the index, where the code reads a property of `undefined`.
- Async scheduling is not modelled. The operations are strictly sequential, as each
  `await` makes them.
- `debug` and `console.log` output is not modelled, because it has no effect.
- The contents of the vpcLimits table are not modelled. The two tables are `map<string, int>`
  parameters of the service, so a missing instance type is possible.
  - With a missing type, the JavaScript comparisons with `undefined` are false. `BelowLimit`
    and `AddsEnis` are then false.
  - The secondary count `undefined - 1` is not a number. It becomes `None` in the create
    request.
- `os.networkInterfaces()` is not modelled. The service takes its result as a constructor
  parameter.
- `getMetadata` and `getInstancId` are plumbing. Their result is `Cloud.instanceIdentity`.
- The `allocateAddress` and `assocateAddress` wrappers are folded into the client calls
  `Ec2.Client.AllocateAddress` and `Ec2.Client.AssociateAddress`.
- `getInstance` is folded into `Init`. Only element 0 of the answer is modelled, as an
  `Option<Instance>`.
- A reservation whose `Instances` list is empty is not modelled. There the source gets
  `undefined` without throwing, still issues describeAddresses, sets `hasInitialized`, and
  fails only when the reconciliation reads the instance (aws.js:70). The model has only the
  empty-`Reservations` failure, which issues no describeAddresses and leaves the service
  uninitialised.
- Ec2.Client.CreateNetworkInterface: the constant `Description: 'AUTO'` of the create
  request (aws.js:48) is not recorded in the `Call`, because it never varies.
- Interfaces.IsIPv4Family: lower-casing is modelled for ASCII letters only. `toLowerCase`
  also folds non-ASCII letters, and those are left unchanged here.
- Aws.AwsService.Init: does not model a metadata or describe call that rejects. Such a call
  leaves `hasInitialized` false in the source, as here.
- Aws.AwsService.CheckIfInstanceHasValidInterfaces: does not model aborting the
  reconciliation at a failing remote call.

## Where the code and its design differ

The model follows the code in each of these places.

- aws.js:97 calls `this.createEni`, but the method is `createENI` (aws.js:43). The
  JavaScript would throw a TypeError as soon as the device-index loop runs. The model calls
  the intended `createENI` (`CreateEni`).
- aws.js:120 passes element `[0]` of the describeNetworkInterfaces response, and aws.js:238
  passes the whole response, where an interface is expected. Both are modelled as the
  refreshed interface that the describe call returns. As written, the response is an
  object, so `response[0]` is undefined and `allocateAddressToInterface` throws at
  aws.js:129 when it reads the addresses. At aws.js:238 the response object has no
  interface id or addresses of its own, so the associate request is sent with an
  undefined `NetworkInterfaceId`.
- The design says each interface is refreshed before its addresses are associated. The
  code instead re-filters the stale snapshot copy (aws.js:82-88) after the assign step has
  already associated the refreshed interface's addresses. `Plans.StaleRefilterAssociatesTwice`
  shows the consequence: such an address is associated twice in one iteration. This
  depends on reading aws.js:120 as the refreshed interface. As written, the first interface
  below its limit makes the assign step throw at aws.js:129. That aborts the whole
  reconciliation before the interface's stale pass runs. The only associations made are
  then the stale passes of the interfaces at their limit that come before it.
- The design calls reconciliation idempotent. The code never refreshes its snapshot after
  init. A second `checkIfInstanceHasValidInterfaces` therefore reconciles the same snapshot
  again (see `Aws.AwsService.CheckIfInstanceHasValidInterfaces`). Its assign requests,
  create requests, device indices and stale-pass associations are identical to the first
  call's. Its allocation ids and the addresses of refreshed and created interfaces come
  from later control-plane answers and may differ. The second call issues nothing only
  when the snapshot was already converged (`Plans.ReconcileQuietIffConverged`).
- The design protects any of the host's own addresses from removal. The code compares only
  with `interfaces[0]` (aws.js:223), and so does the model (`IsPrimary`).
- The design fails a removal of an unbound address with `NotBound`. The code reaches that
  point by reading a property of `undefined`. The model returns `Failed(AddressNotBound)`
  before any call.
