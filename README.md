# Clocker placement, networking and Mesos scheduling cores in Dafny

This project models the decision-making core of Clocker, the Brooklyn-based
manager for Docker and Mesos clusters. It covers five parts:

- **Basic Docker placement** (`placement.dfy`, module `Placement`). A strategy
  copies the candidate Docker hosts, sorts the copy with its comparator (a
  stable in-place sort on an array), and keeps the hosts its predicate accepts.
  The class stores the entity being placed in its `entity` field first.
- **Group placement** (`group_placement.dfy`, module `GroupPlacement`). The
  verdict of `apply` counts the containers on a host. It ignores the host
  owner's own containers, then checks exclusivity and sibling co-location.
  A per-application semaphore registry, shared by the Docker infrastructure,
  gets an entry on every verdict.
- **Calico address ledger** (`calico.dfy`, module `Calico`). Subnets are carved
  one after the other out of the container network block. Addresses in a subnet
  are handed out at offsets 2, 3, 4, and so on. The module also picks the
  endpoint id out of `calicoctl` output.
- **Mesos location** (`mesos_location.dfy`, module `MesosLocations`). `obtain`
  delegates to the first suitable framework and records the pair
  `(framework, task)`. `release` finds the unique holder. `register` and
  `deregister` keep the location's registry definition.
- **Mesos task reconciliation** (`mesos_framework.dfy`, module
  `MesosFrameworks`). `scanTasks` refreshes known tasks and adopts unknown
  running ones. It then prunes members the master no longer lists.

Shared parts:

- `sequences.dfy` (module `Sequences`) holds the generic filter and first-match
  search the models share: Guava's `Iterables.filter` and `Iterables.tryFind`,
  and loops that return at the first hit.
- `wrappers.dfy` holds `Option` (Java `null`) and `Result` (a thrown
  exception).

Code that changes state in place is modelled as classes with `modifies`
clauses. Each such method is proved against a pure function of the old
state, and the properties are proved about those functions as lemmas.

Three behaviours of the code are worth noting:

- **Exclusivity test.** The test is `|deployed| > |sameApplication|`, over
  containers not of the Docker host owner's application.
  `GroupPlacement.ExclusiveCountTest` proves this equals "some counted
  container belongs to another application".
- **`getNextSubnetCidr(networkId)` is not idempotent.** Every call carves a new
  subnet and overwrites the record (`Calico.NextSubnetForTwice`).
- **No capacity check when addresses are handed out.** An address past the
  subnet's span is returned as it is (`Calico.AddressesConsecutive` states
  exactly when an address stays inside its subnet).

## Model

| member | source | states |
|---|---|---|
| Sequences.Filter | docker/src/main/java/clocker/docker/location/strategy/BasicDockerPlacementStrategy.java:49 | the filtered list is never longer than the input |
| Sequences.FilterCounts | docker/src/main/java/clocker/docker/location/strategy/BasicDockerPlacementStrategy.java:49 | every kept host is accepted, and every accepted host is kept as often as it occurs: the input with rejected hosts removed |
| Sequences.FilterIsSubsequence | docker/src/main/java/clocker/docker/location/strategy/BasicDockerPlacementStrategy.java:49 | the result keeps the relative order of the sorted copy |
| Sequences.FilterMembership | docker/src/main/java/clocker/docker/location/strategy/BasicDockerPlacementStrategy.java:49 | a host is in the result iff it is a candidate and accepted |
| Sequences.FilterNonEmpty | docker/src/main/java/brooklyn/location/docker/strategy/GroupPlacementStrategy.java:94 | a filtered list is non-empty iff some element is accepted (the `isEmpty` tests) |
| Sequences.FilterShorter | docker/src/main/java/brooklyn/location/docker/strategy/GroupPlacementStrategy.java:88-89 | a filtered list is strictly shorter iff some element is rejected (the size comparison) |
| Sequences.FilterAcceptingAll | docker/src/main/java/clocker/docker/location/strategy/BasicDockerPlacementStrategy.java:56-58 | with a predicate accepting every host, filtering returns the list unchanged |
| Sequences.Map | mesos/src/main/java/clocker/mesos/entity/framework/MesosFrameworkImpl.java:167-185 | the result has one element per input element, each the function applied to it, in order |
| Sequences.FirstFrom | mesos/src/main/java/clocker/mesos/entity/framework/MesosFrameworkImpl.java:145-146 | the search returns the first index whose element matches, or none exactly when no element matches |
| Placement.FilterKeepsOrder | docker/src/main/java/clocker/docker/location/strategy/BasicDockerPlacementStrategy.java:48-49 | filtering a list sorted under a transitive comparator leaves it sorted, so the result is still best first |
| Placement.SortedPairwise | docker/src/main/java/clocker/docker/location/strategy/BasicDockerPlacementStrategy.java:60-68 | under a transitive comparator, an adjacent-sorted list is ordered best first between any two positions |
| Placement.SwapKeepsTies | docker/src/main/java/clocker/docker/location/strategy/BasicDockerPlacementStrategy.java:48 | under a transitive comparator, exchanging an out-of-order pair of neighbours keeps every group of tied elements in order |
| Placement.SinkSorts | docker/src/main/java/clocker/docker/location/strategy/BasicDockerPlacementStrategy.java:48 | moving the next element down past every neighbour that sorts strictly after it extends the sorted prefix by one |
| Placement.SinkPermutes | docker/src/main/java/clocker/docker/location/strategy/BasicDockerPlacementStrategy.java:48 | that move is a permutation and leaves everything after the element alone |
| Placement.SinkKeepsTies | docker/src/main/java/clocker/docker/location/strategy/BasicDockerPlacementStrategy.java:48 | under a transitive comparator, that move keeps every group of tied elements in order |
| Placement.SinkDown | docker/src/main/java/clocker/docker/location/strategy/BasicDockerPlacementStrategy.java:48 | the swapping loop computes exactly that move, in place |
| Placement.InsertDown | docker/src/main/java/clocker/docker/location/strategy/BasicDockerPlacementStrategy.java:48 | one insertion step: the prefix up to the element ends sorted, the array is a permutation of what it held, later elements are untouched, an element already in place stays, and tied elements keep their order |
| Placement.SortInPlace | docker/src/main/java/clocker/docker/location/strategy/BasicDockerPlacementStrategy.java:48 | `Collections.sort`: the array ends sorted and a permutation of its contents; it is stable: under a transitive comparator every group of tied elements keeps its relative order, and an already sorted array is left as it was |
| Placement.SortedCopy | docker/src/main/java/clocker/docker/location/strategy/BasicDockerPlacementStrategy.java:47-48 | the copy is a fresh array holding a sorted permutation of the candidates; tied candidates keep their relative order, and an already sorted list is copied in its own order |
| Placement.FilterArray | docker/src/main/java/clocker/docker/location/strategy/BasicDockerPlacementStrategy.java:49 | the elements of the sorted copy that the predicate accepts, in array order, as `Filter` defines them |
| Placement.BasicDockerPlacementStrategy.Default | docker/src/main/java/clocker/docker/location/strategy/BasicDockerPlacementStrategy.java:55-68 | the default `apply` accepts every host and the default `compare` calls all hosts equal |
| Placement.BasicDockerPlacementStrategy.FilterLocations | docker/src/main/java/clocker/docker/location/strategy/BasicDockerPlacementStrategy.java:41-50 | an empty list gives an empty result and leaves `entity` alone; otherwise `entity` is set to the context, and the result is the sorted permutation of the input, tied hosts in their input order, filtered by `apply` with the context; the result is itself sorted best first; an all-accepted, already sorted input comes back unchanged |
| GroupPlacement.CountedMembership | docker/src/main/java/brooklyn/location/docker/strategy/GroupPlacementStrategy.java:84-98 | membership in `deployed`, `sameApplication` and `sameParent` in terms of the host's containers |
| GroupPlacement.ExclusiveCountTest | docker/src/main/java/brooklyn/location/docker/strategy/GroupPlacementStrategy.java:88-92 | the strict count test holds iff some counted container belongs to another application |
| GroupPlacement.SameApplicationEmpty | docker/src/main/java/brooklyn/location/docker/strategy/GroupPlacementStrategy.java:94-96 | `sameApplication` is empty iff no counted container belongs to the entity's application |
| GroupPlacement.SameParentEmpty | docker/src/main/java/brooklyn/location/docker/strategy/GroupPlacementStrategy.java:98-105 | `sameParent` is empty iff no counted same-application container is a child of the entity's parent |
| GroupPlacement.Accepts | docker/src/main/java/brooklyn/location/docker/strategy/GroupPlacementStrategy.java:82-106 | accepted iff not (exclusive and a foreign container is counted) and (no same-application container, or one is a sibling) |
| GroupPlacement.OwnerContainersIgnored | docker/src/main/java/brooklyn/location/docker/strategy/GroupPlacementStrategy.java:83-84 | hosts that differ only in the owner's own containers, or in container order, get the same verdict |
| GroupPlacement.ForeignIgnoredUnlessExclusive | docker/src/main/java/brooklyn/location/docker/strategy/GroupPlacementStrategy.java:88-105 | without `exclusive`, containers of other applications never change the verdict |
| GroupPlacement.SortedCopyAllEqual | docker/src/main/java/clocker/docker/location/strategy/BasicDockerPlacementStrategy.java:47-48 | the copy sorted under the all-equal comparator is a fresh array holding the candidates in their original order |
| GroupPlacement.GroupPlacementStrategy.constructor | docker/src/main/java/brooklyn/location/docker/strategy/GroupPlacementStrategy.java:58-62 | `exclusive` defaults to false |
| GroupPlacement.GroupPlacementStrategy.WithExclusive | docker/src/main/java/brooklyn/location/docker/strategy/GroupPlacementStrategy.java:58-62 | the `exclusive` flag set explicitly |
| GroupPlacement.GroupPlacementStrategy.LookupSemaphore | docker/src/main/java/brooklyn/location/docker/strategy/GroupPlacementStrategy.java:114-119 | the registered semaphore, or none exactly when the id is unknown |
| GroupPlacement.GroupPlacementStrategy.CreateSemaphore | docker/src/main/java/brooklyn/location/docker/strategy/GroupPlacementStrategy.java:127-138 | insert-if-absent: an existing entry is kept and returned; otherwise a fresh semaphore named after the entity's application is added; no other entry changes |
| GroupPlacement.GroupPlacementStrategy.ReleaseMutex | docker/src/main/java/brooklyn/location/docker/strategy/GroupPlacementStrategy.java:165-170 | the registry is not changed; the release happens iff the id is registered |
| GroupPlacement.GroupPlacementStrategy.Apply | docker/src/main/java/brooklyn/location/docker/strategy/GroupPlacementStrategy.java:72-107 | afterwards the registry holds an entry for the entity's application and keeps every old entry; the answer is the verdict |
| GroupPlacement.GroupPlacementStrategy.FilterLocations | docker/src/main/java/clocker/docker/location/strategy/BasicDockerPlacementStrategy.java:41-50 | the inherited filter with this verdict: the accepted hosts in input order; the registry gains exactly the entity's application |
| Calico.SubnetsDisjoint | mesos/src/main/java/brooklyn/networking/sdn/mesos/CalicoModuleImpl.java:145-156 | subnet `n+1` starts right after subnet `n`, and distinct subnet numbers give disjoint subnets |
| Calico.SubnetsBeforeDisjoint | mesos/src/main/java/brooklyn/networking/sdn/mesos/CalicoModuleImpl.java:145-156 | a subnet shares no address with any subnet numbered below it |
| Calico.NextSubnet | mesos/src/main/java/brooklyn/networking/sdn/mesos/CalicoModuleImpl.java:145-156 | carving advances only the subnet count; the new subnet has the configured prefix and shares no address with any subnet carved before |
| Calico.RecordSubnet | mesos/src/main/java/brooklyn/networking/sdn/mesos/CalicoModuleImpl.java:159-165 | afterwards the id looks up to the recorded subnet, every other id looks up as before, and the counters are untouched |
| Calico.RecordSubnetFrom | mesos/src/main/java/brooklyn/networking/sdn/mesos/CalicoModuleImpl.java:168-175 | afterwards the id looks up to the recorded subnet and its counter is `allocated`; every other id keeps its subnet and counter |
| Calico.NextSubnetFor | mesos/src/main/java/brooklyn/networking/sdn/mesos/CalicoModuleImpl.java:136-142 | the id gets the subnet `getNextSubnetCidr()` would carve, whether or not it had one; other ids keep their subnets; the subnet count advances by one |
| Calico.GetSubnet | mesos/src/main/java/brooklyn/networking/sdn/mesos/CalicoModuleImpl.java:178-183 | none exactly when the id was never recorded, otherwise the recorded subnet |
| Calico.NextAddress | mesos/src/main/java/brooklyn/networking/sdn/mesos/CalicoModuleImpl.java:121-133 | the address after the subnet's last one; only that subnet's counter advances, by one; the address lies in the subnet iff the new offset is below its span |
| Calico.AddressesConsecutive | mesos/src/main/java/brooklyn/networking/sdn/mesos/CalicoModuleImpl.java:121-133 | `k` successive requests return the addresses at offsets `counter+1` … `counter+k`, strictly increasing, so none repeats; only that subnet's counter changes; an address lies in the subnet iff its offset is below the span |
| Calico.NextSubnetForTwice | mesos/src/main/java/brooklyn/networking/sdn/mesos/CalicoModuleImpl.java:136-142 | two calls for one network id advance the counter by two, give adjacent disjoint subnets, and leave the second recorded |
| Calico.RecordThenGet | mesos/src/main/java/brooklyn/networking/sdn/mesos/CalicoModuleImpl.java:159-183 | a lookup returns the subnet recorded last; recording leaves other ids' records alone; nothing is recorded after `init` |
| Calico.RecordedCounterResumes | mesos/src/main/java/brooklyn/networking/sdn/mesos/CalicoModuleImpl.java:168-175 | after the three-argument record, the next address is at offset `allocated + 1` of the recorded subnet |
| Calico.CalicoModule.constructor | mesos/src/main/java/brooklyn/networking/sdn/mesos/CalicoModuleImpl.java:101-108 | after `init` the counter is 0 and both maps are empty |
| Calico.CalicoModule.GetNextContainerAddress | mesos/src/main/java/brooklyn/networking/sdn/mesos/CalicoModuleImpl.java:121-133 | an absent counter counts as 1; returns the address at offset `counter+1` and stores that offset; nothing else changes |
| Calico.CalicoModule.GetNextSubnetCidr | mesos/src/main/java/brooklyn/networking/sdn/mesos/CalicoModuleImpl.java:145-156 | returns subnet `n`, based at `block + n * 2^(32-size)` with prefix `size`, and sets the counter to `n+1` |
| Calico.CalicoModule.GetNextSubnetCidrFor | mesos/src/main/java/brooklyn/networking/sdn/mesos/CalicoModuleImpl.java:136-142 | always carves a fresh subnet and records it for the id, overwriting any earlier record |
| Calico.CalicoModule.RecordSubnetCidr | mesos/src/main/java/brooklyn/networking/sdn/mesos/CalicoModuleImpl.java:159-165 | only the id's subnet entry changes |
| Calico.CalicoModule.RecordSubnetCidrFrom | mesos/src/main/java/brooklyn/networking/sdn/mesos/CalicoModuleImpl.java:168-175 | records the subnet and sets the id's address counter to `allocated` |
| Calico.CalicoModule.GetSubnetCidr | mesos/src/main/java/brooklyn/networking/sdn/mesos/CalicoModuleImpl.java:178-183 | the recorded subnet, or none exactly when nothing was recorded |
| Calico.CalicoModule.ListManagedNetworkAddressSpace | mesos/src/main/java/brooklyn/networking/sdn/mesos/CalicoModuleImpl.java:218-220 | a copy with the same ids and subnets as the record |
| Calico.SplitLines | mesos/src/main/java/brooklyn/networking/sdn/mesos/CalicoModuleImpl.java:263 | splitting on `\r` or `\n` always yields at least one piece |
| Calico.SplitLinesHaveNoBreaks | mesos/src/main/java/brooklyn/networking/sdn/mesos/CalicoModuleImpl.java:263 | no piece contains a line break |
| Calico.SplitJoinRoundTrip | mesos/src/main/java/brooklyn/networking/sdn/mesos/CalicoModuleImpl.java:263 | for any text, joining the pieces with line feeds gives the text back with every carriage return turned into a line feed |
| Calico.NormalisedWithoutCarriageReturns | mesos/src/main/java/brooklyn/networking/sdn/mesos/CalicoModuleImpl.java:263 | text without carriage returns is its own normal form, so for it the round trip gives the text back exactly |
| Calico.EndpointId | mesos/src/main/java/brooklyn/networking/sdn/mesos/CalicoModuleImpl.java:262-265 | the first line matching `[0-9a-f]{32}` in full; it fails, carrying the output, exactly when no line matches |
| MesosLocations.Holders | mesos/src/main/java/clocker/mesos/location/MesosLocation.java:188 | the frameworks holding a task id are exactly those with that pair in the multimap |
| MesosLocations.Obtained | mesos/src/main/java/clocker/mesos/location/MesosLocation.java:152-178 | a non-entity context fails with `InvalidContext`; with no suitable framework it fails with `NoMachinesAvailable`; it succeeds iff the context is absent or an entity and some framework is suitable; then the first suitable framework in member order provisions the task and the pair is added; on failure nothing changes |
| MesosLocations.Released | mesos/src/main/java/clocker/mesos/location/MesosLocation.java:186-196 | fails with `NotAllocated` iff no framework holds the id, and with `NotUnique` iff several do; it succeeds iff exactly one does, and then only the single holder's pair is removed |
| MesosLocations.Registered | mesos/src/main/java/clocker/mesos/location/MesosLocation.java:104-121 | a missing name fails, and so does a name already defined; otherwise the new definition is stored and its id kept |
| MesosLocations.Deregistered | mesos/src/main/java/clocker/mesos/location/MesosLocation.java:124-130 | afterwards unregistered; a no-op when not registered; otherwise exactly the registered definition is removed |
| MesosLocations.DeregisterIdempotent | mesos/src/main/java/clocker/mesos/location/MesosLocation.java:124-130 | calling `deregister` twice is the same as calling it once |
| MesosLocations.RegisterDeregisterRoundTrip | mesos/src/main/java/clocker/mesos/location/MesosLocation.java:104-130 | register under a fresh id then deregister restores the registry and leaves the location unregistered |
| MesosLocations.RegisterTwiceFails | mesos/src/main/java/clocker/mesos/location/MesosLocation.java:107-110 | once registered, registering under the same name fails as already defined |
| MesosLocations.ObtainReleaseRoundTrip | mesos/src/main/java/clocker/mesos/location/MesosLocation.java:168-196 | releasing a task just obtained, under an id nobody held, names the provisioning framework and restores the multimap |
| MesosLocations.MesosLocation.constructor | mesos/src/main/java/clocker/mesos/location/MesosLocation.java:66-72 | a new location is unregistered and holds no tasks |
| MesosLocations.MesosLocation.Obtain | mesos/src/main/java/clocker/mesos/location/MesosLocation.java:152-178 | the result and the new multimap are those of `Obtained` |
| MesosLocations.MesosLocation.Release | mesos/src/main/java/clocker/mesos/location/MesosLocation.java:186-196 | the result and the new multimap are those of `Released` |
| MesosLocations.MesosLocation.Register | mesos/src/main/java/clocker/mesos/location/MesosLocation.java:104-121 | the result and the new registration state are those of `Registered` |
| MesosLocations.MesosLocation.Deregister | mesos/src/main/java/clocker/mesos/location/MesosLocation.java:124-130 | the new registration state is that of `Deregistered` |
| MesosFrameworks.ApplyTask | mesos/src/main/java/clocker/mesos/entity/framework/MesosFrameworkImpl.java:140-165 | a known task id sets the first matching member's task state to the task's state, leaves every other member's task state alone, and lists the name; the member count grows by one exactly when the id is unknown and the task is running, and that new member is the adopted task and is listed; other unknown tasks change nothing; the known ids grow by exactly the running task's id |
| MesosFrameworks.Reconcile | mesos/src/main/java/clocker/mesos/entity/framework/MesosFrameworkImpl.java:138-166 | existing members keep everything except their task state; added members are unmanaged; no more names than tasks |
| MesosFrameworks.ReconcileAdds | mesos/src/main/java/clocker/mesos/entity/framework/MesosFrameworkImpl.java:150-165 | every member added by the first pass is, up to its task state, the adoption of some running task, and its name is listed |
| MesosFrameworks.ReconcileTaskStates | mesos/src/main/java/clocker/mesos/entity/framework/MesosFrameworkImpl.java:145-149 | after the first pass, an original member that is the first to carry its id holds the state of the last task with that id; every other original member keeps its task state |
| MesosFrameworks.ReconcileKnownIds | mesos/src/main/java/clocker/mesos/entity/framework/MesosFrameworkImpl.java:145-160 | after the first pass the known task ids are the original ones plus those of running tasks |
| MesosFrameworks.ReconcileNames | mesos/src/main/java/clocker/mesos/entity/framework/MesosFrameworkImpl.java:138-166 | the returned names are exactly the names of the tasks that are running or already known, in task order |
| MesosFrameworks.ListedLast | mesos/src/main/java/clocker/mesos/entity/framework/MesosFrameworkImpl.java:145-162 | the last task's name is listed iff its id was known before it or it is running |
| MesosFrameworks.RunningTasksListed | mesos/src/main/java/clocker/mesos/entity/framework/MesosFrameworkImpl.java:150-162 | every running task's name is listed |
| MesosFrameworks.PruneMember | mesos/src/main/java/clocker/mesos/entity/framework/MesosFrameworkImpl.java:174-184 | one member is dropped exactly when it is removable (unlisted and stopping or stopped); otherwise it is kept, as `Adjust` leaves it |
| MesosFrameworks.Prune | mesos/src/main/java/clocker/mesos/entity/framework/MesosFrameworkImpl.java:167-185 | exactly the unlisted stopping or stopped members are removed; every member left is listed, starting, on fire, or expected to be stopping; each is an original member, possibly with its expected state set to stopping |
| MesosFrameworks.PruneCharacterised | mesos/src/main/java/clocker/mesos/entity/framework/MesosFrameworkImpl.java:167-185 | pruning equals an independent reference: the non-removable members in their order, each unlisted one that is neither starting nor on fire expected to be stopping |
| MesosFrameworks.PruneKeepsListed | mesos/src/main/java/clocker/mesos/entity/framework/MesosFrameworkImpl.java:167-172 | a member whose task name is listed passes through unchanged |
| MesosFrameworks.PruneIdempotent | mesos/src/main/java/clocker/mesos/entity/framework/MesosFrameworkImpl.java:167-185 | a second pruning pass with the same names changes nothing |
| MesosFrameworks.MesosFramework.FindMember | mesos/src/main/java/clocker/mesos/entity/framework/MesosFrameworkImpl.java:145-146 | the first member carrying the task id, as `FirstFrom` specifies |
| MesosFrameworks.MesosFramework.RefreshTasks | mesos/src/main/java/clocker/mesos/entity/framework/MesosFrameworkImpl.java:138-166 | the new members and the names are those of `Reconcile` |
| MesosFrameworks.MesosFramework.PruneMembers | mesos/src/main/java/clocker/mesos/entity/framework/MesosFrameworkImpl.java:167-185 | the new members are those of `Prune` |
| MesosFrameworks.MesosFramework.ScanTasks | mesos/src/main/java/clocker/mesos/entity/framework/MesosFrameworkImpl.java:127-191 | without an entry for this framework nothing changes and the result is null; otherwise only the first matching entry is used: the counts are the sizes of its arrays, the names are the reconciled names, and the members are reconciled and then pruned |

## Left out

- Semaphore blocking, permits and owner tracking are left out. This covers `acquireUninterruptibly` in `apply`, `hasMutex`, `acquireMutex`, `tryAcquireMutex` and the release of a permit. They concern concurrency, and `SemaphoreWithOwners` is not part of this model. A semaphore is an object whose identity and name the registry keeps.
- GroupPlacement.GroupPlacementStrategy.Apply, GroupPlacement.GroupPlacementStrategy.CreateSemaphore and GroupPlacement.GroupPlacementStrategy.FilterLocations: require an entity to place. The `NullPointerException` that a null entity raises at the dereferences in `apply` and `createSemaphore` is not modelled.
- Placement.BasicDockerPlacementStrategy.FilterLocations: the strategy requires a comparator that keeps the Comparator contract (sign-consistent and transitive). The `IllegalArgumentException` that `Collections.sort` may throw for a comparator that breaks it is not modelled.
- The `synchronized` blocks and the address and network mutexes are left out; each operation is atomic.
- The group placement model assumes the shared semaphore map exists. The `null`-map branches of `lookupSemaphore` and `createSemaphore` are not modelled.
- Docker hosts and containers are values: a host's name, its owner's application id and its containers' application and parent ids. The entity's parent is compared by id, and `null` ids are not modelled.
- Calico.AddressAtOffset: `Cidr.addressAtOffset` is not part of this model. It is taken to be `base + offset`, defined only while the result is an IPv4 address.
- Calico.CalicoModule.GetNextSubnetCidr: requires that `allocated * (1 << (32 - size))` fits a Java `int` and that the prefix is at least 2. Java's silent overflow is not modelled.
- Calico.CalicoModule.GetNextContainerAddress: requires a recorded subnet, a counter below `Integer.MAX_VALUE` and a resulting IPv4 address. The `NullPointerException` on an unknown subnet and the `int` overflow are not modelled.
- SSH and command execution in `attachNetwork`, `execCalicoCommand` and `provisionNetwork`, and the group handling in `deallocateNetwork`, are left out. Only the endpoint-id line selection is kept, with the command output as a parameter.
- The `SUBNET_ENTITIES` and `CONTAINER_ADDRESSES` sensors and the entity and group wiring of `init` are left out.
- Calico.EndpointId: the `IllegalStateException` is a `Failure` carrying the output.
- MesosLocations.MesosLocation.Obtain: the chosen framework's own `obtain` is a call into code outside the model. The task id it creates is a parameter, and its own failures are not modelled. `isSupported` is a function parameter, and the framework list is a parameter.
- MesosLocations.MesosLocation.Release: the framework's own `release(task)` is not modelled. Only the multimap bookkeeping is.
- MesosLocations.MesosLocation.Register: the location-spec string built with `MesosResolver` is represented by the location's id. `requestPersist` and the id generation of `BasicLocationDefinition` are left out; the new id is a parameter.
- `rebind`, `close`, `newSubLocation` and `getProvisioningFlags` of the location are left out.
- MesosFrameworks.MesosFramework.ScanTasks: the JSON arrives as typed values, and Gson parsing errors are not modelled. The framework id sensor is assumed to be set.
- MesosFrameworks.MesosFramework.ScanTasks: `task.start` on an adopted task is not modelled. Its lifecycle effect belongs to `MesosTask`, which is not part of this model, so an adopted member starts with no lifecycle state.
- MesosFrameworks.MesosFramework.ScanTasks: the configuration of an adopted task's spec is not modelled, except its name and that it is unmanaged.
- MesosFrameworks.MesosFramework.PruneMembers: the group is a sequence of member values, rebuilt over the snapshot. Removing a member from the group, removing it as a child and unmanaging it become leaving it out. Entity identity, and members shared with other groups, are not modelled.
- HttpFeed polling in `connectSensors` and `disconnectSensors`, and the framework's `init`, `start` and `stop`, are left out.
