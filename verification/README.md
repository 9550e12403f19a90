# Controllers of onmetal-api-net, verified

A Dafny model of the controllers that decide who gets what in onmetal-api-net, and proofs of what they
promise over whole runs. `dafny verify dfyconfig.toml` checks everything.

* **NAT gateways.** `KeySlots` and `NatAllocation` hand out port ranges; `NatReadBack`, `NatManage` and
  `NatTable` read the old NAT table back, re-pack the interfaces over claims that may fail, and write the
  canonical table; `NatGateway` puts them together. Main results: every table ever written is safe
  (`NatGateway.Run`), no slot idles while someone could have it (`WorkConserving`), a second pass writes
  the same table (`Idempotent`). `NatClaim` is the optimistic-lock protocol by which gateways claim
  interfaces (`ClaimsExclusive`), `NatAutoscaler` the sizing arithmetic.
* **Scheduler.** `CacheModel` proves that the cache's three indexes refine one plain map, `SchedulerCache`
  is the cache itself as mutable objects, with its snapshots. `NodeAffinity`, `AntiAffinity` and
  `TopologySpread` are the filters, each proved equal to the quantified rule it implements by counting;
  `Scheduling` and `SchedulerReconcile` choose and assume. Main results: cached instances never violate
  anti-affinity in any run that confirms only what is cached, expiry and events between snapshot and assume
  included (`PlacementSafety.CachedAlwaysSafe`); bound instances, cached or not, never do while snapshots are
  taken with all of them visible (`AlwaysSafe`), and `PlacementLimits` gives the exact condition for that to
  go on (`SafeIffRecorded`); spread constraints stay within their skew (`SpreadSafety.AlwaysBalanced`).
* **DaemonSets.** `DaemonSetPlan` is the plan made from a view, `DaemonSetConvergence` shows that it
  converges in one application, `Expectations` is the gate in front of it, and `DaemonSetRuns` proves that
  with an arbitrarily stale view the server never holds two live instances for one node (`NeverTwo`);
  `DaemonSetReconcile` is a live pass, proved to be steps of these runs, and `DaemonSetLimits` says exactly
  when a lost reply breaks the result (`LostReplyIff`).
* **Address allocation.** `IpAllocators` is the update transaction: allocate, write back, commit
  (`UpdateAndCommit`). `AddressRuns` is what updates of several objects do to one another
  (`AlwaysSettled`).

`NatServed`, `CacheHistory`, `PlacementRules` and `DaemonSetRules` say what the main operations do on the
objects' own fields and on the history of operations, without the functions they are modelled by.

`Core`, `Cluster`, `NatInterface` and `Sorting` hold the shared values and orders. Code that changes
objects is a class or a method on arrays and is proved against a specification function; pure code is a
function with lemmas; protocols between several parties are state machines whose runs are quantified over.

Results that restrict or contradict what one might expect of the code:

* With one port per interface a written table is never read back, because a range whose first and last
  port coincide is rejected (`NatReadBack.ReadBackRoundTrip` is an if-and-only-if).
* Reading back does not check alignment: what is recognised is a slot's range exactly when it is aligned
  (`NatAllocation.RecognisedIffAligned`), and that tables are aligned is an invariant of the runs.
* When capacity does not suffice the autoscaler rounds down and can stay one address short
  (`NatAutoscaler.WithinOneIP` says exactly when it covers the requests).
* The scheduler cache forgets an assumed instance as soon as its binding has finished, and a later snapshot
  misses it. Anti-affinity of the bound instances is safe from a state on exactly when the cache has a record of every bound
  instance that matters (`PlacementLimits.SafeIffRecorded`, `CleanupLoses`, `CleanupBreaks`).
* A create that was stored but reported as failed is no longer expected. Two live instances can then meet on
  the node exactly when everything else that is expected can still be discharged
  (`DaemonSetLimits.LostReplyIff`).
* An address created for one object has no claim reference, so another object can claim it by value, and
  loses it when the first one drops it. `AddressRuns.ExclusiveIff`, `DistinctIff` and `OthersKeptIff` say
  exactly when claims stay exclusive, specifications distinct and other objects unaffected.
* A node without a name has no fields, so every field requirement admits it (`NodeAffinity.PinnedAdmits`).

## Model

| member | source | states |
|---|---|---|
| `KeySlots.KeySlots.constructor` | utils/container/slots.go:30-51 | no slot is taken, every given key is present once, and the counter, the index of free keys and the bit sets agree |
| `KeySlots.KeySlots.Total` | utils/container/slots.go:63-69 | keys times slots per key, and the number of taken pairs never exceeds it |
| `KeySlots.KeySlots.Use` | utils/container/slots.go:78-98 | succeeds exactly for a known key, a slot below the limit and a pair not yet taken; adds exactly that pair and keeps the counter and the free-key index exact |
| `KeySlots.KeySlots.UseNextFree` | utils/container/slots.go:100-121 | succeeds if and only if fewer pairs are taken than exist; then takes the lowest clear slot of the key it returns and nothing else |
| `KeySlots.NextClear` | utils/container/slots.go:100-121 | the lowest clear bit below the length, or none exactly when all are set |
| `KeySlots.RoomIffBelowTotal` | utils/container/slots.go:100-121 | some key has room exactly when the number of taken pairs is below the total |
| `NatAllocation.SlotRange` | internal/natgateway/allocation.go:51-69 | a slot's port range lies inside 1024-65535 and maps back to the slot |
| `NatAllocation.SlotRangesDisjoint` | internal/natgateway/allocation.go:51-69 | ranges of different slots never meet |
| `NatAllocation.SlotsTile` | internal/natgateway/allocation.go:33-69 | the ranges start at 1024, have as many ports as an interface gets, follow one another without gap, and there are as many as end by 65535 |
| `NatAllocation.SlotForOwnRange` | internal/natgateway/allocation.go:55-69 | the range of a slot is recognised as that slot if and only if an interface has at least two ports |
| `NatAllocation.RecognisedSlotInRange` | internal/natgateway/allocation.go:55-63 | whatever is recognised is a slot below SlotsPerIP |
| `NatAllocation.RecognisedIffAligned` | internal/natgateway/allocation.go:55-63 | a recognised range is a slot's range if and only if it starts a whole number of slots above the first port; any other one starts inside its slot and reaches into the next |
| `NatAllocation.UnalignedRangeIsRecognised` | internal/natgateway/allocation.go:55-63 | an input of the failing family: 1034-1097 with 64 ports per interface |
| `NatAllocation.AllocationManager.constructor` | internal/natgateway/allocation.go:37-45 | nothing is taken, on exactly the given addresses |
| `NatAllocation.AllocationManager.Use` | internal/natgateway/allocation.go:71-78 | succeeds exactly when the ports are recognised, the address is managed and the slot is not taken; takes that slot only |
| `NatAllocation.AllocationManager.UseNextFree` | internal/natgateway/allocation.go:80-88 | succeeds if and only if a slot is left; returns an aligned range of the lowest free slot of its address and takes just that |
| `NatTable.ConsistentIsSafe` | internal/controllers/natgateway_controller.go:326-362 | a table listing consistent allocations has disjoint ranges per address inside 1024-65535 and each UID at most once |
| `NatTable.ListsCount` | internal/controllers/natgateway_controller.go:326-362 | such a table has as many sections as there are allocations |
| `NatTable.AddAllocGrouped` | internal/controllers/natgateway_controller.go:183-186 | recording an allocation under its address and UID groups the allocations by address |
| `NatTable.WriteGroup` | internal/controllers/natgateway_controller.go:344-353 | the sections of one address, sorted by port, each exactly once |
| `NatTable.ApplyTable` | internal/controllers/natgateway_controller.go:326-362 | the written table holds exactly the recorded sections, addresses and sections in strict order |
| `NatTable.TableUnique` | internal/controllers/natgateway_controller.go:344-356 | the table is determined by the allocations, whatever order the maps are ranged over |
| `NatTable.TableLists` | internal/controllers/natgateway_controller.go:326-362 | the written table lists exactly the allocations |
| `NatTable.Lookup` | metalnetlet/controllers/networkinterface_controller.go:219-233 | the consumer's nested search returns the first section targeting the UID, over all addresses in order |
| `NatTable.LookupsDisjoint` | metalnetlet/controllers/networkinterface_controller.go:219-233 | two interfaces looking up one safe table never get overlapping ranges of one address |
| `NatServed.TableInOrder` | internal/controllers/natgateway_controller.go:349-356 | the written table lists IPv4 before IPv6 addresses, by number, and sections by port, strictly |
| `NatServed.LookupFinds` | metalnetlet/controllers/networkinterface_controller.go:219-233 | the consumer's lookup of a UID finds exactly its allocation |
| `NatServed.PortOnce` | internal/controllers/natgateway_controller.go:326-362 | no port of an address is in two sections of a safe table, and all are within 1024-65535 |
| `NatReadBack.GetExistingAllocations` | internal/controllers/natgateway_controller.go:107-140 | reads back what the stepwise reading of the stored sections gives; nothing without a stored table |
| `NatReadBack.ReadBackTable` | internal/controllers/natgateway_controller.go:107-140 | from a table written with other addresses or another port count, exactly the entries still recognised survive, verbatim and consistent |
| `NatReadBack.ReadBackRoundTrip` | internal/controllers/natgateway_controller.go:107-140 | reading back a written table recovers exactly its UID-to-section map if and only if an interface has at least two ports or the table is empty |
| `NatManage.SortOut` | internal/controllers/natgateway_controller.go:195-240 | splits the interfaces by claim, selection and deletion; re-used sections are verbatim, and requests counts kept, claimed and free ones |
| `NatManage.AllocateClaimed` | internal/controllers/natgateway_controller.go:242-271 | claimed interfaces get slots in order until none is left; `full` is set exactly when someone stayed without |
| `NatManage.AllocateFree` | internal/controllers/natgateway_controller.go:273-317 | a slot whose claim failed is carried to the next interface: exactly the successful ones are served, in order, as far as slots reach |
| `NatManage.Manage` | internal/controllers/natgateway_controller.go:167-324 | the allocations are consistent and are exactly the kept ones, then claimed ones, then free ones whose claim succeeded, up to the number of slots; `used` exceeds the sections by the one slot still in hand |
| `NatServed.RoleIs` | internal/controllers/natgateway_controller.go:142-240 | kept, claimed and free interfaces, on their fields: first NAT entry of the family ours or none, an address of the family, no public IP of it, not being deleted |
| `NatServed.Served` | internal/controllers/natgateway_controller.go:187-317 | whoever has an allocation wants one and is claimed or could be; a claimed one with an allocation keeps it, any other gets a section with its first address of the family and a reference to its UID, name and node |
| `NatServed.NobodyLeftOut` | internal/controllers/natgateway_controller.go:242-317 | who wants an allocation and is claimed, or could be, has one unless all slots are taken, and no free interface is served before a claimed one |
| `NatGateway.Reconcile` | internal/controllers/natgateway_controller.go:364-389 | from any table an earlier pass wrote, the pass writes a canonical, safe table of what manage allocated |
| `NatGateway.Run` | internal/controllers/natgateway_controller.go:364-389 | over any run with changing addresses, port counts, interfaces, failing claims, failing writes and lagging reads, every table written is safe and no two lookups in it overlap |
| `NatGateway.WorkConserving` | internal/controllers/natgateway_controller.go:195-323 | the table has min(servable interfaces, slots) sections; `used` exceeds that by at most one; with all claims successful both are min(requests, slots) |
| `NatGateway.SecondPass` | internal/controllers/natgateway_controller.go:207-221 | every interface still claimed and selected keeps its section verbatim; if all of them are, the identical table is written if and only if it is full or nobody else can be served |
| `NatGateway.Idempotent` | internal/controllers/natgateway_controller.go:344-356 | if every claim succeeded, a second pass over the interfaces left behind, whichever releases took effect, writes the identical table |
| `NatInterface.ClaimerNone` | api/core/v1alpha1/networkinterface_types.go:121-129 | no claimer exactly when no entry has the family; otherwise the claimer's entry is in the list |
| `NatClaim.StepKeepsInv` | internal/client/client.go:38-88 | every read, check, conditional patch (reported, lost or failed), retry, foreign write, creation and deletion keeps one entry per family at every version |
| `NatClaim.ClaimsExclusive` | internal/client/client.go:38-88 | in every interleaving no version of an interface has two entries of one family, and a call that reports success found or put its own entry on its own object |
| `NatClaim.PatchLandsClean` | internal/client/client.go:38-88 | a claim patch that takes effect, its reply lost or not, lands on the latest version, which has no entry of the family, and only appends its entry |
| `NatClaim.CheckDecides` | internal/client/client.go:65-76 | in every reachable state the check fails on another object or another's entry, succeeds on the call's own claim, and goes on to patch without an entry of the family |
| `NatClaim.PatchDecides` | internal/client/client.go:78-87 | in every reachable state a patch on the latest version appends the entry and succeeds; on an older one the call reads again, unless that was its last attempt |
| `NatClaim.BeginStarts` | internal/client/client.go:38-55 | a call on an unclaimed version starts with five attempts; on a claimed one it fails |
| `NatClaim.ClaimSucceeds` | internal/client/client.go:38-88 | from every reachable state an uncontended claim of an unclaimed interface succeeds and the latest list is the old one plus its entry |
| `NatClaim.RetrySucceeds` | internal/client/client.go:58-88 | from every reachable state a call that meets a newer version, with an attempt left and the interface still unclaimed, succeeds on its next round |
| `NatClaim.SubListOnePerFamily` | internal/controllers/networkinterfacenatrelease_controller.go:86-105 | storing any sub-list of an earlier list keeps one entry per family |
| `NatAutoscaler.UnclampedIs` | internal/controllers/natgatewayautoscaler_controller.go:139-158 | the target is the requests divided by the slots, rounded up when capacity suffices and down when it does not |
| `NatAutoscaler.WithinOneIP` | internal/controllers/natgatewayautoscaler_controller.go:139-158 | capacity at the target is within one address of the requests; it covers them if and only if it did before or the requests fill whole addresses |
| `NatAutoscaler.FixedPoint` | internal/controllers/natgatewayautoscaler_controller.go:139-158 | one step reaches a fixed point, with or without limits |
| `NatAutoscaler.DesiredNonNegative` | internal/controllers/natgatewayautoscaler_controller.go:139-158 | the target is negative if and only if the maximum is |
| `NatAutoscaler.DesiredWithin` | internal/controllers/natgatewayautoscaler_controller.go:151-157 | never above the maximum, not below the minimum unless the maximum is, and within them the unlimited target |
| `NatAutoscaler.GenerateIPs` | internal/controllers/natgatewayautoscaler_controller.go:93-103 | the requested number of empty entries with names distinct from each other and from the existing ones; none exactly when too few usable names are drawn |
| `NatAutoscaler.ManageIPs` | internal/controllers/natgatewayautoscaler_controller.go:105-127 | the list gets the desired length, which is then its own target; the common prefix of the old list is kept, all names are distinct; none exactly when too few usable names are drawn |
| `CacheModel.StepRefines` | internal/controllers/scheduler/cache.go:175-436 | every operation keeps the three indexes in agreement and does to the map from UID to instance and phase, and to the live nodes, exactly what the plain map does, with the same outcome |
| `CacheModel.RunRefines` | internal/controllers/scheduler/cache.go:175-436 | after any sequence of operations the indexes agree and stand for the plain map; cleanup's panic is unreachable |
| `CacheModel.ContainerInUse` | internal/controllers/scheduler/cache.go:379-412 | a container exists exactly when its node is live or some instance names it |
| `CacheModel.CleanupRefines` | internal/controllers/scheduler/cache.go:414-436 | cleanup removes exactly the assumed instances whose binding finished |
| `CacheModel.AddedNeverAssumed` | internal/controllers/scheduler/cache.go:276-343 | between being added and being assumed again an instance has been out of the cache |
| `CacheHistory.ExpiresIff` | internal/controllers/scheduler/cache.go:217-234 | an instance assumed and neither added, forgotten nor removed since is gone if and only if its binding was finished and a cleanup came after that; until then it is cached as assumed |
| `CacheHistory.ForgetDrops` | internal/controllers/scheduler/cache.go:194-215 | forgetting takes it out if and only if the node is the one it was assumed on |
| `CacheHistory.AddConfirms` | internal/controllers/scheduler/cache.go:276-308 | adding it, cached, finished or expired, caches it as added |
| `CacheHistory.AddedStays` | internal/controllers/scheduler/cache.go:276-343 | an added instance stays as it is, whatever is finished, forgotten, cleaned up, assumed or added, until it is updated or removed |
| `CacheHistory.UpdateReplaces` | internal/controllers/scheduler/cache.go:310-343 | an update on the same node replaces an added instance; another node is a panic and changes nothing |
| `CacheHistory.RemoveDrops` | internal/controllers/scheduler/cache.go:345-372 | a removal on the same node takes an instance out; another node is a panic and changes nothing |
| `CacheHistory.OthersUntouched` | internal/controllers/scheduler/cache.go:374-412 | no operation but a cleanup changes the entry of an instance it does not name |
| `CacheHistory.LiveIff` | internal/controllers/scheduler/cache.go:236-274 | a node is live, as it is, if and only if the last operation on its name set it |
| `CacheModel.LiveContainersShow` | internal/controllers/scheduler/cache.go:125-140 | the containers of live nodes hold exactly the instances the plain map places there |
| `SchedulerCache.ContainerInfo.ShallowCopy` | internal/controllers/scheduler/cache.go:84-89 | a new object with the same content |
| `SchedulerCache.SchedulerCache.IsAssumedInstance` | internal/controllers/scheduler/cache.go:164-173 | an error for an empty UID, otherwise whether the instance is assumed |
| `SchedulerCache.SchedulerCache.AssumeInstance` | internal/controllers/scheduler/cache.go:175-192 | the live objects take the plain map's assume step, error included |
| `SchedulerCache.SchedulerCache.ForgetInstance` | internal/controllers/scheduler/cache.go:194-215 | the live objects take the plain map's forget step, which reports an error even after removing |
| `SchedulerCache.SchedulerCache.FinishBinding` | internal/controllers/scheduler/cache.go:217-234 | the live objects take the plain map's finish step |
| `SchedulerCache.SchedulerCache.SetContainer` | internal/controllers/scheduler/cache.go:236-258 | the live objects take the plain map's set-node step, keeping the instances already there |
| `SchedulerCache.SchedulerCache.RemoveContainer` | internal/controllers/scheduler/cache.go:260-274 | the live objects take the plain map's remove-node step; the container stays while it holds an instance |
| `SchedulerCache.SchedulerCache.AddInstance` | internal/controllers/scheduler/cache.go:276-308 | the live objects take the plain map's add step, replacing an assumed instance through its recorded container |
| `SchedulerCache.SchedulerCache.UpdateInstance` | internal/controllers/scheduler/cache.go:310-343 | the live objects take the plain map's update step, although the old container is found through the object handed in |
| `SchedulerCache.SchedulerCache.RemoveInstance` | internal/controllers/scheduler/cache.go:345-372 | the live objects take the plain map's remove step |
| `SchedulerCache.SchedulerCache.CleanupAssumedInstances` | internal/controllers/scheduler/cache.go:414-436 | in any order, exactly the finished assumed instances go, and the call never panics |
| `SchedulerCache.Snapshot.Update` | internal/controllers/scheduler/cache.go:125-140 | the snapshot shows exactly the live nodes with exactly the instances the plain map places there, in objects of its own |
| `SchedulerCache.Snapshot.ListNodes` | internal/controllers/scheduler/cache.go:146-148 | lists exactly the nodes shown, each once, with their instances |
| `SchedulerCache.Snapshot.GetNode` | internal/controllers/scheduler/cache.go:150-156 | finds exactly the nodes shown |
| `SchedulerCache.SnapshotIsolation` | internal/controllers/scheduler/cache.go:84-140 | after any later sequence of operations the cache stands for the plain map run through them, and the snapshot still shows what it showed |
| `NodeAffinity.Compile` | internal/nodeaffinity/nodeaffinity.go:107-162 | an error exactly for a term that is not well formed; otherwise one test per field requirement, in order |
| `NodeAffinity.CompiledMatchesIff` | internal/nodeaffinity/nodeaffinity.go:41-52 | matching the compiled term decides the declarative meaning |
| `NodeAffinity.MatchSelector` | internal/nodeaffinity/nodeaffinity.go:168-213 | matches exactly when some non-empty, well-formed term does; an error only if none matches and one is malformed |
| `NodeAffinity.PinnedAdmits` | internal/controllers/util.go:63-110 | the replaced affinity admits exactly the node of that name (and a node without a name), whatever it replaced |
| `NodeAffinity.PinnedTarget` | internal/controllers/util.go:28-58 | the target of a pinned instance is its node, before and after binding |
| `PlacementRules.AdmitsIff` | internal/nodeaffinity/nodeaffinity.go:168-230 | without a required node affinity every node is admitted; else exactly the nodes for which some term's labels and fields hold, spelled out |
| `PlacementRules.TargetIff` | internal/controllers/util.go:28-58 | the target is the node bound to, else the only value of the first requirement of a node name, by term and field, else none |
| `AntiAffinity.CountTerms` | internal/controllers/scheduler_controller.go:136-154 | after counting, exactly the domains hit so far have a positive count; an error exactly for a selector that does not parse |
| `AntiAffinity.Counts` | internal/controllers/scheduler_controller.go:120-194 | the counted domains are exactly those hit by some instance of the namespace, in any order; an error exactly when a selector evaluated for one does not parse |
| `AntiAffinity.IncomingExact` | internal/controllers/scheduler_controller.go:243-265 | the count test on the instance's own terms is the absence of any instance they forbid |
| `AntiAffinity.ExistingExact` | internal/controllers/scheduler_controller.go:226-241 | the count test on a node's labels is the absence of any instance whose terms forbid the incoming one |
| `AntiAffinity.FilterByAntiAffinity` | internal/controllers/scheduler_controller.go:196-224 | keeps exactly the nodes where neither side's required terms rule out the other in a shared domain |
| `PlacementRules.AntiAffinityIff` | internal/controllers/scheduler_controller.go:120-265 | a node passes if and only if no required term, at any index, of the incoming instance or of one of its namespace accepts the other in a shared domain |
| `PlacementRules.MalformedIff` | internal/controllers/scheduler_controller.go:138-145 | the filter fails if and only if an instance of the namespace is there and it or the incoming one has a term that does not parse |
| `TopologySpread.CountMatching` | internal/controllers/scheduler_controller.go:409-423 | the number of matching, non-deleting instances of the namespace; 0 for an empty selector |
| `TopologySpread.CountDomains` | internal/controllers/scheduler_controller.go:340-356 | per domain the sum over eligible nodes, constraints sharing a key added up; exactly the domains of eligible nodes are present |
| `TopologySpread.CriticalPaths` | internal/controllers/scheduler_controller.go:358-371 | in any map order, the value kept per key is a lower bound that some domain attains |
| `TopologySpread.LeastIsMinimum` | internal/controllers/scheduler_controller.go:358-371 | that value is the minimum over the domains of the key |
| `TopologySpread.FilterParsed` | internal/controllers/scheduler_controller.go:341-407 | keeps exactly the nodes whose domain stays within maxSkew of every domain for every constraint |
| `TopologySpread.BuildConstraints` | internal/controllers/scheduler_controller.go:286-312 | all constraints parsed in order, or an error exactly if one does not parse |
| `TopologySpread.FilterByTopology` | internal/controllers/scheduler_controller.go:324-407 | all nodes without constraints; an error exactly for a constraint that does not parse; otherwise exactly the passing nodes |
| `PlacementRules.DomainCountIsHits` | internal/controllers/scheduler_controller.go:341-356 | a domain's count is the number of pairs of constraint and instance that count in it, also when constraints share a key |
| `PlacementRules.SpreadIff` | internal/controllers/scheduler_controller.go:324-407 | a node passes if and only if all selectors parse, it has all keys, and for every constraint its domain's hits, with the instance, stay within maxSkew of every domain |
| `Scheduling.FilterByAffinity` | internal/controllers/scheduler_controller.go:92-118 | keeps exactly the nodes the required node affinity admits; a node whose match fails is skipped |
| `Scheduling.GetNodesForInstance` | internal/controllers/scheduler_controller.go:425-467 | the candidates are exactly the intersection of the three filters; a malformed selector is an error exactly when the filters before it left a node over |
| `Scheduling.Schedule` | internal/controllers/scheduler_controller.go:469-494 | the chosen node is a candidate with the fewest instances among all candidates; no choice exactly when there is no candidate |
| `PlacementRules.FailsIff` | internal/controllers/scheduler_controller.go:443-467 | scheduling fails if and only if a node is admitted and a term to be evaluated does not parse, or one is admitted and not excluded and a spread constraint does not parse |
| `PlacementRules.CandidateIff` | internal/controllers/scheduler_controller.go:443-467 | a candidate is a node that is admitted, not excluded and passes the spread constraints |
| `Scheduling.PinnedScheduling` | internal/controllers/daemonset_controller.go:278-302 | an instance created for a node can be scheduled only there, and its target stays that node |
| `SchedulerReconcile.ReconcileExists` | internal/controllers/scheduler_controller.go:469-518 | a pass on the live cache is a snapshot step and, if there is a candidate, the assume step of a least-used candidate |
| `PlacementSafety.ObserveKnown` | internal/controllers/scheduler/cache.go:194-436 | events, late additions of bound instances included, keep the cache to bound instances as they are and to the cluster's nodes; nothing new becomes bound |
| `PlacementSafety.VisibleCovered` | internal/controllers/scheduler/cache.go:125-140 | a snapshot shows every visible bound instance, or nothing it could conflict with |
| `PlacementSafety.PassedIsCompatible` | internal/controllers/scheduler_controller.go:196-265 | a node that passed on the snapshot is compatible with everything bound when the instance is assumed, events in between included |
| `PlacementSafety.NextKeepsInv` | internal/controllers/scheduler_controller.go:425-518 | snapshot, assume and every event, node removal, late addition and expiry included, keep the bound instances compatible, if snapshots are taken with all of them visible |
| `PlacementSafety.AlwaysSafe` | internal/controllers/scheduler_controller.go:120-265 | over every run, from any start over bound instances, in which every snapshot is taken with all bound instances visible, no two bound instances share a domain that a required term of either one forbids |
| `PlacementSafety.CachedSafe` | internal/controllers/scheduler_controller.go:120-265 | the same for any two cached instances |
| `PlacementSafety.CachedAlwaysSafe` | internal/controllers/scheduler_controller.go:120-265 | over every run, expiry included, without node removal and with cached instances confirmed only, no two cached instances share a domain that a required term of either one forbids |
| `PlacementLimits.CleanupLoses` | internal/controllers/scheduler/cache.go:414-436 | cleanup loses track of a recorded bound instance if and only if its binding has finished and its node has a label |
| `PlacementLimits.PathSafe` | internal/controllers/scheduler_controller.go:425-518 | as long as cleanup expires nothing, no node goes and no stored binding is forgotten, recorded instances stay recorded and bound ones compatible |
| `PlacementLimits.UnrecordedBreaks` | internal/controllers/scheduler_controller.go:425-518 | in every state, a bound instance that is not recorded can be met by one that excludes it |
| `PlacementLimits.CleanupBreaks` | internal/controllers/scheduler/cache.go:428-434 | in every state, expiring a bound instance on a node with a label opens such a continuation |
| `PlacementLimits.SafeIffRecorded` | internal/controllers/scheduler/cache.go:414-436 | every such continuation of a state keeps the bound instances compatible if and only if all of them are recorded in it |
| `SpreadSafety.DomainCountIs` | internal/controllers/scheduler_controller.go:341-356 | with distinct keys and non-empty selectors a domain's sum is the number of its matching instances |
| `SpreadSafety.PassBounds` | internal/controllers/scheduler_controller.go:373-404 | passing the filter bounds the domain's matching instances by every other domain's plus maxSkew |
| `SpreadSafety.NextKeepsInv` | internal/controllers/scheduler_controller.go:324-407 | every snapshot, placement on it, confirmation and finished binding keeps all domains within maxSkew and the snapshot's counts current |
| `SpreadSafety.AlwaysBalanced` | internal/controllers/scheduler_controller.go:324-407 | over every scheduling-only run of a family sharing its constraints, with confirmations between snapshot and placement, no domain's count exceeds another's by more than maxSkew |
| `Expectations.Expectations.Delete` | utils/expectations/expectations.go:85-90 | the controller's expectation is dropped, no other |
| `Expectations.Expectations.ExpectCreationsAndDeletions` | utils/expectations/expectations.go:112-121 | the controller now waits for exactly these names; other controllers are untouched |
| `Expectations.Expectations.CreationObserved` | utils/expectations/expectations.go:123-133 | one name less to be created, if anything is recorded |
| `Expectations.Expectations.DeletionObserved` | utils/expectations/expectations.go:135-145 | one name less to be deleted, if anything is recorded |
| `Expectations.Expectations.Satisfied` | utils/expectations/expectations.go:147-167 | true exactly when nothing is outstanding or the expectation is older than the timeout |
| `Expectations.Expectations.AddHandler` | utils/handler/expectations.go:114-145 | an object seen for the first time discharges its creation, or, if already being deleted, its deletion only |
| `Expectations.Expectations.DeleteHandler` | utils/handler/expectations.go:100-112 | an object gone discharges its deletion, for its own controller only |
| `Expectations.GenerateCreateNames` | utils/expectations/expectations.go:176-189 | the requested number of distinct names; none exactly when too few different ones are drawn |
| `DaemonSetPlan.NodeShouldRun` | internal/controllers/daemonset_controller.go:159-177 | decides the template's node name and required node affinity |
| `DaemonSetPlan.MadeIsLive` | internal/controllers/daemonset_controller.go:278-302 | a created instance is live and its target is the node it was created for |
| `DaemonSetPlan.GroupByNode` | internal/controllers/daemonset_controller.go:137-156 | every instance with a target is in exactly the group of its target, once |
| `DaemonSetPlan.InstancesShouldBeOnNode` | internal/controllers/daemonset_controller.go:179-220 | one needed exactly if none is alive where one should run; an oldest live one survives; exactly the other live ones, or all where none should run, are doomed |
| `DaemonSetPlan.UnscheduledWithoutNode` | internal/controllers/daemonset_controller.go:222-243 | exactly the unbound instances whose target is no known node |
| `DaemonSetPlan.Manage` | internal/controllers/daemonset_controller.go:245-276 | the whole plan: needed nodes once each, survivors, and exactly the doomed names |
| `DaemonSetRules.NeedsIff` | internal/controllers/daemonset_controller.go:159-196 | a node gets an instance if and only if the template names it or none, its required affinity admits it, and nothing alive has it as its target; each once |
| `DaemonSetRules.SparesOldest` | internal/controllers/daemonset_controller.go:190-212 | on an admitted node with instances alive, one no younger than any is spared and all others are deleted |
| `DaemonSetRules.ClearsOthers` | internal/controllers/daemonset_controller.go:213-243 | everything with a known node that is not admitted as its target is deleted; with an unknown one exactly what is not bound |
| `DaemonSetRules.DeletesOnly` | internal/controllers/daemonset_controller.go:179-276 | nothing without a target, and nothing being deleted on an admitted node, is deleted |
| `DaemonSetRules.MadeIs` | internal/controllers/daemonset_controller.go:278-302 | what is created has the DaemonSet's namespace and the template's node, anti-affinity and spread, and only its node admits it |
| `DaemonSetConvergence.RunningNode` | internal/controllers/daemonset_controller.go:179-276 | after applying the plan a node that should run the daemon has exactly one live instance, no younger than any that was there |
| `DaemonSetConvergence.OtherNode` | internal/controllers/daemonset_controller.go:213-243 | elsewhere only bound instances of unknown nodes are left |
| `DaemonSetConvergence.Replan` | internal/controllers/daemonset_controller.go:245-276 | planning again on the state reached yields nothing |
| `DaemonSetConvergence.Converges` | internal/controllers/daemonset_controller.go:179-276 | all of this together: the plan converges in one application |
| `DaemonSetRuns.SeenLive` | internal/controllers/daemonset_controller.go:137-156 | what is live and was created before the view's position is live in the view, with the same target, binding included |
| `DaemonSetRuns.EmptyIff` | internal/controllers/daemonset_controller.go:361-373 | a node without live instance in the view is really empty if and only if no live instance the view has not seen created targets it |
| `DaemonSetRuns.StartKeepsInv` | internal/controllers/daemonset_controller.go:312-323 | recording expectations before the writes keeps: unseen creations are expected, pending nodes are empty and different |
| `DaemonSetRuns.CreateKeepsInv` | internal/controllers/daemonset_controller.go:327-333 | a successful create keeps at most one live instance per node |
| `DaemonSetRuns.AdvanceKeepsInv` | utils/handler/expectations.go:114-145 | moving the view by watch or relist keeps every reported creation expected until it is handled |
| `DaemonSetRuns.HandleKeepsInv` | utils/handler/expectations.go:114-145 | handling a notification late never discharges a creation the view has not passed |
| `DaemonSetRuns.NeverTwo` | internal/controllers/daemonset_controller.go:304-377 | in every state of every run, from any start over what is there, with arbitrary lag, the server holds at most one live instance per target node, unless a stored create stopped being expected |
| `DaemonSetLimits.BlockedPath` | internal/controllers/daemonset_controller.go:368-373 | a name that is expected and can no longer be discharged blocks every further plan, and at most one live instance per node stays |
| `DaemonSetLimits.LostReplyBreaks` | internal/controllers/daemonset_controller.go:327-333 | in every state, if everything else expected can be discharged, dropping a stored name from the expectation leads the same DaemonSet to two live instances on its node |
| `DaemonSetLimits.LostReplyIff` | internal/controllers/daemonset_controller.go:327-333 | after a lost reply two live instances can meet on a node if and only if everything still expected can be discharged |
| `DaemonSetReconcile.SyncCreates` | internal/controllers/daemonset_controller.go:327-333 | the live create loop is a sequence of create steps, one per name; it stores exactly what the server takes, and exactly the confirmed names stay expected |
| `DaemonSetReconcile.SyncDeletes` | internal/controllers/daemonset_controller.go:335-349 | the live delete loop is a sequence of delete steps, one per name, that touches nothing else; if all succeed at once, those are gone |
| `DaemonSetReconcile.Reconcile` | internal/controllers/daemonset_controller.go:354-377 | a live pass is a sequence of steps of the runs and, unless a create reply is lost, keeps their invariant; while something is expected it does nothing; on an exact view with everything done at once it settles the DaemonSet on all nodes |
| `DaemonSetReconcile.Deliver` | utils/handler/expectations.go:100-145 | a notification delivered to the live handlers is the handling step of the runs |
| `IpAllocators.AddressStore.Allocate` | internal/registry/ipallocator/ipallocator.go:81-159 | succeeds exactly for an existing address of the family whose claim reference is empty, controlled or not; sets that reference only |
| `IpAllocators.AddressStore.AllocateNext` | internal/registry/ipallocator/ipallocator.go:161-217 | creates a new address of the family, controlled by the object and without claim reference |
| `IpAllocators.AddressStore.Release` | internal/registry/ipallocator/ipallocator.go:219-263 | a controlled address is deleted, whoever claims it; any other one loses its claim reference |
| `IpAllocators.AllocatorsFor` | internal/registry/ipallocator/allocators.go:93-112 | an error exactly if some request's family has no allocator, although the search stops after two families |
| `IpAllocators.Diff` | internal/registry/ipallocator/allocators.go:227-239 | what is to be released is the old addresses minus the new ones; every request that is not the first to repeat an old address has its own place, in order, in the list to allocate |
| `IpAllocators.AllocateIPs` | internal/registry/ipallocator/allocators.go:131-159 | grants request by request and stops at the first that fails, leaving what was granted before |
| `IpAllocators.GrantsAre` | internal/registry/ipallocator/allocators.go:131-159 | if all are granted: given addresses as they are, unclaimed before or just created; empty requests get new ones; an address comes twice only if it was created and then asked for by value |
| `IpAllocators.GrantAllIff` | internal/registry/ipallocator/allocators.go:131-159 | all requests are granted if and only if each named address is of its family, unclaimed, existing or created before, and named once, and each empty request gets a new address of its family |
| `IpAllocators.WriteBack` | internal/registry/ipallocator/allocators.go:246-248 | in any order, exactly the allocated requests get their address, at their own index |
| `IpAllocators.AllocateUpdate` | internal/registry/ipallocator/allocators.go:207-248 | succeeds exactly if every family has an allocator and all requests can be granted; then the specification is filled, the store is the granted one, and the transaction lists the old addresses no longer used; on an error the specification is unchanged |
| `IpAllocators.Commit` | internal/registry/ipallocator/allocators.go:250-268 | releases exactly the listed addresses, each through an allocator that exists |
| `IpAllocators.OutcomeHolds` | internal/registry/ipallocator/allocators.go:207-268 | after the update the object holds exactly the addresses of its new specification, whoever else holds some of them |
| `IpAllocators.UpdateAndCommit` | internal/registry/ipallocator/allocators.go:207-268 | the same of the live store: given addresses untouched, dropped ones released, empty requests filled at their own index, and the whole store as stated |
| `AddressRuns.DistinctIff` | internal/registry/ipallocator/allocators.go:232-248 | the new specification lists no address twice if and only if nothing newly asked for by value is the object's own or did not exist |
| `AddressRuns.OthersKeptIff` | internal/registry/ipallocator/ipallocator.go:219-263 | what others hold is unchanged if and only if no dropped address is held by another object as well |
| `AddressRuns.ExclusiveIff` | internal/registry/ipallocator/ipallocator.go:132-159 | claims stay exclusive if and only if no request newly names an address that is controlled or does not exist |
| `AddressRuns.AlwaysSettled` | internal/registry/ipallocator/allocators.go:207-268 | over every run of updates that newly ask by value for uncontrolled addresses only, every object always holds exactly what its specification lists |
| `AddressRuns.CanAskForShared` | internal/registry/ipallocator/ipallocator.go:132-159 | asking by value for an address created for another object is granted |
| `AddressRuns.SharedThenLost` | internal/registry/ipallocator/ipallocator.go:219-263 | after that, every update by which the other object drops the address takes it from a specification that still lists it |
| `AddressRuns.SharingUnsettles` | internal/registry/ipallocator/allocators.go:207-268 | from every world in order with an address created for one object, two updates lead to a specification listing an address its object does not hold |

## Left out

- Reconciler plumbing, watches, finalizers, owner references, REST storage, type conversion, generated code: I/O, or easy members only.
- Label selector semantics: a parsed selector is the set of label sets it accepts, with a flag for having no requirements; one that does not parse is an error value.
- Strings that are only compared (names, UIDs, labels) are numbers; prefixes of generated names and revision hashes are not modelled.
- Random names, random address choices and wall-clock time are parameters: streams of draws, the server's pick, whether an expectation is too old.
- Integer widths: counts and ports are unbounded; the port arithmetic stays far inside 32 bits for ports per interface in 1..64512.
- Bit sets are sets of slot numbers, and sorting is an insertion sort whose result is only used as an ordered permutation.
- Nodes and instances inside a filter are values, and a filter's result lists positions in the snapshot in place of pointers.
- Locks: operations of the cache and of the expectations are atomic, `ForgetInstance` included, which takes no lock in the code.
- `ReleaseNetworkInterfaceNAT` diffs against the already modified object, so its patch may change nothing; no property relies on a release taking effect, and in the claim protocol it is one of the writers that may store a sub-list.
- The claim call's retry loop is a state machine with the other writers, one step per request, and not a method with a loop.
- NatGateway.Run: claims are an arbitrary set of interfaces whose claim succeeds in a pass; the protocol behind one claim is `NatClaim`.
- PlacementSafety.AlwaysSafe: node labels never change, and a bound instance keeps its namespace, labels, affinity and node; snapshots have to be taken with all bound instances visible, and `PlacementLimits` says when that fails.
- PlacementSafety.CachedAlwaysSafe: node labels never change, nodes are not removed, and an instance is confirmed while it is cached; a confirmation after expiry is covered by `AlwaysSafe` and `PlacementLimits`.
- SpreadSafety.AlwaysBalanced: a fixed set of nodes, no removals, distinct topology keys and non-empty selectors; constraints that share a key are summed by the code, and an empty selector counts nothing.
- DaemonSetRuns.NeverTwo: one controller process that is the only creator, no expectation timeout, and no stored create that stops being expected; adoption and release of instances by label are not modelled.
- DaemonSetConvergence.Converges: all creates succeed and all deletes have completed, on an exact view.
- IpAllocators.UpdateAndCommit: the lister is up to date and releases do not fail; dry runs, AllocateCreate, Release and the revert path (which releases the old addresses, not the newly allocated ones) are not modelled.
- IpAllocators.AllocateUpdate: claims made before an error stay in place, as `AllocateIPs` says; nothing undoes them.
- Updating the IPs of existing daemon instances, status updates and events: no influence on the plan.
- The index containers, the older slot allocator, provider IDs, VNI encoding, garbage collection, certificates and access control are outside the model.
