# Models of the ovn-kubernetes controllers

Dafny models of the parts of `go-controller` whose correctness has to hold over whole runs, with proofs of
what they promise: allocators, event protocols, reconcilers, rule compilers and caches. The outside database,
switch and API server are sets and maps; commands that may fail are parameters saying which ones do. Where the
code changes fields step by step, the model is a class whose methods are proved against a specification
function or a step of a state machine; the theorems are lemmas about those.

- `Cidr` — addresses, CIDR blocks (section 3.1 of RFC 4632) and `configSubnets` with its overlap and family checks.
- `EgressIPSpec`, `EgressIPRuns`, `EgressIPReassign`, `EgressIPStartup`, `EgressIPRestart`, `EgressIP` — the egress IP
  allocator: what one assignment places, what every run keeps, when a reassignment repeats itself, which recorded
  statuses the start-up pass keeps, what a restart loses, and the code's loops over taints, copies and the shared
  allocations.
- `SharedInformer`, `SharedInformerSafety`, `SharedInformerConvergence`, `SharedInformerCallbacks`,
  `SharedInformerProgress`, `InformerObject` — the shared informer with queued handlers as interleaved steps, its
  invariant, its convergence, which callback stands for which change, that it can always drain, and the informer's
  own methods.
- `WorkQueue`, `WorkQueueSafety`, `WorkQueueProgress`, `EventHandler` — the work-queue event handler in the same layers.
- `Ipam`, `JoinSwitch`, `JoinManager` — allocation over several subnets with rollback, the join-switch protocol
  with its separate critical sections, and the manager's methods over the allocators.
- `OvnExpr`, `OvnText`, `OvnParts` — the part of the OVN match language the compilers print: lexer, parser, packet
  meaning, how printed pieces lex, and conjunctions of printed parts. A comparison implies the prerequisite of its
  field, as ovn-sb(5) describes, and an address constant with host bits voids the whole text.
- `EgressFirewallPorts`, `EgressFirewallMatch`, `EgressFirewall` — what a firewall object promises, and its rules down
  to their text.
- `EgressFirewallTable`, `EgressFirewallController` — its ACLs while they are written, command by command, what they
  enforce at each point, and the code that writes them through a transaction.
- `SortedNames`, `GressPolicyMatch`, `GressPolicy` — network policy rules compiled to ACLs found by key.
- `FloatingIPClaim` — the floating IP claim reconciler against late delete events.
- `ExternalGateway` — the external gateway route cache and the routers it mirrors.
- `FlowManager`, `ServiceFlows` — the OpenFlow cache, its wake-up channel, and the service keys in it.
- `PortCache` — the logical port cache with deferred expiry.
- `Wrappers` — an option type.

## What does not hold, and exactly when it does

- `syncEgressIPs` skips the clearing of taint marks when an API call fails
  (`go-controller/pkg/ovn/egressip.go:174-182`). For any list of objects and API results: when marks remain at the end,
  `MarksRemainIff`; the pass keeps exactly the valid statuses if and only if no valid one uses a node marked by the
  failed withdrawals just before it, `KeepsValidStatusesIff`; a mark can make it withdraw a valid status,
  `LeakedMarkWithdrawsValidStatus`, or hide the only host afterwards, `LeakedMarkHidesHost`.
- One object with two equal requested addresses gets the address on two nodes: an assignment keeps addresses
  apart for every allocator if and only if the parsed request has no duplicate (`DistinctIsNecessaryAndSufficient`).
- A reassignment whose status update fails leaves allocations and statuses apart unless, once the old items are
  released, the first free node in load order for every address asked is its old one: `UnrecordedReassignKeepsInvIff`,
  with a state where it is not, `ReassignMayMove`. A deletion whose clean-up fails: `UnrecordedReleaseKeepsInvIff`.
- A restart forgets the allocations of statuses that `syncEgressIPs` keeps: `addEgressIP` assigns, and so enters, only
  objects with an empty status (`go-controller/pkg/ovn/egressip.go:39-43`). The invariant survives a restart if and only
  if no object carries an address (`RestartKeepsInvIff`), and a new object can get the address of another
  (`RestartSharesAddress`); `RunsKeepAllocations` is about runs without a restart.
- `ReleaseIPs` of what `AllocateNextIPs` returned restores the pools if and only if every address is looked up in
  the pool it came from, which overlapping ranges can break: `ReleaseUndoesAllocateNextIff`.
- `ensureJoinLRPIPs` means to free what it took when the node got cached meanwhile, but `return nil, err` clears the
  list its deferred release reads (`go-controller/pkg/ovn/logical_switch_manager.go:394-405`), and releasing a nil list
  does nothing: the addresses leak. Ensures of one node do overlap, since a namespace's handler calls it beside the
  node's (`go-controller/pkg/ovn/namespace.go:477`): `OverlappingEnsuresLeak`. In any overlap of calls an address leaks
  if and only if an ensure loses that race (`RunLeaksIff`), and it stays allocated (`LeakedStays`).
- Port entries without a known protocol print `()`, which is no match expression, and a rule with only such
  entries matches nothing: `EgressGetL4Match`, `ParsesIff`.
- In local gateway mode the printed match agrees with its intent for an address family only if there are
  cluster subnets and all are of that family (`MatchIsExactIff`, `ExclusionIsExactIff`); a dual-stack list makes every
  match unsatisfiable (`DualStackNeverMatches`), and the firewall object is then not enforced (`FirstMatchSurvivesIff`).
- A firewall rule whose CIDR has host bits is accepted (`go-controller/pkg/ovn/egressfirewall.go:72`), but OVN refuses
  its text, and the rule is silently not enforced (`HostBitDenyIsLost`). The object is enforced on a packet it concerns
  if and only if matches can apply to the packet's family and the first rule that applies has the verdict of the first
  one without host bits (`FirstMatchSurvivesIff`); on all packets if and only if wherever a rule with host bits decides,
  a later rule without them decides alike (`EnforcedIff`); beside rules without host bits, one more rule keeps the
  object enforced if and only if it has none (`HostBitsIff`).
- In the same way a network policy's ACL for a block is void when the block or an exception has host bits
  (`BlockACLMeaning`): the traffic it should allow is not allowed (`HostBitExceptionIsLost`). After a first run the ACLs
  allow what the policy allows without such blocks (`FirstRunAllows`), and beside blocks without host bits one more
  block is exact if and only if it has none (`FirstRunExactIff`).
- An egress firewall rule with an unreadable CIDR is skipped without an error, because wrapping a nil error gives
  nil (`go-controller/pkg/ovn/egressfirewall.go:292-296`): the verdict is that of the first valid rule (`FirstMatch`).
- The pass of a fresh suballocator over existing floating IPs stops at an object without a pool address whose deletion
  fails. Every order of the pass leaves the book exact if and only if no live object stops it or none is to be adopted
  (`EveryOrderExactIff`); an early exit lets two live objects get one address (`EarlyExitSharesAddress`), and later
  syncs do not repair the book (`NeverRepaired`). So can a delete event pending from before (`UnknownEventFreesUsedAddress`).
- Deleting a pod's gateway routes keeps the cache a mirror if and only if no command for the pod fails or all do:
  `PodDeletedMirrorsIff`; caching another router for a route leaves the old route behind: `AddMirrorsIff`.
- A port cache timer that fires at the very instant of the expiry leaves its entry for good, because the
  comparison is strict (`go-controller/pkg/ovn/port_cache.go:84`): `RunsKeepTimedIff`; a run that does
  it: `PromptFiringStrands`; for good: `TooPromptStays`.

## Model

| member | source | states |
|---|---|---|
| `Cidr.BaseTestDecidesOverlap` | go-controller/pkg/config/utils.go:154 | one block's base address lies in the other exactly when the blocks share any address |
| `ConfigSubnets.Registry.Append` | go-controller/pkg/config/utils.go:138-147 | the list grows by the subnet and the family maps go on mirroring the list, the join subnet left out |
| `ConfigSubnets.Registry.CheckForOverlaps` | go-controller/pkg/config/utils.go:150-162 | succeeds if and only if no address lies in two registered subnets; otherwise names a pair that shares one |
| `ConfigSubnets.Registry.CheckIPFamilies` | go-controller/pkg/config/utils.go:184-204 | single-stack, dual-stack or illegal, each if and only if the registered kinds use the families that way |
| `EgressIPSpec.HalfOfBest` | go-controller/pkg/ovn/egressip.go:287-369 | a completed assignment places at least half as many addresses as any placement of fresh requested addresses on hosting nodes, one a node |
| `EgressIPSpec.FactorTwoIsTight` | go-controller/pkg/ovn/egressip.go:304-350 | for any two addresses, of whatever families, there are nodes where the best placement is twice as large |
| `EgressIPSpec.NoMatchMeansNoPlacement` | go-controller/pkg/ovn/egressip.go:352-360 | "no matching host found" is returned if and only if no such placement exists |
| `EgressIPSpec.AssignSound` | go-controller/pkg/ovn/egressip.go:304-350 | every item is a fresh requested address on an untainted assignable node that hosts it, no node twice, and what stays unplaced is allocated already or has no fitting node left |
| `EgressIPSpec.DistinctRequestDistinctIPs` | go-controller/pkg/ovn/egressip.go:307-349 | distinct requested addresses give distinct placed addresses |
| `EgressIPSpec.DistinctIsNecessaryAndSufficient` | go-controller/pkg/ovn/egressip.go:321-349 | the request has no duplicate if and only if every assignment of it leaves each address on at most one node |
| `EgressIPSpec.AssignLeastLoaded` | go-controller/pkg/ovn/egressip.go:383-398 | each item's node is least loaded, at that moment, among the hosting assignable nodes the object has not used, for any order a sort by load yields |
| `EgressIPSpec.StopsIff` | go-controller/pkg/ovn/egressip.go:307-320 | the pass stops with the node-address error if and only if some v4IP or v6IP of a node is requested before any text that does not parse, and with the parse error if and only if such a text comes first |
| `EgressIPSpec.ItemsInFields` | go-controller/pkg/ovn/egressip.go:304-350 | every placed address lies in a subnet of its family on a ready, reachable, assignable node, was carried by no node, and is no node's v4IP or v6IP |
| `EgressIPSpec.NothingPlacedIff` | go-controller/pkg/ovn/egressip.go:321-360 | a completed pass places nothing if and only if each address is carried already or no ready, reachable, assignable node has a subnet that contains it |
| `EgressIPSpec.ReportsIff` | go-controller/pkg/ovn/egressip.go:292-369 | which error is returned and when a retry is filed, each if and only if, from the nodes' fields and the request |
| `EgressIPSpec.ReleaseUndoesAssign` | go-controller/pkg/ovn/egressip.go:371-381 | releasing what an assignment placed restores every node's allocations |
| `EgressIPRuns.RunsKeepAllocations` | go-controller/pkg/ovn/egressip.go:287-398 | in every run of assign, release, reassign and node steps each address is on one node whose subnet contains it, an object's items are on distinct nodes, and allocations are exactly the items of live objects |
| `EgressIPRuns.StepPreserves` | go-controller/pkg/ovn/egressip.go:493-510 | every step, reassignment and partial assignment included, keeps that invariant |
| `EgressIPRuns.StepsPlace` | go-controller/pkg/ovn/egressip.go:371-381 | a new or reassigned object gets what an assignment places, its old items released before; a deleted one leaves no allocation |
| `EgressIPReassign.UnrecordedReassignKeepsInvIff` | go-controller/pkg/ovn/egressip.go:493-510 | when the new status cannot be stored, the invariant survives if and only if, with the old items released, every address asked before a stop is already allocated and not carried, or was on its first free host in load order, or had none; and nothing else is carried |
| `EgressIPReassign.ReassignMayMove` | go-controller/pkg/ovn/egressip.go:493-510 | for every address there is a sound state whose reassignment, if not stored, breaks the invariant |
| `EgressIPRuns.UnrecordedReleaseKeepsInvIff` | go-controller/pkg/ovn/egressip.go:74-101 | a deletion whose clean-up fails after the release keeps the invariant if and only if there was nothing to release |
| `EgressIPStartup.KeepsValidStatusesIff` | go-controller/pkg/ovn/egressip.go:121-193 | for any objects and API results the start-up pass keeps exactly the valid statuses if and only if no valid one uses a node that the unbroken stretch of failed withdrawals before it marked |
| `EgressIPStartup.MarksRemainIff` | go-controller/pkg/ovn/egressip.go:170-191 | marks remain at the end if and only if from some object on whose status starts with a sound item every object is withdrawn with a failing API call |
| `EgressIPStartup.LeakedMarkWithdrawsValidStatus` | go-controller/pkg/ovn/egressip.go:170-191 | two objects for which the pass withdraws the second although it is valid and its API calls work |
| `EgressIPStartup.SyncKeepsValidStatuses` | go-controller/pkg/ovn/egressip.go:121-193 | with a working API server the start-up pass keeps exactly the valid statuses and leaves no mark |
| `EgressIPStartup.AssignedIsValid` | go-controller/pkg/ovn/egressip.go:121-193 | what an assignment places is a status the start-up pass would keep |
| `EgressIPStartup.LeakedMarkHidesHost` | go-controller/pkg/ovn/egressip.go:170-191 | after a leak an assignment reports no match although the only node could host the address |
| `EgressIPRestart.RestartKeepsInvIff` | go-controller/pkg/ovn/egressip.go:36-46 | once the allocator is set up anew beside the kept statuses, the invariant holds if and only if no object carries an address |
| `EgressIPRestart.RestartSharesAddress` | go-controller/pkg/ovn/egressip.go:36-46 | for every address there is a sound state after whose restart a new object gets an address that another object's valid status carries on another node |
| `EgressIP.Controller.AssignEgressIPs` | go-controller/pkg/ovn/egressip.go:287-369 | the loops over requests and tainted copies place exactly the specified items, return its error and file its retry, also on the early exits |
| `EgressIP.Controller.PlaceRequest` | go-controller/pkg/ovn/egressip.go:307-350 | the loop over the requested addresses places what the specified assignment places and stops where it stops, in the shared allocations too |
| `EgressIP.Controller.TryNodes` | go-controller/pkg/ovn/egressip.go:322-349 | an address not allocated before goes to the first untainted copy that hosts it, which is tainted and whose node records it; an allocated one changes nothing |
| `EgressIP.Controller.GetSortedEgressData` | go-controller/pkg/ovn/egressip.go:383-398 | copies of the assignable nodes by rising load, and exactly the addresses allocated anywhere |
| `EgressIP.Controller.IsAnyClusterNodeIP` | go-controller/pkg/ovn/egressip.go:195-202 | true if and only if the address is the v4IP or the v6IP of some node |
| `EgressIP.Controller.ReleaseEgressIPs` | go-controller/pkg/ovn/egressip.go:371-381 | every item's address leaves its node's allocations and nothing else changes |
| `EgressIP.Controller.SyncEgressIPs` | go-controller/pkg/ovn/egressip.go:121-193 | the start-up pass as it runs gives the specified verdicts and leaves the specified marks |
| `EgressIP.Controller.SetNodeEgressFlag` | go-controller/pkg/ovn/egressip.go:400-422 | the flag named, of a known node, gets the value; its other fields and all other nodes stay |
| `EgressIP.Controller.InitEgressIPAllocator` | go-controller/pkg/ovn/egressip.go:512-545 | a new node with a readable annotation starts with no allocations; an address that does not parse is an error, an unreadable annotation only keeps the node out, and a known node is left alone |
| `SharedInformerSafety.InvKept` | go-controller/pkg/factory/handler.go:84-193 | every lock or channel operation, by any goroutine, keeps the protocol's invariant |
| `SharedInformerConvergence.RunDeliversInOrder` | go-controller/pkg/factory/handler.go:112-193 | in every run a live handler's calls are its initial adds, exactly its listing once registered, then its queued events, and those about one object are a gapless stretch of the changes in order, starting no later than the listing |
| `SharedInformerConvergence.RunConverges` | go-controller/pkg/factory/handler.go:187-193 | once all queues drain, a live handler's last call about an object is an add or update with the stored version if the filter takes it, and otherwise a delete or none |
| `SharedInformerCallbacks.RunTells` | go-controller/pkg/factory/handler.go:39-110 | in every run a live handler's callbacks about a key are its initial add and then, for an unbroken stretch of the key's history, an add exactly where the object comes into the filter's sight, an update with the version before it exactly where it stays in sight, and a delete of the version last seen exactly where it leaves |
| `SharedInformerCallbacks.DrainedTells` | go-controller/pkg/factory/handler.go:39-110 | once drained, that stretch reaches to the end of the history |
| `SharedInformerProgress.CanDrain` | go-controller/pkg/factory/handler.go:84-193 | from every state of every run the informer can drain without further changes, and then agrees with the store |
| `SharedInformerProgress.RemovedHearNothing` | go-controller/pkg/factory/handler.go:131-150 | a removed handler gets no callback any more, whatever happens |
| `SharedInformerProgress.RemovedLeaves` | go-controller/pkg/factory/handler.go:131-150 | once the write lock is free it leaves the handlers, and the next event is not delivered to it |
| `SharedInformerConvergence.DrainedAgrees` | go-controller/pkg/factory/factory.go:443-461 | the invariant alone gives that agreement, whatever run led there |
| `InformerObject.GetQueueNum` | go-controller/pkg/factory/handler.go:167-184 | hashing the namespaced name byte by byte gives the queue that shards the protocol, below the number of queues |
| `InformerObject.Fnv32Concat` | go-controller/pkg/factory/handler.go:177-183 | writing a name in pieces hashes the whole name |
| `InformerObject.Fnv32Known` | go-controller/pkg/factory/handler.go:167-184 | the hash agrees with two published values of 32-bit FNV-1 |
| `InformerObject.Informer.EnqueueEvent` | go-controller/pkg/factory/handler.go:187-193 | the event joins the end of its object's queue |
| `InformerObject.Informer.CopyHandlers` | go-controller/pkg/factory/handler.go:84-90 | the loop under the read lock copies exactly the registered handlers |
| `InformerObject.Informer.Call` | go-controller/pkg/factory/handler.go:39-55 | a live handler that sees the version before or after gets exactly one callback, of the kind and with the versions that the change has for its filter; otherwise nothing is called |
| `InformerObject.Informer.ListForHandler` | go-controller/pkg/factory/factory.go:418-461 | under the write lock, exactly the stored objects the filter takes are listed |
| `InformerObject.Informer.KillHandler` | go-controller/pkg/factory/handler.go:131-150 | the first removal marks the handler dead, any later one is refused, also after the handler has left the map |
| `WorkQueueSafety.InvKept` | go-controller/pkg/informer/informer.go:96-336 | every step of callbacks, queue and workers keeps the reconciliation invariant |
| `WorkQueueSafety.RunSettles` | go-controller/pkg/informer/informer.go:253-336 | at rest each key not given up on was synced at a point of its history after which only objects being deleted, unchanged versions and refused updates came, and the last call says what the store held then |
| `WorkQueueSafety.RunConverges` | go-controller/pkg/informer/informer.go:210-336 | at rest, if no version was being deleted and every update brought a new version that the filter took, a stored key's last call was add with the stored version, an absent key's delete or none, deletes and re-creations racing with a sync included |
| `WorkQueueSafety.RunAddsCreated` | go-controller/pkg/informer/informer.go:96-100 | at rest, a key created and never touched again had add called for it |
| `WorkQueueSafety.RunForgetsDeleted` | go-controller/pkg/informer/informer.go:228-243 | at rest an absent key is never left added, whatever the filter refused |
| `WorkQueueProgress.CanSettle` | go-controller/pkg/informer/informer.go:253-336 | from every state of every run callbacks, workers and retries lead to rest if the handler functions succeed, and give up no key whose function had not failed |
| `WorkQueueProgress.GivenUpAfterFour` | go-controller/pkg/informer/informer.go:278-291 | in every run a key is given up only after four syncs |
| `EventHandler.Handler.Notify` | go-controller/pkg/informer/informer.go:96-118 | adds are queued, updates only if the version changed and the filter agrees, deletes once indexed, objects being deleted not at all: the key is dirty exactly then, and otherwise the queue is as it was |
| `EventHandler.Handler.SyncHandler` | go-controller/pkg/informer/informer.go:310-336 | calls add with the stored version, or delete with the indexed one and then forgets it, or fails without a call; the invariant is kept |
| `EventHandler.Handler.ProcessNextWorkItem` | go-controller/pkg/informer/informer.go:253-305 | one turn keeps the invariant and ends the processing of its key: the last call is then add with the stored version, or delete with the indexed one, now forgotten; after a failure the key is retried or given up |
| `Ipam.ReleaseUndoesAllocate` | go-controller/pkg/ovn/logical_switch_manager.go:162-286 | releasing what AllocateIPs reserved restores every pool, overlapping ranges or not |
| `Ipam.ReleaseUndoesAllocateNextIff` | go-controller/pkg/ovn/logical_switch_manager.go:209-286 | releasing what AllocateNextIPs returned restores the pools if and only if each address is looked up in the pool it came from |
| `Ipam.AllocatedIsTaken` | go-controller/pkg/ovn/logical_switch_manager.go:162-286 | an allocated address cannot be allocated again, a released one is free if it is usable |
| `Ipam.SwitchManager.AllocateIPs` | go-controller/pkg/ovn/logical_switch_manager.go:162-205 | succeeds if and only if every address in a pool is free there and no pool is asked twice; gains exactly those addresses, or on error leaves every pool as it was |
| `Ipam.SwitchManager.AllocateNextIPs` | go-controller/pkg/ovn/logical_switch_manager.go:209-256 | succeeds if and only if every pool has a free address; takes one from each, or on error nothing |
| `Ipam.SwitchManager.ReleaseIPs` | go-controller/pkg/ovn/logical_switch_manager.go:259-286 | each address leaves the first pool whose range contains it; an empty list changes nothing and is no error |
| `JoinSwitch.InvKept` | go-controller/pkg/ovn/logical_switch_manager.go:339-420 | every step between the allocator locks and the cache lock, of any overlapping calls, keeps ownership disjoint and complete |
| `JoinSwitch.RunLeaksIff` | go-controller/pkg/ovn/logical_switch_manager.go:382-408 | in any overlap of ensures, reservations and releases addresses leak if and only if some ensure finds its node cached when it stores, and there are join subnets |
| `JoinSwitch.LeakedStays` | go-controller/pkg/ovn/logical_switch_manager.go:394-405 | what has leaked stays allocated for the rest of the run |
| `JoinSwitch.OverlappingEnsuresLeak` | go-controller/pkg/ovn/logical_switch_manager.go:382-408 | a run of two ensures of one node, for any two addresses of a join subnet, that ends with one cached and the other leaked |
| `JoinSwitch.SerialRunsNeverLeak` | go-controller/pkg/ovn/logical_switch_manager.go:382-408 | nothing leaks in runs with at most one call for each node at a time |
| `JoinSwitch.RunAllocationsAreOwned` | go-controller/pkg/ovn/logical_switch_manager.go:363-420 | in every run the allocated set is the disjoint union of what each cache entry stands for and is not yet freed, what each call in flight holds, and what has leaked |
| `JoinSwitch.RestingAllocations` | go-controller/pkg/ovn/logical_switch_manager.go:382-420 | at rest it is exactly the cached addresses inside the join subnets and the leaked ones, no two nodes share one, and without leaks it equals the cache if and only if all cached addresses are inside |
| `JoinSwitch.CanReserve` | go-controller/pkg/ovn/logical_switch_manager.go:363-379 | addresses no allocator refuses can be reserved for a node that is not cached; they are then taken and cached |
| `JoinSwitch.CanRelease` | go-controller/pkg/ovn/logical_switch_manager.go:411-420 | a cached node can be released; its addresses are then free and it is forgotten |
| `JoinManager.JoinSwitchIPManager.ReserveJoinLRPIPs` | go-controller/pkg/ovn/logical_switch_manager.go:363-379 | succeeds if and only if the addresses are free and the node is not cached; otherwise pools and cache are as before |
| `JoinManager.JoinSwitchIPManager.EnsureJoinLRPIPs` | go-controller/pkg/ovn/logical_switch_manager.go:382-408 | succeeds if and only if the node is cached, or the switch has a pool for each host subnet and every pool has a free address; the result is the cached addresses, or one fresh address from every pool, cached; an error changes nothing |
| `JoinManager.JoinSwitchIPManager.StoreEnsured` | go-controller/pkg/ovn/logical_switch_manager.go:394-408 | the addresses taken are cached, or, if the node got cached meanwhile, an error is returned and they stay allocated |
| `JoinManager.JoinSwitchIPManager.ReleaseJoinLRPIPs` | go-controller/pkg/ovn/logical_switch_manager.go:411-420 | frees the cached addresses and forgets the node, which is forgotten with an error when the join switch has no pools |
| `JoinManager.JoinSwitchIPManager.EnsureThenRelease` | go-controller/pkg/ovn/logical_switch_manager.go:382-420 | ensuring a new node gets one free address from every pool exactly when each has one, and releasing it restores pools and cache when addresses are looked up where they came from |
| `OvnExpr.LexConcat` | go-controller/pkg/ovn/egressfirewall.go:549-562 | printed pieces that meet at a clean border lex piece by piece |
| `OvnExpr.ParsesTo` | go-controller/pkg/ovn/egressfirewall.go:523-563 | text with the tokens of a well-formed expression parses to that expression |
| `OvnExpr.NumberOfDecimal` | go-controller/pkg/ovn/egressfirewall.go:579 | a port printed in decimal reads back as that port |
| `EgressFirewallPorts.EgressGetL4Match` | go-controller/pkg/ovn/egressfirewall.go:569-630 | for any list of ports in any order the text parses if and only if some protocol is known, and is true of a packet if and only if some entry has its protocol and port 0 or its destination port |
| `EgressFirewallPorts.LexPorts` | go-controller/pkg/ovn/egressfirewall.go:579-623 | a port list with its trailing operator cut off prints the ports as alternatives |
| `EgressFirewallPorts.L4Meaning` | go-controller/pkg/ovn/egressfirewall.go:569-630 | the printed term is true of a packet if and only if an entry allows it |
| `OvnParts.TextParse` | go-controller/pkg/ovn/egressfirewall.go:549-562 | a match parses, to the conjunction of its parts, if and only if no part is empty |
| `EgressFirewallMatch.ParsesIff` | go-controller/pkg/ovn/egressfirewall.go:523-563 | the match parses if and only if there is a destination, an address mode, a known protocol where ports are given, and an exclusion in local mode |
| `EgressFirewallMatch.PartsMeaning` | go-controller/pkg/ovn/egressfirewall.go:523-563 | OVN reads the parts if and only if no target has host bits; they are then true of a packet if and only if destination, source, ports and path all apply, and in local mode every cluster subnet has the packet's family |
| `EgressFirewallMatch.GenerateMatch` | go-controller/pkg/ovn/egressfirewall.go:523-563 | the printed text matches exactly the packets from the namespace to a target, on an allowed port, on the firewall's path, as far as matches can apply to the packet's family; with a target that has host bits it matches nothing |
| `EgressFirewallMatch.MatchIsExactIff` | go-controller/pkg/ovn/egressfirewall.go:549-562 | the printed text agrees with that intent on a family's packets if and only if no target has host bits and it is not local mode, or there are cluster subnets and all are of that family |
| `EgressFirewallMatch.GetClusterSubnetsExclusion` | go-controller/pkg/ovn/egressfirewall.go:632-645 | the printed exclusion is the conjunction over all cluster subnets, or empty |
| `EgressFirewallMatch.ExclusionIsExactIff` | go-controller/pkg/ovn/egressfirewall.go:632-645 | the printed exclusion passes exactly a family's packets that leave the cluster if and only if there are cluster subnets and all are of that family |
| `EgressFirewallMatch.DualStackNeverMatches` | go-controller/pkg/ovn/egressfirewall.go:632-645 | in local mode with cluster subnets of both families no packet matches any rule |
| `EgressFirewall.NumberRules` | go-controller/pkg/ovn/egressfirewall.go:285-299 | the rules are the valid ones among the first 8001, in order, numbered by place |
| `EgressFirewall.FirstSpecDecides` | go-controller/pkg/ovn/egressfirewall.go:366-373 | the first spec that applies decides: an allow rule allows, a deny rule drops |
| `EgressFirewall.RulesKeepVerdict` | go-controller/pkg/ovn/egressfirewall.go:62-80 | the first numbered rule that applies carries the verdict of the first spec that applies, be it with blocks as they are parsed or with those only that OVN reads |
| `EgressFirewall.RuleText` | go-controller/pkg/ovn/egressfirewall.go:366-393 | a rule's text matches exactly the in-scope packets the rule names, by any CIDR the code accepts or by the address sets of a DNS name, of a family that matches can apply to, provided the CIDR has no host bits; otherwise it matches nothing |
| `EgressFirewallController.FirewallController.CreateEgressFirewallRules` | go-controller/pkg/ovn/egressfirewall.go:406-450 | one ACL a switch, or the equal ones the database shows attached to every switch; at every point, also when a commit fails between two switches, each switch carries a first stretch of the rules |
| `EgressFirewallTable.CreateStaged` | go-controller/pkg/ovn/egressfirewall.go:427-438 | a new ACL on one switch gives that switch one more rule at its priority and leaves the others with what they had |
| `EgressFirewallTable.AttachStaged` | go-controller/pkg/ovn/egressfirewall.go:440-446 | attaching an equal ACL of an earlier rule, or of this one on another switch, does the same |
| `EgressFirewallTable.ExtendsAgrees` | go-controller/pkg/ovn/egressfirewall.go:394-399 | wherever compilation stops, ACLs of equal priority carry one text and one action |
| `EgressFirewallTable.FirstMatchSurvives` | go-controller/pkg/ovn/egressfirewall.go:366-402 | for a family that matches can apply to, evaluating the ACLs of a switch by highest priority gives every in-scope packet the verdict of the first matching rule among those compiled that OVN can read, and touches no other packet |
| `EgressFirewallTable.FirstMatchSurvivesIff` | go-controller/pkg/ovn/egressfirewall.go:366-402 | the ACLs enforce the object on a packet if and only if it says nothing about the packet, or matches can apply to its family and the first rule that applies has the verdict of the first such rule without host bits |
| `EgressFirewallTable.EnforcedIff` | go-controller/pkg/ovn/egressfirewall.go:62-80 | the ACLs enforce the object on all packets of such families if and only if wherever a rule with host bits decides, a later one without decides alike |
| `EgressFirewallTable.HostBitsIff` | go-controller/pkg/ovn/egressfirewall.go:72 | in front of rules without host bits that do not back it up, a rule leaves the object enforced if and only if it has none |
| `EgressFirewallTable.HostBitDenyIsLost` | go-controller/pkg/ovn/egressfirewall.go:72 | the object that denies 10.0.0.5/8, as compiled, drops no packet to 10.0.0.5 |
| `EgressFirewallTable.PrefixEnforces` | go-controller/pkg/ovn/egressfirewall.go:406-450 | wherever a failure stops the commands, each switch enforces the first m specs of the object for some m, in order |
| `EgressFirewallController.FirewallController.AddEgressFirewallRules` | go-controller/pkg/ovn/egressfirewall.go:366-402 | succeeds if and only if every DNS name can be added, the nodes are known, every find works and no commit fails; compiles all rules, or up to the first that fails |
| `EgressFirewallController.FirewallController.AddEgressFirewall` | go-controller/pkg/ovn/egressfirewall.go:264-319 | for a namespace without ACLs, success means that the transaction gives first-match semantics on every switch, for exactly the packets above; whatever fails, the database enforces a first stretch of the specs on every switch; priorities stay between 2000 and 10000, equal ones mean one text and action and fall strictly on the join switch, and other ACLs are untouched |
| `EgressFirewallController.FirewallController.HandleAdd` | go-controller/pkg/ovn/ovn.go:660-680 | reports success if and only if the namespace had no object, its address set exists, all its rules can be compiled and no commit fails; the database then enforces the whole object so, and otherwise a first stretch of it on every switch |
| `SortedNames.ListIsSorted` | go-controller/pkg/ovn/gress_policy.go:181 | a set of names lists in strictly rising order |
| `GressPolicyMatch.SelectorACLMeaning` | go-controller/pkg/ovn/gress_policy.go:174-222 | the selectors' ACL text matches exactly peers in the address sets, or of a served family when there are none, on the entry's port at the group's ports |
| `GressPolicyMatch.BlockACLMeaning` | go-controller/pkg/ovn/gress_policy.go:428-452 | a block's ACL text matches exactly peers in the block outside its exceptions if neither has host bits, and otherwise nothing |
| `GressPolicyMatch.LexL4` | go-controller/pkg/ovn/gress_policy.go:48-66 | the port text lexes to its terms and is never the no-ports marker |
| `GressPolicy.FirstRunAllows` | go-controller/pkg/ovn/gress_policy.go:296-452 | written into a table without its rows, the union of a policy's ACLs allows a packet if and only if the policy does so without its blocks that have host bits, which is all it allows if there are none |
| `GressPolicy.FirstRunExactIff` | go-controller/pkg/ovn/gress_policy.go:428-452 | beside blocks without host bits, the union is exact on all packets if and only if one more block and its exceptions have none, given a packet that only this block allows |
| `GressPolicy.HostBitExceptionIsLost` | go-controller/pkg/ovn/gress_policy.go:437-443 | a policy that allows 10.0.0.0/8 except 10.1.0.5/16 has ACLs that do not allow 10.2.0.1 |
| `GressPolicy.RunTwice` | go-controller/pkg/ovn/gress_policy.go:351-426 | a second run changes nothing |
| `GressPolicy.RunUnique` | go-controller/pkg/ovn/gress_policy.go:373-426 | find-or-update keeps one ACL per key |
| `GressPolicy.KeyDetermines` | go-controller/pkg/ovn/gress_policy.go:357-380 | two entries with the same key are the same entry, and the key tells the selectors' entry from the blocks' |
| `GressPolicy.ExactAfterRunIff` | go-controller/pkg/ovn/gress_policy.go:312-346 | after a run over older rows the policy's rows are its entries if and only if it selects peers or has no leftover selector ACL; a policy with selectors keeps a set of its own and always selects |
| `GressPolicy.RerunAllows` | go-controller/pkg/ovn/gress_policy.go:296-349 | rewriting after its address sets changed makes the table exact, and the union allow the same again, while peers are selected |
| `GressPolicy.FailuresNeverWiden` | go-controller/pkg/ovn/gress_policy.go:296-349 | whichever commands fail, what a run leaves allowed is allowed by the policy or was allowed before |
| `GressPolicy.ExactWithFailuresIff` | go-controller/pkg/ovn/gress_policy.go:296-349 | the commands of a first run leave exactly the policy's entries if and only if for each key some command about it works |
| `GressPolicy.RetryRepairs` | go-controller/pkg/ovn/gress_policy.go:296-349 | after any failures a run without them makes the table exact and the union allow what a first run does, while the policy selects peers |
| `GressPolicy.ACLTable.AddOrModifyACLAllow` | go-controller/pkg/ovn/gress_policy.go:351-426 | the row of this key gets the text, or a new row is added; all other rows stay, and all of them if a command fails |
| `GressPolicy.Gress.LocalPodSetACL` | go-controller/pkg/ovn/gress_policy.go:296-349 | tries to write exactly the policy's entries, in order, skipping those whose command fails |
| `GressPolicy.ConstructIPBlockStringsForACL` | go-controller/pkg/ovn/gress_policy.go:428-452 | one text a block, in order |
| `GressPolicy.Gress.AddNamespaceAddressSet` | go-controller/pkg/ovn/gress_policy.go:240-256 | adds the sets of the enabled families unless one is there, and says which |
| `GressPolicy.Gress.DelNamespaceAddressSet` | go-controller/pkg/ovn/gress_policy.go:275-291 | removes them if one is there, and says which |
| `GressPolicy.AddWidens` | go-controller/pkg/ovn/gress_policy.go:240-256 | with sets present, one more allows exactly its members in addition |
| `FloatingIPClaim.RunsKeepExact` | go-controller/pkg/ovn/floatingipclaim.go:257-412 | across any run of sync steps, deletions by others and late delete events the used addresses are exactly those of objects that exist or whose event is pending, plus those a running sync holds |
| `FloatingIPClaim.RunsKeepApart` | go-controller/pkg/ovn/floatingipclaim.go:343-410 | after any run no two live objects share a pool address or a pod |
| `FloatingIPClaim.RunsKeepOwned` | go-controller/pkg/ovn/floatingipclaim.go:257-412 | from any book, partly adopted ones too, no run loses an address: what is used belongs to an object or is held |
| `FloatingIPClaim.EveryOrderExactIff` | go-controller/pkg/ovn/floatingipclaim.go:287-307 | from a fresh suballocator every order of the pass ends exact if and only if no live object lacks a pool address and cannot be deleted, or no live object has a pool address |
| `FloatingIPClaim.EarlyExitSharesAddress` | go-controller/pkg/ovn/floatingipclaim.go:287-307 | for any two addresses there are objects, an order and a failing deletion after which the next sync gives a live object's address to another |
| `FloatingIPClaim.UnknownEventFreesUsedAddress` | go-controller/pkg/ovn/floatingipclaim.go:128-147 | an event the suballocator does not know of frees an address a live object has |
| `FloatingIPClaim.ClaimController.Sync` | go-controller/pkg/ovn/floatingipclaim.go:257-412 | from any book without lost addresses, on every exit addresses and node counts taken without an object are given back and none is lost; an exact book stays exact, a fresh one becomes exact unless a deletion fails and leaves a pool address out, a partly adopted one is exact after if and only if before; unless a deletion fails, objects worth keeping are not deleted and each selected pod ends with an object, if it has addresses, the API creates it, there are nodes, and the pool is not used up by objects and one address for each pod refused |
| `FloatingIPClaim.ClaimController.AdoptOrDelete` | go-controller/pkg/ovn/floatingipclaim.go:287-307 | adopts the objects with pool addresses and deletes the others, in some order, up to the first that has none and cannot be deleted |
| `FloatingIPClaim.ClaimController.DeleteStale` | go-controller/pkg/ovn/floatingipclaim.go:309-340 | keeps exactly the objects of selected pods on known nodes, which only others delete; afterwards every live object is one of them, or a deletion failed |
| `FloatingIPClaim.ClaimController.CreateMissing` | go-controller/pkg/ovn/floatingipclaim.go:343-410 | each pod without an object gets one with a pool address and a known node, unless it has no addresses, its creation fails, there are no nodes or the pool is used up; the book stays exact if it was, no address is lost, one object a pod, and at most one address is held back for each pod refused |
| `FloatingIPClaim.ClaimController.DeleteFloatingIP` | go-controller/pkg/ovn/floatingipclaim.go:128-147 | frees the object's address and node count and keeps the book exact |
| `FloatingIPClaim.ClaimController.Allocate` | go-controller/pkg/ovn/floatingipclaim.go:415-431 | some known node if there is any, its count one higher |
| `FloatingIPClaim.ClaimController.AllocateThenRelease` | go-controller/pkg/ovn/floatingipclaim.go:415-453 | releasing the node that was allocated restores every count |
| `ExternalGateway.AddMirrorsIff` | go-controller/pkg/ovn/egressgw.go:144-155 | caching an added route keeps cache and router equal if and only if the pod's gateway had no other router |
| `ExternalGateway.PodDeletedMirrorsIff` | go-controller/pkg/ovn/egressgw.go:274-288 | deleting a pod's routes keeps them equal if and only if no command fails or every one does |
| `ExternalGateway.RunsStaySound` | go-controller/pkg/ovn/egressgw.go:122-344 | in every run of additions, deletions by gateway and deletions by pod, whatever fails, each cached entry is an installed route |
| `ExternalGateway.RunsMirror` | go-controller/pkg/ovn/egressgw.go:122-344 | in every such run without failures in which pods keep their routers, cache and routers are equal throughout |
| `ExternalGateway.WantedIs` | go-controller/pkg/ovn/egressgw.go:122-160 | the routes wanted are those from each address of each pod to each gateway of its family, on the pod's router |
| `ExternalGateway.NamespaceRoutes.AddGWRoutesForNamespace` | go-controller/pkg/ovn/egressgw.go:122-160 | succeeds if and only if no command about a wanted route fails, and then exactly the wanted routes are added; every cached entry stays an installed route on all paths |
| `ExternalGateway.NamespaceRoutes.AddGWRoutesForPod` | go-controller/pkg/ovn/egressgw.go:294-344 | the same for one pod; succeeds if and only if some route is wanted and no command about one fails |
| `ExternalGateway.NamespaceRoutes.DeletePodGWRoutesForNamespace` | go-controller/pkg/ovn/egressgw.go:177-227 | exactly the routes to the gateway pod's addresses go from cache and routers, except those whose deletion fails, which stay in both |
| `ExternalGateway.NamespaceRoutes.DeletePodRoutes` | go-controller/pkg/ovn/egressgw.go:274-288 | the routes whose deletion works go, and one success drops the pod's whole cache entry |
| `ExternalGateway.NamespaceRoutes.DeleteGWRoutesForPod` | go-controller/pkg/ovn/egressgw.go:260-291 | exactly the pods' routes whose deletion works go, and the cache entries of exactly the pods with such a route; cached entries stay installed and non-empty, so the early return is never taken |
| `ExternalGateway.NamespaceRoutes.DeleteGWRoutesForNamespace` | go-controller/pkg/ovn/egressgw.go:231-257 | the same for all cached pods; without failure the cache is empty and every cached route gone |
| `FlowManager.RunsKeep` | go-controller/pkg/node/healthcheck.go:232-307 | in every run of any number of threads, with any failures, whenever bridge and cache differ there is a token, a thread that owes a request, a runner about to replace, or a failed replacement for the tick to retry |
| `FlowManager.QuietRunsInstall` | go-controller/pkg/node/healthcheck.go:253-307 | once nothing is left to do the bridge shows the cache |
| `FlowManager.CanSettle` | go-controller/pkg/node/healthcheck.go:244-307 | from every state the owed requests and working replacements lead there without changing the cache |
| `FlowManager.RequestFirstLosesWakeUp` | go-controller/pkg/node/gateway_shared_intf.go:164-165 | requesting before the change could leave the change uninstalled |
| `FlowManager.OpenflowManager.SyncFlows` | go-controller/pkg/node/healthcheck.go:253-266 | a replacement that works puts exactly the lines of all entries on the bridge |
| `FlowManager.OpenflowManager.RequestFlowSync` | go-controller/pkg/node/healthcheck.go:244-251 | the token is there afterwards, sent or found |
| `FlowManager.OpenflowManager.Wake` | go-controller/pkg/node/healthcheck.go:270-306 | the runner wakes on a token, which it consumes, or on a tick whose port numbers can be read |
| `ServiceFlows.KeyTellsOwner` | go-controller/pkg/node/gateway_shared_intf.go:71 | a joined key determines its kind, namespace and service for names without underscores (section 2.1 of RFC 1123) |
| `ServiceFlows.KeysDisjoint` | go-controller/pkg/node/gateway_shared_intf.go:71-141 | different services have no key in common |
| `ServiceFlows.KeysIff` | go-controller/pkg/node/gateway_shared_intf.go:37-141 | a service's keys are those of each port's node port in each served family, of each ingress address that parses, and of each external address |
| `ServiceFlows.UnchangedKeys` | go-controller/pkg/node/gateway_shared_intf.go:169-178 | the skip test is sound: what it lets through has the same keys and cluster IP status |
| `ServiceFlows.RunsAgree` | go-controller/pkg/node/gateway_shared_intf.go:157-205 | after any run of add, update and delete the keys are exactly the base keys and those of live services with a cluster IP |
| `ServiceFlows.NodePortWatcher.UpdateServiceFlowCache` | go-controller/pkg/node/gateway_shared_intf.go:37-155 | the loops set or clear exactly the service's keys, touch no other entry and lose no wake-up |
| `ServiceFlows.NodePortWatcher.AddService` | go-controller/pkg/node/gateway_shared_intf.go:158-167 | adds the keys of a service with a cluster IP and leaves no request owed |
| `ServiceFlows.NodePortWatcher.UpdateService` | go-controller/pkg/node/gateway_shared_intf.go:169-195 | replaces the old version's keys by the new one's and leaves no request owed |
| `ServiceFlows.NodePortWatcher.DeleteService` | go-controller/pkg/node/gateway_shared_intf.go:197-205 | removes the keys and leaves no request owed |
| `PortCache.RunsDeleteOnlyRemoved` | go-controller/pkg/ovn/port_cache.go:60-91 | in every run an entry is deleted only by a timer, and only if the run called remove on that very info more than a minute earlier |
| `PortCache.RemovedPortGoes` | go-controller/pkg/ovn/port_cache.go:60-91 | a removed port is deleted once its goroutine has started and more than sixty seconds have passed |
| `PortCache.StaleTimersSpareNewPort` | go-controller/pkg/ovn/port_cache.go:78-89 | a port added again outlives every older timer, however late it fires |
| `PortCache.MarkedEntriesArePending` | go-controller/pkg/ovn/port_cache.go:60-91 | in every run without a firing at the instant of expiry each marked entry has its own pending timer, due no earlier than it expires |
| `PortCache.RunsKeepTimedIff` | go-controller/pkg/ovn/port_cache.go:60-91 | in a run every marked entry has a pending timer throughout if and only if no timer fires at the very instant of its entry's expiry |
| `PortCache.PromptFiringStrands` | go-controller/pkg/ovn/port_cache.go:83-87 | a run of add, remove and a firing a minute later to the instant leaves the marked entry without any timer |
| `PortCache.TooPromptStays` | go-controller/pkg/ovn/port_cache.go:83-87 | after such a firing the entry stays until the port is added again |
| `PortCache.LateStartsAreNeverTooPrompt` | go-controller/pkg/ovn/port_cache.go:68-77 | a run whose goroutines all start later than the instant of their removal has no such firing |
| `PortCache.PortTable.Remove` | go-controller/pkg/ovn/port_cache.go:60-91 | marks the entry in place, once, and starts its timer; the entry can still be read |
| `PortCache.PortTable.TimerFires` | go-controller/pkg/ovn/port_cache.go:78-88 | looks at whatever the port maps to now and deletes it only past its expiry |
| `PortCache.PortTable.Add` | go-controller/pkg/ovn/port_cache.go:45-58 | a new unmarked info replaces the port's entry, and no other |

## Left out

- All `ovn-nbctl`, `ovs-vsctl` and `ovs-ofctl` calls, netlink, iptables and the Kubernetes client: sets and maps with possible failures stand for them.
- The shell quoting of `match="..."` arguments and the escaped quotes inside them.
- EgressFirewallController.FirewallController.AddEgressFirewall: does not model stale ACLs the namespace may already have; of the texts that `net.ParseCIDR` accepts, those without host bits are the constants OVN accepts, and no others are printed.
- `updateEgressFirewall`, `deleteEgressFirewall` and the DNS state of rules: adding a name is a parameter.
- GressPolicy.Gress.LocalPodSetACL: direction, priority, logging and name of an ACL are constants here.
- GressPolicy.ACLTable.AddOrModifyACLAllow: updates the first row of a key; that there is only one is proved, so a find that returns several rows does not occur.
- GressPolicyMatch.BlockACLMeaning: blocks and exceptions parse, as the API server demands.
- Address-set contents, pod handlers and service virtual IPs of a policy: an environment says what an address set holds.
- EgressIP.Controller.AssignEgressIPs: node copies share the allocations as in the code; the check for allocated addresses uses the snapshot taken before the loop, as the code does.
- The reroute policies, NAT rules and node reachability probes of egress IPs, and removal of nodes that still carry addresses.
- InformerObject.Informer.AddExisting: the order of initial adds across the handler's own channels is left open.
- Watch factory informers without queues, resource types, metrics and shutdown.
- EventHandler.Handler.ProcessNextWorkItem: other goroutines stand still; their interleavings are the steps of `WorkQueue`. Queue items that are not strings and key function errors do not occur.
- Rate limiting: a retry is delayed for any time.
- JoinManager.JoinSwitchIPManager.ReserveJoinLRPIPs: one call without interruption; interleavings are in `JoinSwitch`, where only the releases of one node are serialised.
- The internals of the IP allocator: a set of usable and a set of used addresses. Reserving host and gateway addresses when a node is added.
- FloatingIPClaim.ClaimController.Sync: a `Fresh` book has no two objects with one pool address; failing list calls and the claim's status update change nothing modelled here; node counts are changed by no other claim while it runs.
- FloatingIPClaim.ClaimController.Allocate: does not claim the least loaded node, because a zero count is taken for "none found yet".
- FloatingIPClaim.ClaimController.DeleteFloatingIP: a fixed claim, whose suballocator exists; requeueing the claim is left out.
- Deleting a claim, the observers that queue it, and the provider's pools.
- BFD entries, SNAT rules and the local gateway policies of external gateways, except that adding a policy may fail.
- ExternalGateway.NamespaceRoutes.AddGWRoutesForNamespace: pod addresses of one namespace belong to no other; a "duplicate nexthop" answer means that the route is installed.
- FlowManager.OpenflowManager.Wake: the end of the process when a port number changed and the stop channel are left out.
- Flow values: keys of ingress and external addresses omit the protocol, so an entry holds the flows of one port only; the lines under a key are a parameter.
- `SyncServices`, which is not gated on a cluster IP.
- PortCache.PortTable.Remove: the clock is a number; the stop channel that ends timers is left out.
- `syncPolicyBasedRoutes` and `removeLRPolicies`, configuration parsing other than the subnet checks, annotators, CNI requests and port claiming.
