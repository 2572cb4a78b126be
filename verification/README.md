# Verified model of virtio-forwarder

virtio-forwarder relays packets between virtual machines (virtio, through vhost-user sockets) and SR-IOV
virtual functions (DPDK). This project models its control and data plane in Dafny and proves what the
design relies on, over every input, every interleaving or every run.

| area | files | main results |
|---|---|---|
| Relay engine | `RelayModel`, `RelayProperties`, `Delivery`, `PoolFrees`, `RelayEngine`, `Transmit`, `Flows` | packets are conserved and owned once, handed on as far as there is room, and leave in the order they came in; teardown leaves nothing behind; when a removal completes, and when it never will; when there is a pool exactly for whoever is attached; what the multiqueue transmit keeps, and when it reorders a flow |
| Dirty-flag cache | `WorkerCache`, `Operations`, `Views`, `FailedStarts` | no assignment is lost in any interleaving; an operation puts each direction where it was asked to, the worker it went to serves it after one turn of the loop and the one it left lets go; interleaved operations refine atomic ones; exactly which failed device starts lose one |
| Load balancer | `Permutations`, `Greedy`, `Scheduler`, `Balancing`, `Decision`, `CoreScheduler` | greedy bounds (2 - 1/m and 4/3 - 1/(3m)); mappings rebuild the loads; the migrate decision from the variance of the loads; no oscillation |
| OVSDB monitor | `OvsdbLines`, `OvsdbText`, `OvsdbMap`, `OvsdbRow`, `OvsdbMirror`, `OvsdbMonitor` | chunk independence; row round trip; the mirror agrees with the database exactly when; all of it end to end |
| Virtqueues | `Queues` | steering table, mask and modulo forms, termination and fairness of the round robin |
| CPU placement | `Placement` | the idlest worker; when every assigned CPU is a worker; loads stay within 12 of each other |
| Relay table and names | `RelayTable`, `Names` | sockets are unique from start-up on; when a failed add and an add followed by a remove restore the table; names and CPU lists come back |

## How the program is modelled

- **Relay engine.** `RelayModel` is a transition system over one relay. One call of `relay_vm2vf_traffic` or
  `relay_vf2vm_traffic` is one atomic step. A control operation that waits for the workers is split into a
  first half, any worker steps, and a second half that runs when the wait succeeds or times out. What DPDK and
  vhost return is part of the event. `RelayEngine` has the same operations on mutable buffers with their `avail` and
  `used` indices; every operation is proved to do to the abstract state what the event does and to keep the
  safety properties, and `Run` carries out whole event sequences.
- **Dirty flag.** In `WorkerCache` each store, flag, table read and publication is a step of its own. `Views` relates it
  and the placement model to the transition system of the relay.
- **Balancer.** Loads are non-negative reals, the worker set is not empty, the square root is a parameter;
  where the decision is tied to the variance, it is one with root(x) >= 0 and root(x)^2 = x for x >= 0.
- **Monitor.** The reader runs on a 65535-character array filled by reads of arbitrary size. A terminated string is a
  sequence; positions past its end read as NUL. `strtol` and the lookup of a VF behind a network device
  are function parameters.
- **Bitmaps** are sets of bit positions; the bitwise and of the steering code is defined on the naturals.

Hypotheses:

- Control operations on one relay are serialised. The loops at virtio_worker.c:1309 and 1553 test the lock the
  wrong way round, so the removals they guard are taken as atomic, as the design means them.
- Each received buffer holds a packet that was not received before; packet counters do not wrap around.
- In multiqueue mode, that is, when the bitmap of enabled receive queues is above 1, the queue numbers of buffered
  packets are below the number of enabled queues; the original indexes arrays of that length by them. For packets
  steered under the present bitmap this is so exactly if the enabled queues have no gap
  (`Queues.QueueNumbersFitExactlyWhen`), for packets kept over vring changes exactly if all queues enabled when they
  were received are below the present number (`Queues.KeptQueueNumbersFitExactlyWhen`), which disabling a queue breaks
  (`Queues.DisablingAQueueMissesKeptPackets`). Packets received while the bitmap was at most 1 have no queue numbers
  (virtio_worker.c:1419), so a window of them must be sent before more queues are enabled.
- All packets of a flow have the same hash and so the same queue.
- Migration targets are numbers of CPUs. The mask test at virtio_worker.c:1151-1152 never rejects, since
  it uses `!` where `~` is meant, so only `initialized` guards a migration.
- Row ids of the monitor contain no opening brace. An empty external_ids cell is read past its terminator, where the
  rest of the row id still stands in the buffer.
- The stream of the monitor has no NUL characters, and PCI addresses fit the 20-byte name field.

## Findings

Properties that the code does not have as intended, each with its exact condition:

- A `start_eth_dev` failure in `virtio_forwarder_add_virtio` (virtio_worker.c:1953-1955) moves the VF direction without a
  flag. Some interleaving then loses it exactly when it went to another worker than the VM and not back to where it is
  pinned (`FailedStarts.FailedStartLosesExactlyWhen`). When the VM leaves, the pool is freed under the attached VF
  (`RelayProperties.PoolTakenFromVfExactlyWhen`, `RelayProperties.FailedStartCostsThePool`).
- A `remove_virtio` that times out before the vm2vf worker ran once leaves the relay in REMOVING1 for ever
  (`RelayProperties.StrandedExactlyWhen`, `RelayProperties.StrandedForever`).
- A pool can be freed while packets that came from it are buffered: exactly when a virtio removal is given up after the
  VF removal was given up and not both workers have answered, or when a bond is attached with a new pool to a relay
  whose virtio side is stranded in REMOVING1 (`PoolFrees.PoolFreedUnderPacketsExactlyWhen`).
- The comment at virtio_worker.c:1483-1484 says that the order within a flow remains. It remains exactly when at most
  one packet of the flow was left over (`Flows.FlowOrderSurvivesExactlyWhen`, `Flows.FlowReversed`).
- The transmit queue search never ends if no queue below the limit is enabled (`Queues.SearchSpinsForever`).
- The receive table lists the enabled queues exactly when all are below 32 (`Queues.TableListsBitmapExactlyWhen`).
- A direction can be assigned to something else than a worker exactly when a pin is not a worker or an initialised CPU
  is not in the bitmap; the start-up check skips relays with a virtio pin only (`Placement.AssignedCpusValidExactlyWhen`,
  `Placement.CheckSufficesExactlyWhen`).
- The mirror misses a change of an attached row exactly when the interface is renamed, or loses its key while its old
  id, converted to int, is -1; non-negative ids such as 4294967295 are affected (`OvsdbMirror.StepAgreesExactlyWhen`,
  `OvsdbMirror.LargeIdIsMissed`, `OvsdbMirror.RenameIsMissed`).
- Device names of 20 or more characters defeat the rollback of a failed add, and the removal by name
  (`RelayTable.FailedAddRestoresExactlyWhen`, `RelayTable.AddThenRemoveRestoresExactlyWhen`,
  `RelayTable.RemoveByNameRestoresExactlyWhen`).
- A removal follows a null pointer exactly when it names a device only and the first relay with that device has no
  socket; a failed add whose rollback cannot detach the device leads there (`RelayTable.RemovalFollowsNullExactlyWhen`,
  `RelayTable.FailedRollbackThenNull`).

## Model

| member | source | states |
|---|---|---|
| `RelayProperties.PacketConservation` | virtio_worker.c:1224-1382 | In every reachable state, for both directions, packets received equal packets sent plus dropped plus buffered, and at most 32 are buffered. |
| `RelayProperties.ExactlyOneOwner` | virtio_worker.c:1384-1613 | In every reachable state a received packet occurs exactly once among sent, freed and buffered ones, and no other packet occurs. |
| `Delivery.Vm2VfHandsOn` | virtio_worker.c:1343-1382 | A step sends from the front as many of the buffered packets, or of the burst fetched from a connected VM into an empty buffer, as a running VF has room for, keeps the rest in order and counts; with room for all the buffer is empty; without a running VF all are freed and counted. |
| `Delivery.Vf2VmHandsOn` | virtio_worker.c:1501-1532 | The same towards a connected VM with a single queue. |
| `Delivery.Vf2VmHandsOnByQueue` | virtio_worker.c:1443-1500 | With several queues each one gets as many of its packets as its ring accepts, in arrival order; what is sent is counted and nothing is freed. |
| `Delivery.PacketsStayInOrder` | virtio_worker.c:1224-1382 | Over every run, the packets sent followed by those buffered are the received ones without the freed ones, in the order they were received: from the VM always, towards the VM as long as it uses a single queue. |
| `RelayProperties.TeardownLeavesNothing` | virtio_worker.c:1303-1382 | In every reachable state, timeouts included, a gone virtio side means both buffers are empty, and a gone VF side means the buffer towards the VM is empty. |
| `RelayProperties.MigrateAssertionsHold` | virtio_worker.c:388-389 | Whenever a pool may be moved, the VF is not running and no received packet is buffered. |
| `RelayProperties.VirtioRemovalCompletesExactlyWhen` | virtio_worker.c:1371-1379 | A virtio removal is over after a schedule of worker steps if and only if the schedule has a vm2vf step followed by a vf2vm step, or just a vm2vf step if there is no second thread; whatever the VF side does meanwhile. |
| `RelayProperties.VfRemovalCompletesExactlyWhen` | virtio_worker.c:1602-1610 | The mirror image for the VF side. |
| `RelayProperties.WorkersOnlyMoveForward` | virtio_worker.c:1371-1379 | Worker steps never move a side back along its removal and never start one. |
| `RelayProperties.StrandedExactlyWhen` | virtio_worker.c:1981-1996 | After a removal gives up, the relay is stuck in REMOVING1 without a CPU if and only if no vm2vf step ran while it waited. |
| `RelayProperties.StrandedForever` | virtio_worker.c:1852-1860 | A stuck relay stays stuck in every continuation. |
| `RelayProperties.PoolLifetime` | virtio_worker.c:369-406 | Over any run whose device starts succeed: no pool is freed twice or leaks, the current one is live, every attached side has one, and a running VF has a connected VM at rest. |
| `RelayProperties.PoolIffAttachedExactlyWhen` | virtio_worker.c:907-956 | Over any run, at rest there is a pool exactly if a side is attached and nothing is half removed, throughout, if and only if every step is orderly: no attach to an empty relay fails once there is a pool, removals end released and the last one detached, and no VM leaves a VF that never started. |
| `RelayProperties.StepKeepsAccountExactlyWhen` | virtio_worker.c:2024-2037 | The same for one step from any state in order. |
| `PoolFrees.PoolFreedUnderPacketsExactlyWhen` | virtio_worker.c:1983-2037 | For every control state and every step: some run reaches the state so that the step frees a pool under buffered packets if and only if it ends a virtio removal with both CPUs assigned and the sides in REMOVING1/REMOVING1, REMOVING1/REMOVING2 or REMOVING2/REMOVING1, or is a bond attach with a new pool on a relay without a VF whose virtio side is stranded in REMOVING1. |
| `PoolFrees.OrderlyRunsFreeEmptyPools` | virtio_worker.c:947-952 | With orderly steps no pool is freed while a packet is buffered. |
| `PoolFrees.FromLoaded` | virtio_worker.c:1983-2037 | A run from the start to each of those states, for all CPUs, with a packet buffered and a pool. |
| `PoolFrees.RunKeepsHeld` | virtio_worker.c:1303-1382 | In every run, which packets can be buffered: none without a VF or with one that has not started, unless the virtio side is stranded in REMOVING1. |
| `RelayProperties.StepKeepsSafe` | virtio_worker.c:1343-1613 | Every event keeps the safety properties together: states and CPUs, empty buffers, counter equations, pools. |
| `RelayProperties.PoolTakenFromVfExactlyWhen` | virtio_worker.c:2024-2037 | remove_virtio leaves an attached VF without a pool if and only if it finds the VF added but not running. |
| `RelayProperties.FailedStartCostsThePool` | virtio_worker.c:1945-1961 | If the start of an attached VF fails as the VM connects, the VF has no pool once that VM has left, however the workers run meanwhile. |
| `RelayProperties.FailedStartRun` | virtio_worker.c:1945-1961 | A run from the initial state that ends that way, for every CPU. |
| `RelayProperties.StepKeepsWired` | virtio_worker.c:645-676 | Every step keeps: attached sides have CPUs, and a running VF has a VM or one that is leaving. |
| `RelayEngine.PacketBuffer.Fill` | virtio_worker.c:1238-1261 | A burst becomes the live window of the empty buffer and is counted. |
| `RelayEngine.PacketBuffer.Advance` | virtio_worker.c:1287-1298 | The sent prefix leaves the window, the rest stays in order, the counter follows. |
| `RelayEngine.PacketBuffer.SendBatches` | virtio_worker.c:1443-1500 | The window becomes the unsent packets of all queues; what was sent is counted. |
| `RelayEngine.PacketBuffer.FreeAll` | virtio_worker.c:1362-1368 | Every live packet is freed once, last first, and counted as dropped. |
| `RelayEngine.PacketBuffer.Discard` | virtio_worker.c:1310-1322 | The same for the removals, which also reset the indices. |
| `RelayEngine.Relay.VirtioRx` | virtio_worker.c:1234-1261 | Fetches only if the VM is connected. |
| `RelayEngine.Relay.DpdkTx` | virtio_worker.c:1275-1300 | Sends the longest prefix that fits, or returns -1 exactly if the VF is not running. |
| `RelayEngine.Relay.WorkerRemoveVf` | virtio_worker.c:1303-1338 | Frees both windows and releases the VF. |
| `RelayEngine.Relay.RelayVm2VfTraffic` | virtio_worker.c:1343-1382 | Does to states, both directions and pool what the vm2vf event does; tells whether the VM is connected. |
| `RelayEngine.Relay.DpdkRx` | virtio_worker.c:1384-1432 | Fetches only if the VF is running. |
| `RelayEngine.Relay.VirtioTx` | virtio_worker.c:1434-1532 | Sends over one or several queues, or returns -1 exactly if no VM is connected. |
| `RelayEngine.Relay.WorkerRemoveVirtio` | virtio_worker.c:1534-1569 | Frees both windows and releases the virtio side. |
| `RelayEngine.Relay.RelayVf2VmTraffic` | virtio_worker.c:1574-1613 | Does what the vf2vm event does; tells whether the VF is running. |
| `RelayEngine.Relay.FinishAttach` | virtio_worker.c:645-676 | The VF starts exactly if the VM is connected, and is only added otherwise. |
| `RelayEngine.Relay.AddVf` | virtio_worker.c:678-724 | Attaching a VF: refused if one is there, failed after the pool exists, or attached. |
| `RelayEngine.Relay.AddBond` | virtio_worker.c:746-855 | The same for a bond, whose pool replaces the old one first. |
| `RelayEngine.Relay.BeginRemoveVf` | virtio_worker.c:857-872 | Starts the removal of an attached VF. |
| `RelayEngine.Relay.EndRemoveVf` | virtio_worker.c:907-956 | A released VF loses its CPU, and the pool goes if no VM is there; a timeout changes nothing. |
| `RelayEngine.Relay.AddVirtio` | virtio_worker.c:1840-1965 | A VM connects: pool aligned, CPU set, a waiting VF placed again and started. |
| `RelayEngine.Relay.AddVirtioFails` | virtio_worker.c:1876-1922 | What a refused connection leaves behind: a pool or a CPU. |
| `RelayEngine.Relay.BeginRemoveVirtio` | virtio_worker.c:1967-1982 | Starts the removal of a connected VM. |
| `RelayEngine.Relay.EndRemoveVirtio` | virtio_worker.c:1990-2038 | Takes the CPU, and stops the VF or frees the pool, whether or not the workers have finished. |
| `RelayEngine.Relay.MigrateCpus` | virtio_worker.c:1145-1203 | Does what the migration event does, which Views.MigrationGoesWhereAsked states without it. |
| `RelayEngine.Relay.ValidMeans` | virtio_worker.c:1303-1382 | In every valid relay the counter equations hold of the fields, buffers of sides that are gone are empty, and whoever runs has a pool. |
| `RelayEngine.Relay.Step` | virtio_worker.c:1343-1613 | Every event, carried out on the fields, is the step of the transition system and keeps the relay valid. |
| `RelayEngine.Relay.Run` | virtio_worker.c:1343-1613 | So is every run. |
| `Transmit.TransmitConserves` | virtio_worker.c:1443-1500 | For any acceptance counts every packet occurs as often among sent and kept as in the window. |
| `Transmit.SentOfQueue` | virtio_worker.c:1460-1471 | What a queue gets is as many of its packets as it accepts, from the front, in arrival order. |
| `Transmit.KeptOfQueue` | virtio_worker.c:1483-1489 | The packets of a queue in the new window are its unsent ones, back to front. |
| `Flows.KeptOfFlow` | virtio_worker.c:1449-1489 | The packets of a flow in the new window are its unsent ones, back to front. |
| `Flows.UnsentIsSuffix` | virtio_worker.c:1449-1458 | The unsent packets of a flow are its last ones in arrival order. |
| `Flows.FlowOrderSurvivesExactlyWhen` | virtio_worker.c:1482-1489 | The unsent packets of a flow stand in the new window in arrival order if and only if at most one of them was left over. |
| `Flows.FlowReversed` | virtio_worker.c:1482-1489 | Two packets of a flow that a queue does not take are reversed. |
| `Flows.SharedQueueKeepsFlows` | virtio_worker.c:1482-1489 | Two flows that share a queue keep their order although the queue is reversed. |
| `Transmit.Batch` | virtio_worker.c:1449-1458 | Each batch is the packets of its queue in arrival order. |
| `Transmit.VirtioTxMultiqueue` | virtio_worker.c:1443-1500 | Each queue gets a prefix of its packets, and the buffer then holds exactly the unsent ones from `used` on. |
| `Transmit.WriteBack` | virtio_worker.c:1485-1489 | Unsent packets of a batch are appended last first, and nothing kept before is overwritten. |
| `WorkerCache.StepKeepsInv` | virtio_worker.c:1205-1222 | Every step of every thread keeps the coherence invariant. |
| `WorkerCache.NoAssignmentIsLost` | virtio_worker.c:1205-1222 | In every interleaving each assigned direction is in its worker's cache, or flagged, or ahead of or found by the running scan, or about to be flagged. |
| `WorkerCache.CachedAtRest` | virtio_worker.c:1205-1222 | With nothing pending, no flag and no scan, an assigned relay is in the cache. |
| `WorkerCache.ServedAfterOneTurn` | virtio_worker.c:1615-1658 | After one full turn of the worker loop, with anything else going on, the work list contains the relay. |
| `WorkerCache.OperationsAnnounce` | virtio_worker.c:645-676 | Every control operation sets the flag after the last store that completes an assignment. |
| `WorkerCache.ScanReadsTheTable` | virtio_worker.c:1205-1222 | An undisturbed scan publishes exactly the relays assigned to the worker. |
| `WorkerCache.UpdateThread` | virtio_worker.c:1205-1222 | The loop computes exactly those relays. |
| `Operations.OperationTakesEffect` | virtio_worker.c:1166-1199 | Once the stores of an attach, a connect or a migration are made, after any steps of workers and of operations on other relays, the virtio side is attached on the CPU chosen for it and the VF side on the one chosen for it. |
| `Operations.PlacedSideIsServed` | virtio_worker.c:1615-1658 | When the worker of that CPU has then been through one turn of its loop, its work list contains the relay and the side is still there. |
| `Operations.LeftWorkerLetsGo` | virtio_worker.c:1169-1176 | A worker that a migration, or the removal of the VM, leaves without a side of the relay has it no longer on its work list after one turn. |
| `Operations.RemovalTakesEffect` | virtio_worker.c:1981-1996 | Once the stores of a removal are made its side is detached or still being removed; the virtio side has no CPU, and a VF keeps its CPU or is detached without one. |
| `Operations.ConcernedAreFlagged` | virtio_worker.c:152-173 | The workers an operation flags are exactly those a side goes to, those a side leaves unless it is pinned, and that of a VF that is stopped. |
| `Operations.ConcernedWorkersAreTold` | virtio_worker.c:645-676 | When the stores are made each of them has its flag set unless it moved in between; only a VF removal that gave up waiting tells nobody. |
| `Views.MigrationGoesWhereAsked` | virtio_worker.c:1145-1203 | The virtio direction of a connected VM is on the virtio target and the VF direction of an attached VF on the VF target; a refused target or a side that is not attached changes nothing, and neither does anything else change. |
| `Views.MigrationStands` | virtio_worker.c:1145-1203 | Traffic and the start of a removal leave both directions on their targets. |
| `Views.AttachGoesWhereAsked` | virtio_worker.c:645-676 | An attached VF is on the CPU found, runs exactly if the VM is there, and there is a pool: the old one, or a new one if there was none or a bond replaces it. |
| `Views.ConnectGoesWhereAsked` | virtio_worker.c:1875-1961 | A VM is on the CPU found, a waiting VF on the CPU found anew and running if its start succeeds, any other VF as before, and the pool is kept, replaced or created. |
| `Views.RunIsPlaced` | virtio_worker.c:645-676 | Over every run of a relay, phases and CPUs of its directions are those that the placement model computes from the corresponding events. |
| `Views.OperationCanBegin` | virtio_worker.c:1145-1203 | The interleaved operation may begin whenever the relay can take the step and pins are kept; a removal exactly if its side is attached. |
| `Views.InterleavingIsStep` | virtio_worker.c:1166-1199 | In every interleaving an attach, a connect or a migration ends in the table entries of the atomic step of the relay. |
| `FailedStarts.FailedStartLosesTheVf` | virtio_worker.c:1945-1961 | For any relays, workers and pins, if the device start fails with the VF placed on another worker than the VM and not where it is pinned to and already was, some interleaving leaves it assigned to a worker that will not hear of it. |
| `FailedStarts.FailedStartLosesExactlyWhen` | virtio_worker.c:1945-1961 | Some run with only such failures loses an assignment if and only if that is so. |
| `Greedy.ListBound` | scripts/python3/virtioforwarder_core_scheduler.py:168-173 | After any number of greedy placements, m times the load of any worker is at most the total plus (m - 1) times the largest single load. |
| `Greedy.TwoMinusOneOverM` | scripts/python3/virtioforwarder_core_scheduler.py:168-173 | Every worker load is at most (2 - 1/m) times the bound that any placement keeps, in any order of the loads. |
| `Greedy.FourThirdsMinusOneOver3M` | scripts/python3/virtioforwarder_core_scheduler.py:163-173 | With loads in falling order, at most (4/3 - 1/(3m)) times that bound. |
| `Greedy.SomeWorkerHasRoom` | scripts/python3/virtioforwarder_core_scheduler.py:168-173 | If all items so far exceed a third of a bound that some placement keeps, some worker still has room for the next one. |
| `Greedy.FinalLoadsAreUnique` | scripts/python3/virtioforwarder_core_scheduler.py:168-173 | The final loads are the same up to order however ties are broken and workers listed. |
| `Scheduler.AssignIsGreedy` | scripts/python3/virtioforwarder_core_scheduler.py:168-173 | The assignment of `round_robin` always takes a worker of least load. |
| `Scheduler.ByIdIsPaired` | scripts/python3/virtioforwarder_core_scheduler.py:175-185 | After the sort by relay id the two directions of each relay are neighbours. |
| `Balancing.MappingsRebuildLoads` | scripts/python3/virtioforwarder_core_scheduler.py:175-189 | Read back, the mappings give every worker exactly the load that was accumulated for it. |
| `Permutations.SortIsStable` | scripts/python3/virtioforwarder_core_scheduler.py:167-177 | Of two elements that the order does not tell apart the earlier one stays in front. |
| `Scheduler.FirstLeastIsFirst` | scripts/python3/virtioforwarder_core_scheduler.py:171 | The worker taken is one of those listed and has less load than any listed before it. |
| `Balancing.DirectionsGoWhereAssigned` | scripts/python3/virtioforwarder_core_scheduler.py:178-189 | virtio2vf of a relay is the worker that its direction from the VM was assigned to, and vf2virtio that of its direction from the VF. |
| `Balancing.MappingsCoverRelays` | scripts/python3/virtioforwarder_core_scheduler.py:175-189 | Every relay is mapped exactly once, in ascending order, and only to workers. |
| `Balancing.WithinFourThirds` | scripts/python3/virtioforwarder_core_scheduler.py:153-199 | The mappings keep every worker within (4/3 - 1/(3m)) of the bound of any other mapping of the same relays. |
| `Balancing.ReadBackLoads` | scripts/python3/virtioforwarder_core_scheduler.py:221-228 | The loads read back equal those of a new round, up to order, whatever the order of relays, mappings and workers. |
| `Balancing.NoOscillation` | scripts/python3/virtioforwarder_core_scheduler.py:412-427 | With unchanged rates and non-negative sensitivity, mappings that are in force are never migrated again. |
| `Decision.VariationIsCoefficient` | scripts/python3/virtioforwarder_core_scheduler.py:191-199 | With load, the coefficient times the mean load, squared, is the mean squared deviation of the loads, and the coefficient is not negative. |
| `Decision.CoefficientIsUnique` | scripts/python3/virtioforwarder_core_scheduler.py:191-199 | No other number has that property. |
| `Decision.VariationWithoutLoad` | scripts/python3/virtioforwarder_core_scheduler.py:191-199 | Without load it is -1. |
| `Decision.EvenLoadsHaveCoefficientZero` | scripts/python3/virtioforwarder_core_scheduler.py:201-236 | It is 0 for equal loads. |
| `Decision.DecisionIsRight` | scripts/python3/virtioforwarder_core_scheduler.py:412-427 | The decision is right: no migration without load; with load, and mappings in force that are all known, exactly if the coefficient of the new loads plus the sensitivity is below that of the loads in force, which counts as -1 if they put no load on any worker; if a mapped relay or CPU is unknown, exactly if it is below 1e10. |
| `Decision.EvenLoadsAreWorthMigrating` | scripts/python3/virtioforwarder_core_scheduler.py:412-427 | With load, if the new loads are equal and those in force have a coefficient above the sensitivity, the right decision is to migrate. |
| `CoreScheduler.LeastBusy` | scripts/python3/virtioforwarder_core_scheduler.py:171 | The first worker of least accumulated load. |
| `CoreScheduler.AssignLeastBusy` | scripts/python3/virtioforwarder_core_scheduler.py:168-173 | The loop yields the greedy assignment and the load of every worker. |
| `CoreScheduler.BuildMappings` | scripts/python3/virtioforwarder_core_scheduler.py:178-189 | The pairing loop yields one mapping per pair, and its assertion on equal ids holds. |
| `CoreScheduler.RoundRobin` | scripts/python3/virtioforwarder_core_scheduler.py:153-199 | Mappings and coefficient of variation as specified, -1 without load. |
| `CoreScheduler.GetVariationCoefficient` | scripts/python3/virtioforwarder_core_scheduler.py:201-236 | The coefficient of the mappings in force, or the extreme value if there are none or a relay or CPU is unknown. |
| `CoreScheduler.Optimize` | scripts/python3/virtioforwarder_core_scheduler.py:412-427 | Takes the right decision in the sense of Decision.RightDecision, which speaks of means and variances of the loads only; never migrates when the mappings are already in force. |
| `OvsdbLines.LinesAreTheText` | ovsdb_mon.c:534-571 | The lines with their newlines and the partial line are the text, and no line has a newline. |
| `OvsdbLines.LinesComeBack` | ovsdb_mon.c:534-571 | Lines without newlines come back from their concatenation. |
| `OvsdbLines.TakeLine` | ovsdb_mon.c:536-571 | Handles one line and moves the text behind it to the front. |
| `OvsdbLines.DrainLines` | ovsdb_mon.c:532-571 | Handles every complete line in the buffer in order and leaves the partial one at its start. |
| `OvsdbLines.SkipLine` | ovsdb_mon.c:572-585 | Reads exactly to the next newline or the end. |
| `OvsdbLines.ReadRows` | ovsdb_mon.c:515-590 | However the stream is cut into reads, the rows handled are exactly its non-empty complete lines of length at most MAX_READ-2, in order. |
| `OvsdbText.ExtractFieldLoop` | ovsdb_mon.c:90-134 | Computes the field, where the next one starts, or that the quoting is bad. |
| `OvsdbText.FieldComesBack` | ovsdb_mon.c:90-134 | A field printed plainly or in quotes, before a comma or the end, comes back with the right position. |
| `OvsdbText.FieldForms` | ovsdb_mon.c:90-134 | What is extracted from any text: up to the comma or the end without a quote in front, and otherwise the text whose doubled form stands there, up to the first quote that is not doubled, which must stand before a comma or the end or is an error after which the next comma is looked for. |
| `OvsdbText.UnquoteLoop` | ovsdb_mon.c:136-169 | Computes the unquoted name. |
| `OvsdbText.WordComesBack` | ovsdb_mon.c:136-169 | A printed name, bare or quoted with backslashes before any characters, comes back. |
| `OvsdbMap.ParseMap` | ovsdb_mon.c:181-354 | The six-state machine computes the configuration of the pairs that recursive descent reads, on every text. |
| `OvsdbMap.LastKeyDecides` | ovsdb_mon.c:292-313 | The last pair with a forwarder key decides; without one the port is not enabled. |
| `OvsdbMap.MapComesBack` | ovsdb_mon.c:181-354 | A printed map, with any spacing and bare or quoted words, gives back its pairs in order. |
| `OvsdbRow.ParseLine` | ovsdb_mon.c:540-560 | The four extractions, the unquoting and the map parse of one line. |
| `OvsdbRow.RowComesBack` | ovsdb_mon.c:540-560 | However a row is printed, its id, action, name and pairs come back, an empty map cell as no pairs. |
| `OvsdbMirror.Truncate` | ovsdb_mon.c:481-485 | The int congruent to the long modulo 2^32. |
| `OvsdbMirror.Monitor.ProcessExternalIds` | ovsdb_mon.c:446-513 | One message changes attached VFs and carried id as specified. |
| `OvsdbMirror.Monitor.AddVf` | virtio_worker.c:678-724 | A conditional add attaches to a free relay and leaves an occupied one alone. |
| `OvsdbMirror.Monitor.RemoveVf` | virtio_worker.c:958-997 | A conditional removal removes only the VF that is attached. |
| `OvsdbMirror.AgreementMeans` | ovsdb_mon.c:446-513 | Agreement means that a relay is occupied if and only if the row of its device carries a usable key, and then by that device's VF. |
| `OvsdbMirror.StepAgreesExactlyWhen` | ovsdb_mon.c:446-513 | A message keeps the agreement if and only if it does not change an attached row by renaming the interface or by taking away a key whose id, as an int, is -1. |
| `OvsdbMirror.MirrorAgreesExactlyWhen` | ovsdb_mon.c:446-513 | Over any well-formed stream, whose old rows may carry the changed columns only and whose new rows need no row id, the mirror agrees after every message if and only if every message is safe. |
| `OvsdbMirror.LargeIdIsMissed` | ovsdb_mon.c:481-503 | A stream with non-negative ids after which a VF is attached although its row has no key. |
| `OvsdbMirror.RenameIsMissed` | ovsdb_mon.c:481-503 | A stream that renames an interface and leaves the VF of the old name attached. |
| `OvsdbMonitor.ParseOvsdbClient` | ovsdb_mon.c:515-590 | Reading, parsing each line and processing each message on the monitor's own state ends as the rows of the stream handled in order, whatever the reads. |
| `OvsdbMonitor.ToldExactlyWhen` | ovsdb_mon.c:292-313 | A cell enables the port with id n if and only if its last item with the key virtio_forwarder or virtio_relay has the number n as its value. |
| `OvsdbMonitor.ToldRow` | ovsdb_mon.c:540-560 | What is parsed from a printed row is what its items tell. |
| `OvsdbMonitor.RowsComeBack` | ovsdb_mon.c:529-589 | The rows of a stream of printed lines and an unfinished one are those lines. |
| `OvsdbMonitor.MonitorMirrorsDatabase` | ovsdb_mon.c:515-590 | End to end: rows of a well-formed, safe stream, printed in any way and read in any pieces, leave exactly the VFs of those rows attached whose printed items enable them. |
| `Queues.SteeringTable.VringStateChange` | virtio_worker.c:2040-2087 | After any change the table is the increasing list of enabled receive queues below 32, the count is over all, and the power-of-two mark is right. |
| `Queues.SteeringTable.FillTable` | virtio_worker.c:2073-2083 | Lists the set bits, lowest first. |
| `Queues.TableListsBitmapExactlyWhen` | virtio_worker.c:2067-2083 | The table has as many entries as the count and lists the bitmap if and only if all enabled queues are below 32. |
| `Queues.PowerOfTwoTest` | virtio_worker.c:2067-2071 | n & (n - 1) is zero exactly for powers of two. |
| `Queues.MaskIsModulo` | virtio_worker.c:1102-1106 | For powers of two the mask form is the remainder. |
| `Queues.HashLandsOnEnabledQueue` | virtio_worker.c:1098-1113 | Every hash lands on an enabled queue, the same in both forms. |
| `Queues.EnabledQueueIsReached` | virtio_worker.c:1098-1113 | Every enabled queue is reached by a hash. |
| `Queues.KeptQueueNumbersFitExactlyWhen` | virtio_worker.c:1446-1458 | For every hash, packets steered under one bitmap have queue numbers below a number of active queues if and only if all queues of that bitmap are below it. |
| `Queues.QueueNumbersFitExactlyWhen` | virtio_worker.c:1446-1458 | Under an unchanged bitmap that is so if and only if the enabled queues have no gap. |
| `Queues.DisablingAQueueMissesKeptPackets` | virtio_worker.c:2053-2083 | After disabling any queue of a table without a gap, some hash has a queue number that no longer fits. |
| `Queues.AdvanceTxQueue` | virtio_worker.c:1247-1251 | The search ends within as many steps as there are queues, at the cyclically next enabled one. |
| `Queues.SearchSpinsForever` | virtio_worker.c:1247-1251 | Without an enabled queue below the limit no number of steps ends it. |
| `Queues.RoundRobinIsFair` | virtio_worker.c:1238-1251 | With a fixed bitmap each of k enabled queues is polled exactly once in any k consecutive calls. |
| `Placement.HaveWorkerOnNode` | virtio_worker.c:93-105 | True exactly if a worker CPU is on the node. |
| `Placement.NaiveGetIdlestWorker` | virtio_worker.c:112-150 | -1 exactly if no worker is eligible; otherwise the first eligible one of least weighted load. |
| `Placement.LoadCounts` | virtio_worker.c:118-128 | The load of a CPU is 12 times the number of attached VFs plus 10 times the number of connected VMs that it serves. |
| `Placement.NodeIsPreferred` | virtio_worker.c:129-142 | With a worker CPU on the guest's node only CPUs of that node are eligible; without one, or if the node is not known, every initialised worker is. |
| `Placement.FirstIdlestIsIdlest` | virtio_worker.c:129-149 | What the search returns is an idlest worker among the eligible ones. |
| `Placement.OneNodeForAll` | virtio_worker.c:130-139 | If all workers are on one node, all are eligible wherever the guest is. |
| `Placement.MovingVfKeepsEven` | virtio_worker.c:1945-1952 | Placing a waiting VF again keeps the spread of the loads. |
| `Placement.AttachesStayEven` | virtio_worker.c:152-173 | On one node, without pins, migrations and removals, after any run of attaches placed by the search the loads differ by at most 12. |
| `Placement.AssignedCpusValidExactlyWhen` | virtio_worker.c:1145-1203 | Over all runs with pins, migrations, refusals and removals every assigned CPU is -1 or an initialised worker in the bitmap, if and only if the pins are and, once something can be attached, every initialised CPU is in the bitmap. |
| `Placement.CheckPins` | virtio_forwarder_main.c:773-789 | Accepts exactly if both pins of every relay with a VF pin are in the bitmap. |
| `Placement.CheckSufficesExactlyWhen` | virtio_forwarder_main.c:773-789 | If the initialised CPUs are those of the bitmap, an accepted configuration is sound if and only if the virtio pins of the relays it skips are in the bitmap. |
| `RelayTable.Table.GetRelayForSock` | virtio_vhostuser.c:148-157 | The first relay with the socket, or -1. |
| `RelayTable.Table.GetFreeRelayId` | virtio_worker.c:2272-2285 | The first relay with no socket, VM or device, or -1. |
| `RelayTable.Table.DeregisterSocket` | virtio_vhostuser.c:602-629 | Empties the entry of the socket. |
| `RelayTable.Table.AddSockDevPair` | virtio_vhostuser.c:724-806 | Result and table after an add, with every failure and its rollback. |
| `RelayTable.Table.RemoveSockDevPair` | virtio_vhostuser.c:848-932 | Result and table after a removal by socket path, by device or by both, with every failure, as RemoveReports states them. |
| `RelayTable.Table.RemoveFound` | virtio_vhostuser.c:884-932 | The same once the relay is found. |
| `RelayTable.Table.GetRelayForDevice` | virtio_vhostuser.c:868-876 | The first relay with the device, or -1. |
| `RelayTable.LookupFindsOwner` | virtio_vhostuser.c:148-157 | With unique sockets the lookup finds a relay exactly if that relay has the socket. |
| `RelayTable.SocketsStayUnique` | virtio_vhostuser.c:500-629 | In every run of adds, removals and connections, whatever fails, no two relays share a socket. |
| `RelayTable.FailedAddRestoresExactlyWhen` | virtio_vhostuser.c:785-806 | A failed add leaves the table as before if and only if the registration was not tried, because the device was known, the socket taken, no relay free or the attach failed, or the device can be detached and its name has fewer than 20 characters. |
| `RelayTable.AddThenRemoveRestoresExactlyWhen` | virtio_vhostuser.c:848-932 | A successful add followed by a removal of the socket restores the table if and only if the device is not named or its name has fewer than 20 characters. |
| `RelayTable.RemoveByNameRestoresExactlyWhen` | virtio_vhostuser.c:864-876 | Named by its device alone, the pair comes out if and only if the name has fewer than 20 characters, given that no other relay has such a device. |
| `RelayTable.RemoveConnectedRestoresExactlyWhen` | virtio_vhostuser.c:908-932 | After an add and the connection of a VM, a removal that releases and detaches returns 0 and restores the table if and only if the VM leaves in time and the name condition holds; otherwise, with the name condition, only the VM mark stays. |
| `RelayTable.AddReports` | virtio_vhostuser.c:724-806 | Which result code of an add means what. |
| `RelayTable.RemoveReports` | virtio_vhostuser.c:848-932 | Result code and table of every removal that finds a relay: a device of another name is refused; the socket goes in any case, the VM if it leaves in time, the device if the socket is released and the device detaches. |
| `RelayTable.RunKeepsTidy` | virtio_worker.c:907-956 | In every run the name of a device that is not attached is empty. |
| `RelayTable.RemovalFollowsNullExactlyWhen` | virtio_vhostuser.c:864-876 | A removal follows a null pointer if and only if it names a device only and the first relay with that device has no socket. |
| `RelayTable.FailedRollbackThenNull` | virtio_vhostuser.c:794-806 | After a failed add whose rollback could not detach the device, removing it by the kept name follows the null pointer. |
| `Names.NameRoundTrip` | virtio_vhostuser.c:107-146 | An id comes back from its socket name if it is the id of a relay, and is refused otherwise. |
| `Names.NameIsReadExactlyWhen` | virtio_vhostuser.c:116-146 | An id is read exactly from the names with the prefix, the suffix and something in between that atoi turns into the id of a relay. |
| `Names.NamesAreDistinct` | virtio_vhostuser.c:107-114 | Different ids have different socket names. |
| `Names.DefaultSocketsStayUnique` | virtio_vhostuser.c:678-688 | With default sockets no two relays share one, at start-up and in every run after it. |
| `Names.SetCpus` | virtio_forwarder_main.c:204-229 | The bitmap of a comma list, or an error for a bad value or an empty list. |
| `Names.ListIsReadExactlyWhen` | virtio_forwarder_main.c:204-229 | A list is read if and only if it has digits and commas only and every number between commas is below 64; the result is the set of those numbers. |
| `Names.ListCores` | zmq_core_sched.c:173-187 | The set bits in increasing order. |
| `Names.CpusComeBack` | virtio_forwarder_main.c:204-229 | A list of CPUs below 64, in any order and with repetitions, comes back as the increasing list of its elements. |

## Left out

- DPDK, vhost, bonding-driver and memory-pool internals: their results are inputs.
- `#if RTE_VERSION` variants and VIRTIO_ECHO mode: the model follows a DPDK of 17.05 or later without echo.
- The hash over packet headers: an arbitrary number.
- Byte counters and rate statistics; load estimates of `RelayRate`: loads are inputs.
- ZeroMQ servers, logging, signals, startup, file ownership and the rest of the command line, including CPUs given as a hexadecimal bitmap.
- The migrate_mempool branch in which the queues of an added VF cannot be set up again, after which the VF stays in its state.
- `init_vf` and the slaves of a bond: an attach is refused, fails after the pool exists, or succeeds.
- A missing socket path in virtio_add_sock_dev_pair, and a detach that fails after the workers have released the device.
- RelayEngine.Relay.RelayVf2VmTraffic: requires, in multiqueue mode, queue numbers below the number of enabled queues, because the original indexes its batches by them without a check.
- RelayEngine.Relay.VirtioTx: requires the same, for the same reason.
- RelayEngine.Relay.VirtioRx: leaves the round robin index to Queues.AdvanceTxQueue and has no return value, because the caller ignores it.
- RelayEngine.Relay.DpdkRx: takes the queue numbers of the packets as given, because Queues models how they are computed.
- RelayEngine.Relay.AddVf: has no return codes, because they do not change the relay; a conditional attach to an occupied relay changes nothing either.
- Queues.AdvanceTxQueue: requires an enabled queue below the limit, because the original does not end otherwise, which SearchSpinsForever states.
- OvsdbText.ExtractFieldLoop: a badly quoted field is reported as such, because the original then leaves its output buffer without a terminator and what it holds depends on earlier rows.
- OvsdbRow.ParseLine: a row with a badly quoted field is skipped, because what the original reads from it depends on earlier rows.
- OvsdbMap.ParseMap: a value whose closing quote is missing is taken as the text read so far, because the original compares an unterminated buffer there; positions past the terminator read as NUL.
- OvsdbLines.ReadRows: requires a stream without NUL characters, because the original looks for newlines with strchr; a read error counts as the end of the stream.
- OvsdbMirror.Monitor.AddVf: a free relay always accepts the VF, because failures of DPDK calls are not part of the mirror; relays occupied by other means are not modelled either.
- OvsdbMirror.Monitor.RemoveVf: an attached VF is always released, because timeouts of the workers are the subject of the relay engine.
- Placement.CheckPins: a virtio pin of -1 beside a VF pin counts as not in the bitmap, because the original then shifts by a negative number, which C leaves undefined.
