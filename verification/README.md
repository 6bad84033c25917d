# Verified models of the RUNOS controller core

RUNOS is an OpenFlow 1.3 controller. This project models the parts of it that carry real
invariants, and proves what those parts are relied upon for: over every run, for every input.
`dafny verify dfyconfig.toml` checks everything.

Each component has a value-level description of its state and steps, and, where the program
edits objects in place, a class whose methods do the same edits and are proved to refine the
steps. Properties of whole runs are lemmas about the steps.

| file | component |
|---|---|
| `IdGen.dfy` | the interval-list identifier allocator |
| `LinkDiscovery.dfy`, `LinkDiscoveryApp.dfy` | link discovery by beacons |
| `LinkSafety.dfy` | when its CHECKs hold |
| `LinkSignals.dfy` | the order in which its signals are emitted |
| `Triggers.dfy` | path triggers with flap damping |
| `Routes.dfy` | path ids and the path in use |
| `PathWalk.dfy` | routes from a shortest-path tree |
| `Loader.dfy` | loading applications with their dependencies |
| `SwitchOrdering.dfy` | concurrent handling of switch events |
| `Agent.dfy`, `AgentApp.dfy` | requests, replies, multipart reassembly and barriers |
| `MsgSender.dfy` | the windowed message sender |
| `Limiter.dfy` | the sliding-window message limiter |
| `PropertySheet.dfy`, `Version.dfy`, `Lex.dfy` | the property-sheet query and version numbers |

## What the proofs assume about the surroundings

- A region protected by a lock is one atomic step. What happens after the lock is released is a
  step of its own where it matters: the phases of a handler (`SwitchOrdering`), the emission of a
  link signal (`LinkSignals`), taking an id before and the send hook after a request is queued (`Agent`).
- The steady clock is monotone (`Limiter`). Link discovery reads it before it takes its lock, so nothing is
  assumed there about the order of the readings, except where a lemma asks for events in time.
- Beacons and saved links follow a fixed pairing of the ports only where a lemma says so.
- Dijkstra's algorithm delivers what `PathWalk.Tree` states; regular expressions and
  `std::stoll` are arbitrary functions passed as parameters.
- The sender's poll and the executor it hands `send_pack` to live on one thread, so the pack goes out
  within the poll (src/core/lib/poller.cc:38-65 and 89-92, src/core/lib/qt_executor.hpp:39-55).

## Where the program does not do what one would expect

Each is a lemma (or method); the condition under which the program does meet the expectation is
next to it.

- `IdGen`: recovering an id that is, at its turn, the lowest of a longer free block leaves an
  empty segment, and some run of acquires then hands out an id in use (`GrantWithNothingFree`);
  exactly for safe lists none does (`Recovery`, `OnlyFreeExactly`).
- `LinkSafety`: a port that is rewired can end in two links, and then a CHECK fails and ends the process
  (`MiswiringCrashes`); the polls pass exactly if every confirmed link found its ports free and every
  restored list was a matching (`PassExactly`), as under fixed cabling (`RunWired`).
- `LinkSafety`: a beacon that read the clock before another and took the lock after it can make a later
  beacon break a healthy link (`LateBeaconBreaks`); links stay shadowed exactly if every event is in time
  (`ShadowExactly`), and then beacons break nothing (`BeaconsBreakNothing`; `BreaksExactly` for a state).
- `LinkSignals`: signals are emitted after the lock is released and can pass each other, so that a listener
  holds a dead link for good (`DeadLinkShown`); `EmittedExactly` and `EmitExactly` say when they still
  alternate.
- `Loader`: a dependency nobody registered leaves applications half initialised, and a later service
  that needs one ends in the report of a cycle that does not exist (`FalseCycleReport`, exactly when:
  `FalseReportExactly`).
- `SwitchOrdering`: a link-up that is tested while the switch-up is being handled can be lost
  until the switch comes up again
  (`LinkLost`; `CacheSpoiledBy` is the exact step).
- `Agent`: a reply or error to a request that expects none wedges the queue: no barrier queued behind it
  ever succeeds again (`OnceExactly`, `WedgeStarts`, `WedgeReached`, `BarriersFailForever`).
- `Triggers`: selecting a path clears its bits but not its counters (`ResetExactly`); the counters are
  eight bits wide, so with 257 elements down a recovery ends the trigger (`WrapReached`, exactly when:
  `TriggersExactly`).
- `MsgSender`: once the limit for the next pack is zero, as a 32-bit wrap-around can make it, and no
  barrier is outstanding, the sender never sends again (`StallReached`); no other run stalls (`RunStalls`).
- `Version`: a negative part is compared differently from a missing one (`NegativePartMisorders`,
  `OrderExactly`).

## Model

| member | source | states |
|---|---|---|
| IdGen.Generator.Create | src/core/IdGen.cc:23-26 | construction fails exactly for a zero capacity or a range that reaches UINT64_MAX + 1, the overflow being detected in wrapping arithmetic; otherwise nothing is held |
| IdGen.Generator.Acquire | src/core/IdGen.cc:28-46 | refused iff the pool is empty; the id handed out was free iff the edge segment is not empty, and then it is the least (forward) or greatest (backward) free id and the only one that becomes held; it is in the range or, backward, the one below it |
| IdGen.Generator.Release | src/core/IdGen.cc:78-112 | out-of-range iff outside the range, double release iff the id is free, and nothing changes then; otherwise exactly that id becomes free and the pool stays sorted and fully coalesced |
| IdGen.PatchIsRight | src/core/IdGen.cc:94-111 | whichever branch the UINT64_MAX and 0 sentinels with wrapping subtraction select, the segment put in covers what it replaces and the id, no more, and leaves a gap to both neighbours |
| IdGen.Generator.Recovery | src/core/IdGen.cc:48-76 | succeeds iff the ids are distinct and in range, and then exactly they are held; no segment is empty, and no later run of acquires hands out an id in use, iff no id, at its turn, was the lowest of a longer free block; a failure leaves the ids before the offending one booked |
| IdGen.OnlyFreeExactly | src/core/IdGen.cc:28-46 | acquires in a row hand out only free ids, however many, iff no segment is empty |
| IdGen.Generator.Unused | src/core/IdGen.cc:114-120 | counts the free ids; free and held ids add up to the capacity |
| IdGen.Generator.Used | include/runos/IdGen.hpp:59-61 | counts the held ids |
| IdGen.Run | src/core/IdGen.cc:23-112 | in every run of acquire and release from construction, or after recovering a safe list, the log is that of a correct allocator: no id is granted while outstanding, each grant is the extreme free id, refusals and double-release errors come exactly when they should |
| IdGen.GrantWithNothingFree | src/core/IdGen.cc:66-74 | after booking the whole range in an unsafe order, acquire hands out an id that is booked or, backward, the one below the range |
| IdGen.TotalCountsIds | src/core/IdGen.cc:114-120 | for separated segments the sum of the lengths is the number of ids denoted |
| LinkDiscovery.RunSound | src/core/LinkDiscovery.cc:172-276 | in every run, however ports are wired and whatever the clock readings: the ordered sets stay sorted with one entry a pair, links are in normal order, and no index entry dangles |
| LinkDiscovery.ShadowExactly | src/core/LinkDiscovery.cc:181-276 | throughout a run every link is shadowed by a waiting entry of its direction that lasts at least as long iff every event was in time: a beacon that confirms nothing is not older than the link of its pair |
| LinkDiscovery.AddWaitingExactly | src/core/LinkDiscovery.cc:348-355 | a new waiting entry leaves every link shadowed iff the link of its pair, if there is one, does not outlast it |
| LinkDiscovery.StepShadowExactly | src/core/LinkDiscovery.cc:172-430 | exactly an event in time leaves every link shadowed |
| LinkDiscovery.LockOrderInTime | src/core/LinkDiscovery.cc:181-191 | if the clock is read in the order of the lock, every event is in time |
| LinkDiscovery.AddBothShadowed | src/core/LinkDiscovery.cc:293-311 | adding a normalised link and then its waiting entry shadows every link, even if the pair was the one not shadowed |
| LinkDiscovery.SignalsAlternate | src/core/LinkDiscovery.cc:188-231 | without reloads, in the order of the changes under the lock, each pair is announced and broken alternately, starting with an announcement, always with from <= to, and the live pairs are exactly the links |
| LinkDiscovery.ExpireSignals | src/core/LinkDiscovery.cc:255-262 | the polling loop removes a prefix of the ordered set, namely links expired before now, and signals exactly those in order of expiry |
| LinkDiscovery.DropExpiredExact | src/core/LinkDiscovery.cc:265-270 | dropping from the front while expired removes exactly the expired elements of an ordered set |
| LinkSafety.PortDownExactly | src/core/LinkDiscovery.cc:222-236 | in a safe state a port that goes down ends the link at that port, whichever end it is, and no other; the port leaves the index, and exactly the pair of that link, if any, is told broken |
| LinkSafety.RemovalFailsExactly | src/core/LinkDiscovery.cc:313-346 | in any state, taking out the link at a port fails a CHECK iff the port is indexed and not both ends of that link are, or the link is a loop |
| LinkSafety.NewBeaconExactly | src/core/LinkDiscovery.cc:203-209 | a beacon of which neither direction waits ends every link at either of its ports, and no other, tells exactly those, and then waits |
| LinkSafety.RepeatedBeaconExactly | src/core/LinkDiscovery.cc:200-209 | a beacon of which only its own direction waits renews that entry and does nothing else |
| LinkSafety.ConfirmingBeaconExactly | src/core/LinkDiscovery.cc:194-212 | a beacon of which the other direction waits makes or renews the link, indexed from both ends, in place of that entry; it is told iff it is new |
| LinkSafety.StrangersIgnored | src/core/LinkDiscovery.cc:172-184 | a beacon that names an unknown switch is ignored; any other vouches for its pair until now plus the holding time |
| LinkSafety.TickExactly | src/core/LinkDiscovery.cc:238-276 | a poll ends exactly the links, and drops exactly the waiting entries, that expired before it, and tells those links in order of expiry |
| LinkSafety.ReloadExactly | src/core/LinkDiscovery.cc:401-430 | after a reload exactly the saved links of known switches are linked and wait, vouched for from now on; nothing is told |
| LinkSafety.PollsPassExactly | src/core/LinkDiscovery.cc:255-262 | no poll, whenever it comes, fails a CHECK iff every link is indexed from both its ends and none is a loop |
| LinkSafety.AddLinkExactly | src/core/LinkDiscovery.cc:293-311 | adding a link keeps such a state so iff the link is no loop and no link of another pair holds either port |
| LinkSafety.BeaconExactly | src/core/LinkDiscovery.cc:188-209 | a beacon fails no CHECK in such a state, and keeps it so iff, in case it confirms a link, the ports of that link are free |
| LinkSafety.RestoreExactly | src/core/LinkDiscovery.cc:401-430 | a reload ends in such a state iff the saved links of known switches are a matching |
| LinkSafety.StepExactly | src/core/LinkDiscovery.cc:172-430 | no event fails a CHECK in such a state, and exactly an admissible one keeps it so |
| LinkSafety.PassExactly | src/core/LinkDiscovery.cc:148-430 | however ports are wired, throughout a run no poll would fail a CHECK iff every event was admissible at its turn |
| LinkSafety.RunWired | src/core/LinkDiscovery.cc:148-430 | in every run that follows a fixed pairing of the ports, every event is admissible, no CHECK fails and every link is indexed from both ends |
| LinkSafety.RunIndexExact | src/core/LinkDiscovery.cc:293-346 | in those runs the index maps exactly the ends of the current links, each to its own link |
| LinkSafety.OtherInvolutive | src/core/LinkDiscovery.cc:148-170 | in those runs `other` passes its CHECK and is an involution on the linked ports, and answers 0:0 elsewhere |
| LinkSafety.BeaconsBreakNothing | src/core/LinkDiscovery.cc:191-219 | in those runs, if every event was in time, a beacon never breaks a link |
| LinkSafety.BreaksExactly | src/core/LinkDiscovery.cc:191-270 | under fixed cabling, no poll followed by a beacon, whenever they come, breaks a link by the beacon iff every link has a waiting entry of its cable that lasts as long |
| LinkSafety.LateBeaconBreaks | src/core/LinkDiscovery.cc:181-209 | in a run with fixed cabling and no port down, a beacon with an older clock reading that got the lock later makes a later beacon break the link |
| LinkDiscovery.TwoBeaconsLink | src/core/LinkDiscovery.cc:181-209 | two beacons over a cable, one each way and in either order, make the link |
| LinkDiscovery.ConfirmedLasts | src/core/LinkDiscovery.cc:194-270 | a beacon that meets the opposite direction makes or renews the link, and it survives every poll up to its expiry |
| LinkSafety.MiswiringCrashes | src/core/LinkDiscovery.cc:255-261 | a port rewired from one neighbour to another can end in two links, and the second index erase fails its CHECK |
| LinkSignals.ChangesAlternate | src/core/LinkDiscovery.cc:188-231 | whatever is emitted when, the changes of a pair alternate and tell whether it is linked |
| LinkSignals.EmittedExactly | src/core/LinkDiscovery.cc:209-219 | in every run the signals emitted for a pair alternate iff they read as a prefix of its changes |
| LinkSignals.EmitExactly | src/core/LinkDiscovery.cc:231-235 | while the signals told of a pair alternate, emitting one more keeps that iff it is a discovery exactly when an even number were told |
| LinkSignals.OvertakeExactly | src/core/LinkDiscovery.cc:209-235 | after emissions in order, that is iff it overtakes an even number of older ones of its pair |
| LinkSignals.OrderlyAlternates | src/core/LinkDiscovery.cc:271-276 | if no signal overtakes an older one of its pair, the emitted signals alternate, and once all are delivered a listener holds exactly the links |
| LinkSignals.DeadLinkShown | src/core/LinkDiscovery.cc:209-235 | in a run where a discovery and a port-down pass each other, all is delivered, there is no link, and the listener holds one |
| LinkDiscoveryApp.Discovery.FindLink | src/core/LinkDiscovery.cc:285-291 | finds the first element with the given pair |
| LinkDiscoveryApp.Discovery.AddLink | src/core/LinkDiscovery.cc:293-311 | normalises the link, replaces any of the same pair, indexes both ends, and says whether the pair is new |
| LinkDiscoveryApp.Discovery.AddWaitingLink | src/core/LinkDiscovery.cc:348-355 | replaces the waiting entry of that pair |
| LinkDiscoveryApp.Discovery.RemoveWaitingLink | src/core/LinkDiscovery.cc:357-367 | removes the waiting entry of that pair, if any |
| LinkDiscoveryApp.Discovery.RemoveLink | src/core/LinkDiscovery.cc:313-329 | removes the link and both index entries, or fails one of the three CHECKs |
| LinkDiscoveryApp.Discovery.RemoveBrokenLink | src/core/LinkDiscovery.cc:331-346 | removes the link indexed at a port, if any |
| LinkDiscoveryApp.Discovery.OnBeacon | src/core/LinkDiscovery.cc:181-219 | refines the three-way beacon step |
| LinkDiscoveryApp.Discovery.ExpireLinks | src/core/LinkDiscovery.cc:255-262 | the loop over the expired links refines the recursive expiry, failed CHECKs included |
| LinkDiscoveryApp.Discovery.Polling | src/core/LinkDiscovery.cc:238-276 | refines the two expiry loops |
| LinkDiscoveryApp.Discovery.LoadFromDatabase | src/core/LinkDiscovery.cc:401-430 | rebuilds all three containers from the saved pairs of known switches |
| LinkDiscoveryApp.Discovery.OtherEnd | src/core/LinkDiscovery.cc:148-170 | the port at the other end, 0:0, or a failed CHECK |
| LinkDiscoveryApp.Discovery.Handle | src/core/LinkDiscovery.cc:172-430 | every event has exactly the effect and signals of the step the run lemmas are about |
| Triggers.TriggersExactly | src/core/Topology.cc:224-315 | in every balanced run a counter is, modulo 256, the number of elements down plus one while a timer delays; throughout it a counted trigger is set iff that number is positive and the signals of every trigger alternate and tell its state, iff no decrement brings such a number to a positive multiple of 256 |
| Triggers.StepExactly | src/core/Topology.cc:224-315 | the same for one event |
| Triggers.TriggersFollow | src/core/Topology.cc:224-315 | so it holds throughout every balanced run within the counter width, where a counter is that number itself |
| Triggers.RecoveryIsTold | src/core/Topology.cc:267-303 | when the last element recovers the trigger goes inactive at once without an interval, and otherwise as soon as the timer fires |
| Triggers.RecoveryIsDamped | src/core/Topology.cc:275-278 | with a damping interval and no timer pending, a recovery sets the timer and changes no bit, no counter and no signal |
| Triggers.PendingIsSilent | src/core/Topology.cc:269-274 | a further recovery while the timer is pending is silent too, and the timer stays |
| Triggers.FlapIsAbsorbed | src/core/Topology.cc:252-286 | a recovery and a failure before the timer fires leave the path and the signals as they were |
| Triggers.OnlyFireTells | src/core/Topology.cc:267-303 | while the interval is not zero, only a timer that fires makes a trigger be told inactive, and then once |
| Triggers.DampedRun | src/core/Topology.cc:267-303 | so no run with an interval that is never set to zero tells a trigger inactive more often than timers fire |
| Triggers.SampleIsTold | src/core/Topology.cc:252-303 | a sample over the threshold leaves its trigger set with no timer pending; one below it ends the trigger at once, or as soon as the timer fires |
| Triggers.WrapReached | src/core/Topology.cc:233-245 | 257 failures and two recoveries announce the trigger inactive twice |
| Triggers.SecondInactive | src/core/Topology.cc:233-286 | after any announced decrement of that kind the trigger is held inactive while elements are down, and the next decrement announces it again |
| Triggers.ResetExactly | src/core/Topology.cc:1515-1527 | clearing the bits keeps the law iff no trigger was active; otherwise the next failure is announced a second time |
| Triggers.DelUndoesSet | src/core/Topology.cc:224-245 | clearing a trigger undoes setting it iff its bit agreed with its counter |
| Triggers.SetUndoesDel | src/core/Topology.cc:224-245 | setting a trigger undoes clearing it iff it was set, even across the wrap-around |
| Triggers.PathTriggers.ActivateTrigger | src/core/Topology.cc:252-265 | a pending timer absorbs the activation; otherwise it is announced iff the bit was off |
| Triggers.PathTriggers.InactivateTrigger | src/core/Topology.cc:267-286 | a pending timer is restarted and the counter drops; with damping a timer starts; otherwise it is announced iff the bit goes off |
| Triggers.PathTriggers.OnTimeout | src/core/Topology.cc:296-301 | the delayed decrement, announced iff the bit goes off |
| Routes.Route.AttachPath | src/core/Topology.cc:131-136 | appends a new path numbered by its index |
| Routes.Route.DetachPath | src/core/Topology.cc:138-148 | removes one path, renumbers the rest, and the index in use still denotes the same object |
| Routes.Route.DeletePath | src/core/Topology.cc:1306-1328 | refuses the path in use, an unknown one and the only one; otherwise as above |
| Routes.Route.MovePath | src/core/Topology.cc:1532-1556 | moves one path, renumbers, and the index in use still denotes the same object, for any number of paths |
| Routes.Route.Renumber | src/core/Topology.cc:1551-1552 | every path gets its index, modulo 256, as id, and no path is moved |
| Routes.MoveFollowsElements | src/core/Topology.cc:1540-1549 | the moved element arrives, the others keep their relative order, and every index is sent to the new place of its element |
| Routes.MovePermutes | src/core/Topology.cc:1542 | a move is a permutation |
| Routes.MoveBack | src/core/Topology.cc:1540-1549 | moving back restores the sequence and the index in use |
| PathWalk.PickEdge | src/core/Topology.cc:455-488 | among parallel links a lightest one is chosen, and zero is reported iff there is none |
| PathWalk.FollowTree | src/core/Topology.cc:450-511 | the walk ends; it is empty iff it is there already or out of reach; otherwise its ports are those of a walk to the target over lightest parallel links whose weight is the distance |
| PathWalk.ComputePath | src/core/Topology.cc:412-511 | between switches: empty iff one is unknown, they are the same or no walk joins them; otherwise the ports of a walk over lightest parallel links that weighs no more than any walk between them |
| PathWalk.PortsSpec | src/core/Topology.cc:492-504 | the port list alternates: each hop leaves the switch the last one arrived at |
| PathWalk.WalkBound | src/core/Topology.cc:445-448 | no walk to the target weighs less than the distance, so the route is a shortest one |
| PathWalk.ClearedMembers | src/core/Topology.cc:575-579 | clearing keeps exactly the links that touch no excluded switch other than the ends |
| PathWalk.InExPath | src/core/Topology.cc:568-607 | empty iff an end is listed as included, or there is no leg from the one end to the first included switch, from one to the next, or from the last to the other end; otherwise a walk from end to end that visits the included switches in order, meets no excluded one, and goes from each to the next by a shortest walk of the graph without the excluded ones |
| PathWalk.TotalIsSum | src/core/Topology.cc:426-440 | a walk weighs the sum of its links' hop, port speed or port loading metrics, as asked |
| PathWalk.FewestLinks | src/core/Topology.cc:426-440 | with unit hop metrics a shortest walk by hops has the fewest links |
| Loader.LoaderImpl.Load | src/core/Loader.cc:185-243 | refines the recursive colouring search; recursion ends because the registered applications decrease |
| Loader.LoaderImpl.StartAll | src/core/Loader.cc:146-183 | ends in the cycle report iff some service clashes with those before it; otherwise each service is started iff its closure is acyclic and complete; nothing is initialised twice, before its dependencies, or without a service that reaches it |
| Loader.LoadingOrder | src/core/Loader.cc:158-159 | whatever the configuration and however loading ends, no application is initialised twice and none before all its dependencies |
| Loader.OnlyReached | src/core/Loader.cc:156-159 | however loading ends, only what some service reaches is initialised |
| Loader.TopLevel | src/core/Loader.cc:185-243 | a top-level call, in whatever state earlier services left the table, ends in the cycle report iff, along first bad dependencies, the service comes back to where it has been or meets what an earlier one left half initialised; otherwise it is initialised iff its closure is acyclic and complete |
| Loader.LoadingExactly | src/core/Loader.cc:156-159 | for every configuration: the cycle report iff some service clashes so with those before it, and otherwise each service is initialised iff its own closure is acyclic and complete |
| Loader.LoadingSucceeds | src/core/Loader.cc:156-159 | with all names registered, loading succeeds iff no service reaches a cycle and otherwise ends in the cycle report |
| Loader.FalseCycleReport | src/core/Loader.cc:204-211 | a missing name can make a later acyclic service end in the cycle report |
| Loader.FalseReportExactly | src/core/Loader.cc:204-211 | without any cycle that report comes iff a service not on the trail of an earlier one meets such a trail in a registered application |
| SwitchOrdering.MutualExclusion | src/core/SwitchOrdering.cc:294-349 | in every interleaving, two threads of one switch are never both past the mutex |
| SwitchOrdering.HandledAlternate | src/core/SwitchOrdering.cc:121-159 | in every interleaving, handled ups and downs of a switch alternate starting with an up, no switch is recorded twice, and between handlings it is recorded iff it is up |
| SwitchOrdering.RecordIsRight | src/core/SwitchOrdering.cc:316-349 | in every interleaving, once all handlers of a switch are gone, it is recorded iff its connection is alive |
| SwitchOrdering.FinishKeeps | src/core/SwitchOrdering.cc:124-159 | the update in the finished callback, made before the unlock, keeps the record in step with the log |
| SwitchOrdering.CacheFlushed | src/core/SwitchOrdering.cc:128-145 | if link-ups are not interrupted, no link-up of a connected switch stays in the cache |
| SwitchOrdering.FinishTells | src/core/SwitchOrdering.cc:124-159 | a finished switch-up tells the ports cached for that switch, in order, and empties that cache only; a switch-down tells nothing |
| SwitchOrdering.LinkUpsConserved | src/core/SwitchOrdering.cc:124-247 | in every interleaving the link-ups of a port carried out are exactly those told, those cached and those taken back by a link-down |
| SwitchOrdering.StepAccounts | src/core/SwitchOrdering.cc:213-247 | step by step: a link-up is told or cached, leaves the cache only by being told or taken back, and a link-down is told iff its switch has nothing cached |
| SwitchOrdering.CacheSpoiledBy | src/core/SwitchOrdering.cc:213-231 | a step leaves a link-up in the cache of a connected switch exactly when it acts on a stale test |
| SwitchOrdering.LinkLost | src/core/SwitchOrdering.cc:213-247 | such a run exists: the link stays in the cache of a connected switch untold, and meanwhile link-downs of that switch are swallowed too |
| Agent.OnceExactly | src/core/OFAgentImpl.hpp:468-495 | a step keeps "every promise made is either queued and open or completed once" iff it is not a reply or error to a session that expects none |
| Agent.CompletedOnce | src/core/OFAgentImpl.hpp:445-495 | in every orderly run each promise is completed at most once and its session leaves the queue in that step |
| Agent.CloseAll | src/core/OFAgentImpl.cc:374-401 | a barrier reply completes exactly the sessions up to the first barrier with that id, in order, and leaves the later ones alone |
| Agent.BarrierSettles | src/core/OFAgentImpl.cc:389-400 | the reply to a barrier fulfils every session before it that expects no response, breaks every other with not_responded, and fulfils the barrier; what is behind it stays |
| Agent.StrangeBarriers | src/core/OFAgentImpl.cc:385-387 | a barrier reply that belongs to no queued barrier is ignored |
| Agent.CloseHalfway | src/core/OFAgentImpl.cc:389-396 | one that comes to a promise already completed throws there: the sessions before it are completed as usual but stay queued |
| Agent.LeftBehind | src/core/OFAgentImpl.hpp:491-494 | a sequence session left like that goes silently with its next part, unless that is the last one, which throws |
| Agent.SessionsQueued | src/core/OFAgentImpl.hpp:445-466 | a request queues its session under the id it took, whether the switch is there or not, and throws iff it is not; the send hook queues a barrier session |
| Agent.BarrierIsFence | src/core/OFAgentImpl.cc:374-401 | after the reply to a barrier every promise made up to it is completed, whatever happened between, including when the send hook queued a second session with its id; if the barrier was still pending, everything queued behind it waits on |
| Agent.FencePush | src/core/OFAgentImpl.cc:33-36 | the second session that the send hook queues under the same id leaves the fence where it was |
| Agent.WedgeStarts | src/core/OFAgentImpl.hpp:481-489 | an error or reply to a session that expects none breaks its promise, throws, and leaves it in the queue |
| Agent.WedgeReached | src/core/OFAgentImpl.hpp:481-489 | a request that expects no response and an error in return lead there |
| Agent.WedgedForever | src/core/OFAgentImpl.cc:374-401 | it stays there in every later run |
| Agent.BarriersFailForever | src/core/OFAgentImpl.cc:389-400 | every later reply to a barrier behind it throws and closes nothing from it on |
| Agent.Reassembly | src/core/OFAgentImpl.cc:122-206 | however replies interleave, those of another type with the id included, a sequence session holds the concatenation of its own parts in order |
| Agent.LastPartDelivers | src/core/OFAgentImpl.cc:130-135 | the part without the "more" flag delivers the whole sequence to that promise, and the id is forgotten |
| Agent.LateReplyRejected | src/core/OFAgentImpl.hpp:476-479 | from then on, in every later run that does not reuse the id, a reply with it is a bad reply and changes nothing |
| Agent.OneReplyCloses | src/core/OFAgentImpl.cc:89-153 | the first reply of the right type closes a single-object session: a configuration, description or role as it comes, aggregates and meter features only if nothing is to follow, other statistics only if, besides, there is exactly one object, else with an error; every other promise waits on as before |
| Agent.ErrorCloses | src/core/OFAgentImpl.cc:71-82 | an error closes the session that has its id with that error, and no other |
| Agent.StrangeReplies | src/core/OFAgentImpl.hpp:471-479 | a reply or error with an id below the agent's is ignored, one that nobody waits for is a bad reply, and nothing changes |
| Agent.IdsFresh | src/core/OFAgentImpl.hpp:449-455 | with fewer than 2^32 - 0x10000 requests, however taking an id and queueing a session interleave, an id handed out and not yet queued is on no session |
| Agent.RequestCollects | src/core/OFAgentImpl.hpp:445-466 | so a new sequence request starts collecting, with nothing yet |
| Agent.RequestFences | src/core/OFAgentImpl.hpp:445-466 | and a new barrier request meets what BarrierIsFence asks for |
| AgentApp.OFAgent.Request | src/core/OFAgentImpl.hpp:452-463 | the part of a request after its id is taken: queues a session, in one lock region; an offline switch makes it throw and leaves the session queued |
| AgentApp.OFAgent.FindTask | src/core/OFAgentImpl.cc:363-372 | the first session with that id |
| AgentApp.OFAgent.OnReply | src/core/OFAgentImpl.hpp:468-495 | refines the reply step: accumulate, complete and erase, or throw |
| AgentApp.OFAgent.OnError | src/core/OFAgentImpl.cc:71-82 | refines the error step |
| AgentApp.OFAgent.PopTasksUntil | src/core/OFAgentImpl.cc:374-401 | refines the barrier loop, including where a satisfied promise stops it |
| MsgSender.Conservation | src/core/OFMsgSender.cc:83-102 | in every run the messages sent, then those waiting, are exactly those queued, in order |
| MsgSender.WindowLaw | src/core/OFMsgSender.cc:83-184 | in every run, even if the limit wraps around, an outstanding barrier means nothing sent since, and each barrier attempt but a retry closes a window of exactly the limit |
| MsgSender.LimitFloor | src/core/OFMsgSender.cc:104-126 | the limit never falls below min(initial, 20) |
| MsgSender.DecreaseFloor | src/core/OFMsgSender.cc:113-126 | a decrease divides the limit, rounding down, but never goes below 20 |
| MsgSender.LimitLaw | src/core/OFMsgSender.cc:104-184 | an answered barrier adds to the limit, an overdue one divides it down to 20 at least, and no other step changes it |
| MsgSender.RunTimed | src/core/OFMsgSender.cc:73-81 | in every run the recorded time is that of the last barrier attempt |
| MsgSender.RetryExactly | src/core/OFMsgSender.cc:172-180 | a poll that finds messages waiting and a barrier outstanding cuts the limit and tries the barrier anew iff more than the wait interval has passed since the last attempt, and otherwise does nothing |
| MsgSender.StallExactly | src/core/OFMsgSender.cc:83-102 | a sender never puts anything on the wire again, whatever happens, iff no barrier is outstanding and as many were sent as the next pack's limit allows |
| MsgSender.RunStalls | src/core/OFMsgSender.cc:83-184 | a run gets there iff that limit is zero |
| MsgSender.StallReached | src/core/OFMsgSender.cc:104-111 | a limit of one and the largest additive ratio lead there with the first answered barrier |
| MsgSender.NeverStalls | src/core/OFMsgSender.cc:157-184 | so while the limit fits 32 bits no run stalls: with messages waiting and no barrier outstanding, a poll sends as many as the window takes, at least one, and a barrier is outstanding afterwards iff that filled the window and the request was accepted |
| MsgSender.Drains | src/core/OFMsgSender.cc:157-184 | if barriers are answered, as many polls as there are messages empty the queue |
| MsgSender.MsgStatus.Pack | src/core/OFMsgSender.cc:83-102 | the loop sends min(queue, limit - sent) messages, with a barrier attempt iff that fills the window |
| MsgSender.MsgStatus.Polling | src/core/OFMsgSender.cc:157-184 | grow and send a pack, shrink and retry the barrier, or wait |
| Limiter.RunWindow | src/core/OFServer.cc:609-627 | under a monotone clock the queue is exactly the accepted time points of the last second, and any maxPps + 2 accepted messages span more than a second |
| Limiter.RateBound | src/core/OFServer.cc:609-627 | every closed one-second window holds at most maxPps + 1 accepted messages |
| Limiter.DroppedExactly | src/core/OFServer.cc:609-627 | under a monotone clock the next message is dropped iff more than maxPps accepted ones lie in the second before it |
| Limiter.BoundReached | src/core/OFServer.cc:619-626 | and that many are accepted at one instant |
| Limiter.MessageLimiter.OnMessage | src/core/OFServer.cc:609-627 | prunes, decides and records on one connection, and affects no other |
| PropertySheet.Sheet.MatchSelector | src/core/PropertySheet.cc:185-200 | an entry matches iff every column scores, and then the score is column by column |
| PropertySheet.MatchesExactly | include/runos/PropertySheet.hpp:89-123 | an entry matches iff every column accepts its field: any, its own string, or what its expression accepts |
| PropertySheet.EntryOffers | src/core/PropertySheet.cc:185-208 | a matching entry offers all its properties in order, scored three, two or one a column; any other offers nothing |
| PropertySheet.CandidatesInOrder | src/core/PropertySheet.cc:228-246 | the candidates of a list of entries are those of each entry, one after the other |
| PropertySheet.AcceptAnswers | src/core/PropertySheet.cc:210-226 | offering one more property keeps the table the answer for everything offered so far |
| PropertySheet.Sheet.AcceptProps | src/core/PropertySheet.cc:210-226 | so does offering all properties of an entry |
| PropertySheet.Sheet.Query | src/core/PropertySheet.cc:228-246 | exactly one property comes out for each name of a matching entry: that of the lexicographically greatest score, the latest among equals, in the order of the names |
| PropertySheet.MoreSpecificWins | include/runos/PropertySheet.hpp:89-123 | of two matching entries equally specific up to a column, the one more specific there scores higher: exact over fuzzy over any |
| PropertySheet.BestUnique | src/core/PropertySheet.cc:216-221 | there is at most one such property |
| Version.NewVersion | src/core/PropertySheet.cc:34-50 | splits at dots, rejects what is not a number, and strips trailing zeros |
| Version.NumbersExactly | src/core/PropertySheet.cc:35-44 | a text is rejected iff some piece is no number, and otherwise read piece by piece |
| Version.OrderExactly | include/runos/PropertySheet.hpp:133-137 | comparing stripped vectors agrees with comparing zero-padded versions iff neither goes on after the other with a negative part |
| Version.NegativePartMisorders | include/runos/PropertySheet.hpp:133-137 | "1" comes before "1.-1", though padded it comes after |
| Version.OrderIsPadded | include/runos/PropertySheet.hpp:133-137 | for non-negative parts the order is the padded one, and total |
| Version.CheckDecides | src/core/PropertySheet.cc:52-60 | the checker decides the interval of padded versions |
| Version.SplitJoin | src/core/PropertySheet.cc:35-44 | splitting undoes joining by dots |
| Version.ParseAppendZero | src/core/PropertySheet.cc:46-48 | a text and the text with ".0" appended parse to the same version |

## Left out

- REST, command line, database, logging and web files: input, output and formatting.
- The recovery and heartbeat protocol: it rests on code that is not part of this model.
- FlowEntriesVerifier, PacketParser, FluidOXMAdapter, StatisticsStore: they rest on library types and floating-point rates.
- Topology metrics from port statistics (updateMetrics, reloadStats): arithmetic on counters only; the threshold results enter as `Sample` events.
- Topology maxWeight, findPath and exactPath: they prepare the graph or look links up one by one.
- IdGen to_json and from_json: they copy the pool without checking it.
- Loader threads (moveToThread, pin-to-thread): which thread runs an application does not affect the order.
- SwitchOrdering barrier timers and the handler threads that are never told to quit: resources, not order.
- OFMsgSender.switchUp, and the ratio zero by which a decrease would divide: ratios are at least one.
- MsgSender.LimitFloor: holds while the limit fits 32 bits, as do `LimitLaw`, `NeverStalls` and `Drains`; the wrap-around itself is modelled, and `RunStalls` says what it can do.
- OFMsgSender: a barrier answered with an error makes the poll throw; barriers are answered or not.
- Agent.BarrierIsFence: an error addressed to the barrier itself completes it and takes the fence away, so such runs are excluded.
- LinkDiscoveryApp.Discovery.Handle: an iterator is modelled by the element it points at, so aliasing of equal elements is not seen.
- PathWalk.InExPath: a switch that left and came back has an older vertex that exclusion does not clear, so avoidance is stated for the current vertex.
- Routes.Route.DetachPath: a path is a record told apart by a key, so two routes sharing one path object are not modelled.
