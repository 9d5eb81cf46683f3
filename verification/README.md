# A verified model of the L4 load balancer

This project models the data plane and the control core of a multi-core layer-4 load balancer and proves what
they keep over whole runs, for every input. `dafny verify dfyconfig.toml` checks all of it.

## What is modelled

**Session table** (`Links`, `Wheel`, `Expiry`, `TableOps`, `Runs`, `Lifetimes`, `Sessions`). A preallocated array of sessions
with a free stack, a two-key hash index and a lazy 4096-slot timer wheel of intrusive lists, plus the pending list
of a half-processed slot. `Wheel` gives the exact effect of every operation as a function on table values,
including the second unlink that `expire` performs when it removes a session it has already popped. `Sessions` is
the class on arrays, proved equal to those functions. The table refines a plain map from sessions to deadlines
exactly while no step overwrites an occupied slot. On runs from init that keep pace with the clock that never happens
when timeouts stay below 4096 seconds, and can happen with any longer limit (`Runs.LongestSafeTimeout`). The code and
its documentation disagree here: `include/lb/session.h:69` says timeouts may exceed the wheel, and the configuration
accepts up to 86400. The model follows the code: structure and index stay consistent on every run, but beyond the
bound a session can be left alive on no list. `Lifetimes` says in seconds how long a flow lasts on runs that lose
nothing.

**Packet handling** (`Steering`, `Handlers`, `TcpStates`, `Ownership`, `Answers`, `WorkerContext`). Steering of packets
to workers, the choice of SNAT ports, and the packet handlers: `Handlers` has them as functions, `WorkerContext` the
same on the session arrays with the port-search loops. `Ownership` says what every handler keeps, `Answers` what it
answers, on flows and flags. A comment in `src/lb/tcp_state.cpp:59` lets an acknowledged FIN end a connection; the code
asks for both FINs, and `TcpStates.TimeWaitIff` says exactly when it is satisfied.

**Cluster** (`Cluster`, `Fates`, `Histories`, `Ticks`, `Dispatch`). The interleaved steps of N workers with their
receive queues, redirect rings and transmit buffers, and the receiver of pipeline mode. On every run: who holds which
flow (`Cluster`), where every buffer goes and why it is freed (`Fates`), what every flow says about the packets handled
for it (`Histories`), and exactly when it goes (`Ticks`).

**Packets** (`Checksum`, `Options`, `Packets`, `Acceptance`, `Rewrite`, `Icmp`, `Mbuf`, `Wire`). The parser, full and incremental
checksums (sections 1 and 2 of RFC 1071, section 3 of RFC 1624, RFC 768), the timestamp strip, the client-address
option, address translation of TCP and UDP frames and of ICMP errors with their quoted headers. `Mbuf` is the
in-place form on a byte array, proved equal to the functions of `Rewrite` and `Icmp`. `Acceptance` says on bytes which
frames the parser takes, and `Wire` joins frames and flows.

**Schedulers** (`Wrr`, `Maglev`, `Scheduler`). Smooth weighted round robin and the Maglev fill (section 3.4 of the
Maglev paper, NSDI 2016), as the loops of the source. Maglev credits are reals passed through a rounding function:
any that is exact at 0 and 1 for the fill itself, and for shares in proportion to weights one that keeps order and is
off by at most a given amount between 0 and 2, which for doubles is 2^-53. The header calls 4096 the limit of a round-robin
sequence; the code keeps it if and only if the condition of `Wrr.CapIsKeptIff` holds. Two more limits of the code are
stated exactly where they matter: a 32-bit cursor that wraps inside a turn (`Scheduler.FullTurnIff`) and a 32-bit
generation that wraps (`Neighbour.HitsAreFreshIff`).

**Control plane** (`Lookup`, `Control`, `Rcu`, `Neighbour`, `Health`). The snapshot's open-addressing tables, the
operations on real servers, publication under quiescent-state based reclamation, the neighbour table with the
generation counter that guards cached MAC addresses, and the health checker.

`Types` and `Finite` hold shared words, keys and set sizes.

## What comes from outside

Hash functions (jhash, CRC, Toeplitz) are uninterpreted parameters. The hash library is a finite map whose insertion
may refuse a new key; its answers are inputs. Redirect rings of 4096 slots hold 4095 packets; the room of receive
queues is an input. The clock is an argument that never goes back. Atomic accesses are the steps of the concurrent
models, taken in any order but each at once. Quiescent-state reporting follows the library's documented tokens: a
reader reports the token it last saw, and a publisher waits until every online reader has reported one at least as new
as its own.

## Model

| member | source | states |
|---|---|---|
| Links.LinkShape | src/lb/session.cpp:179-192 | linking an idle session at a slot's head keeps every list well linked |
| Links.LinkLost | src/lb/session.cpp:179-192 | linking makes the linked session reachable and loses nobody else |
| Links.UnlinkShape | src/lb/session.cpp:194-205 | unlinking any live session keeps every other link consistent, even when the session was not reachable |
| Links.UnlinkLost | src/lb/session.cpp:194-205 | exactly which sessions become unreachable when a head is overwritten by an unlink |
| Links.PushShape | src/lb/session.cpp:207-215 | pushing onto the half-processed list keeps all lists well linked |
| Links.DrainFrame | src/lb/session.cpp:153-157 | moving a whole slot to the pending list changes no deadline and no slot tick |
| Links.DrainAcyclic | src/lb/session.cpp:153-157 | moving a slot list to the pending list keeps all chains free of cycles |
| TableOps.FreshIsSound | src/lb/session.cpp:28-72 | a new table is empty, sound, on time and has an exact index |
| TableOps.CreateAdds | src/lb/session.cpp:93-119 | a successful creation adds exactly one flow with its deadline (what that means in seconds is Lifetimes.LastsItsTimeout), takes it from the free stack, and loses nobody |
| TableOps.CreateFails | src/lb/session.cpp:93-105 | creation succeeds exactly when an index is free and both keys were accepted; a failure changes no flow |
| TableOps.CreateTimely | src/lb/session.cpp:93-119 | creation keeps the wheel on time, and keeps no-lap if and only if the new deadline is below the horizon |
| TableOps.CreateIndexIff | src/lb/session.cpp:100-105 | since an added key overwrites silently, the index stays exact if and only if the caller brought unused keys |
| TableOps.RemoveTakesOne | src/lb/session.cpp:121-129 | removal takes exactly one flow out of the map of flows |
| TableOps.RemoveSound | src/lb/session.cpp:121-129 | removal keeps the structure of any sound table and says exactly who is lost by it |
| TableOps.RemoveIndex | src/lb/session.cpp:121-129 | removal takes both keys out and keeps the index exact |
| TableOps.EvictedOnlyByLost | src/lb/session.cpp:194-205 | an unlink can hide another session only if the unlinked one was itself unreachable |
| TableOps.TouchRefreshes | src/lb/session.cpp:131-141 | refreshing changes one deadline and nothing else in the map of flows |
| TableOps.TouchTimely | src/lb/session.cpp:131-141 | refreshing keeps the wheel on time, and no-lap when the new deadline is below the horizon |
| TableOps.ActiveIsFlowCount | include/lb/session.h:112-112 | `active()` is the number of live flows |
| Sessions.SessionTable.Active | include/lb/session.h:112-112 | the class's `active()` returns that number |
| TableOps.EveryLiveIsOnItsList | src/lb/session.cpp:179-215 | with nothing lost, walking a list from its head meets every live session that names that list |
| TableOps.IndicesArePartitioned | src/lb/session.cpp:93-222 | with nothing lost, every array index is either on the free stack or on exactly one slot or pending list, once |
| TableOps.ExpireIndex | src/lb/session.cpp:143-173 | expiry keeps the two-key index exact |
| TableOps.ExpireRefinesDeadlines | src/lb/session.cpp:143-173 | the lazy budgeted wheel computes the plain deadline map: nothing early, nothing changed, and once caught up exactly the flows not yet due |
| Expiry.ProcessSound | src/lb/session.cpp:162-170 | one processing step, with its second unlink as the code does it, keeps the structure |
| Expiry.AdvanceSound | src/lb/session.cpp:146-160 | taking a slot down and advancing the hand keeps the structure |
| Expiry.StepLosesNothingIff | src/lb/session.cpp:162-170 | one step keeps every session reachable if and only if its guard is false: the popped session is due and its old slot holds someone |
| Expiry.ExpireLosesNothingIff | src/lb/session.cpp:143-173 | a call loses no session if and only if no step of it meets that guard; what is lost stays lost |
| Expiry.ExpireSound | src/lb/session.cpp:143-173 | structure survives every call, whatever clock and timeouts |
| Expiry.ExpireRemovesOnlyDue | src/lb/session.cpp:143-173 | only due sessions go, and the rest keep their records |
| Expiry.ExpireBounded | src/lb/session.cpp:143-173 | a call frees at most its budget, and the hand never runs ahead of the clock |
| Expiry.ExpireTimely | src/lb/session.cpp:143-173 | a call that loses nothing leaves every live session on a list at or before its deadline |
| Expiry.ExpireExact | src/lb/session.cpp:143-173 | a call that catches up and loses nothing leaves exactly the sessions whose deadline is after `now` |
| Expiry.NoLapExpire | src/lb/session.cpp:143-173 | when every deadline is less than a turn ahead a call is safe and the bound still holds after it |
| Expiry.CallPays | src/lb/session.cpp:143-173 | each full call shortens the backlog by exactly 4096 or finishes |
| Expiry.RunPays | src/lb/session.cpp:143-173 | k calls at the same time shorten the backlog by k budgets or finish |
| Expiry.CallsDrainEverythingDue | src/lb/session.cpp:143-173 | floor(live / 4096) + 1 calls at the same time leave exactly the sessions not due |
| Runs.EveryRunIsSound | src/lb/session.cpp:93-222 | links, free stack and pending list stay consistent on every run of create, touch, remove and expire |
| Runs.RunRefinesDeadlineMap | src/lb/session.cpp:93-222 | on every run with deadlines in reach, each step is a step of the deadline map |
| Runs.ShortTimeoutsAreSafe | src/lb/session.cpp:143-173 | with timeouts below 4096 no run that keeps pace with the clock ever loses a session, from init on, and each of its steps is a step of the deadline map |
| Runs.FirstSweepExpire | src/lb/session.cpp:143-173 | the first sweep after init, where deadlines may lie exactly a turn ahead, is safe: what it takes down is all due or all not due |
| Runs.LappedPairIsLost | src/lb/session.cpp:162-170 | two sessions a full turn apart under the hand always lose the longer-lived one |
| Runs.LosingRun | src/lb/session.cpp:143-173 | six operations from init, with a timeout of 4096, leave a live session that is on no list |
| Runs.LongestSafeTimeout | include/lb/session.h:69-69 | nothing is lost on any paced run from init with timeouts up to `limit` if and only if `limit` is below 4096 |
| Lifetimes.KeptRunRefines | src/lb/session.cpp:93-173 | a run that loses nothing is a run of the deadline map, however far its deadlines reach |
| Lifetimes.LastsItsTimeout | src/lb/session.cpp:20-23 | on such a run a flow opened or refreshed with a timeout of n seconds, and then left alone, is there unchanged at every state up to n seconds later (one for n = 0) |
| Lifetimes.LeavesAfterItsTimeout | src/lb/session.cpp:20-23 | it is gone with the first tick that catches up after that, and with no tick before it |
| Lifetimes.PacedRunsAreKept | src/lb/session.cpp:143-173 | paced runs from init with timeouts below 4096 are such runs |
| Sessions.SessionTable.constructor | src/lb/session.cpp:62-71 | init builds the empty table of the specification |
| Sessions.SessionTable.Lookup | src/lb/session.cpp:86-91 | a key finds the session the index names, or nothing |
| Sessions.SessionTable.WheelLink | src/lb/session.cpp:179-192 | the in-place link is the specified link |
| Sessions.SessionTable.WheelUnlink | src/lb/session.cpp:194-205 | the in-place unlink is the specified unlink, head overwrite included |
| Sessions.SessionTable.PendingPush | src/lb/session.cpp:207-215 | the in-place push is the specified push |
| Sessions.SessionTable.PendingPop | src/lb/session.cpp:217-222 | the in-place pop is the specified pop |
| Sessions.SessionTable.Create | src/lb/session.cpp:93-119 | creation on arrays is the specified creation, its two failure paths included |
| Sessions.SessionTable.Remove | src/lb/session.cpp:121-129 | removal on arrays is the specified removal |
| Sessions.SessionTable.Touch | src/lb/session.cpp:131-141 | refreshing on arrays is the specified refresh |
| Sessions.SessionTable.Sweep | src/lb/session.cpp:146-160 | the loop that takes a slot down is the specified drain |
| Sessions.SessionTable.Expire | src/lb/session.cpp:143-173 | the budgeted loop is the specified expiry and returns the number of sessions it removed |
| Steering.InitSw | src/dataplane/steering.cpp:23-27 | software mode: clients' packets are owned by their hash and replies by their port, modulo the workers |
| Steering.InitHw | src/dataplane/steering.cpp:29-43 | every entry of the redirection table becomes its queue modulo the workers, so every hash has an owner |
| Steering.NicAgrees | include/dataplane/steering.h:9-16 | set up from the NIC's own table, the owner of a client's packet is the worker the NIC delivers it to, and so is the owner of a reply where the NIC hashes ports |
| Steering.CandidateInRange | src/core/processor.cpp:165-170 | every SNAT candidate is in 10000..60000 without 16-bit wrap, and congruent to its worker |
| Steering.CandidatesDistinct | src/core/processor.cpp:165-168 | a worker tries all its ports before it repeats one, short of cursor wrap |
| Steering.CandidatesDisjoint | src/core/processor.cpp:165-168 | different workers never offer the same port |
| Steering.CandidateComesBack | src/dataplane/steering.cpp:69-77 | a reply to a lent port is owned by the worker that lent it |
| Handlers.FindSession | src/core/processor.cpp:263-275 | looking a client key up and closing stale sessions keeps table and index exact |
| Handlers.FindSessionEffect | src/core/processor.cpp:263-275 | a session found is usable in this snapshot; a stale one is gone and counted |
| Handlers.NewSessionFlows | src/core/processor.cpp:190-234 | a new session adds exactly one flow, or none when anything fails |
| Handlers.AdvancedFlows | src/core/processor.cpp:131-135 | a packet advances one flow's state and deadline and no other |
| Ownership.LookupByDirection | src/core/processor.cpp:352-354 | a client key never finds a flow by its reply key, nor the other way round |
| Ownership.InboundOwns | src/core/processor.cpp:240-339 | the inbound path keeps ownership, sends only to usable servers of the service the client addressed, opens sessions only on schedulable ones of that service, and redirects only to the owner, once |
| Ownership.ReturnOwns | src/core/processor.cpp:345-390 | the return path keeps ownership, sends the reverse of the client's tuple, and redirects only to the owner, once |
| Answers.Classes | src/core/processor.cpp:592-603 | replies are what goes to a lent port of a local address, probe answers what goes to a probe port; no packet is both, and only what is neither can be for a service |
| Answers.FindSessionExact | src/core/processor.cpp:263-275 | a session is found exactly when the client has a flow that may go on: server enabled and healthy, and no SYN on an ended connection; otherwise its flow is closed |
| Answers.FirstPacket | src/core/processor.cpp:263-339 | the whole answer to a packet whose client has no such flow: a session is opened if and only if the packet is a datagram or a SYN without ACK and RST, a server and in NAT mode a reply key were found, an index is free and the keys are accepted; it replaces the old flow, the packet goes to the picked server, and when it cannot be sent the session is given back |
| Answers.LaterPacket | src/core/processor.cpp:289-339 | the whole answer to any other packet of a client: its flow takes in one client segment, all others stay, and the packet goes to the flow's server when next hop and hop limit allow |
| Answers.ReplyPacket | src/core/processor.cpp:345-390 | the whole answer to a reply: dropped without a flow, flow closed without its server, otherwise one server segment more, the timeout of the new state, the client's address told no more after a reply without SYN, and the packet back to the client |
| Answers.ErrorPacket | src/core/processor.cpp:396-454 | the whole answer to an ICMP error at its owner, in both modes, with every reason to drop it |
| Answers.OtherPacket | src/core/processor.cpp:596-603 | probe answers are handed over, everything for no service is dropped, and no session is touched |
| Cluster.HandlePacketOwns | src/core/processor.cpp:579-604 | whatever the packet, a worker keeps ownership of its flows and redirects only to the packet's owner |
| Cluster.RedirectedMeetsOwner | src/core/processor.cpp:245-247 | at its owner a redirected packet, TCP, UDP or ICMP error, is handled exactly as one that arrived there and is not passed on: the owner-mismatch drop does not fire |
| Cluster.EveryRedirectMeetsOwner | src/dataplane/worker.cpp:504-511 | on every run this holds of every packet taken out of a redirect ring |
| Cluster.PassedOn | src/core/processor.cpp:245-247 | a worker that does not own a packet changes nothing and passes it to the worker that does |
| Cluster.NicNeedsNoRedirect | include/dataplane/steering.h:9-25 | packets where the NIC put them are not redirected |
| Cluster.StepInv | src/dataplane/worker.cpp:475-527 | every step of every worker keeps ownership, exact indices and counters |
| Cluster.StepConserves | src/dataplane/worker.cpp:53-76 | every step moves buffers and loses or doubles none |
| Cluster.EveryRunKeepsOwnership | src/dataplane/worker.cpp:475-527 | on every interleaving: both directions of each flow are owned by its worker, redirect counters match ring contents, session counters match `active()`, and every buffer is in exactly one place |
| Fates.SettledAt | src/dataplane/worker.cpp:53-76 | verdict by verdict: sent packets go to the end of the worker's transmit buffer, redirected ones to the end of the target's ring while it holds fewer than 4095, and only dropped, consumed or overflowing ones are freed |
| Fates.StepMoves | src/dataplane/worker.cpp:29-84 | every step of the cluster moves buffers between queues exactly so; a flush sends what the driver accepts and frees the rest |
| Fates.EveryBufferHasItsFate | src/dataplane/worker.cpp:480-513 | on every run what enters a receive queue, a redirect ring or a transmit buffer leaves it in the same order, what is transmitted is what drivers accepted, and a buffer is freed only for one of five listed reasons |
| Histories.EveryFlowTellsItsHistory | src/core/processor.cpp:131-135 | on every run every live flow of every worker has the state and FIN flags of the segments handled for it since a packet that may open one opened it, and the deadline of the last of them |
| Histories.NoFlowGoesEarly | src/lb/tcp_state.cpp:73-92 | no tick takes a flow within the timeout its segments call for, in seconds since the last of them |
| Ticks.EveryTableIsSafe | src/lb/session.cpp:143-173 | with timeouts below 4096 and ticks that finish, no worker of a cluster ever loses a session |
| Ticks.FlowsLastExactly | src/lb/tcp_state.cpp:73-92 | on such runs a tick keeps a flow if and only if it is within that timeout |
| Cluster.KeysAreUnique | src/core/processor.cpp:171-177 | no two live flows anywhere share a client key or a reply key |
| Cluster.RequestReachesServer | src/core/processor.cpp:240-339 | every further packet of a client, wherever it arrives, is passed to the worker that holds its flow and from there goes to that flow's server |
| Cluster.ReplyAtWorker | src/core/processor.cpp:345-390 | at the worker that holds the flow a reply becomes the reverse of what the client sent |
| Cluster.ReplyReachesClient | src/core/processor.cpp:345-390 | a reply to a translated request, wherever it arrives, is passed to the holder and there becomes the reverse of the client's tuple |
| Cluster.ErrorAtWorker | src/core/processor.cpp:396-454 | at the worker that holds the flow an ICMP error about either translated packet goes to that packet's sender, quoting it as it was sent |
| Cluster.ErrorsReachSenders | src/core/processor.cpp:396-454 | wherever such an error arrives it is passed to the holder and from there reaches the client or the real server, quoting its own packet |
| TcpStates.StateTellsHistory | src/lb/tcp_state.cpp:34-71 | over any packet history: closed exactly after a reset, half-close flags exactly after that side's FIN, past the handshake exactly after a SYN and then the client's acknowledgement, waiting out only when both sides have finished |
| TcpStates.TimeWaitIff | src/lb/tcp_state.cpp:58-62 | without resets a connection waits out exactly when both sides have finished and, before its last segment, the handshake was over and some side had finished |
| TcpStates.TimeoutTellsHistory | src/lb/tcp_state.cpp:73-92 | the timeout in force as a function of resets, handshake and FINs seen: closing, opening, established, half closed or waiting |
| TcpStates.DatagramsHaveNoState | src/lb/tcp_state.cpp:36-37 | datagrams leave a flow's state alone and use one timeout |
| WorkerContext.AcceptedIsGood | src/core/processor.cpp:171-176 | the search rejects exactly the candidates whose replies would not come back here or whose key is in use |
| WorkerContext.SearchStretch | src/core/processor.cpp:155-159 | a search looks through 64 ports for each worker, however replies are steered |
| WorkerContext.EveryTurnComes | src/core/processor.cpp:161-162 | the round-robin over local addresses reaches every one of them |
| WorkerContext.WorkerCtx.TryLip | src/core/processor.cpp:164-184 | the port search on one address returns the first candidate no test rejects, or shows that all were rejected; the cursor moves past every candidate looked at |
| WorkerContext.WorkerCtx.FindServer | src/core/processor.cpp:142-188 | the search over all local addresses in turn returns the first candidate not rejected, with everything before it rejected, or shows that all were |
| WorkerContext.WorkerCtx.Find | src/core/processor.cpp:263-275 | in-place lookup and close is the specified one |
| WorkerContext.WorkerCtx.Open | src/core/processor.cpp:190-234 | opens the session the specification says, and the next search starts after the address used |
| WorkerContext.WorkerCtx.UpdateState | src/core/processor.cpp:131-135 | in-place state update is the specified one |
| WorkerContext.WorkerCtx.Inbound | src/core/processor.cpp:240-339 | the inbound handler on the session arrays is the specified handler |
| WorkerContext.WorkerCtx.Reply | src/core/processor.cpp:345-390 | the return handler on the session arrays is the specified handler |
| Checksum.FoldValue | src/protocol/checksum.cpp:27-29 | folding is the residue modulo 65535 that is zero only for zero |
| Checksum.FoldLoop | src/protocol/checksum.cpp:27-29 | the folding loop computes it for any 32-bit sum |
| Checksum.SumLoop | src/protocol/checksum.cpp:18-26 | the accumulation loop is the exact sum: no 32-bit overflow up to 65535 bytes, odd lengths included |
| Checksum.Calculate | src/protocol/checksum.cpp:16-31 | the full checksum of a byte range |
| Checksum.WordSumSet | include/protocol/checksum.h:53-60 | replacing an aligned word changes the sum by the difference |
| Checksum.UpdateExact | include/protocol/checksum.h:53-60 | one incremental step on a right field gives the right field, bit for bit |
| Checksum.UpdateRepresents | include/protocol/checksum.h:53-60 | the same when the field holds the other encoding of zero |
| Checksum.RecalculateTcp | src/protocol/checksum.cpp:61-81 | full TCP recalculation over pseudo header and segment |
| Checksum.RecalculateUdp | src/protocol/checksum.cpp:83-106 | full UDP recalculation; zero is sent as all ones |
| Checksum.FastTcpIsExact | include/protocol/checksum.h:63-76 | the six TCP steps give exactly the full recalculation of the rewritten segment |
| Checksum.FastUdpIsExact | include/protocol/checksum.h:79-99 | the same for UDP, where an absent checksum stays absent and zero is never produced |
| Checksum.RightIff | src/protocol/checksum.cpp:16-31 | a field is right exactly when it makes the covered words fold to all ones |
| Checksum.PseudoIsWordSum | src/protocol/checksum.cpp:43-53 | the pseudo-header sum is the word sum of its twelve bytes |
| Checksum.ReceiverAccepts | src/protocol/checksum.cpp:61-81 | a receiver that sums pseudo header and segment gets all ones exactly when the field is right |
| Options.StrippedDecodes | src/forward/nat_forwarder.cpp:34-55 | a receiver of the stripped options reads the old list without timestamps |
| Options.StrippedUnchanged | src/forward/nat_forwarder.cpp:34-55 | bytes stay the same exactly when there is no timestamp |
| Options.StripTimestamp | src/forward/nat_forwarder.cpp:34-55 | the in-place walk blanks exactly the timestamps and reports it, although blanking overwrites the length it advances by |
| Packets.ReadsAlike | src/protocol/parser.cpp:20-95 | a frame of the same shape is accepted with its own addresses, ports and lengths |
| Acceptance.AcceptedIff | src/protocol/parser.cpp:19-95 | byte by byte, exactly which frames are accepted, fragments, not IP, or malformed |
| Acceptance.AcceptedFields | src/protocol/parser.cpp:52-94 | what is read out of an accepted frame, byte by byte |
| Acceptance.DontFragmentIsIgnored | src/protocol/parser.cpp:61-64 | setting Don't Fragment changes no answer and nothing that is read |
| Acceptance.QuoteIff | src/protocol/parser.cpp:97-126 | exactly which ICMP errors quote a usable packet, and the tuple read from the quote |
| Rewrite.StripKeeps | src/forward/nat_forwarder.cpp:149-156 | stripping changes nothing the parser reads and only removes timestamps for the receiver |
| Rewrite.InsertToaKeeps | src/forward/nat_forwarder.cpp:63-93 | after insertion the parser finds the same packet eight bytes longer, same payload, with the new option in front |
| Rewrite.TranslateKeeps | src/forward/nat_forwarder.cpp:169-220 | after translation the parser finds the new tuple, one hop less, and the old options and payload |
| Rewrite.TranslateIpChecksum | src/forward/nat_forwarder.cpp:169-174 | the IP header checksum of the translated frame is right |
| Rewrite.TranslateTcpSum | src/forward/nat_forwarder.cpp:183-196 | a right TCP field stays right, and recalculation repairs any field |
| Rewrite.TranslateUdpSum | src/forward/nat_forwarder.cpp:197-214 | a right or absent UDP field stays right or absent |
| Rewrite.RewriteKeepsMeaning | src/forward/nat_forwarder.cpp:141-221 | the rewritten frame is accepted with the new tuple and one hop less, payload untouched, and options as before, less timestamps on SYN segments where those are to go, with the client's address in front where that is to be told and header, link and buffer have room |
| Rewrite.RewriteKeepsChecksums | src/forward/nat_forwarder.cpp:141-221 | every rewritten TCP frame has right IP and TCP checksums if it had them or its options changed |
| Rewrite.RewriteKeepsUdpChecksums | src/forward/nat_forwarder.cpp:141-221 | every rewritten UDP frame delimits the same datagram, with a right IP checksum and a UDP checksum that is right or absent if it came in so |
| Rewrite.NextHopAccepts | src/forward/nat_forwarder.cpp:141-221 | a receiver that adds up what it gets accepts the header of every rewritten frame, and the segment if it came in right or its options changed |
| Rewrite.NextHopAcceptsUdp | src/forward/nat_forwarder.cpp:141-221 | the same for datagrams that carry a checksum |
| Rewrite.RewriteChangesOnly | src/forward/nat_forwarder.cpp:141-221 | the frame leaves with the MACs ordered, and no header byte but those translation is about changes |
| Rewrite.HopLimit | src/forward/nat_forwarder.cpp:146-147 | a packet is refused exactly when it has no hop left |
| Rewrite.DrKeepsPacket | src/forward/nat_forwarder.cpp:133-139 | direct routing changes the MACs only, and the packet is read as it was |
| Mbuf.Mbuf.Strip | src/forward/nat_forwarder.cpp:34-55 | the strip step on the buffer is the specified one |
| Mbuf.Mbuf.InsertToaOption | src/forward/nat_forwarder.cpp:63-93 | trim, append, move and patch in place give the specified frame; it fails exactly when the option does not fit or the buffer is chained |
| Mbuf.Mbuf.SetIp | src/forward/nat_forwarder.cpp:170-174 | address, TTL and header checksum stores in place |
| Mbuf.Mbuf.SetTransport | src/forward/nat_forwarder.cpp:176-214 | port and checksum stores in place, recalculated or in six steps |
| Mbuf.Mbuf.Rewrite | src/forward/nat_forwarder.cpp:141-221 | the in-place rewrite leaves exactly the specified bytes, or the untouched frame when the hop limit is used up |
| Wire.FrameCarriesTuple | src/core/processor.cpp:306-326 | the frame a handler has rewritten is accepted by the parser with exactly the ordered tuple and the original payload |
| Wire.RequestAndReply | src/core/processor.cpp:345-389 | request and reply on the wire: the request frame leaves between local address and real server, and any frame answering it leaves as a frame answering the client, payload intact |
| Wire.ServerLearnsClient | src/core/processor.cpp:314-323 | as long as a flow's client is to be told, the server reads the client's address and port in the first option of every segment without SYN and RST, room permitting |
| Icmp.ErrorKeepsMeaning | src/forward/nat_forwarder.cpp:223-260 | a translated ICMP error is accepted between the new hosts, quotes the receiver's own packet, has right ICMP and outer and inner IP checksums, and keeps kind, code and the rest of the quote |
| Icmp.ErrorBytes | src/forward/nat_forwarder.cpp:234-257 | which bytes a translated error differs in |
| Mbuf.Mbuf.RewriteError | src/forward/nat_forwarder.cpp:223-260 | the in-place rewrite of an error leaves exactly the specified bytes |
| Wrr.ReducedExact | src/lb/scheduler.cpp:60-69 | dividing by the gcd is exact and keeps zero and positive weights apart |
| Wrr.ReducedLowest | src/lb/scheduler.cpp:60-69 | the reduced weights have no common factor left |
| Wrr.EffectivePositive | src/lb/scheduler.cpp:67-79 | a backend takes part exactly when its weight is positive, scaling included |
| Wrr.EffectiveLength | src/lb/scheduler.cpp:71-79 | whatever the weights the table stays within 4096 slots plus one per backend |
| Wrr.CapIsKeptIff | include/lb/scheduler.h:41-41 | the documented cap of 4096 is kept if and only if the reduced weights need no scaling, or what rounding cuts off makes room for every weight raised to one slot |
| Wrr.ScaledSum | src/lb/scheduler.cpp:71-79 | the scaled total, exactly: the cap, less what is cut off, plus a slot for each raised weight |
| Wrr.EffectiveCanExceedCap | include/lb/scheduler.h:41-41 | a real input above the cap: weights 65535, 1, 1 take 4097 slots |
| Wrr.Prepare | src/lb/scheduler.cpp:59-79 | the loops compute the effective weights and their total |
| Wrr.LeaderPositive | src/lb/scheduler.cpp:84-89 | the leader of a scan has a positive weight and a positive counter |
| Wrr.BalanceStep | src/lb/scheduler.cpp:84-91 | each round keeps the counters' sum at zero, above minus the total, and equal to share owed minus share given |
| Wrr.Round | src/lb/scheduler.cpp:84-91 | one round in place keeps that balance for the table extended by its pick |
| Wrr.Build | src/lb/scheduler.cpp:59-93 | the table has exactly `total` slots, only positive-weight backends, and every prefix of length n gives backend i fewer than n*w[i]/total + 1 |
| Wrr.SmoothIsExact | src/lb/scheduler.cpp:81-92 | such a table gives every backend exactly its weight in slots |
| Wrr.SmoothLag | src/lb/scheduler.cpp:81-92 | and no prefix leaves a backend behind by as many picks as there are backends |
| Maglev.SizeIsPrime | include/lb/scheduler.h:40-40 | 65537 is prime |
| Maglev.Onto | src/lb/scheduler.cpp:126-131 | every slot lies on every backend's walk |
| Maglev.OneToOne | src/lb/scheduler.cpp:126-131 | no walk meets a slot twice in a full turn |
| Maglev.FillingStep | src/lb/scheduler.cpp:125-133 | a claim keeps the invariant: claimed slots are the filled ones, and every walk is filled up to its cursor |
| Maglev.Claim | src/lb/scheduler.cpp:125-133 | the inner loop ends at the first free slot of the walk and claims it |
| Maglev.Round | src/lb/scheduler.cpp:118-134 | a round that starts with a free slot fills at least one, for any floating-point rounding that keeps 0 and 1 exact |
| Maglev.Build | src/lb/scheduler.cpp:101-136 | the fill ends, every slot goes to a backend of positive weight by the first free slot of its path, equal weights get equal shares to within one slot, and any weights get shares in proportion, off by at most two turns and what the roundings of the credits add up to |
| Scheduler.Scheduler.Build | src/lb/scheduler.cpp:16-32 | the scheduler serves exactly the positive weights; a hashed table is a Maglev fill of the backends' hashes with shares in proportion; workers' cursors start 7919 apart |
| Scheduler.StartSlotsMeetIff | src/lb/scheduler.cpp:29-31 | two workers start at the same slot exactly when the table's length divides the distance of their cursors |
| Scheduler.Scheduler.Pick | src/lb/scheduler.cpp:34-45 | a pick is a positive-weight backend, or none exactly when there is none; the worker's cursor moves by one |
| Scheduler.FullTurnIff | src/lb/scheduler.cpp:43-44 | as many consecutive picks as the table is long give every backend exactly its slots, for every table of that length, if and only if the 32-bit cursor does not wrap in between or wraps at a multiple of the length |
| Scheduler.WrapRepeats | src/lb/scheduler.cpp:43-44 | any other wrap serves some slot twice |
| Scheduler.WrapCanRepeat | src/lb/scheduler.cpp:43-44 | for example three backends at the last cursor before the wrap |
| Scheduler.TurnIsExact | src/lb/scheduler.cpp:34-45 | in round robin a backend has exactly its effective weight in slots, and every such turn serves it exactly that often |
| Lookup.SetHas | src/ctrl/snapshot.cpp:30-38 | probing ends and answers membership; 0 marks empty slots and is always found |
| Lookup.SetAdd | src/ctrl/snapshot.cpp:40-48 | adding makes exactly that address a member and uses at most one slot |
| Lookup.ProbeMeets | src/ctrl/snapshot.cpp:50-61 | a listed service is met before any empty slot, and its first listing first |
| Lookup.AddService | src/ctrl/snapshot.cpp:66-71 | indexing one service keeps all earlier ones findable |
| Lookup.Tables.constructor | src/ctrl/snapshot.cpp:63-84 | with at most 64 services and 64 local addresses every table keeps an empty slot and holds exactly its members |
| Lookup.Tables.FindService | src/ctrl/snapshot.cpp:50-61 | equals searching the list for the first service with that key |
| Lookup.Tables.IsVip | include/ctrl/snapshot.h:79-79 | equals membership among the service addresses, 0 included |
| Lookup.Tables.IsLip | include/ctrl/snapshot.h:80-80 | equals membership among the local addresses, 0 included |
| Lookup.Tables.IsLocal | include/ctrl/snapshot.h:82-82 | equals membership among service, local and health-check addresses |
| Control.Manager.constructor | src/ctrl/snapshot.cpp:90-110 | init gives every configured server its own id, and keeps local addresses only in NAT mode |
| Control.Manager.SetWeight | src/ctrl/snapshot.cpp:128-137 | changes one server's weight or, for an unknown id or a large weight, nothing |
| Control.Manager.SetEnabled | src/ctrl/snapshot.cpp:139-146 | changes one server's administrative state or nothing |
| Control.Manager.AddRs | src/ctrl/snapshot.cpp:148-167 | adds a server under an id never used before, or rejects for exactly the listed reasons |
| Control.Manager.DelRs | src/ctrl/snapshot.cpp:169-178 | exactly that id leaves; all other servers stay in order with weight and state unchanged |
| Control.Manager.SetHealth | src/ctrl/snapshot.cpp:180-184 | changes one server's health or nothing |
| Control.Manager.Build | src/ctrl/snapshot.cpp:186-233 | the snapshot shows exactly the desired servers under their services, its network part is the configured mode, addresses and the services' keys, and a scheduler weight is the server's own where it is enabled and healthy, and zero otherwise |
| Control.PickedIsSchedulable | src/ctrl/snapshot.cpp:225-228 | the entries of positive weight are exactly the servers of the packet's service that a new flow may use in the same snapshot |
| Control.IdentityIsFixed | src/ctrl/snapshot.cpp:148-178 | an id means one address and one service throughout any run |
| Control.NetIsKept | src/ctrl/snapshot.cpp:128-184 | no operation changes mode, local addresses, health-check source or service keys |
| Control.EverySnapshotIsAdmitted | src/ctrl/snapshot.cpp:128-233 | every snapshot built on any run of control operations has the network part of the first state, and one assignment of addresses and services to ids fits them all: what the workers rely on |
| Rcu.StepInv | src/ctrl/snapshot.cpp:235-248 | every step of readers and publishers keeps the reclamation invariant |
| Rcu.EveryRunIsSafe | src/dataplane/worker.cpp:470-531 | on every interleaving of readers and publishers no thread holds a deleted snapshot, and every snapshot published is current, being retired or deleted |
| Rcu.StepAccounted | src/ctrl/snapshot.cpp:235-248 | no step leaks a snapshot |
| Rcu.ReportUnblocks | src/dataplane/worker.cpp:517-517 | a publisher waits only for a reader whose next whole report lets it go on |
| Rcu.WaitEnds | src/ctrl/snapshot.cpp:235-248 | once all readers have reported or are offline, the publisher deletes its snapshot by its own next steps |
| Neighbour.StepInv | src/core/processor.cpp:65-84 | every interleaved step keeps caches fresh |
| Neighbour.HitsAreFresh | src/core/processor.cpp:65-84 | on every interleaving, recycled sessions included, a cache hit yields the current entry, or during a write the entry before or after that one write, as long as the 32-bit generation has not wrapped |
| Neighbour.HitsAreFreshIff | src/core/processor.cpp:67-71 | this holds on every run up to a generation if and only if that generation is below 2^32: at the first wrap an unfilled cache counts as a hit |
| Neighbour.Table.Store | src/net/neigh.cpp:77-89 | a store updates the entry and the count and advances the generation, or does nothing when the hash is full |
| Neighbour.Table.Erase | src/net/neigh.cpp:91-100 | an erase removes entry and record and advances the generation |
| Neighbour.Table.AddStatic | src/net/neigh.cpp:102-105 | a static entry is marked so |
| Neighbour.Table.Learn | src/net/neigh.cpp:107-124 | static entries are untouched, addresses nobody asked for fill at most half the table, and what is learned is confirmed now |
| Neighbour.Table.Hint | src/net/neigh.cpp:126-134 | a hint never replaces an entry, is refused in a half-full table, and confirms what it adds |
| Neighbour.Table.WantRequest | src/net/neigh.cpp:136-142 | an address is asked for at most once a second, and never when static |
| Neighbour.Table.Age | src/net/neigh.cpp:144-168 | learned entries go exactly 300 seconds after they were confirmed, static ones never; exactly those worth asking again are named and marked; records of unanswered requests are forgotten |
| Dispatch.Target | src/dataplane/receiver.cpp:43-72 | the receiver's decision on raw bytes is the specified target, and a worker that exists |
| Dispatch.AcceptedTarget | src/dataplane/receiver.cpp:43-72 | on accepted frames the receiver reads the parser's tuple |
| Dispatch.TargetIsOwner | src/dataplane/receiver.cpp:43-72 | the receiver agrees with the handlers' owner for every accepted frame that has one, except exactly for SNAT-range packets to address 0 that is no local address and whose two owners differ |
| Dispatch.FragmentsMeet | src/dataplane/receiver.cpp:53-61 | frames without usable ports go where their addresses say, so all fragments of a packet meet at one worker |
| Dispatch.ReceiverCanDisagree | src/dataplane/receiver.cpp:69-71 | an accepted frame of that kind: the receiver hands it to worker 1, the handlers say worker 0 owns it |
| Dispatch.Group | src/dataplane/receiver.cpp:82-93 | every buffer lands in exactly its target's group, and groups keep arrival order |
| Dispatch.GroupsPartition | src/dataplane/receiver.cpp:82-93 | the groups hold every buffer as often as it arrived |
| Dispatch.HandOut | src/dataplane/receiver.cpp:74-108 | every buffer is queued at its target in order or freed, exactly once; nothing is freed while rings have room |
| Health.CountersAreStreaks | src/ctrl/healthcheck.cpp:88-105 | the counters are the current streaks (cut to 32 bits), and a long enough streak has settled the verdict |
| Health.VerdictFlipsExactly | src/ctrl/healthcheck.cpp:88-105 | over any history the verdict goes down exactly when failures reach `fall` in a row and up exactly when successes reach `rise` in a row, and then exactly those last results were equal |
| Health.SentInverse | src/ctrl/healthcheck.cpp:164-167 | taking a source port keeps the port index an inverse if and only if no probe in flight has it |
| Health.PortIsFree | src/ctrl/healthcheck.cpp:153-162 | with at most 1000 servers a probe about to be sent finds a free port |
| Health.Checker.ChoosePort | src/ctrl/healthcheck.cpp:155-162 | the search finds a free port if there is one, else keeps the last one |
| Health.Checker.SendProbe | src/ctrl/healthcheck.cpp:153-170 | sending keeps the index an inverse if and only if the range has a free port or the probe's last port is unused |
| Health.PortsRunOut | src/ctrl/healthcheck.cpp:153-170 | a new checker that sends to 1002 servers reaches a state where the index is no inverse |
| Health.Checker.OnResponse | src/ctrl/healthcheck.cpp:177-200 | an answer ends exactly the probe it belongs to, and is a success only if it acknowledges that probe's own SYN |
| Health.Checker.Sync | src/ctrl/healthcheck.cpp:36-57 | listed servers are watched at their listed addresses; known ones keep their state, new ones start from the snapshot's verdict |
| Health.Checker.Forget | src/ctrl/healthcheck.cpp:58-66 | servers no longer listed are forgotten together with their port |
| Health.Checker.Tick | src/ctrl/healthcheck.cpp:31-86 | a tick with at most 1000 servers keeps the index an inverse, watches exactly the listed servers, counts exactly the timeouts, and sends exactly the probes that are due and not waiting |

## Left out

- Runs.LongestSafeTimeout: speaks of runs whose every tick finishes within its budget; runs that fall behind are
  covered by Lifetimes.KeptRunRefines for as long as nothing is lost.
- Ticks.FlowsLastExactly: likewise; Histories.NoFlowGoesEarly holds on every run.
- Health.Checker.Tick: is stated for at most 1000 servers of TCP services; Health.PortsRunOut shows the port index
  breaking beyond that, and Health.Checker.SendProbe says exactly when it does. Events reported to the control thread
  are not modelled.
- Mbuf.Mbuf.Rewrite: the frame lies in the first segment, as the parser demands; further segments of a chained buffer
  only make the client-address option be refused.
- Cluster.EveryRunKeepsOwnership: handles bursts one packet at a time, and takes the workers' snapshots as any the
  control plane may have published (Control.EverySnapshotIsAdmitted) rather than tying them to Rcu step by step.
- Hardware checksum offload, whose result depends on the device.
- Statistics counters other than those of sessions, redirects and buffers; byte counts; RSS self-checks.
- ARP, ICMP echo and gratuitous ARP: field copies.
- Configuration parsing, logging, the control socket and the statistics text.
- Port and queue set-up, start-up and shutdown, including the final deletion of the current snapshot.
- More than 16384 real-server ids at start-up, which the source does not check either.
- Per-session packet counts, creation ticks beyond their store, and the service index kept for display.
