# Vasum: a verified model

Vasum manages Linux containers ("zones"). This project models the parts of it
that hold hard logic and proves properties of the models with Dafny 4.11. Check
everything with `dafny verify dfyconfig.toml`.

| file | what it models |
|---|---|
| `Bytes.dfy`, `NetlinkMessage.dfy` | the netlink message builder: byte-level TLV with nesting, alignment and lengths patched in afterwards |
| `NetlinkResponse.dfy` | the cursor-based reader, and that it reads back what the builder wrote |
| `Netlink.dfy` | the loop that assembles a multi-part reply, and the walk over the result |
| `GuardProtocol.dfy` | the protocol between the container object on the host and its guard process |
| `IoBuffer.dfy`, `GuardRelay.dfy`, `Console.dfy` | the byte relays between terminals under partial reads and writes, and the console's in-band commands |
| `Zones.dfy`, `ZoneSwitching.dfy`, `ZonesManager.dfy` | the zone registry, focus, scheduler levels, virtual terminals, and round-robin switching |
| `QueueLock.dfy` | the exclusive request lock |
| `Arithmetic.dfy`, `Options.dfy`, `Texts.dfy`, `UserNS.dfy` | user-namespace ID maps, their translation and their text, and what several components share |
| `InputMonitor.dfy` | the key-press detector |
| `ZoneProvision.dfy` | provisioning: mounts made and undone under arbitrary failures |
| `NetConfigure.dfy` | gateway computation and the choice of the default route |
| `NetdevAttrs.dfy` | joining and splitting address attributes |

Each component has two halves. A state of plain values with one function per
operation carries the theorems, which quantify over all inputs, all runs or all
interleavings. Where the C++ changes things in place, a class with the same
fields has methods with the same branches and loops, and each method's
postcondition says that it is the function on the class's view. System calls,
signals and the environment's choices are parameters (`data`, `r`, `w`, `oks`,
`env`, `launch`), so a theorem over all parameters covers every outcome.

## Where the code and its words differ

The model follows the code.

- `hasMessage` says in a comment that it tells data from acknowledgements, but
  an acknowledgement carries a 20-byte payload and counts as a message
  (`NetlinkResponses.AckIsMessage`); only a payload of at most four bytes, as
  NLMSG_DONE has, does not.
- A later ID range that starts below an accepted one and reaches into it is
  accepted: `UserNS.OverlapIsAccepted` gives one, `UserNS.AddKeepsDisjointExactly`
  and `UserNS.DisjointExactly` say exactly when ranges stay disjoint.
- An ID range of size 0 that starts at 0 matches every ID, because its end wraps
  around. A list translates exactly the IDs of its ranges if and only if it holds
  no such range (`UserNS.MappedExactly`); `UserNS.TrapTakesOver` is a list with one.
- A `start()` of the container object can leave it STARTING for ever. From any
  reachable state it can still get elsewhere exactly while the start is on its way,
  init is alive, or the message that ends the wait is queued
  (`GuardProtocol.LeavesExactly`); at the call, exactly if the configuration is
  accepted (`GuardProtocol.StartLeavesExactly`). `RejectedStartWitness` and
  `FailedCloneSticks` are a rejected configuration and a failed clone.
- A host object that connects to the guard of an earlier one misses init's exit if
  init dies before the guard handles the connection
  (`GuardProtocol.AdoptedExitIsMissed`). A fresh object never does
  (`GuardProtocol.FreshDrainedMeansStopped`).
- A shutdown that LXC refuses leaves the zone boosted to the foreground level. A
  handler keeps the focus invariant exactly if it is not such a shutdown of a
  running background zone (`Zones.HandleKeeps`, `Zones.FailedShutdown`; an instance
  is `Zones.BoostLeftBehind`). What holds in all runs is `Zones.EveryRunKeepsLoose`,
  and the next change of the active zone repairs the rest (`Zones.FocusChangeHeals`).
- A byte typed before a terminal switch may be written after it, to the other
  terminal (`Consoles.SwitchMisdelivers`); it reaches its own exactly if the
  switches in between go around the circle (`Consoles.OwnTerminalExactly`).
- The ten-second cut-off of the key-press detector changes an answer exactly for
  windows above 9001 ms, although windows up to 10000 ms are configurable
  (`InputMonitors.CutOffMatters`).
- Address lists come back from their text exactly under the condition of
  `NetdevAttrs.JoinSplitExactly`; nothing checks it.
- Provision ids join fields by spaces without quoting: ids tell provisions without
  spaces apart (`ZoneProvisions.IdsTellApart`), others can collide, and the second
  declaration is then refused (`ZoneProvisions.IdsCollide`).
- The 16-bit attribute length is truncated silently: see
  `NetlinkMessages.LengthFieldExact` and `NetlinkMessages.NestLengthExact`.

## Assumptions

- Netlink: little-endian byte order; message lengths below 2^31; raw templates are
  whole words (every caller's is); datagrams are whole words of at most 8192 bytes,
  every datagram after the first begins with a complete message, and NLMSG_ERROR
  messages hold at least their error code (20 bytes in all).
- Guard protocol: one reliable FIFO channel each way, one handler at a time, no
  disconnection within a run, and a restart spawns a fresh guard. An exception in
  the guard's start handler becomes an error reply.
- Relays: a read call returns at most the space offered, a write call takes at most
  the bytes offered. Descriptors are distinct. The console shows fewer than 2^31 terminals.
- Zones: each handler is one step under `mMutex`; no zone changes state on its own;
  LXC may refuse to start or stop a zone, but `activateVT`, freezing and thawing, cgroup writes, file and database operations
  succeed; zones are stopped when the manager starts, and its loaded configuration
  obeys the naming rules. LXC does not start a frozen zone (common/lxc/zone.cpp:202, 235).
- Provisions: an unmount that succeeds takes away one mount at that point, and
  nobody else changes the zone's mount points.
- Key-press detector: `numberOfEvents` is neither 0 nor 1. Negative values are
  covered: they count as large unsigned numbers.
- Gateway: the shift of the mask is taken modulo 2^32. For prefix 0 the C++ shift is
  undefined, but its result is never used.

## Model

| member | source | states |
|---|---|---|
| NetlinkMessages.StepHolds | common/netlink/netlink-message.cpp:75-118 | one builder call on the bytes is one step on the attribute tree being written, open nests with placeholder lengths included |
| NetlinkMessages.RunHolds | common/netlink/netlink-message.cpp:75-118 | after every allowed sequence of calls the bytes are the text of the partial tree and the nesting stack its offsets |
| NetlinkMessages.BalancedRunEncodes | common/netlink/netlink-message.cpp:64-118 | every balanced sequence of calls leaves the header and the recursive encoding of the tree, and nlmsg_len is the buffer's size |
| NetlinkMessages.EveryTreeIsWritten | common/netlink/netlink-message.cpp:64-118 | every tree that fits the wire format is written by its calls, exactly |
| NetlinkMessages.CallsGrow | common/netlink/netlink-message.cpp:75-118 | the calls of any list of nodes, at any nesting depth, append those nodes |
| NetlinkMessages.CallsRun | common/netlink/netlink-message.cpp:75-118 | those calls are possible whenever the finished message's length is an int, and grow the message by the encoded size |
| NetlinkMessages.CloseHolds | common/netlink/netlink-message.cpp:83-90 | endNested turns the placeholder length into 4 plus the padded size of the contents and leaves the other bytes |
| NetlinkMessages.EncodeAllAligned | common/netlink/netlink-message.cpp:97-110 | encoded trees are whole words |
| NetlinkMessages.EncodeAllAppend | common/netlink/netlink-message.cpp:97-118 | writing nodes one after another concatenates their encodings |
| NetlinkMessages.BufferLength | common/netlink/netlink-message.cpp:97-118 | nlmsg_len read from the buffer is the size of the buffer |
| NetlinkMessages.LengthFieldExact | common/netlink/netlink-message.cpp:100-106 | an attribute's 16-bit length is right exactly for payloads under 65532 bytes |
| NetlinkMessages.NestLengthExact | common/netlink/netlink-message.cpp:83-90 | a nest's patched length is right exactly for contents under 65532 bytes |
| NetlinkMessages.NetlinkMessage.constructor | common/netlink/netlink-message.cpp:64-73 | a fresh message is a header of 16 bytes with the type, the flags with NLM_F_ACK, the counter and the pid |
| NetlinkMessages.NetlinkMessage.SetMinCapacity | common/netlink/netlink-message.cpp:128-133 | the buffer grows with zeros and never shrinks |
| NetlinkMessages.NetlinkMessage.PutAttribute | common/netlink/netlink-message.cpp:97-110 | the stores in their order amount to appending the padded attribute and setting nlmsg_len |
| NetlinkMessages.NetlinkMessage.PutString | common/netlink/netlink-message.cpp:92-95 | a string is put with its terminating zero |
| NetlinkMessages.NetlinkMessage.PutTemplate | common/netlink/netlink-message.cpp:112-118 | raw bytes are appended unpadded |
| NetlinkMessages.NetlinkMessage.BeginNested | common/netlink/netlink-message.cpp:75-81 | an empty attribute is appended and its offset pushed |
| NetlinkMessages.NetlinkMessage.EndNested | common/netlink/netlink-message.cpp:83-90 | the top offset is popped and its attribute's length patched |
| NetlinkResponses.AckIsMessage | common/netlink/netlink-message.cpp:142-151 | an acknowledgement of 36 bytes counts as a message |
| NetlinkResponses.DoneIsNoMessage | common/netlink/netlink-message.cpp:142-151 | an NLMSG_DONE with four bytes of payload does not |
| NetlinkResponses.ReadNodeBack | common/netlink/netlink-message.cpp:168-286 | one encoded node, raw, attribute or nest, is read back as itself |
| NetlinkResponses.ReadNodesBack | common/netlink/netlink-message.cpp:168-286 | a list of nodes is read back in order, with the types and payloads taken from the wire, and the cursor ends right behind it |
| NetlinkResponses.BuiltMessageReadsBack | common/netlink/netlink-message.cpp:64-286 | whatever tree the builder wrote, the reader returns it and then finds no more attributes |
| NetlinkResponses.StringReadsBack | common/netlink/netlink-message.cpp:221-260 | a string comes back via the attribute length minus one, without its terminator |
| NetlinkResponses.StringPrefix | common/netlink/netlink-message.cpp:221-260 | a string is cut off at the asked length, and the cursor still ends behind the whole attribute |
| NetlinkResponses.WrongTypeRefused | common/netlink/netlink-message.cpp:192-260 | an attribute or nest of another type than the asked one is refused by openNested, fetchData and fetchString, whatever it holds |
| NetlinkResponses.WrongLengthRefused | common/netlink/netlink-message.cpp:232-267 | fetchData refuses every payload whose length is not the asked one |
| NetlinkResponses.FetchedMessageReadsBack | common/netlink/netlink-message.cpp:158-286 | behind any message the next one, of any tree, is found at the aligned distance and read back entirely |
| NetlinkResponses.NestReadIsSkip | common/netlink/netlink-message.cpp:180-219 | opening a nest, reading all its children and closing it puts the cursor back on the nest, and skipping it then lands where a plain skip would |
| NetlinkResponses.CloseWants | common/netlink/netlink-message.cpp:206-219 | closing succeeds exactly at the distance the nest's length says, and restores the reader that opened it |
| NetlinkResponses.EarlyCloseRefused | common/netlink/netlink-message.cpp:206-219 | closing a nest with children left unread throws, whatever was read |
| NetlinkResponses.AttributeLoopReadsAll | common/netlink/netlink-message.cpp:168-190 | the clients' loop returns every wanted attribute of the message in order, skips the others and stops at the end |
| NetlinkResponses.ReadNode | common/netlink/netlink-message.cpp:168-274 | reading one node stays in the message and leaves the stack of open nests as it was |
| NetlinkResponses.ReadNodes | common/netlink/netlink-message.cpp:168-274 | so does reading many |
| NetlinkResponses.NetlinkResponse.constructor | common/netlink/netlink-message.cpp:135-140 | the reader starts at the first message, behind its header |
| NetlinkResponses.NetlinkResponse.HasMessage | common/netlink/netlink-message.cpp:142-151 | a complete message with a payload over four bytes is at the header; the unsigned remainder does not wrap |
| NetlinkResponses.NetlinkResponse.FetchNextMessage | common/netlink/netlink-message.cpp:158-166 | the header moves to the next aligned message inside the buffer; NLMSG_DONE throws and changes nothing |
| NetlinkResponses.NetlinkResponse.HasAttribute | common/netlink/netlink-message.cpp:168-173 | an attribute fits in what is left of the message, not of the nest |
| NetlinkResponses.NetlinkResponse.SkipAttribute | common/netlink/netlink-message.cpp:180-190 | the cursor moves by the aligned length or the call throws and nothing changes |
| NetlinkResponses.NetlinkResponse.OpenNested | common/netlink/netlink-message.cpp:192-204 | a nest of the asked type is entered and its offset pushed, or the call throws and nothing changes |
| NetlinkResponses.NetlinkResponse.CloseNested | common/netlink/netlink-message.cpp:206-219 | the cursor goes back to the nest's own header and the offset is popped, or the call throws and nothing changes |
| NetlinkResponses.NetlinkResponse.FetchString | common/netlink/netlink-message.cpp:221-260 | at most the asked number of payload bytes, then the cursor behind the attribute |
| NetlinkResponses.NetlinkResponse.FetchData | common/netlink/netlink-message.cpp:232-267 | a payload of exactly the asked length, or the right exception |
| NetlinkResponses.NetlinkResponse.FetchRaw | common/netlink/netlink-message.cpp:269-293 | raw bytes at the cursor, or an exception |
| NetlinkResponses.NetlinkResponse.FetchAll | server/netdev.cpp:506-522 | the client loop over one message terminates, each turn advancing at least four bytes, and fetches the wanted types and skips the others |
| Netlinks.WalkIsWalkList | common/netlink/netlink-message.cpp:142-166 | on any buffer of whole words the hasMessage, fetchNextMessage loop terminates inside the buffer and visits its messages in order up to the first small payload, refusing to step past NLMSG_DONE |
| Netlinks.DataIsVisited | common/netlink/netlink-message.cpp:142-166 | data messages before an NLMSG_DONE or the end are visited, exactly those |
| Netlinks.WholeAppend | common/netlink/netlink.cpp:169-202 | a buffer of complete messages followed by another holds the messages of both, in order |
| Netlinks.ConcatWhole | common/netlink/netlink.cpp:169-202 | so does the concatenation of any number of datagrams |
| Netlinks.ScanReadsAll | common/netlink/netlink.cpp:175-192 | a datagram passes exactly when none of its messages is an error, a mismatched reply or an overrun, and its last message decides whether another datagram is awaited |
| Netlinks.ReceiveConcat | common/netlink/netlink.cpp:155-203 | a reply of any number of clean datagrams is received as their concatenation, and nothing behind it is consumed |
| Netlinks.ReplyIsWalked | common/netlink/netlink.cpp:155-203 | a received multi-part reply, walked, yields exactly its data messages in arrival order |
| Netlinks.GotExactly | common/netlink/netlink.cpp:155-203 | over every stream, a reply is returned exactly if some prefix of datagrams holds only clean messages, all but the last of these datagrams ask for more and the last does not; the reply is then their concatenation |
| Netlinks.ReplyIsGot | common/netlink/netlink.cpp:155-203 | so every such prefix is returned, whatever follows it |
| Netlinks.UncleanFails | common/netlink/netlink.cpp:175-192 | after datagrams that ask for more, the first unclean message decides: a lost-data error for NLMSG_OVERRUN, else a mismatch for a foreign sequence number, else a refusal |
| Netlinks.VerdictError | common/netlink/netlink.cpp:179-191 | an unclean message is an overrun or an NLMSG_ERROR, and one with the right sequence number carries a non-zero code |
| Netlinks.CleanMeans | common/netlink/netlink.cpp:180-199 | on the wire: clean is no overrun, and an NLMSG_ERROR only with the right sequence number and code 0; more is awaited after NLM_F_MULTI unless it is NLMSG_DONE |
| Netlinks.EmptyFails | common/netlink/netlink.cpp:193-197 | a first datagram without a complete message fails |
| Netlinks.BrokenFails | common/netlink/netlink.cpp:177 | a receive that fails, or a stream that ends, while more is awaited gives no reply |
| Netlinks.RefusalIsNoReply | common/netlink/netlink.cpp:186-188 | one 36-byte NLMSG_ERROR with EEXIST and the right sequence number is a refusal and no reply |
| Netlinks.OneDatagram | common/netlink/netlink.cpp:172-199 | each datagram is kept and more awaited, or ends the reply, or fails it with its own error |
| Netlinks.Rcv | common/netlink/netlink.cpp:155-203 | the receive loop over a growing buffer computes the reply or the first error of the datagram sequence, which GotExactly, UncleanFails, EmptyFails and BrokenFails determine |
| Netlinks.CheckDatagram | common/netlink/netlink.cpp:175-192 | the inner loop, on the datagram in place in the buffer, gives the scan's verdict |
| GuardProtocol.StepKeeps | libs/lxcpp/container-impl.cpp:300-440 | every user call, delivery, connection and signal keeps the invariant that stages the protocol |
| GuardProtocol.RunKeeps | libs/lxcpp/guard/guard.cpp:223-370 | so does every interleaving |
| GuardProtocol.GuardNeverFaults | libs/lxcpp/guard/guard.cpp:254-370 | in every interleaving START, STOP and SIGCHLD find the config set |
| GuardProtocol.RunningMeansInitKnown | libs/lxcpp/container-impl.cpp:355-377 | a RUNNING host knows a positive init pid equal to the guard's, and the exit notice is not yet delivered |
| GuardProtocol.StoppedIsFinal | libs/lxcpp/container-impl.cpp:421-440 | when the host is STOPPED nothing is left to be delivered to it and no guard serves it |
| GuardProtocol.OnlyStartLeavesStopped | libs/lxcpp/container-impl.cpp:300-440 | no delivered message takes the host from STOPPED anywhere else |
| GuardProtocol.ExitNoticeIsLast | libs/lxcpp/guard/guard.cpp:254-271 | the exit notice is the last message of the guard, so the START reply precedes it |
| GuardProtocol.DrainedMeansStopped | libs/lxcpp/guard/guard.cpp:254-271 | with init gone and the channel empty the host is STOPPED exactly if the guard had a peer |
| GuardProtocol.DrainingStops | libs/lxcpp/container-impl.cpp:421-440 | for a guard that had a peer, delivering what is queued after init's exit ends in STOPPED |
| GuardProtocol.FreshDrainedMeansStopped | libs/lxcpp/container-impl.cpp:421-440 | for a fresh host object the host is STOPPED once init has exited and the channel is empty, in every interleaving |
| GuardProtocol.FreshDrainingStops | libs/lxcpp/container-impl.cpp:421-440 | for a fresh host object delivering what is queued after init's exit ends in STOPPED, in every interleaving |
| GuardProtocol.StartReachesRunning | libs/lxcpp/container-impl.cpp:300-396 | from a fresh stopped host, an accepted start whose clone gives a positive pid reaches RUNNING with that pid after exactly six moves, in every interleaving with each other and the user's calls, and is never stuck before |
| GuardProtocol.MovesComeNearer | libs/lxcpp/guard/guard.cpp:223-353 | from anywhere on that way every move leaves one less to make, and at the end the host is RUNNING with that pid |
| GuardProtocol.StopReachesGuard | libs/lxcpp/container-impl.cpp:398-419 | a stop of the host so started makes it STOPPING, and the guard too once it handles STOP, which it then acknowledges |
| GuardProtocol.DeliveryEffect | libs/lxcpp/container-impl.cpp:146-161 | each delivery to the host: a started init with a positive pid makes it RUNNING with that pid, an exit STOPPED with that status, a connected guard's config replaces its own, a ready guard is sent config and START, replies change nothing |
| GuardProtocol.CallEffect | libs/lxcpp/container-impl.cpp:300-419 | a start changes something only when STOPPED and a stop only when RUNNING: STARTING with a fresh guard, STOPPING with STOP queued |
| GuardProtocol.GuardEffect | libs/lxcpp/guard/guard.cpp:273-370 | each delivery to the guard: the config is kept, START records pid and state as far as it got and answers Started exactly if init was launched, STOP makes it STOPPING and is acknowledged |
| GuardProtocol.PeerEffect | libs/lxcpp/guard/guard.cpp:223-271 | a connection is told whether there is a config; init's exit ends the service as STOPPED and is told to a connected peer |
| GuardProtocol.AdoptedExitIsMissed | libs/lxcpp/guard/guard.cpp:254-271 | a connecting host whose connection comes after init's exit is never told |
| GuardProtocol.LeavesExactly | libs/lxcpp/container-impl.cpp:300-440 | a STARTING host can get to another state exactly if the start is on its way, init is alive or the message that ends the wait is queued |
| GuardProtocol.StartLeavesExactly | libs/lxcpp/container-impl.cpp:317-344 | a start() of a stopped host can lead out of STARTING exactly if its configuration is accepted |
| GuardProtocol.RejectedStartSticks | libs/lxcpp/container-impl.cpp:317-344 | a host STARTING without a guard stays so in every continuation |
| GuardProtocol.RejectedStartWitness | libs/lxcpp/container-impl.cpp:317-344 | a rejected configuration after which the host cannot leave STARTING |
| GuardProtocol.FailedCloneSticks | libs/lxcpp/guard/guard.cpp:310-353 | a run in which clone fails and after which the host cannot leave STARTING |
| GuardProtocol.ContainerImpl.Start | libs/lxcpp/container-impl.cpp:300-344 | refused unless STOPPED; else STARTING, and a guard is spawned if the configuration is good |
| GuardProtocol.ContainerImpl.Stop | libs/lxcpp/container-impl.cpp:398-419 | refused unless RUNNING; else STOPPING and STOP is sent |
| GuardProtocol.ContainerImpl.SetState | libs/lxcpp/container-impl.cpp:121-127 | only the state changes |
| GuardProtocol.ContainerImpl.OnGuardReady | libs/lxcpp/container-impl.cpp:379-396 | SET_CONFIG and then START are sent |
| GuardProtocol.ContainerImpl.OnGuardConnected | libs/lxcpp/container-impl.cpp:146-161 | the guard's config replaces the host's |
| GuardProtocol.ContainerImpl.OnInitStarted | libs/lxcpp/container-impl.cpp:355-377 | the pid is recorded; the state becomes RUNNING if the pid is positive and stays otherwise |
| GuardProtocol.ContainerImpl.OnInitStopped | libs/lxcpp/container-impl.cpp:421-440 | the exit status is recorded and the state is STOPPED |
| GuardProtocol.GuardService.OnConnection | libs/lxcpp/guard/guard.cpp:223-242 | GUARD_READY without a config, GUARD_CONNECTED with it |
| GuardProtocol.GuardService.OnSetConfig | libs/lxcpp/guard/guard.cpp:273-298 | the config is kept even if UID 0 is not mapped or the logger fails; the reply tells |
| GuardProtocol.GuardService.OnStart | libs/lxcpp/guard/guard.cpp:310-353 | STARTING, then the pid, then RUNNING and the reply; an exception leaves what was set before it |
| GuardProtocol.GuardService.OnStop | libs/lxcpp/guard/guard.cpp:355-370 | STOPPING and the reply |
| GuardProtocol.GuardService.OnInitExit | libs/lxcpp/guard/guard.cpp:254-271 | other children are ignored; init's exit is reported to the peer and the service stops |
| IoBuffers.FillConserves | libs/lxcpp/guard/guard.cpp:392-406 | a partial read keeps written ++ buffered == read, within 1024 bytes |
| IoBuffers.DrainConserves | libs/lxcpp/guard/guard.cpp:408-419 | so does a partial write |
| IoBuffers.Store | libs/lxcpp/guard/guard.cpp:393-400 | read bytes land behind the offset |
| IoBuffers.MoveDown | libs/lxcpp/guard/guard.cpp:408-414 | the unwritten rest moves to the front, in place |
| GuardRelay.OnTerminalConserves | libs/lxcpp/guard/guard.cpp:390-452 | one readiness event keeps both directions of a terminal conserved |
| GuardRelay.RunConserves | libs/lxcpp/guard/guard.cpp:390-452 | in every run of readiness events with partial reads and writes nothing is lost, duplicated or reordered on any terminal, and buffers stay within 1024 bytes |
| GuardRelay.RelayIsFaithful | libs/lxcpp/guard/guard.cpp:390-452 | in every run from empty buffers, per terminal and direction, the bytes written and those buffered are exactly what the successful reads brought, and as many were written as the write calls took |
| GuardRelay.RunCounts | libs/lxcpp/guard/guard.cpp:390-452 | from any state, what a run adds to each history is the concatenation of the data of its events with EPOLLIN and a positive read, and the sum of the positive writes |
| GuardRelay.OneEventCounts | libs/lxcpp/guard/guard.cpp:390-452 | so for one event: all of the bytes read, and exactly the number written |
| GuardRelay.WrittenIsPrefixOfRead | libs/lxcpp/guard/guard.cpp:390-452 | what was written is a prefix of what was read, short by what is buffered |
| GuardRelay.NoInterference | libs/lxcpp/guard/guard.cpp:82-88 | a terminal's state depends on its own events only |
| GuardRelay.Relay.constructor | libs/lxcpp/guard/guard.cpp:72-89 | all buffers empty, every descriptor registered for input |
| GuardRelay.Relay.OnContTerminal | libs/lxcpp/guard/guard.cpp:390-420 | the handler on arrays and offsets is the event on the model; every descriptor stays registered for output exactly when its outgoing buffer is non-empty and for input otherwise |
| GuardRelay.Relay.OnImplTerminal | libs/lxcpp/guard/guard.cpp:422-452 | the same for the host's side |
| GuardRelay.Relay.ReadCont | libs/lxcpp/guard/guard.cpp:392-406 | its EPOLLIN half, with the opposite descriptor's registration |
| GuardRelay.Relay.WriteCont | libs/lxcpp/guard/guard.cpp:408-419 | its EPOLLOUT half, with its own registration |
| GuardRelay.Relay.ReadImpl | libs/lxcpp/guard/guard.cpp:424-438 | the EPOLLIN half of the host's side |
| GuardRelay.Relay.WriteImpl | libs/lxcpp/guard/guard.cpp:440-451 | the EPOLLOUT half of the host's side |
| GuardRelay.Relay.ReadInto | libs/lxcpp/guard/guard.cpp:392-400 | a read of r > 0 bytes appends all of them to buffer i and moves offset i by r, and nothing else changes |
| GuardRelay.Relay.WriteFrom | libs/lxcpp/guard/guard.cpp:408-414 | a write of w > 0 bytes takes w bytes from the front of buffer i and moves offset i by w, and nothing else changes |
| Consoles.TurnIsModular | libs/lxcpp/commands/console.cpp:273-285 | the int step and the unsigned 32-bit arithmetic make one step around the circle of terminals |
| Consoles.OneMoreChunk | libs/lxcpp/commands/console.cpp:186-267 | what one more chunk adds to text, commands and switches |
| Consoles.StepKeeps | libs/lxcpp/commands/console.cpp:153-299 | every event keeps the session invariant |
| Consoles.RunKeeps | libs/lxcpp/commands/console.cpp:153-299 | so does every session |
| Consoles.SessionIsFaithful | libs/lxcpp/commands/console.cpp:153-299 | in every session the bytes written to PTYs and those pending are the input without its one-byte commands, PTY output is conserved, the terminal is the first one moved by the switch commands, and a quit command quits |
| Consoles.ConsoleIsFaithful | libs/lxcpp/commands/console.cpp:153-299 | in every session from the start, written and pending keyboard bytes are the text of the chunks read, written and pending screen bytes are all the bytes read from PTYs, and the terminal is the first one moved by the switches |
| Consoles.RunCounts | libs/lxcpp/commands/console.cpp:155-203 | from any state, a session adds to the histories exactly the data of its events with EPOLLIN and a positive read |
| Consoles.OneEventCounts | libs/lxcpp/commands/console.cpp:153-225 | so for one event, and the histories of written bytes grow by exactly the bytes written |
| Consoles.EventEnds | libs/lxcpp/commands/console.cpp:183-235 | every event but a command ends with the error check, in which an error wins over a hang-up; a quit key sets the user's reason |
| Consoles.Keys | libs/lxcpp/commands/console.cpp:242-263 | the keys are ctrl-], ctrl-a, q, n and p |
| Consoles.ThereAndBackReturns | libs/lxcpp/commands/console.cpp:246-285 | n NEXT commands and n PREV commands change neither the terminal nor the text |
| Consoles.SentAsTyped | libs/lxcpp/commands/console.cpp:170-203 | a byte is typed before it is sent and arrives as it was typed |
| Consoles.OwnTerminalExactly | libs/lxcpp/commands/console.cpp:153-299 | a byte reaches the terminal it was typed at exactly if the switch commands between typing and sending go around the circle |
| Consoles.SwitchMisdelivers | libs/lxcpp/commands/console.cpp:269-299 | a byte typed at one terminal and sent to another |
| Consoles.Console.constructor | libs/lxcpp/commands/console.cpp:47-63 | buffers empty, the chosen terminal watched for input |
| Consoles.Console.Create | libs/lxcpp/commands/console.cpp:58-62 | a terminal number out of range is refused |
| Consoles.Console.OnPTYEvent | libs/lxcpp/commands/console.cpp:153-184 | the PTY handler is the model's step; exactly the shown PTY, keyboard and screen are watched, for output exactly while there is some |
| Consoles.Console.OnStdInputEvent | libs/lxcpp/commands/console.cpp:186-207 | the keyboard handler is the model's step; a command returns before the error check |
| Consoles.Console.OnStdOutputEvent | libs/lxcpp/commands/console.cpp:209-225 | the screen handler is the model's step |
| Consoles.Console.HandleSpecialKey | libs/lxcpp/commands/console.cpp:237-267 | command keys, with and without service mode |
| Consoles.Console.ConsoleChange | libs/lxcpp/commands/console.cpp:269-299 | the old PTY is unwatched, the new one watched with the interest its pending bytes need, and the index stays in range |
| Consoles.Console.CheckForErrors | libs/lxcpp/commands/console.cpp:227-235 | an error wins over a hang-up |
| Consoles.Console.ReadPTY | libs/lxcpp/commands/console.cpp:155-168 | a read of r > 0 bytes is buffered entirely and the screen is watched for output |
| Consoles.Console.WritePTY | libs/lxcpp/commands/console.cpp:170-181 | keyboard bytes go to the PTY, whose output interest ends when none are left |
| Consoles.Console.WriteScreen | libs/lxcpp/commands/console.cpp:211-222 | buffered output goes to the screen |
| Consoles.Console.KeepKeys | libs/lxcpp/commands/console.cpp:197-203 | typed bytes are kept and the PTY watched for output |
| Zones.EveryRunKeepsLoose | server/zones-manager.cpp:286-462 | in every run of create, destroy, start, shutdown, lock, unlock, set-active and switch steps, LXC refusing or not, the active id is empty or names a managed running zone in the foreground, paused zones are in the background, ids, default, database and marker file agree, and virtual terminals are distinct |
| Zones.EveryRunKeeps | server/zones-manager.cpp:286-462 | in every run in which no refused shutdown leaves a boost behind, the active zone is moreover the only running zone in the foreground |
| Zones.HandleKeeps | server/zones-manager.cpp:396-462 | a handler keeps that invariant exactly if it is not a refused shutdown of a running background zone |
| Zones.HandleKeepsLoose | server/zones-manager.cpp:396-462 | every handler keeps the invariant of all runs |
| Zones.FocusChangeHeals | server/zones-manager.cpp:396-462 | in every run, a handler that changes the active zone ends with the whole focus invariant |
| Zones.BoostLeftBehind | server/zone.cpp:231-260 | two running zones and a refused shutdown after which both are in the foreground |
| Zones.StartUpInv | server/zones-manager.cpp:198-230 | it holds after start() on a configuration that obeys the rules of createZone |
| Zones.FocusRestores | server/zones-manager.cpp:396-443 | focusing another running zone makes it the only running foreground zone, whatever the levels were |
| Zones.FocusKeeps | server/zones-manager.cpp:396-443 | focusing a running zone makes it active and keeps the invariant |
| Zones.FocusEffect | server/zones-manager.cpp:396-443 | focusing changes no run state or request; a running zone becomes active and is in the foreground, without a zone nothing is active |
| Zones.RefocusEffect | server/zones-manager.cpp:445-462 | a running active zone stays so; otherwise the default becomes active if it runs, else the first running zone, else none |
| Zones.RefocusRestores | server/zones-manager.cpp:445-462 | with the active zone gone or not running, refocus ends with a running zone active if there is one |
| Zones.RefocusingHandlers | server/zones-manager.cpp:1334-1427 | after a shutdown that LXC carries out, a lock or a destroy of a zone some zone is active if any runs |
| Zones.StartEffect | server/zones-manager.cpp:1363-1388 | a start leaves the zone requested to run; a running one, or a stopped one that LXC starts, ends up running and active, else states and focus stay; other zones keep state and request |
| Zones.ShutdownEffect | server/zones-manager.cpp:1334-1361 | a shutdown leaves the zone requested to stop; if LXC does not refuse, or it was stopped, it ends up stopped and not active, else states and focus stay; other zones keep state and request |
| Zones.LockEffect | server/zones-manager.cpp:1390-1427 | a lock of a running zone leaves it frozen, in the background, requested to pause and not active, and the other zones as they were; of any other zone it changes nothing |
| Zones.UnlockEffect | server/zones-manager.cpp:1429-1464 | an unlock of a frozen zone leaves it running at its level, requested to run, the others and the focus as they were; of any other zone it changes nothing |
| Zones.SetActiveEffect | server/zones-manager.cpp:1119-1146 | a running zone becomes active, no run state changes; for any other zone nothing happens |
| Zones.ToDefaultEffect | server/zones-manager.cpp:591-613 | the default becomes active exactly if the active zone allows it and the default runs, else nothing happens |
| Zones.FirstSwitchEffect | server/zones-manager.cpp:540-564 | with no zone active, the switching sequence makes the first running zone active |
| Zones.UnknownIdEffect | server/zones-manager.cpp:1119-1464 | an unknown id changes nothing in any handler |
| Zones.NotActiveAfter | server/zones-manager.cpp:445-462 | a zone that is changed and refocused away from keeps its new state and request, and is active only if it runs |
| Zones.StartKeepsFocus | server/zones-manager.cpp:1363-1388 | a start keeps the focus right and ends with the started zone active |
| Zones.ShutdownKeepsFocus | server/zones-manager.cpp:1334-1361 | so does a shutdown that LXC carries out, with a refocus |
| Zones.LockKeepsFocus | server/zones-manager.cpp:1390-1427 | so does a lock; the paused zone is in the background |
| Zones.UnlockKeepsFocus | server/zones-manager.cpp:1429-1464 | so does an unlock: the zone comes back in the background |
| Zones.MovesKeepFocus | server/zones-manager.cpp:553-613 | so do set-active, the switch to the default and the switching sequence |
| Zones.FailedShutdown | server/zone.cpp:231-260 | after a shutdown that LXC refuses the focus invariant holds exactly if the zone was not running in the background |
| Zones.CreateKeeps | server/zones-manager.cpp:1209-1294 | a creation, successful or rejected at any check, keeps registry, focus and VT invariants |
| Zones.CreatedExactly | server/zones-manager.cpp:1209-1294 | a zone is created exactly if its name is non-empty, alphanumeric, not one of the three reserved ones and new, its path is free, image, config and zone succeed, and a VT of the pool is free where one is asked for |
| Zones.CreationRefused | server/zones-manager.cpp:1212-1289 | each rejection has its reason, and everything checked before it was in order |
| Zones.CreateEffect | server/zones-manager.cpp:1209-1294 | a created zone comes last, stopped, with the asked name and template settings; the zones before it and the focus stay; a rejected call changes nothing |
| Zones.DestroyEffect | server/zones-manager.cpp:359-387 | exactly the zone with that id goes; the others keep order, state and request |
| Zones.DefaultKept | server/zones-manager.cpp:286-306 | the default id stays if it names a zone, else it becomes the first zone's, or empty without zones |
| Zones.DestroyKeeps | server/zones-manager.cpp:359-387 | so does a destruction, and it ends in a refocus |
| Zones.DefaultUpdated | server/zones-manager.cpp:286-306 | after the update the default id is empty exactly without zones and names one otherwise, in memory and in the database |
| Zones.WithoutOne | server/zones-manager.cpp:359-387 | removing an id from the persisted list is removing the zone at its place |
| Zones.Find | server/zones-manager.cpp:265-270 | the first zone with the id, or the end |
| Zones.SmallestFree | server/zones-manager.cpp:1190-1207 | the smallest pool number not in use, none exactly if all are |
| Zones.NoFreeVTExactly | server/zones-manager.cpp:1190-1207 | a creation that gets to the VT choice fails for lack of a VT exactly when the pool is used up |
| Zones.NewZoneVT | server/zones-manager.cpp:1149-1207 | the new zone gets the smallest unused VT of the pool, and the other zones are untouched |
| Zones.DestroyFreesVT | server/zones-manager.cpp:359-387 | after a destruction no zone uses the destroyed zone's VT |
| Zones.AddressesDiffer | server/zones-manager.cpp:1161-1178 | in every run, two zones that asked for a VT get different addresses from one template with any number of ~IP~ |
| Zones.OctetMeans | server/zones-manager.cpp:1167-1176 | the third octet written into an address is 100 plus the VT |
| ZoneSwitching.CircularFindNext | server/zones-manager.cpp:87-105 | the iterator loop terminates and returns the first satisfying element after current in cyclic order, never current |
| ZoneSwitching.CircularNextUnique | server/zones-manager.cpp:87-105 | there is only one such element |
| ZoneSwitching.FindsTheSearched | server/zones-manager.cpp:540-551 | on the running zones it is what the manager's search finds |
| ZoneSwitching.NextIs | server/zones-manager.cpp:540-551 | from a running active zone the next in the circle of running zones is chosen, none if it is alone |
| ZoneSwitching.OneNotification | server/zones-manager.cpp:553-564 | one notification moves the focus one running zone on and changes no run state |
| ZoneSwitching.FocusAfter | server/zones-manager.cpp:553-564 | so many notifications move it so many running zones on |
| ZoneSwitching.EachFocusedOnce | server/zones-manager.cpp:540-564 | with k running zones, any k consecutive notifications focus each exactly once |
| ZoneSwitching.AloneNothingMoves | server/zones-manager.cpp:540-564 | with one running zone nothing changes |
| ZonesManagers.Zone.SetSchedulerLevel | server/zone.cpp:460-480 | requires the zone to run, as the code asserts; every caller here meets it |
| ZonesManagers.Zone.Start | server/zone.cpp:186-229 | a started zone runs in the foreground; a failed start leaves only the requested state |
| ZonesManagers.Zone.Stop | server/zone.cpp:231-260 | a running zone is boosted before LXC stops it; a failed stop leaves the boost |
| ZonesManagers.Zone.Follow | server/zone.cpp:311-321 | a running zone goes to the foreground or the background, another keeps its level |
| ZonesManagers.Zone.Suspend | server/zone.cpp:347-358 | frozen, and so requested |
| ZonesManagers.Zone.Resume | server/zone.cpp:360-371 | running, and so requested |
| ZonesManagers.ZonesManager.constructor | server/zones-manager.cpp:198-230 | the manager starts in the model's start-up state |
| ZonesManagers.ZonesManager.FindZone | server/zones-manager.cpp:265-270 | the loop finds the first zone with the id |
| ZonesManagers.ZonesManager.FindRunning | server/zones-manager.cpp:445-462 | the first running zone |
| ZonesManagers.ZonesManager.UpdateDefaultId | server/zones-manager.cpp:286-306 | the default id is the model's |
| ZonesManagers.ZonesManager.FocusInternal | server/zones-manager.cpp:396-443 | requires a zone about to be focused to run, as the code asserts; levels and active id are the model's |
| ZonesManagers.ZonesManager.PromoteZones | server/zones-manager.cpp:430-441 | the loop over the zone objects gives the model's levels |
| ZonesManagers.ZonesManager.Refocus | server/zones-manager.cpp:445-462 | the active zone stays if it runs, else the default, else the first running one, else the host |
| ZonesManagers.ZonesManager.StartZone | server/zones-manager.cpp:1363-1388 | the handler is the model's function and keeps the invariant |
| ZonesManagers.ZonesManager.ShutdownZone | server/zones-manager.cpp:1334-1361 | the handler is the model's function, also when LXC refuses, and keeps the invariant of all runs; the zone is requested to stop, and if LXC stops it, is stopped and not active |
| ZonesManagers.ZonesManager.StopAndRefocus | server/zones-manager.cpp:1343-1357 | finding, stopping and refocusing on the zone objects is the model's function |
| ZonesManagers.ZonesManager.LockZone | server/zones-manager.cpp:1390-1427 | the handler is the model's function and keeps the invariant |
| ZonesManagers.ZonesManager.UnlockZone | server/zones-manager.cpp:1429-1464 | the handler is the model's function and keeps the invariant |
| ZonesManagers.ZonesManager.SetActiveZone | server/zones-manager.cpp:1119-1146 | the handler is the model's function and keeps the invariant |
| ZonesManagers.ZonesManager.SwitchToDefault | server/zones-manager.cpp:591-613 | the handler is the model's function and keeps the invariant |
| ZonesManagers.ZonesManager.GetNextToForeground | server/zones-manager.cpp:540-551 | circularFindNext on the zones gives the model's choice |
| ZonesManagers.ZonesManager.SwitchingSequenceMonitorNotify | server/zones-manager.cpp:553-564 | the handler is the model's function and keeps the invariant |
| ZonesManagers.ZonesManager.GetVTForNewZone | server/zones-manager.cpp:1190-1207 | erasing the used numbers from the pool and taking the least gives the smallest free VT |
| ZonesManagers.ZonesManager.CheckCreation | server/zones-manager.cpp:1209-1284 | the checks of createZone in their order give the outcome |
| ZonesManagers.ZonesManager.CreateZone | server/zones-manager.cpp:1209-1294 | the handler is the model's function and keeps the invariant; a rejected call changes nothing |
| ZonesManagers.ZonesManager.InsertNew | server/zones-manager.cpp:315-338 | the zone is appended; the first one creates the marker file |
| ZonesManagers.ZonesManager.DestroyZone | server/zones-manager.cpp:359-387 | the handler is the model's function and keeps the invariant; an unknown id changes nothing |
| ZonesManagers.ZonesManager.Erase | server/zones-manager.cpp:359-387 | the zone leaves the list, the persisted ids and, if it was the last, the marker file goes |
| QueueLocks.LockIsHolder | server/zones-manager.cpp:578-589 | in every run mExclusiveIDLock names exactly the client that was granted the lock and has neither unlocked nor gone since |
| QueueLocks.OneHolder | server/zones-manager.cpp:698-717 | at most one client holds the queue |
| QueueLocks.AdmittedExactly | server/zones-manager.cpp:340-357 | a request passes exactly when no other client holds the queue |
| QueueLocks.GrantedExactly | server/zones-manager.cpp:698-738 | a lock is granted exactly when nobody holds the queue, an unlock succeeds exactly for the holder |
| QueueLocks.RefusalReasons | server/zones-manager.cpp:698-738 | the holder's second lock and another client's lock, unlock or request are refused with different reasons, and an unlock without a lock with a third |
| QueueLocks.HeldUntilReleased | server/zones-manager.cpp:578-589 | once held, the queue is held until the holder's own unlock or disconnection, and other clients' requests are refused until then |
| QueueLocks.QueueLock.HandleLockQueueCall | server/zones-manager.cpp:698-717 | the reply and the new lock |
| QueueLocks.QueueLock.HandleUnlockQueueCall | server/zones-manager.cpp:719-738 | success exactly for the holder |
| QueueLocks.QueueLock.DisconnectedCallback | server/zones-manager.cpp:578-589 | a client that has gone does not hold the queue |
| QueueLocks.QueueLock.TryAddTask | server/zones-manager.cpp:340-357 | admission exactly when no other client holds the queue |
| UserNS.HitsMeans | libs/lxcpp/userns-config.cpp:78-88 | the wrapping comparison is membership in the range, but for the empty range at 0 |
| UserNS.LaterStartsOutside | libs/lxcpp/userns-config.cpp:61-93 | no accepted range starts inside an earlier one, on either side |
| UserNS.AcceptedExactly | libs/lxcpp/userns-config.cpp:61-93 | a range is accepted exactly if fewer than five are, it stays below 2^32 on both sides, and starts in none of the accepted ones, an empty one at 0 counting as everything; what the refusals are for |
| UserNS.AddKeepsDisjointExactly | libs/lxcpp/userns-config.cpp:61-93 | an accepted addition keeps the ranges disjoint exactly when no configured range starts inside the new one |
| UserNS.DisjointExactly | libs/lxcpp/userns-config.cpp:61-93 | accepted ranges are pairwise disjoint on both sides exactly when no earlier one starts inside a later one |
| UserNS.AscendingAreDisjoint | libs/lxcpp/userns-config.cpp:61-93 | ranges accepted in increasing order are pairwise disjoint |
| UserNS.OverlapIsAccepted | libs/lxcpp/userns-config.cpp:61-93 | two overlapping ranges that are accepted |
| UserNS.SearchSound | libs/lxcpp/userns-config.cpp:95-126 | the search finds a translation by some range exactly for the mapped IDs |
| UserNS.ConvertIsTranslates | libs/lxcpp/userns-config.cpp:95-126 | over disjoint ranges translation is the relation the ranges define, both ways, and stays below 2^32 - 1 |
| UserNS.ConvertInjective | libs/lxcpp/userns-config.cpp:95-126 | no two container IDs share a host ID |
| UserNS.EmptyRange | libs/lxcpp/userns-config.cpp:102-126 | an empty range translates every ID if it starts at 0 and none otherwise |
| UserNS.MappedExactly | libs/lxcpp/userns-config.cpp:95-126 | exactly the IDs of the ranges are translated if and only if none of the ranges is empty and starts at 0 |
| UserNS.SearchHits | libs/lxcpp/userns-config.cpp:102-122 | the search finds something exactly for IDs of a range, or if the empty range at 0 is listed |
| UserNS.TrapTakesOver | libs/lxcpp/userns-config.cpp:102-126 | an accepted list that translates an ID of none of its ranges |
| UserNS.UserNSConfig.ConvContToHostUID | libs/lxcpp/userns-config.cpp:51-54 | identity without maps; else a translation by a range exactly for mapped IDs |
| UserNS.UserNSConfig.ConvContToHostGID | libs/lxcpp/userns-config.cpp:56-59 | the same for groups |
| UserNS.MapTextBack | libs/lxcpp/commands/setup-userns.cpp:54-78 | the printed text, parsed line by line, is the list of ranges |
| UserNS.UserNSConfig.AddUIDMap | libs/lxcpp/userns-config.cpp:39-43 | an accepted range is appended, a refused one changes nothing |
| UserNS.UserNSConfig.AddGIDMap | libs/lxcpp/userns-config.cpp:45-49 | the same for groups |
| UserNS.AssertMapCorrect | libs/lxcpp/userns-config.cpp:61-93 | the loop gives the verdict of the three checks in their order |
| UserNS.PrintMap | libs/lxcpp/commands/setup-userns.cpp:54-78 | the appending loop prints the map, and its text parses back |
| UserNS.Execute | libs/lxcpp/commands/setup-userns.cpp:48-79 | both texts, saved only if not empty |
| InputMonitors.DetectorIsExact | server/input-monitor.cpp:235-275 | over every event history the detector answers true exactly at the events that complete a series: the needed number of presses since the last detection, first and last within the window; and never holds a full series |
| InputMonitors.DetectIsExact | server/input-monitor.cpp:235-275 | one event on the short queue answers as the whole history does |
| InputMonitors.CutOffMatters | server/input-monitor.cpp:259-271 | the ten-second cut-off is irrelevant exactly for windows up to 9001 ms |
| InputMonitors.TimeDiffIsMillis | server/input-monitor.cpp:259-266 | the code's sec/usec formula is within a millisecond of the real span |
| InputMonitors.AnswerIsFires | server/input-monitor.cpp:248-275 | deciding on the pending presses is deciding by the definition of a series |
| InputMonitors.OnlyPressesCount | server/input-monitor.cpp:241-253 | releases, repeats and other keys change nothing; a press is queued as the latest, or completes a series and clears the queue |
| InputMonitors.InputMonitor.constructor | server/input-monitor.cpp:72-90 | an empty history |
| InputMonitors.InputMonitor.Create | server/input-monitor.cpp:80-90 | a window over ten seconds or more than ten events are refused |
| InputMonitors.InputMonitor.IsExpectedEventSequence | server/input-monitor.cpp:235-275 | true exactly if this event completes a series; at most one press less than needed stays queued |
| ZoneProvisions.EveryRunConserves | server/zone-provision.cpp:74-184 | in every run of declare, remove, start and stop, with mounts and unmounts failing arbitrarily, the mount table is the initial one and the mounts on record, the record is in reverse order of making, and no id is declared twice |
| ZoneProvisions.StepKeeps | server/zone-provision.cpp:74-184 | every operation keeps that |
| ZoneProvisions.DeclareEffect | server/zone-provision.cpp:74-90 | an accepted declaration leaves the configuration one longer, the earlier provisions in their places and the new one last; a refused one and every mount are as before |
| ZoneProvisions.DeclaredIsStarted | server/zone-provision.cpp:74-141 | declaring and then starting with all calls succeeding puts the new provision at the head of the record, and its mount point in the table |
| ZoneProvisions.StartEffect | server/zone-provision.cpp:124-141 | a start puts the provisions that succeeded before the record in reverse order and changes nothing else of it |
| ZoneProvisions.StopEffect | server/zone-provision.cpp:143-157 | after a stop the record holds exactly the mounts whose unmount failed, in their order, and the table lost exactly the points of the others |
| ZoneProvisions.RemoveEffect | server/zone-provision.cpp:168-184 | a removal takes out the declaration with that id at its place, and leaves record and mounts |
| ZoneProvisions.HostPathMeans | server/zone-provision.cpp:208-218 | a mount point is the root and the target, joined by one separator unless either brings it |
| ZoneProvisions.IdIsWords | server/zone-provision.cpp:236-260 | an id is the words of its provision, all its fields in order, separated by spaces |
| ZoneProvisions.IdsTellApart | server/zone-provision.cpp:236-276 | provisions without spaces in their fields have the same id only if they are the same |
| ZoneProvisions.IdsCollide | server/zone-provision.cpp:236-276 | two different links with the same id |
| ZoneProvisions.StartRecords | server/zone-provision.cpp:124-141 | a start records exactly the provisions that succeeded, the latest first, before what was on record |
| ZoneProvisions.KeptExactly | server/zone-provision.cpp:143-157 | a stop keeps exactly the mounts whose unmount failed |
| ZoneProvisions.AttemptsNewestFirst | server/zone-provision.cpp:143-157 | a stop attempts every recorded mount, the most recent first |
| ZoneProvisions.CleanStopRestores | server/zone-provision.cpp:143-157 | if every unmount succeeds, a stop leaves the table as it was before the first start |
| ZoneProvisions.DeclareKeeps | server/zone-provision.cpp:74-90 | a declaration is accepted exactly if its id is new |
| ZoneProvisions.RemoveErases | server/zone-provision.cpp:168-184 | a removal takes away the one declaration with that id and nothing else |
| ZoneProvisions.ZoneProvision.constructor | server/zone-provision.cpp:51-62 | nothing made yet |
| ZoneProvisions.ZoneProvision.Declare | server/zone-provision.cpp:74-90 | the id with the provision appended to the configuration, or, if the id exists, the exception and no change |
| ZoneProvisions.ZoneProvision.Remove | server/zone-provision.cpp:168-184 | found exactly if declared |
| ZoneProvisions.ZoneProvision.List | server/zone-provision.cpp:159-166 | the ids in order, all different |
| ZoneProvisions.ZoneProvision.Start | server/zone-provision.cpp:124-141 | the loop is the model's start |
| ZoneProvisions.ZoneProvision.Stop | server/zone-provision.cpp:143-157 | the loop is the model's stop, and attempts the recorded mounts in list order |
| ZoneProvisions.ZoneProvision.Perform | server/zone-provision.cpp:186-234 | a mount that succeeds enters the table, nothing else does |
| ZoneProvisions.ZoneProvision.Umount | server/zone-provision.cpp:214-218 | an unmount that succeeds takes one mount at that point away |
| NetConfigure.AndRoundsDown | libs/lxcpp/commands/netcreate.cpp:112-113 | anding with ones followed by q zeros rounds down to a multiple of 2^q |
| NetConfigure.MaskIs | libs/lxcpp/commands/netcreate.cpp:112 | the mask is that many ones, in 32 bits |
| NetConfigure.GatewayIsFirstHost | libs/lxcpp/commands/netcreate.cpp:110-114 | for prefixes 1 to 30 the gateway is the network base plus one, in the address's network, neither base nor broadcast, in 32 bits |
| NetConfigure.FirstEligible | libs/lxcpp/commands/netcreate.cpp:106-116 | the first IPv4 address with a prefix from 1 to 30 |
| NetConfigure.OneDefaultRoute | libs/lxcpp/commands/netcreate.cpp:79-132 | over any interface list one default route at most, through the first veth interface with an eligible address, from its first such address |
| NetConfigure.AddAddresses | libs/lxcpp/commands/netcreate.cpp:106-116 | the loop adds every address in order and settles on the first eligible one, also past prefix 0 |
| NetConfigure.LinkAttributes | libs/lxcpp/commands/netcreate.cpp:91-101 | each link attribute appears exactly if it is set, once, in the order MTU, MAC, queue length |
| NetConfigure.OneList | libs/lxcpp/commands/netcreate.cpp:91-101 | that determines the list |
| NetConfigure.ConfigureVeth | libs/lxcpp/commands/netcreate.cpp:88-129 | the commands for one veth interface, and whether it took the default route |
| NetConfigure.ForMeans | libs/lxcpp/commands/netcreate.cpp:79-132 | the commands of an interface: loopback is brought up; a bridged veth gets its link attributes, comes up, gets its addresses in order and then the route if it is still needed and it offers one; others get nothing |
| NetConfigure.OfferMeans | libs/lxcpp/commands/netcreate.cpp:104-118 | what a veth offers is the first host of the network of its first IPv4 address with a prefix from 1 to 30 |
| NetConfigure.NoOffer | libs/lxcpp/commands/netcreate.cpp:104-118 | without such an address it offers none |
| NetConfigure.BlocksInOrder | libs/lxcpp/commands/netcreate.cpp:79-132 | the commands of the interfaces come in the order of the interfaces, those of each together |
| NetConfigure.ConfigurationRoutes | libs/lxcpp/commands/netcreate.cpp:79-132 | the routes among all commands are that one or none |
| NetConfigure.ConfigureAll | libs/lxcpp/commands/netcreate.cpp:79-132 | the loop issues the commands of every interface in order |
| NetdevAttrs.JoinSplitExactly | server/netdev.cpp:479-487 | joining and splitting gives the list back exactly for non-empty lists with neither ":" nor "," in names and no "," in values |
| NetdevAttrs.SplitJoin | server/netdev.cpp:596-612 | a text that splits is the join of what it splits into |
| NetdevAttrs.RefusedExactly | server/netdev.cpp:601-607 | a text is refused exactly when a token has no ":" |
| NetdevAttrs.SplitIsPlain | server/netdev.cpp:601-609 | what a split returns is never empty and has no separators where it must not |
| NetdevAttrs.JoinAddresses | server/netdev.cpp:479-487 | the stream loop computes the join |
| NetdevAttrs.SplitAddresses | server/netdev.cpp:598-609 | the loop over the tokens computes the split or the exception |
| Texts.ParsePrinted | libs/lxcpp/commands/setup-userns.cpp:56-60 | a number printed in decimal parses back |
| Texts.PrintedDiffer | server/zones-manager.cpp:1169 | different numbers print differently |
| Texts.PrintedIntsDiffer | server/zone-provision.cpp:239-253 | different ints print differently, negative ones included |
| Texts.SpacedDiffer | server/zone-provision.cpp:236-260 | different lists of words without spaces differ when joined by spaces |

## Left out

- Sockets, clone/exec, mount and ioctl calls, inotify, PTY creation, sysfs and procfs: parameters or abstract tables.
- LXC, cargo, D-Bus, glib and the worker thread: only FIFO delivery and success or failure remain; the cargo sources are not part of this model.
- `ZonesManager::restoreAll` and `Zone::restore`: a restored paused zone starts in the foreground and is suspended without being demoted, so the focus invariant is not claimed for it.
- Failures of `activateVT`, freezing, thawing and cgroup writes in the middle of a handler.
- Values left in the database by an earlier zone of the same name, which a new zone of that name would load.
- Execution of admitted tasks: the queue lock is about admission; checking and enqueueing are separate steps.
- `Console` over repeated `execute()` calls, and the resize notifications.
- Netlinks.Rcv: requires that a later datagram begins with a complete message; otherwise the code consults a pointer into a buffer that may have moved.
- NetlinkResponses.NetlinkResponse.FetchString: requires that the attribute at the cursor is not shorter than its header; for a shorter one the code's remainder is negative.
- NetlinkResponses.NetlinkResponse.CloseNested: requires that the nest was opened in the present message.
- NetlinkResponses.NetlinkResponse.FetchNextMessage: requires a complete message at the header, which clients establish with `hasMessage`.
- NetlinkResponses.NetlinkResponse.HasAttribute: requires a complete message at the header, likewise.
- Netlinks.ScanReadsAll: requires that NLMSG_ERROR messages hold their error code; for a shorter one the code reads what follows it, at the end of a full buffer beyond it. `Rcv` and `CheckDatagram` require the same.
- InputMonitors.InputMonitor.IsExpectedEventSequence: requires a number of events other than 0 and 1, for which the code takes the last element of an empty list.
- ZonesManagers.Zone.Suspend: does not model that LXC refuses to freeze, as the zones are modelled with freezing and thawing that succeed.
- ZonesManagers.Zone.Resume: does not model that LXC refuses to thaw, likewise.
- ZonesManagers.ZonesManager.LockZone: does not model a refused freeze, which would leave the zone running in the background.
- ZonesManagers.ZonesManager.UnlockZone: does not model a refused thaw.
- `isNestedAttribute`, and the `DevicesCGroup` text forms, whose wildcard prints and parses differently.
- The database after `ZoneProvision::remove`, which does not save it.
- Namespaces, environment, capabilities, hostname, rlimits, proxy call policy, the command line and the C client: plain data and plumbing.
- Wait timeouts, sleeps and wake-ups.
- GuardRelay.Relay.constructor: takes its buffers and descriptors from the caller instead of opening PTYs.
- ZonesManagers.ZonesManager.FocusInternal: the VT switch is not part of the state, and the early return when it fails is not modelled.
