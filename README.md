# Replica manager: failure detection and recovery

This is a Dafny model of the replica manager of a campus room-booking
system. The replica manager is the process that supervises one replica
server per campus. It keeps a registry of its replicas and of its peer
replica managers. It counts the failures that the front end reports for
each replica, and it kills and relaunches a replica once that replica has
failed three times in a row. It also relays data requests between
replicas and peers.

The model has five modules:

- `JavaText` (`java_text.dfy`) models the two pieces of the Java library
  that the configuration parser relies on. One is `String.split` with a
  one-character literal separator. With no occurrence of the separator it
  returns the whole string; otherwise it drops trailing empty pieces. The
  other is `Integer.parseInt`, a partial decimal parse into the `int`
  range. It is proved against `Join` and against a decimal renderer.
- `Replicas` (`replica.dfy`) models `Replica` as a class. Its consecutive
  failure counter is a Java `int` and wraps at 2^31-1. The process handle
  is a small `Process` class with an `alive` flag. `udpPort`, `name` and
  `path` are `const`, because no code of the core ever reassigns them.
- `Registry` (`rm_operations.dfy`) models `RmOperations`:
  - Parsing is specified by the functions `ParseReplicaList` and
    `ParsePeerList`.
  - The constructor's two loops are the methods `BuildReplicaList` and
    `BuildPeerList`, which are proved against those functions.
  - `Create` is the constructor as written. `CreateCorrected` is the
    constructor with the peer-parse defect fixed; see Findings.
  - The registry is a class whose map of replicas is fixed after
    construction. Its methods update the replicas in the map, and each
    method states the new counter, handle and liveness of every replica
    through `ViewOf`.
- `Dispatcher` (`udp_thread.dfy`) models one `UdpThread` handler:
  - the operation-code switch of `run`;
  - `replicaFails` and `replicaSucceeds`;
  - the broadcast and the quorum-collection loop of `replicaRequestsData`;
  - the single relay of `rmRequestsData`.

  Sockets and Java serialization are abstract. What a decode or a receive
  yields is an input, and the datagrams a handler sends are an output.
  Uncaught exceptions end the handler without a reply, and the model shows
  them as `Died` or `Crash`. They are:
  - a received datagram that decodes to something other than a packet;
  - a `null` body;
  - a code that is not a string;
  - a peer's or the local replica's port outside 0..65535, `-1` included;
  - a collected response, or the local replica's answer, that is not a map;
  - a collection that ends with no response;
  - the kill of a replica without a process handle.

  A missing (`null`) code throws nothing: the report handlers then change
  nothing, and a peer's data request fails only through the `-1` port its
  lookup gives.
- `TimeSlots` (`time_slot.dfy`) models the `TimeSlot` record and its book
  and cancel operations.

Some external effects are inputs of the model rather than part of it:

- Whether launching a process succeeds is the parameter `launchOk`, or the
  set `launched` for `startReplicas`.
- Whether opening a socket or sending a packet succeeds is a flag.
- What each receive produces is a sequence of events. Running out of
  events counts as the receive timing out.
- The path of the `java` binary is the `javaBin` argument of the
  constructor.

Where the code and its design description disagree, the model follows the
code:

- `startReplica` does not reset the failure counter. Only `killReplica`
  of a live process clears it, so a restart leaves the counter at 0 only
  when the process was alive.
- The restart happens on the third report itself, because the counter is
  raised before it is tested. It does not wait for a fourth report.
- A collection with no response at all does not reply with an empty
  result. `iterator().next()` on the empty list throws, and the handler
  dies without replying.
- An unknown code in a peer's data request does not fail quietly once the
  socket has opened. The port `-1` then makes the packet constructor throw,
  and the handler dies without replying. So does a registered port outside
  0..65535. Only when the socket cannot be opened does the handler reply
  with the empty map.
- The configuration parser does not report descriptive errors. The
  exceptions are the raw `ArrayIndexOutOfBoundsException` and
  `NumberFormatException`, which the model names `IndexOutOfBounds(i)` and
  `NumberFormat(text)`.

## Model

| member | source | states |
|---|---|---|
| `JavaText.Split` | src/implementation/RmOperations.java:28 | no contract of its own: `String.split`, whose meaning is given by `JavaText.SplitJoin`, `JavaText.SplitLacksSep`, `JavaText.SplitIsEmpty` and `JavaText.DropTrailingEmpty` |
| `JavaText.DropTrailingEmpty` | src/implementation/RmOperations.java:28 | the result is a prefix of the pieces, does not end in an empty piece, and only empty pieces were dropped |
| `JavaText.JoinPieces` | src/implementation/RmOperations.java:28 | gluing the pieces of a string back together with the separator gives the string back |
| `JavaText.PiecesOfJoin` | src/implementation/RmOperations.java:31 | cutting a join of separator-free pieces at the separator gives those pieces back |
| `JavaText.SplitLacksSep` | src/implementation/RmOperations.java:38 | no element of a split contains the separator |
| `JavaText.SplitIsEmpty` | src/implementation/RmOperations.java:38 | a split has no element exactly when the string is one or more separators and nothing else |
| `JavaText.SplitJoin` | src/implementation/RmOperations.java:31 | a split undoes a join of separator-free pieces whose last piece is not empty |
| `JavaText.ParseInt` | src/implementation/RmOperations.java:32 | a parsed port fits a Java `int`; only a string starting with a digit or a sign parses |
| `JavaText.ParseIntDecimal` | src/implementation/RmOperations.java:42 | `parseInt` reads back the decimal text of any `int`, for either sign |
| `Replicas.Replica.IsFailureCountCritical` | src/schema/Replica.java:33-35 | no contract of its own: the test `failures >= 3`, whose use is stated by `Registry.RmOperations.IsReplicaFailureCritical` and `Replicas.CriticalAfter` |
| `Replicas.Replica.GetUdpPort` | src/schema/Replica.java:37-39 | no contract of its own: the port is a `const` set by the constructor; `Registry.RmOperations.GetReplicaPort` states what a lookup returns |
| `Replicas.Replica.GetProcess` | src/schema/Replica.java:41-43 | no contract of its own: the current handle, read by `Registry.RmOperations.KillReplica` |
| `Replicas.Inc32` | src/schema/Replica.java:25-27 | `failures += 1` on a Java `int` stays in the `int` range |
| `Replicas.IncrementsAdd` | src/schema/Replica.java:25-27 | below the top of the range, n failure reports raise the counter by exactly n |
| `Replicas.CriticalAfter` | src/schema/Replica.java:33-35 | from a zero counter, the replica is critical exactly from the third report on |
| `Replicas.Process.Destroy` | src/schema/Replica.java:16 | a destroyed process is not alive |
| `Replicas.Replica.constructor` | src/schema/Replica.java:8-13 | port, name and path are the arguments; no failures and no process |
| `Replicas.Replica.Reset` | src/schema/Replica.java:15-19 | needs a handle; the old process is no longer alive, the handle is null and the counter is 0 |
| `Replicas.Replica.SetProcess` | src/schema/Replica.java:21-23 | only the handle changes; the counter is kept |
| `Replicas.Replica.IncrementFailureCount` | src/schema/Replica.java:25-27 | the counter goes up by one, with `int` wrap-around; the handle is kept |
| `Replicas.Replica.DecrementFailureCount` | src/schema/Replica.java:29-31 | the counter becomes 0 from any value; the handle is kept |
| `Registry.ParseReplicaEntry` | src/implementation/RmOperations.java:31-34 | no contract of its own: one entry read as fields 2, 0, 3 under field 1; `Registry.ReplicaEntryRoundTrip` and `Registry.ReplicaListRejects` give its meaning |
| `Registry.ParseReplicaList` | src/implementation/RmOperations.java:28-35 | no contract of its own: the specification of the replica-list loop; `Registry.ReplicaListOk`, the `Registry.InsertEntries…` lemmas and `Registry.BuildReplicaList` give its meaning |
| `Registry.ReplicaEntryRoundTrip` | src/implementation/RmOperations.java:31-34 | an entry `name,code,port,path[,extra…]` parses to that code, port, name and path, whatever extra fields follow |
| `Registry.InsertEntriesPrefixFailure` | src/implementation/RmOperations.java:29-35 | once an entry has thrown, the rest of the list does not change the outcome |
| `Registry.InsertEntriesOk` | src/implementation/RmOperations.java:29-35 | the list is accepted if and only if every entry parses |
| `Registry.InsertEntriesFirstError` | src/implementation/RmOperations.java:29-35 | the error reported is that of the first entry that fails |
| `Registry.InsertEntriesLastWins` | src/implementation/RmOperations.java:34 | for a repeated code, the map holds the last entry that names it |
| `Registry.InsertEntriesKeys` | src/implementation/RmOperations.java:34 | every code in the map comes from some entry |
| `Registry.ReplicaListOk` | src/implementation/RmOperations.java:28-35 | the replica string is accepted if and only if every piece of its split parses |
| `Registry.ReplicaListRejects` | src/implementation/RmOperations.java:31-32 | an entry with fewer than four fields, or with a port that is not an `int`, makes construction fail |
| `Registry.AppendEntriesAllFail` | src/implementation/RmOperations.java:39-45 | a list whose entries all fail with one error fails with it, unless it is empty |
| `Registry.AppendEntriesAllOk` | src/implementation/RmOperations.java:39-45 | a list whose entries all parse yields their peers in list order |
| `Registry.ParsePeerEntry` | src/implementation/RmOperations.java:41-42 | no contract of its own: one peer entry cut at the field separator; the address is read before the port, so an entry with no field fails on index 0 and one with a single field on index 1; `Registry.PeerEntryRoundTrip` gives its meaning for `,` and `Registry.PeerListAsWritten` for `;` |
| `Registry.ParsePeerList` | src/implementation/RmOperations.java:38-45 | no contract of its own: the specification of the peer-list loop; `Registry.PeerListAsWritten`, `Registry.PeerListRoundTrip` and `Registry.BuildPeerList` give its meaning |
| `Registry.PeerListAsWritten` | src/implementation/RmOperations.java:38-45 | as written, the peer string is accepted if and only if it is non-empty and all `;`, and then there are no peers; otherwise the error is index 1 out of bounds |
| `Registry.PeerEntryRoundTrip` | src/implementation/RmOperations.java:41-42 | with fields cut at `,`, an entry `address,port` reads back that peer |
| `Registry.PeerListRoundTrip` | src/implementation/RmOperations.java:38-45 | with fields cut at `,`, peers written as `address,port` entries joined by `;` read back exactly, in order |
| `Registry.BuildReplicaList` | src/implementation/RmOperations.java:28-35 | the loop builds fresh, distinct, pristine replicas whose configuration is `ParseReplicaList`, or fails with its error |
| `Registry.BuildPeerList` | src/implementation/RmOperations.java:38-45 | the loop yields exactly `ParsePeerList` |
| `Registry.Create` | src/implementation/RmOperations.java:24-46 | construction fails if and only if either list fails, with the replica list's error first; a built registry has the parsed configuration and no peer |
| `Registry.CreateCorrected` | src/implementation/RmOperations.java:24-46 | the same with peer fields cut at `,`: a built registry holds the parsed peers |
| `Registry.RmOperations.constructor` | src/implementation/RmOperations.java:18-22 | the registry holds the given binary path, replicas and peers, and its invariant holds |
| `Registry.RmOperations.GetReplicaPort` | src/implementation/RmOperations.java:49-52 | the configured port of a registered code, else `-1` |
| `Registry.RmOperations.IsReplicaFailureCritical` | src/implementation/RmOperations.java:71-74 | true if and only if the code is registered and its counter is at least 3 |
| `Registry.RmOperations.IncrementFailureCount` | src/implementation/RmOperations.java:64-68 | only the named replica's counter moves, by one; an unknown code changes nothing |
| `Registry.RmOperations.DecrementFailureCount` | src/implementation/RmOperations.java:77-81 | only the named replica's counter becomes 0; an unknown code changes nothing |
| `Registry.RmOperations.StartReplica` | src/implementation/RmOperations.java:84-107 | a successful launch sets a fresh live handle running `java -jar path` and keeps the counter; an unknown code or a launch error changes nothing |
| `Registry.RmOperations.KillReplica` | src/implementation/RmOperations.java:110-115 | it crashes if and only if the code or its handle is missing; a live process is destroyed, with the handle null and the counter 0; a dead one changes nothing |
| `Registry.RmOperations.StartReplicas` | src/implementation/RmOperations.java:55-61 | every registered replica whose launch succeeds gets a fresh handle with its counter kept; every other replica is unchanged |
| `Registry.RmOperations.GetReplicaManagers` | src/implementation/RmOperations.java:118-120 | no contract of its own: the peer list; `Registry.Create` states it is empty as written and `Registry.CreateCorrected` that it is the parsed list |
| `Dispatcher.RouteCodes` | src/implementation/RmOperations.java:123-138 | the operation codes 0 to 4 reach the import, error, export, failure and success handlers, and the body key is `"c"` |
| `Dispatcher.Route` | src/implementation/UdpThread.java:32-48 | the error handler is chosen exactly for the codes other than 0, 2, 3 and 4 |
| `Dispatcher.RouteReplies` | src/implementation/UdpThread.java:32-48 | the two front-end reports, and only they, go unanswered; code 1 gets the error reply |
| `Dispatcher.CodeOf` | src/implementation/UdpThread.java:61 | no contract of its own: a `null` body throws, a missing key gives `null`, a non-string value throws `ClassCastException`; `Dispatcher.ReplicaFails`, `Dispatcher.ReplicaSucceeds` and `Dispatcher.RmRequestsData` state the consequences (the same cast is at lines 73 and 140) |
| `Dispatcher.Gather` | src/implementation/UdpThread.java:106-121 | collection keeps what it had and never holds more than three responses |
| `Dispatcher.GatherQuiet` | src/implementation/UdpThread.java:106-121 | undecodable responses are skipped, not counted; quiet events short of the quorum only add their responses |
| `Dispatcher.GatherQuorum` | src/implementation/UdpThread.java:113-114 | collection stops on the third response with the first three, whatever follows |
| `Dispatcher.GatherStops` | src/implementation/UdpThread.java:115-121 | a timeout ends collection with what arrived, another I/O error abandons it, an object that is not a map crashes it |
| `Dispatcher.Collect` | src/implementation/UdpThread.java:106-121 | the `while (true)` loop computes `Gather` |
| `Dispatcher.FirstPick` | src/implementation/UdpThread.java:123-132 | the reply is the first response; an abandoned collection replies with the empty map; no response at all is no reply |
| `Dispatcher.ReplicaRequestsData` | src/implementation/UdpThread.java:80-133 | the datagrams sent are one `RM_REQ_IMPORT` packet per peer in list order, up to the first unsendable peer; when every peer is sendable, each peer gets exactly one such packet carrying the unchanged body; the outcome is `FirstPick` of the collection, the empty map after a socket or send error, or no reply for an illegal port |
| `Dispatcher.RmRequestsData` | src/implementation/UdpThread.java:138-172 | at most one `R_REQ_EXPORT` packet goes to the registered port, and only when the code reads, the socket opens, the port is legal and the send succeeds; it dies exactly on an unreadable code, an illegal port or a non-map answer; it blocks exactly on silence; otherwise it replies with the answer or the empty map |
| `Dispatcher.RmRequestsUnknownCode` | src/implementation/UdpThread.java:140-157 | when the socket opens, a missing, `null` or unregistered code sends nothing and kills the handler |
| `Dispatcher.RmRequestsRegistered` | src/implementation/UdpThread.java:140-162 | a registered code with a legal port forwards to that replica and relays its answer |
| `Dispatcher.Restarted` | src/implementation/UdpThread.java:66-67 | no contract of its own: a replica's state after kill then start; `Dispatcher.Restart` is proved to reach it |
| `Dispatcher.AfterFailure` | src/implementation/UdpThread.java:60-69 | no contract of its own: a replica's state after one failure report; `Dispatcher.AfterFailureEffects` and `Dispatcher.ThirdFailureRestarts` give its meaning and `Dispatcher.ReplicaFails` is proved to reach it |
| `Dispatcher.AfterFailureEffects` | src/implementation/UdpThread.java:60-69 | below the threshold only the counter moves; at the threshold a live process ends with counter 0, a dead one stays critical, and the replica is alive exactly when the launch succeeded |
| `Dispatcher.ThirdFailureRestarts` | src/implementation/UdpThread.java:60-69 | from a clean counter and a live process, two reports only count and the third restarts the replica with counter 0 |
| `Dispatcher.ReplicaFails` | src/implementation/UdpThread.java:60-69 | the named replica ends in `AfterFailure` of its old state, with a fresh handle after a successful restart and the old live process destroyed, and every other replica is unchanged; it dies exactly when the code cannot be read or the kill finds no handle |
| `Dispatcher.Restart` | src/implementation/UdpThread.java:66-67 | kill then start: it dies exactly on a missing handle; otherwise an old live process is destroyed and the replica ends in `Restarted` of its old state |
| `Dispatcher.ReplicaSucceeds` | src/implementation/UdpThread.java:72-75 | only the named replica's counter becomes 0; it dies exactly when the code cannot be read |
| `Dispatcher.Run` | src/implementation/UdpThread.java:27-57 | an undecodable datagram ends quietly; an unknown code gets the error reply; reports get no reply; only the last datagram can be the reply; a peer's request is `RmRequestsData`; a failure report that restarts a live process destroys it; the registry changes as the report handlers say and not otherwise |
| `TimeSlots.BookedRecords` | src/schema/TimeSlot.java:22-33 | booking records the booker and the id and keeps the time |
| `TimeSlots.CancelIdempotent` | src/schema/TimeSlot.java:35-38 | cancelling twice is cancelling once, cancelling undoes any booking, and the time is kept |
| `TimeSlots.TimeSlot.Blank` | src/schema/TimeSlot.java:10-14 | all three fields are empty |
| `TimeSlots.TimeSlot.constructor` | src/schema/TimeSlot.java:16-20 | the time is stored and the slot is not booked |
| `TimeSlots.TimeSlot.BookTimeSlot` | src/schema/TimeSlot.java:22-25 | the new state is the old one booked by the arguments |
| `TimeSlots.TimeSlot.CancelBooking` | src/schema/TimeSlot.java:35-38 | the new state is the old one with the booking cleared |
| `TimeSlots.TimeSlot.GetBookedBy` | src/schema/TimeSlot.java:27-29 | no contract of its own: the booker recorded by `BookTimeSlot`, cleared by `CancelBooking` |
| `TimeSlots.TimeSlot.GetBookingId` | src/schema/TimeSlot.java:31-33 | no contract of its own: the booking id recorded by `BookTimeSlot`, cleared by `CancelBooking` |

## Left out

- Sockets, `DatagramPacket` buffers (the 10000-byte receive buffers), host names and `InetAddress` look-ups are not modelled. A send, a receive and the opening of a socket are outcomes given as inputs.
- Java object serialization (`serialize`, `deserialize`) is abstract. A decoded packet, room map or error is an input, and a room map is an opaque identifier.
- A failed send of the reply in `run` is not modelled: the reply is taken to go out once `run` reaches it.
- There is no wall clock. The 3000 ms limit that `setSoTimeout` puts on each receive is a `Timeout` event that any receive may produce, and an error from `setSoTimeout` itself is not modelled. So the model does not bound how long the collection loop runs.
- Threads (`UdpThread.start`) and concurrent handlers on the shared registry are not modelled. One handler runs at a time.
- `ProcessBuilder.start`, `Process.destroy` and `isAlive` are modelled as an abstract handle with an `alive` flag that only `Destroy` clears. A process never dies by itself in the model, and its death can only be given as initial state.
- Whether a launch succeeds is an input (`launchOk`). The `java.home` property is the constructor argument `javaBin`.
- Logging is left out.
- `Integer.parseInt` accepts only ASCII digits here. Java also accepts other Unicode decimal digits.
- A `null` configuration string is not modelled. The model's strings are never null.
- `Manager`, `ReplicaThread`, `ReplicaManager.getIpAddress` and the fields of `UdpPacket` other than those the handlers read are not part of this model. They hold I/O plumbing, process execution and DNS resolution.
- Registry.RmOperations.StartReplicas: the order in which `HashMap.entrySet` visits the codes is not stated. The contract only gives the final state, which the order does not affect.
- No system-wide, sequence-based failure counter exists in this code, so none is modelled.
- Dispatcher.Run: for `R_REQ_IMPORT` the contract states only that the handler never blocks and that every datagram before the reply is the forwarded request to the peer at that index. The reply itself is stated by `Dispatcher.ReplicaRequestsData`.

## Findings

| source | as written | input that shows it | evidently intended | confidence | as-written member | corrected member |
|---|---|---|---|---|---|---|
| src/implementation/RmOperations.java:41-42 | each peer entry, already cut at `;`, is cut at `;` again, so it has a single field and `params[1]` is out of bounds | the peer string `10.0.0.1,5000` gives the entry `10.0.0.1,5000`, which splits to one field, so construction throws `ArrayIndexOutOfBoundsException` | cut each entry at `,` into address and port, as in the `address,port` configuration format | not executed | Registry.PeerListAsWritten | Registry.PeerListRoundTrip |
