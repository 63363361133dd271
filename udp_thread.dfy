/** The request handler (`implementation/UdpThread`): one handler runs per
    received datagram, decodes it as a packet and dispatches on its
    operation code. Sockets and Java serialization are abstract: what a
    decode or a receive produces is an input of the model, and what is sent
    is an output. */
module Dispatcher {
  import opened JavaText
  import opened Replicas
  import opened Registry

  // ---------------------------------------------------------------------------
  // Packets and datagrams

  /** A value of a request body. Only a string under the code key matters to
      the handlers; any other object is opaque. */
  datatype Value = Text(s: string) | Opaque(id: nat)

  type Body = map<string, Value>

  /** `schema/UdpPacket`; a `None` body is a `null` one. */
  datatype UdpPacket = UdpPacket(operation: int, fePort: int, sequence: int, body: Option<Body>)

  /** The two-argument packet constructor leaves the front-end port and the
      sequence number at their default 0. */
  function NewPacket(operation: int, body: Option<Body>): UdpPacket
  {
    UdpPacket(operation, 0, 0, body)
  }

  /** A decoded room map (campus data), identified opaquely; `EmptyRoomMap`
      is the `new HashMap<>()` a handler starts from. */
  datatype RoomMap = EmptyRoomMap | RoomMap(id: nat)

  /** What a reply carries: the serialized string `"Error"` or a room map. */
  datatype Payload = ErrorText | Rooms(rooms: RoomMap)

  /** `Sender` is the host and port the handled datagram came from. */
  datatype Destination = Sender | Peer(manager: ReplicaManager) | LocalReplica(port: int)

  datatype Message = Request(packet: UdpPacket) | Answer(payload: Payload)

  datatype Datagram = Datagram(to: Destination, message: Message)

  /** How a handler ends: with a value to send back, killed by an uncaught
      exception, or blocked forever in a receive without timeout. */
  datatype Outcome = Reply(payload: Payload) | Died | Blocked

  /** `new DatagramPacket(…, port)` accepts only ports in this range and
      throws `IllegalArgumentException` for any other. */
  predicate IsPort(port: int) { 0 <= port <= 0xffff }

  // ---------------------------------------------------------------------------
  // Dispatch

  datatype Handler = ImportFromPeers | ExportToPeer | ReportFailure | ReportSuccess | Reject

  /** The `switch` of `run`. */
  function Route(operation: int): (h: Handler)
    ensures h == Reject <==>
              operation != RReqImport && operation != RmReqImport && operation != FeFail && operation != FeSuccess
  {
    if operation == RReqImport then ImportFromPeers
    else if operation == RmReqImport then ExportToPeer
    else if operation == FeFail then ReportFailure
    else if operation == FeSuccess then ReportSuccess
    else Reject
  }

  /** Whether a handler's result is sent back to the sender. */
  predicate Replies(h: Handler) { h != ReportFailure && h != ReportSuccess }

  /** Exactly the two front-end reports go unanswered; in particular
      `R_REQ_EXPORT`, which only replicas are meant to receive, gets the
      error reply. */
  lemma RouteReplies(operation: int)
    ensures Replies(Route(operation)) <==> operation != FeFail && operation != FeSuccess
    ensures operation == RReqExport ==> Route(operation) == Reject
  {
  }

  /** The wire values of the operation codes and of the body key. */
  lemma RouteCodes()
    ensures Route(0) == ImportFromPeers && Route(1) == Reject && Route(2) == ExportToPeer
    ensures Route(3) == ReportFailure && Route(4) == ReportSuccess
    ensures BodyCode == "c"
  {
  }

  /** What `(String) body.get("c")` yields: a string, `null` for a missing
      key, a `ClassCastException` for another object, and a
      `NullPointerException` when the body itself is `null`. */
  datatype CodeField = Code(code: string) | NullCode | NotAString | NoBody

  function CodeOf(body: Option<Body>): CodeField
  {
    match body
    case None => NoBody
    case Some(b) =>
      if BodyCode !in b then NullCode
      else match b[BodyCode]
        case Text(s) => Code(s)
        case Opaque(_) => NotAString
  }

  /** Reading the code throws. */
  predicate CodeThrows(f: CodeField) { f.NotAString? || f.NoBody? }

  /** `getOrDefault(code, null)`: a `null` code finds no replica. */
  predicate Registered(ops: RmOperations, f: CodeField)
  {
    f.Code? && f.code in ops.replicaList
  }

  // ---------------------------------------------------------------------------
  // replicaRequestsData: broadcast to the peers, then collect their answers

  /** The collection loop stops at this many responses. */
  const QuorumSize: nat := 3

  /** One step of the collection loop: a response decoded as a room map, a
      decoded object that is not a map (`ClassCastException`, uncaught), a
      `ClassNotFoundException`, any other `IOException`, or the receive
      timeout. */
  datatype RecvEvent = Response(rooms: RoomMap) | NotAMap | UnknownClass | IoError | Timeout

  /** How collection ends: with the responses gathered so far, abandoned by an
      `IOException` (the handler then replies with the empty map), or with an
      uncaught exception. */
  datatype Collected = Gathered(data: seq<RoomMap>) | Abandoned | Crashed

  /** The collection loop run on `events` with `data` already gathered;
      running out of events is the receive timing out. */
  function Gather(events: seq<RecvEvent>, data: seq<RoomMap>): (c: Collected)
    requires |data| < QuorumSize
    ensures c.Gathered? ==> |data| <= |c.data| <= QuorumSize && c.data[..|data|] == data
    decreases |events|
  {
    if events == [] then Gathered(data)
    else match events[0]
      case Timeout => Gathered(data)
      case IoError => Abandoned
      case NotAMap => Crashed
      case UnknownClass => Gather(events[1..], data)
      case Response(m) =>
        if |data| + 1 == QuorumSize then Gathered(data + [m]) else Gather(events[1..], data + [m])
  }

  /** The room maps of the responses among `events`, in arrival order. */
  function ResponsesOf(events: seq<RecvEvent>): seq<RoomMap>
  {
    if events == [] then []
    else (if events[0].Response? then [events[0].rooms] else []) + ResponsesOf(events[1..])
  }

  /** Events that neither end nor break the loop. */
  predicate Quiet(events: seq<RecvEvent>)
  {
    forall i :: 0 <= i < |events| ==> events[i].Response? || events[i].UnknownClass?
  }

  /** One quiet event at the head of the events. */
  lemma GatherCons(e: RecvEvent, rest: seq<RecvEvent>, data: seq<RoomMap>)
    requires |data| < QuorumSize && (e.Response? || e.UnknownClass?)
    ensures e.UnknownClass? ==> Gather([e] + rest, data) == Gather(rest, data)
    ensures e.Response? && |data| + 1 < QuorumSize ==> Gather([e] + rest, data) == Gather(rest, data + [e.rooms])
    ensures e.Response? && |data| + 1 == QuorumSize ==> Gather([e] + rest, data) == Gathered(data + [e.rooms])
  {
    assert ([e] + rest)[0] == e && ([e] + rest)[1..] == rest;
  }

  /** The responses of quiet events, one event at a time. */
  lemma ResponsesCons(pre: seq<RecvEvent>)
    requires pre != []
    ensures pre == [pre[0]] + pre[1..]
    ensures ResponsesOf(pre) == (if pre[0].Response? then [pre[0].rooms] else []) + ResponsesOf(pre[1..])
    ensures Quiet(pre) ==> Quiet(pre[1..])
  {
    assert forall i :: 0 <= i < |pre[1..]| ==> pre[1..][i] == pre[i + 1];
  }

  /** Undecodable responses are skipped and not counted: a run of quiet
      events that does not complete the quorum only adds its responses. */
  lemma {:induction false} GatherQuiet(pre: seq<RecvEvent>, post: seq<RecvEvent>, data: seq<RoomMap>)
    requires Quiet(pre) && |data| + |ResponsesOf(pre)| < QuorumSize
    ensures Gather(pre + post, data) == Gather(post, data + ResponsesOf(pre))
    decreases |pre|
  {
    if pre == [] {
      assert pre + post == post;
      assert data + [] == data;
    } else {
      var e, rest := pre[0], pre[1..];
      ResponsesCons(pre);
      assert pre + post == [e] + (rest + post);
      GatherCons(e, rest + post, data);
      if e.Response? {
        GatherQuiet(rest, post, data + [e.rooms]);
        assert data + [e.rooms] + ResponsesOf(rest) == data + ResponsesOf(pre);
      } else {
        assert ResponsesOf(pre) == ResponsesOf(rest);
        GatherQuiet(rest, post, data);
      }
    }
  }

  /** Once quiet events bring the quorum, collection stops with the first
      responses, whatever follows. */
  lemma {:induction false} GatherQuorum(pre: seq<RecvEvent>, post: seq<RecvEvent>, data: seq<RoomMap>)
    requires Quiet(pre) && |data| < QuorumSize <= |data| + |ResponsesOf(pre)|
    ensures Gather(pre + post, data) == Gathered((data + ResponsesOf(pre))[..QuorumSize])
    decreases |pre|
  {
    var e, rest := pre[0], pre[1..];
    ResponsesCons(pre);
    assert pre + post == [e] + (rest + post);
    GatherCons(e, rest + post, data);
    if e.Response? {
      var data' := data + [e.rooms];
      assert data' + ResponsesOf(rest) == data + ResponsesOf(pre);
      if |data'| < QuorumSize {
        GatherQuorum(rest, post, data');
      } else {
        assert (data + ResponsesOf(pre))[..QuorumSize] == data';
      }
    } else {
      GatherQuorum(rest, post, data);
    }
  }

  /** How the event that follows quiet events ends collection short of the
      quorum. */
  lemma GatherStops(pre: seq<RecvEvent>, e: RecvEvent, post: seq<RecvEvent>)
    requires Quiet(pre) && |ResponsesOf(pre)| < QuorumSize
    requires !e.Response? && !e.UnknownClass?
    ensures Gather(pre + [e] + post, []) ==
              match e
              case Timeout => Gathered(ResponsesOf(pre))
              case IoError => Abandoned
              case _ => Crashed
  {
    assert pre + [e] + post == pre + ([e] + post);
    GatherQuiet(pre, [e] + post, []);
    assert [] + ResponsesOf(pre) == ResponsesOf(pre);
  }

  /** The collection loop of `replicaRequestsData`. */
  method Collect(events: seq<RecvEvent>) returns (c: Collected)
    ensures c == Gather(events, [])
  {
    var data: seq<RoomMap> := [];
    var i := 0;
    while true
      invariant 0 <= i <= |events| && |data| < QuorumSize
      invariant Gather(events[i..], data) == Gather(events, [])
      decreases |events| - i
    {
      if i == |events| {
        return Gathered(data);
      }
      var e := events[i];
      assert events[i..][1..] == events[i + 1..];
      i := i + 1;
      match e
      case Timeout =>
        return Gathered(data);
      case IoError =>
        return Abandoned;
      case NotAMap =>
        return Crashed;
      case UnknownClass =>
      case Response(m) =>
        data := data + [m];
        if |data| == QuorumSize {
          return Gathered(data);
        }
    }
  }

  /** The reply after collection: the first response; the empty map when
      collection was abandoned; and `iterator().next()` on no response at
      all throws `NoSuchElementException`. */
  function FirstPick(c: Collected): (o: Outcome)
    ensures o.Reply? <==> c.Abandoned? || (c.Gathered? && c.data != [])
    ensures c.Gathered? && c.data != [] ==> o == Reply(Rooms(c.data[0]))
    ensures c.Abandoned? ==> o == Reply(Rooms(EmptyRoomMap))
  {
    match c
    case Gathered(data) => if data == [] then Died else Reply(Rooms(data[0]))
    case Abandoned => Reply(Rooms(EmptyRoomMap))
    case Crashed => Died
  }

  /** The packet forwarded to one peer: `RM_REQ_IMPORT` with the request body
      unchanged. */
  function ToPeer(manager: ReplicaManager, body: Option<Body>): Datagram
  {
    Datagram(Peer(manager), Request(NewPacket(RmReqImport, body)))
  }

  /** Whether the send to the `i`-th peer goes out: its port must be legal,
      and `failing` holds the indices whose `send` throws `IOException`. */
  predicate Sendable(manager: ReplicaManager, i: nat, failing: set<nat>)
  {
    IsPort(manager.udpPort) && i !in failing
  }

  /** `replicaRequestsData`: `socketOk` says whether the new socket can be
      opened, `failing` which sends throw, `events` what the receives
      produce. The packets sent are a prefix of one packet per peer, in list
      order, cut at the first peer that cannot be sent to. */
  method ReplicaRequestsData(peers: seq<ReplicaManager>, body: Option<Body>, socketOk: bool,
                             failing: set<nat>, events: seq<RecvEvent>)
    returns (sent: seq<Datagram>, o: Outcome)
    ensures !socketOk ==> sent == [] && o == Reply(Rooms(EmptyRoomMap))
    ensures |sent| <= |peers|
    ensures forall j :: 0 <= j < |sent| ==> sent[j] == ToPeer(peers[j], body) && Sendable(peers[j], j, failing)
    ensures socketOk && |sent| < |peers| ==>
              !Sendable(peers[|sent|], |sent|, failing) &&
              o == if IsPort(peers[|sent|].udpPort) then Reply(Rooms(EmptyRoomMap)) else Died
    ensures socketOk && |sent| == |peers| ==> o == FirstPick(Gather(events, []))
    ensures socketOk && (forall j :: 0 <= j < |peers| ==> Sendable(peers[j], j, failing)) ==>
              sent == seq(|peers|, j requires 0 <= j < |peers| => ToPeer(peers[j], body))
  {
    sent := [];
    if !socketOk {
      return sent, Reply(Rooms(EmptyRoomMap));
    }
    var i := 0;
    while i < |peers|
      invariant 0 <= i <= |peers| && |sent| == i
      invariant forall j :: 0 <= j < i ==> sent[j] == ToPeer(peers[j], body) && Sendable(peers[j], j, failing)
    {
      if !IsPort(peers[i].udpPort) {
        return sent, Died;
      }
      if i in failing {
        return sent, Reply(Rooms(EmptyRoomMap));
      }
      sent := sent + [ToPeer(peers[i], body)];
      i := i + 1;
    }
    var c := Collect(events);
    o := FirstPick(c);
  }

  // ---------------------------------------------------------------------------
  // rmRequestsData: fetch the local replica's data for a peer

  /** What the single receive of `rmRequestsData` produces: a room map, an
      `IOException` or `ClassNotFoundException`, a decoded object that is not
      a map (`ClassCastException`, uncaught), or nothing ever: this socket
      has no timeout. */
  datatype Answer = Answered(rooms: RoomMap) | Unreadable | AnswerNotAMap | Silence

  /** The request forwarded to the local replica: `R_REQ_EXPORT` with the
      body unchanged. */
  function ToReplica(port: int, body: Option<Body>): Datagram
  {
    Datagram(LocalReplica(port), Request(NewPacket(RReqExport, body)))
  }

  /** The port `getReplicaPort` answers for the code read from the body. */
  function PortFor(ops: RmOperations, f: CodeField): int
  {
    if f.Code? then ops.GetReplicaPort(f.code) else PortNotFound
  }

  /** `rmRequestsData`: `socketOk` says whether the socket opens, `sendOk`
      whether the send succeeds; the result is what is sent and how the
      handler ends. */
  function RmRequestsData(ops: RmOperations, body: Option<Body>, socketOk: bool, sendOk: bool, answer: Answer)
    : (r: (seq<Datagram>, Outcome))
    ensures r.0 == [] || r.0 == [ToReplica(PortFor(ops, CodeOf(body)), body)]
    ensures r.0 != [] <==> !CodeThrows(CodeOf(body)) && socketOk && IsPort(PortFor(ops, CodeOf(body))) && sendOk
    ensures r.1 == Died <==>
              CodeThrows(CodeOf(body)) || (socketOk && !IsPort(PortFor(ops, CodeOf(body)))) ||
              (r.0 != [] && answer == AnswerNotAMap)
    ensures r.1 == Blocked <==> r.0 != [] && answer == Silence
    ensures r.1.Reply? ==> r.1.payload == Rooms(if r.0 != [] && answer.Answered? then answer.rooms else EmptyRoomMap)
  {
    var f := CodeOf(body);
    if CodeThrows(f) then ([], Died)
    else
      var port := PortFor(ops, f);
      if !socketOk then ([], Reply(Rooms(EmptyRoomMap)))
      else if !IsPort(port) then ([], Died)
      else if !sendOk then ([], Reply(Rooms(EmptyRoomMap)))
      else
        var sent := [ToReplica(port, body)];
        match answer
        case Answered(m) => (sent, Reply(Rooms(m)))
        case Unreadable => (sent, Reply(Rooms(EmptyRoomMap)))
        case AnswerNotAMap => (sent, Died)
        case Silence => (sent, Blocked)
  }

  /** A code that is missing, `null` or not registered yields the port `-1`,
      which the packet constructor rejects: the handler dies without
      sending anything. So does a registered port outside the legal range. */
  lemma RmRequestsUnknownCode(ops: RmOperations, body: Option<Body>, sendOk: bool, answer: Answer)
    requires !CodeThrows(CodeOf(body)) && !Registered(ops, CodeOf(body))
    ensures RmRequestsData(ops, body, true, sendOk, answer) == ([], Died)
  {
  }

  /** For a registered code with a legal port, the request goes to that
      replica's port and its answer is relayed. */
  lemma RmRequestsRegistered(ops: RmOperations, code: string, body: Option<Body>, m: RoomMap)
    requires CodeOf(body) == Code(code) && code in ops.Config() && IsPort(ops.Config()[code].udpPort)
    ensures RmRequestsData(ops, body, true, true, Answered(m)) ==
              ([ToReplica(ops.Config()[code].udpPort, body)], Reply(Rooms(m)))
  {
  }

  // ---------------------------------------------------------------------------
  // replicaFails and replicaSucceeds

  /** The state of a replica after `killReplica` and `startReplica` on a
      handle that is present; `p` is the handle a successful launch sets.
      The kill clears the counter only when the process was alive, and the
      launch never touches it. */
  function Restarted(v: ReplicaView, launchOk: bool, p: Process?): ReplicaView
  {
    if launchOk then ReplicaView(if v.alive then 0 else v.failures, p, true)
    else if v.alive then ReplicaView(0, null, false)
    else v
  }

  /** The state of a registered replica after one failure report, from its
      state before. */
  function AfterFailure(v: ReplicaView, launchOk: bool, p: Process?): ReplicaView
    requires IsInt32(v.failures)
  {
    var raised := v.(failures := Inc32(v.failures));
    if !Critical(raised.failures) || v.process == null then raised else Restarted(raised, launchOk, p)
  }

  /** Whether a failure report kills the handler: the threshold is reached
      and `killReplica` dereferences a missing handle. */
  predicate KillCrashes(v: ReplicaView)
    requires IsInt32(v.failures)
  {
    Critical(Inc32(v.failures)) && v.process == null
  }

  /** Below the threshold only the counter moves; at the threshold a live
      process is replaced and the counter cleared, while a dead one leaves
      the replica critical. */
  lemma AfterFailureEffects(v: ReplicaView, launchOk: bool, p: Process?)
    requires IsInt32(v.failures) && !KillCrashes(v)
    ensures var f := Inc32(v.failures);
            var w := AfterFailure(v, launchOk, p);
            (!Critical(f) ==> w == v.(failures := f)) &&
            (Critical(f) && v.alive ==> w.failures == 0) &&
            (Critical(f) && !v.alive ==> Critical(w.failures)) &&
            (Critical(f) ==> (w.alive <==> launchOk) && (launchOk ==> w.process == p))
  {
  }

  /** From a clean counter and a live process, the first two reports only
      count and the third restarts the replica with a clean counter. */
  lemma ThirdFailureRestarts(p: Process, q: Process?, launchOk: bool)
    ensures var v1 := AfterFailure(ReplicaView(0, p, true), launchOk, q);
            var v2 := AfterFailure(v1, launchOk, q);
            v1 == ReplicaView(1, p, true) && v2 == ReplicaView(2, p, true) &&
            AfterFailure(v2, launchOk, q) == if launchOk then ReplicaView(0, q, true) else ReplicaView(0, null, false)
  {
  }

  /** `replicaFails`: the counter is raised and, when it has reached the
      threshold, the replica is killed and launched again; `launchOk` says
      whether that launch succeeds. */
  method ReplicaFails(ops: RmOperations, body: Option<Body>, launchOk: bool) returns (died: bool)
    requires ops.Valid()
    modifies ops.replicaList.Values, ops.Processes()
    ensures ops.Valid()
    ensures died <==>
              CodeThrows(CodeOf(body)) ||
              (Registered(ops, CodeOf(body)) && KillCrashes(old(ViewOf(ops.replicaList[CodeOf(body).code]))))
    ensures forall c :: c in ops.replicaList ==>
              ViewOf(ops.replicaList[c]) ==
                if CodeOf(body) == Code(c)
                then AfterFailure(old(ViewOf(ops.replicaList[c])), launchOk, ops.replicaList[c].process)
                else old(ViewOf(ops.replicaList[c]))
    ensures Registered(ops, CodeOf(body)) ==>
              var v := old(ViewOf(ops.replicaList[CodeOf(body).code]));
              var r := ops.replicaList[CodeOf(body).code];
              Critical(Inc32(v.failures)) && v.process != null && launchOk ==>
                r.process != null && fresh(r.process) && r.process.command == ops.LaunchCommand(r.path)
    ensures Registered(ops, CodeOf(body)) ==>
              var v := old(ViewOf(ops.replicaList[CodeOf(body).code]));
              Critical(Inc32(v.failures)) && v.process != null && v.alive ==> !v.process.alive
  {
    var f := CodeOf(body);
    if CodeThrows(f) {
      return true;
    }
    if !f.Code? {
      return false;
    }
    var code := f.code;
    ops.IncrementFailureCount(code);
    died := false;
    if ops.IsReplicaFailureCritical(code) {
      died := Restart(ops, code, launchOk);
    }
  }

  /** Lines 66-67 of `replicaFails`: kill the replica, then launch it again.
      `died` is the `NullPointerException` on a missing handle. */
  method Restart(ops: RmOperations, code: string, launchOk: bool) returns (died: bool)
    requires ops.Valid() && code in ops.replicaList
    modifies ops.ReplicaAt(code), ops.ProcessAt(code)
    ensures ops.Valid()
    ensures died <==> old(ops.replicaList[code].process) == null
    ensures forall c :: c in ops.replicaList ==>
              ViewOf(ops.replicaList[c]) ==
                if c == code && !died
                then Restarted(old(ViewOf(ops.replicaList[c])), launchOk, ops.replicaList[c].process)
                else old(ViewOf(ops.replicaList[c]))
    ensures !died && old(ops.replicaList[code].process.alive) ==> !old(ops.replicaList[code].process).alive
    ensures !died && launchOk ==>
              var r := ops.replicaList[code];
              r.process != null && fresh(r.process) && r.process.command == ops.LaunchCommand(r.path)
  {
    died := ops.KillReplica(code);
    if died {
      return;
    }
    ops.StartReplica(code, launchOk);
  }

  /** `replicaSucceeds`: the named replica's counter goes back to 0 and
      nothing else changes. */
  method ReplicaSucceeds(ops: RmOperations, body: Option<Body>) returns (died: bool)
    requires ops.Valid()
    modifies ops.replicaList.Values
    ensures ops.Valid()
    ensures died <==> CodeThrows(CodeOf(body))
    ensures forall c :: c in ops.replicaList ==>
              ViewOf(ops.replicaList[c]) ==
                if CodeOf(body) == Code(c) then old(ViewOf(ops.replicaList[c])).(failures := 0)
                else old(ViewOf(ops.replicaList[c]))
  {
    var f := CodeOf(body);
    if CodeThrows(f) {
      return true;
    }
    died := false;
    if f.Code? {
      ops.DecrementFailureCount(f.code);
    }
  }

  // ---------------------------------------------------------------------------
  // run: decode, dispatch, reply

  /** What decoding the received datagram gives: a packet; an `IOException`
      or `ClassNotFoundException`, which `run` logs and then ends; or an
      object that is not a packet, whose cast throws an uncaught
      `ClassCastException`. */
  datatype Received = Packet(packet: UdpPacket) | Undecodable | NotAPacket

  /** Everything outside the handler that decides how one run goes. */
  datatype Env = Env(socketOk: bool, failing: set<nat>, events: seq<RecvEvent>,
                     sendOk: bool, answer: Answer, launchOk: bool)

  /** How the handler thread ends. */
  datatype Status = Done | Crash | Hang

  function StatusOf(o: Outcome): Status
  {
    match o
    case Reply(_) => Done
    case Died => Crash
    case Blocked => Hang
  }

  /** What was sent, followed by the reply to the sender when there is one. */
  function WithReply(sent: seq<Datagram>, o: Outcome): seq<Datagram>
  {
    if o.Reply? then sent + [Datagram(Sender, Answer(o.payload))] else sent
  }

  /** `run`: decode the datagram, route it by operation code, and send the
      handler's result back to the sender. */
  method Run(ops: RmOperations, received: Received, env: Env) returns (sent: seq<Datagram>, status: Status)
    requires ops.Valid()
    modifies ops.replicaList.Values, ops.Processes()
    ensures ops.Valid()
    ensures !received.Packet? ==> sent == [] && status == (if received.Undecodable? then Done else Crash)
    ensures received.Packet? ==>
              var p := received.packet;
              var h := Route(p.operation);
              (h == Reject ==> sent == [Datagram(Sender, Answer(ErrorText))] && status == Done) &&
              (!Replies(h) ==> sent == [] && status != Hang) &&
              (Replies(h) ==> (status == Done <==> sent != [] && sent[|sent| - 1].to == Sender)) &&
              (forall j :: 0 <= j < |sent| - 1 ==> sent[j].to != Sender) &&
              (h == ExportToPeer ==>
                 var r := RmRequestsData(ops, p.body, env.socketOk, env.sendOk, env.answer);
                 sent == WithReply(r.0, r.1) && status == StatusOf(r.1)) &&
              (h == ImportFromPeers ==>
                 status != Hang &&
                 forall j :: 0 <= j < |sent| && sent[j].to != Sender ==>
                   j < |ops.replicaManagers| && sent[j] == ToPeer(ops.replicaManagers[j], p.body)) &&
              (h == ReportFailure ==>
                 (status == Crash <==>
                    CodeThrows(CodeOf(p.body)) ||
                    (Registered(ops, CodeOf(p.body)) && KillCrashes(old(ViewOf(ops.replicaList[CodeOf(p.body).code]))))) &&
                 (Registered(ops, CodeOf(p.body)) ==>
                    var v := old(ViewOf(ops.replicaList[CodeOf(p.body).code]));
                    Critical(Inc32(v.failures)) && v.process != null && v.alive ==> !v.process.alive)) &&
              (h == ReportSuccess ==> (status == Crash <==> CodeThrows(CodeOf(p.body))))
    ensures forall c :: c in ops.replicaList ==>
              ViewOf(ops.replicaList[c]) ==
                if received.Packet? && CodeOf(received.packet.body) == Code(c) &&
                   Route(received.packet.operation) == ReportFailure
                then AfterFailure(old(ViewOf(ops.replicaList[c])), env.launchOk, ops.replicaList[c].process)
                else if received.Packet? && CodeOf(received.packet.body) == Code(c) &&
                        Route(received.packet.operation) == ReportSuccess
                then old(ViewOf(ops.replicaList[c])).(failures := 0)
                else old(ViewOf(ops.replicaList[c]))
  {
    if !received.Packet? {
      return [], if received.Undecodable? then Done else Crash;
    }
    var p := received.packet;
    var o: Outcome;
    match Route(p.operation) {
      case ImportFromPeers =>
        sent, o := ReplicaRequestsData(ops.GetReplicaManagers(), p.body, env.socketOk, env.failing, env.events);
      case ExportToPeer =>
        var r := RmRequestsData(ops, p.body, env.socketOk, env.sendOk, env.answer);
        sent, o := r.0, r.1;
      case ReportFailure =>
        var died := ReplicaFails(ops, p.body, env.launchOk);
        return [], if died then Crash else Done;
      case ReportSuccess =>
        var died := ReplicaSucceeds(ops, p.body);
        return [], if died then Crash else Done;
      case Reject =>
        sent, o := [], Reply(ErrorText);
    }
    sent := WithReply(sent, o);
    status := StatusOf(o);
  }
}
