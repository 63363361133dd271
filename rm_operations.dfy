/** The replica manager's registry (`implementation/RmOperations`): the
    campus-code-to-replica map and the peer list, both built once from two
    configuration strings, and the failure-counter and process-lifecycle
    operations the request handlers run against it. */
module Registry {
  import opened JavaText
  import opened Replicas

  // Operation codes of the wire protocol and the body key of the campus code.
  const RReqImport: int := 0
  const RReqExport: int := 1
  const RmReqImport: int := 2
  const FeFail: int := 3
  const FeSuccess: int := 4
  const BodyCode: string := "c"

  /** What a port lookup answers for a code that is not registered. */
  const PortNotFound: int := -1

  /** Separator between configuration entries, and between the fields of one
      entry. */
  const EntrySep: char := ';'
  const FieldSep: char := ','

  /** What a replica entry of the configuration describes. */
  datatype ReplicaSpec = ReplicaSpec(udpPort: int, name: string, path: string)

  /** A peer replica manager (`schema/ReplicaManager`); immutable. */
  datatype ReplicaManager = ReplicaManager(ipAddress: string, udpPort: int)

  /** The exceptions that abort construction: `ArrayIndexOutOfBoundsException`
      for a missing field (with the index read) and `NumberFormatException`
      for a port that is not an `int`. */
  datatype ParseError = IndexOutOfBounds(index: nat) | NumberFormat(text: string)

  datatype Result<T> = Success(value: T) | Failure(error: ParseError)

  // ---------------------------------------------------------------------------
  // Parsing the replica list: entries `name,code,port,path`

  /** One replica entry, read as the source reads it: field 2 (then parsed),
      field 0, field 3, keyed by field 1; further fields are ignored. */
  function ParseReplicaEntry(item: string): Result<(string, ReplicaSpec)>
  {
    var f := Split(item, FieldSep);
    if |f| < 3 then Failure(IndexOutOfBounds(2))
    else match ParseInt(f[2])
      case None => Failure(NumberFormat(f[2]))
      case Some(port) =>
        if |f| < 4 then Failure(IndexOutOfBounds(3))
        else Success((f[1], ReplicaSpec(port, f[0], f[3])))
  }

  /** Each entry of a replica list parsed on its own. */
  function ParseReplicaEntries(items: seq<string>): seq<Result<(string, ReplicaSpec)>>
  {
    seq(|items|, i requires 0 <= i < |items| => ParseReplicaEntry(items[i]))
  }

  /** The parsed entries put into the map one after another; the first entry
      that throws ends construction with its exception. */
  function InsertEntries(es: seq<Result<(string, ReplicaSpec)>>): Result<map<string, ReplicaSpec>>
  {
    if es == [] then Success(map[])
    else match InsertEntries(es[..|es| - 1])
      case Failure(e) => Failure(e)
      case Success(m) =>
        match es[|es| - 1]
        case Failure(e) => Failure(e)
        case Success(entry) => Success(m[entry.0 := entry.1])
  }

  function ParseReplicaList(replicas: string): Result<map<string, ReplicaSpec>>
  {
    InsertEntries(ParseReplicaEntries(Split(replicas, EntrySep)))
  }

  /** An entry whose fields are known parses into them. */
  lemma ParseReplicaEntryOf(item: string, f: seq<string>, port: int)
    requires Split(item, FieldSep) == f && |f| >= 4 && ParseInt(f[2]) == Some(port)
    ensures ParseReplicaEntry(item) == Success((f[1], ReplicaSpec(port, f[0], f[3])))
  {
  }

  /** A well-formed entry reads back its name, code, port and path, whatever
      further fields follow. */
  lemma ReplicaEntryRoundTrip(name: string, code: string, port: nat, path: string, extra: seq<string>)
    requires port <= IntMax
    requires NoSep(name, FieldSep) && NoSep(code, FieldSep) && NoSep(path, FieldSep)
    requires forall i :: 0 <= i < |extra| ==> NoSep(extra[i], FieldSep)
    requires (if extra == [] then path else extra[|extra| - 1]) != ""
    ensures ParseReplicaEntry(Join([name, code, Decimal(port), path] + extra, FieldSep))
         == Success((code, ReplicaSpec(port, name, path)))
  {
    var ds := Decimal(port);
    assert NoSep(ds, FieldSep) by {
      assert forall i :: 0 <= i < |ds| ==> IsDigit(ds[i]);
    }
    var head := [name, code, ds, path];
    var fields := head + extra;
    assert forall i :: 0 <= i < |fields| ==> fields[i] == if i < 4 then head[i] else extra[i - 4];
    assert fields[|fields| - 1] != "";
    SplitJoin(fields, FieldSep);
    ParseIntDecimal(port);
    ParseReplicaEntryOf(Join(fields, FieldSep), fields, port);
  }

  /** Once a prefix of the entries has failed, the whole list fails the same
      way. */
  lemma {:induction false} InsertEntriesPrefixFailure(es: seq<Result<(string, ReplicaSpec)>>, i: nat)
    requires i <= |es| && InsertEntries(es[..i]).Failure?
    ensures InsertEntries(es) == InsertEntries(es[..i])
    decreases |es| - i
  {
    if i < |es| {
      assert es[..i + 1][..i] == es[..i];
      InsertEntriesPrefixFailure(es, i + 1);
    } else {
      assert es[..i] == es;
    }
  }

  /** The list is accepted exactly when every entry is. */
  lemma {:induction false} InsertEntriesOk(es: seq<Result<(string, ReplicaSpec)>>)
    ensures InsertEntries(es).Success? <==> forall i :: 0 <= i < |es| ==> es[i].Success?
  {
    if es != [] {
      var init := es[..|es| - 1];
      InsertEntriesOk(init);
      assert forall i :: 0 <= i < |init| ==> init[i] == es[i];
    }
  }

  /** The error reported is that of the first entry that fails. */
  lemma InsertEntriesFirstError(es: seq<Result<(string, ReplicaSpec)>>, i: nat)
    requires i < |es| && es[i].Failure?
    requires forall j :: 0 <= j < i ==> es[j].Success?
    ensures InsertEntries(es) == Failure(es[i].error)
  {
    var init := es[..i];
    InsertEntriesOk(init);
    assert forall j :: 0 <= j < |init| ==> init[j] == es[j];
    assert es[..i + 1][..i] == init;
    InsertEntriesPrefixFailure(es, i + 1);
  }

  /** When two entries share a code, the later one wins: the map holds, for
      each code, the last entry that names it. */
  lemma {:induction false} InsertEntriesLastWins(es: seq<Result<(string, ReplicaSpec)>>, i: nat)
    requires InsertEntries(es).Success?
    requires i < |es| && es[i].Success?
    requires forall j :: i < j < |es| ==> es[j].Success? && es[j].value.0 != es[i].value.0
    ensures es[i].value.0 in InsertEntries(es).value
    ensures InsertEntries(es).value[es[i].value.0] == es[i].value.1
  {
    var init := es[..|es| - 1];
    if i < |es| - 1 {
      assert init[i] == es[i];
      assert forall j :: i < j < |init| ==> init[j] == es[j];
      InsertEntriesLastWins(init, i);
    }
  }

  /** Every code in the map comes from some entry of the list. */
  lemma {:induction false} InsertEntriesKeys(es: seq<Result<(string, ReplicaSpec)>>, code: string)
    requires InsertEntries(es).Success? && code in InsertEntries(es).value
    ensures exists i :: 0 <= i < |es| && es[i].Success? && es[i].value.0 == code
  {
    var init := es[..|es| - 1];
    var last := |es| - 1;
    if es[last].value.0 != code {
      InsertEntriesKeys(init, code);
      var i :| 0 <= i < |init| && init[i].Success? && init[i].value.0 == code;
      assert init[i] == es[i];
    }
  }

  /** The replica list is accepted exactly when every entry it splits into
      parses. */
  lemma ReplicaListOk(replicas: string)
    ensures var items := Split(replicas, EntrySep);
            ParseReplicaList(replicas).Success? <==>
            forall i :: 0 <= i < |items| ==> ParseReplicaEntry(items[i]).Success?
  {
    var items := Split(replicas, EntrySep);
    var es := ParseReplicaEntries(items);
    InsertEntriesOk(es);
    assert forall i :: 0 <= i < |items| ==> es[i] == ParseReplicaEntry(items[i]);
  }

  /** One entry with fewer than four fields, or with a port that is not an
      `int`, makes the whole replica list fail. */
  lemma ReplicaListRejects(replicas: string, i: nat)
    requires i < |Split(replicas, EntrySep)|
    requires var f := Split(Split(replicas, EntrySep)[i], FieldSep);
             |f| < 4 || ParseInt(f[2]).None?
    ensures ParseReplicaList(replicas).Failure?
  {
    ReplicaListOk(replicas);
  }

  // ---------------------------------------------------------------------------
  // Parsing the peer list: entries `address,port`

  /** One peer entry cut into fields at `fieldSep`: field 0 is the address
      and field 1 the port, read in that order. The source passes `;`, which
      can never occur in an entry already cut at `;`. */
  function ParsePeerEntry(item: string, fieldSep: char): Result<ReplicaManager>
  {
    var f := Split(item, fieldSep);
    if |f| < 1 then Failure(IndexOutOfBounds(0))
    else if |f| < 2 then Failure(IndexOutOfBounds(1))
    else match ParseInt(f[1])
      case None => Failure(NumberFormat(f[1]))
      case Some(port) => Success(ReplicaManager(f[0], port))
  }

  /** Each entry of a peer list parsed on its own. */
  function ParsePeerEntries(items: seq<string>, fieldSep: char): seq<Result<ReplicaManager>>
  {
    seq(|items|, i requires 0 <= i < |items| => ParsePeerEntry(items[i], fieldSep))
  }

  /** The parsed peers appended in list order; the first failing entry
      aborts. */
  function AppendEntries(es: seq<Result<ReplicaManager>>): Result<seq<ReplicaManager>>
  {
    if es == [] then Success([])
    else match AppendEntries(es[..|es| - 1])
      case Failure(e) => Failure(e)
      case Success(ps) =>
        match es[|es| - 1]
        case Failure(e) => Failure(e)
        case Success(p) => Success(ps + [p])
  }

  function ParsePeerList(replicaManagers: string, fieldSep: char): Result<seq<ReplicaManager>>
  {
    AppendEntries(ParsePeerEntries(Split(replicaManagers, EntrySep), fieldSep))
  }

  lemma {:induction false} AppendEntriesPrefixFailure(es: seq<Result<ReplicaManager>>, i: nat)
    requires i <= |es| && AppendEntries(es[..i]).Failure?
    ensures AppendEntries(es) == AppendEntries(es[..i])
    decreases |es| - i
  {
    if i < |es| {
      assert es[..i + 1][..i] == es[..i];
      AppendEntriesPrefixFailure(es, i + 1);
    } else {
      assert es[..i] == es;
    }
  }

  /** A list whose entries all fail the same way fails that way, unless it
      is empty. */
  lemma {:induction false} AppendEntriesAllFail(es: seq<Result<ReplicaManager>>, e: ParseError)
    requires forall i :: 0 <= i < |es| ==> es[i] == Failure(e)
    ensures AppendEntries(es) == if es == [] then Success([]) else Failure(e)
  {
    if es != [] {
      var init := es[..|es| - 1];
      assert forall i :: 0 <= i < |init| ==> init[i] == es[i];
      AppendEntriesAllFail(init, e);
    }
  }

  /** A list whose entries all parse yields their peers, in order. */
  lemma {:induction false} AppendEntriesAllOk(es: seq<Result<ReplicaManager>>, peers: seq<ReplicaManager>)
    requires |es| == |peers|
    requires forall i :: 0 <= i < |es| ==> es[i] == Success(peers[i])
    ensures AppendEntries(es) == Success(peers)
  {
    if es != [] {
      var n := |es| - 1;
      var init, prefix := es[..n], peers[..n];
      assert forall i :: 0 <= i < n ==> init[i] == es[i] && prefix[i] == peers[i];
      AppendEntriesAllOk(init, prefix);
      assert prefix + [peers[n]] == peers;
    }
  }

  /** One more parsed peer is appended to those gathered so far. */
  lemma AppendEntriesStep(es: seq<Result<ReplicaManager>>, i: nat, peers: seq<ReplicaManager>)
    requires i < |es| && AppendEntries(es[..i]) == Success(peers) && es[i].Success?
    ensures AppendEntries(es[..i + 1]) == Success(peers + [es[i].value])
  {
    assert es[..i + 1][..i] == es[..i];
  }

  /** An entry that fails after parsed ones ends the list with its error. */
  lemma AppendEntriesStopsAt(es: seq<Result<ReplicaManager>>, i: nat)
    requires i < |es| && AppendEntries(es[..i]).Success? && es[i].Failure?
    ensures AppendEntries(es) == Failure(es[i].error)
  {
    assert es[..i + 1][..i] == es[..i];
    AppendEntriesPrefixFailure(es, i + 1);
  }

  /** As written, the peer list parses only when it has no entry at all
      (a string of nothing but `;`), and then yields no peer; any string
      with an entry fails on the missing field 1. */
  lemma PeerListAsWritten(replicaManagers: string)
    ensures ParsePeerList(replicaManagers, EntrySep).Success? <==>
            replicaManagers != [] && AllSep(replicaManagers, EntrySep)
    ensures ParsePeerList(replicaManagers, EntrySep).Success? ==>
            ParsePeerList(replicaManagers, EntrySep).value == []
    ensures ParsePeerList(replicaManagers, EntrySep).Failure? ==>
            ParsePeerList(replicaManagers, EntrySep).error == IndexOutOfBounds(1)
  {
    var items := Split(replicaManagers, EntrySep);
    SplitLacksSep(replicaManagers, EntrySep);
    assert forall i :: 0 <= i < |items| ==> Split(items[i], EntrySep) == [items[i]];
    AppendEntriesAllFail(ParsePeerEntries(items, EntrySep), IndexOutOfBounds(1));
    SplitIsEmpty(replicaManagers, EntrySep);
  }

  /** The text of one peer entry, `address,port`. */
  function PeerEntryText(p: ReplicaManager): string
    requires p.udpPort >= 0
  {
    p.ipAddress + [FieldSep] + Decimal(p.udpPort)
  }

  predicate WritablePeer(p: ReplicaManager) {
    0 <= p.udpPort <= IntMax && NoSep(p.ipAddress, FieldSep) && NoSep(p.ipAddress, EntrySep)
  }

  lemma PeerEntryRoundTrip(p: ReplicaManager)
    requires WritablePeer(p)
    ensures ParsePeerEntry(PeerEntryText(p), FieldSep) == Success(p)
  {
    var ds := Decimal(p.udpPort);
    assert Join([p.ipAddress, ds], FieldSep) == PeerEntryText(p);
    SplitJoin([p.ipAddress, ds], FieldSep);
    ParseIntDecimal(p.udpPort);
  }

  /** An entry's text is never empty and never holds the entry separator. */
  lemma PeerEntryTextLacksEntrySep(p: ReplicaManager)
    requires WritablePeer(p)
    ensures PeerEntryText(p) != "" && NoSep(PeerEntryText(p), EntrySep)
  {
    var ds := Decimal(p.udpPort);
    var s := PeerEntryText(p);
    assert forall i :: 0 <= i < |s| ==>
      s[i] == if i < |p.ipAddress| then p.ipAddress[i] else if i == |p.ipAddress| then FieldSep else ds[i - |p.ipAddress| - 1];
  }

  /** With fields cut at `,` (the evident intent), a peer list written as
      `address,port` entries joined by `;` reads back exactly those peers,
      in order. */
  lemma PeerListRoundTrip(lines: seq<string>, peers: seq<ReplicaManager>)
    requires |lines| == |peers| >= 1
    requires forall i :: 0 <= i < |peers| ==> WritablePeer(peers[i]) && lines[i] == PeerEntryText(peers[i])
    ensures ParsePeerList(Join(lines, EntrySep), FieldSep) == Success(peers)
  {
    forall i | 0 <= i < |lines|
      ensures NoSep(lines[i], EntrySep) && lines[i] != ""
    {
      PeerEntryTextLacksEntrySep(peers[i]);
    }
    SplitJoin(lines, EntrySep);
    var es := ParsePeerEntries(lines, FieldSep);
    forall i | 0 <= i < |lines|
      ensures es[i] == Success(peers[i])
    {
      PeerEntryRoundTrip(peers[i]);
    }
    AppendEntriesAllOk(es, peers);
  }

  // ---------------------------------------------------------------------------
  // The registry object

  /** What the configuration says of each replica in a map of replicas. */
  function Specs(m: map<string, Replica>): map<string, ReplicaSpec>
  {
    map c | c in m :: ReplicaSpec(m[c].udpPort, m[c].name, m[c].path)
  }

  /** No replica object is registered under two codes. */
  ghost predicate Distinct(m: map<string, Replica>)
  {
    forall c, d :: c in m && d in m && c != d ==> m[c] != m[d]
  }

  /** Every replica as just built: no failures, no process. */
  ghost predicate Pristine(m: map<string, Replica>)
    reads m.Values
  {
    forall c :: c in m ==> m[c].failures == 0 && m[c].process == null
  }

  /** The mutable state of one replica at one moment: its counter, its
      process handle and whether that process is alive. */
  datatype ReplicaView = ReplicaView(failures: int, process: Process?, alive: bool)

  ghost function ViewOf(r: Replica): ReplicaView
    reads r, r.process
  {
    ReplicaView(r.failures, r.process, r.process != null && r.process.alive)
  }

  class RmOperations {
    /** The path of the `java` binary, from the `java.home` system property. */
    const javaBin: string
    /** Replicas by campus code; the map itself is never changed after
        construction, only the replicas in it. */
    const replicaList: map<string, Replica>
    const replicaManagers: seq<ReplicaManager>

    ghost predicate Valid()
      reads replicaList.Values
    {
      Distinct(replicaList) &&
      (forall c :: c in replicaList ==> replicaList[c].Valid()) &&
      (forall c, d :: c in replicaList && d in replicaList && c != d && replicaList[c].process != null ==>
         replicaList[c].process != replicaList[d].process)
    }

    function Config(): map<string, ReplicaSpec>
    {
      Specs(replicaList)
    }

    ghost function Processes(): set<object>
      reads replicaList.Values
    {
      set c | c in replicaList && replicaList[c].process != null :: replicaList[c].process as object
    }

    function ReplicaAt(code: string): set<object>
    {
      if code in replicaList then {replicaList[code]} else {}
    }

    ghost function ProcessAt(code: string): set<object>
      reads replicaList.Values
    {
      if code in replicaList && replicaList[code].process != null then {replicaList[code].process} else {}
    }

    /** The command a replica is launched with: `java -jar <path>`. */
    function LaunchCommand(path: string): seq<string>
    {
      [javaBin, "-jar", path]
    }

    constructor (javaBin: string, replicaList: map<string, Replica>, replicaManagers: seq<ReplicaManager>)
      requires Distinct(replicaList) && Pristine(replicaList)
      ensures this.javaBin == javaBin && this.replicaList == replicaList
      ensures this.replicaManagers == replicaManagers
      ensures Valid()
    {
      this.javaBin := javaBin;
      this.replicaList := replicaList;
      this.replicaManagers := replicaManagers;
    }

    /** The registered port, or the sentinel for an unknown code. */
    function GetReplicaPort(code: string): (port: int)
      ensures port == if code in Config() then Config()[code].udpPort else PortNotFound
    {
      if code in replicaList then replicaList[code].GetUdpPort() else PortNotFound
    }

    /** An unknown code is never critical. */
    function IsReplicaFailureCritical(code: string): (critical: bool)
      reads replicaList.Values
      ensures critical <==> code in replicaList && Critical(replicaList[code].failures)
    {
      code in replicaList && replicaList[code].IsFailureCountCritical()
    }

    /** Raises the named replica's counter; an unknown code changes nothing. */
    method IncrementFailureCount(code: string)
      requires Valid()
      modifies ReplicaAt(code)
      ensures Valid()
      ensures forall c :: c in replicaList ==>
                ViewOf(replicaList[c]) ==
                  if c == code then old(ViewOf(replicaList[c])).(failures := Inc32(old(replicaList[c].failures)))
                  else old(ViewOf(replicaList[c]))
    {
      if code in replicaList {
        replicaList[code].IncrementFailureCount();
      }
    }

    /** Clears the named replica's counter; an unknown code changes nothing. */
    method DecrementFailureCount(code: string)
      requires Valid()
      modifies ReplicaAt(code)
      ensures Valid()
      ensures forall c :: c in replicaList ==>
                ViewOf(replicaList[c]) ==
                  if c == code then old(ViewOf(replicaList[c])).(failures := 0) else old(ViewOf(replicaList[c]))
    {
      if code in replicaList {
        replicaList[code].DecrementFailureCount();
      }
    }

    /** Launches the replica's server; `launchOk` says whether spawning the
        process succeeds. A successful launch replaces the handle, and only
        the handle; an unknown code or a launch error changes nothing. */
    method StartReplica(code: string, launchOk: bool)
      requires Valid()
      modifies ReplicaAt(code)
      ensures Valid()
      ensures code in replicaList && launchOk ==>
                var p := replicaList[code].process;
                p != null && fresh(p) && p.command == LaunchCommand(replicaList[code].path) &&
                ViewOf(replicaList[code]) == ReplicaView(old(replicaList[code].failures), p, true)
      ensures forall c :: c in replicaList && (c != code || !launchOk) ==>
                ViewOf(replicaList[c]) == old(ViewOf(replicaList[c]))
    {
      if code !in replicaList {
        return;
      }
      var replica := replicaList[code];
      if launchOk {
        var p := new Process(LaunchCommand(replica.path));
        replica.SetProcess(p);
      }
    }

    /** Kills the replica's process if it is alive. A missing replica or a
        missing handle is dereferenced all the same: `crashed` is the
        resulting `NullPointerException`, and then nothing has changed. */
    method KillReplica(code: string) returns (crashed: bool)
      requires Valid()
      modifies ReplicaAt(code), ProcessAt(code)
      ensures Valid()
      ensures crashed <==> code !in replicaList || old(replicaList[code].process) == null
      ensures !crashed && old(replicaList[code].process.alive) ==> !old(replicaList[code].process).alive
      ensures forall c :: c in replicaList ==>
                ViewOf(replicaList[c]) ==
                  if c == code && !crashed && old(ViewOf(replicaList[c])).alive then ReplicaView(0, null, false)
                  else old(ViewOf(replicaList[c]))
    {
      if code !in replicaList {
        return true;
      }
      var replica := replicaList[code];
      if replica.GetProcess() == null {
        return true;
      }
      crashed := false;
      if replica.GetProcess().alive {
        replica.Reset();
      }
    }

    /** Starts every registered replica, in no particular order; `launched`
        holds the codes whose launch succeeds. */
    method StartReplicas(launched: set<string>)
      requires Valid()
      modifies replicaList.Values
      ensures Valid()
      ensures forall c :: c in replicaList && c in launched ==>
                var p := replicaList[c].process;
                p != null && fresh(p) && p.command == LaunchCommand(replicaList[c].path) &&
                ViewOf(replicaList[c]) == ReplicaView(old(replicaList[c].failures), p, true)
      ensures forall c :: c in replicaList && c !in launched ==>
                ViewOf(replicaList[c]) == old(ViewOf(replicaList[c]))
    {
      var todo := replicaList.Keys;
      while todo != {}
        invariant todo <= replicaList.Keys
        invariant Valid()
        invariant forall c :: c in replicaList && c !in todo && c in launched ==>
                    var p := replicaList[c].process;
                    p != null && fresh(p) && p.command == LaunchCommand(replicaList[c].path) &&
                    ViewOf(replicaList[c]) == ReplicaView(old(replicaList[c].failures), p, true)
        invariant forall c :: c in replicaList && (c in todo || c !in launched) ==>
                    ViewOf(replicaList[c]) == old(ViewOf(replicaList[c]))
        decreases todo
      {
        var code :| code in todo;
        StartReplica(code, code in launched);
        todo := todo - {code};
      }
    }

    function GetReplicaManagers(): seq<ReplicaManager>
    {
      replicaManagers
    }
  }

  // ---------------------------------------------------------------------------
  // Construction

  /** One more accepted entry updates the map built so far. */
  lemma InsertEntriesStep(es: seq<Result<(string, ReplicaSpec)>>, i: nat, m: map<string, ReplicaSpec>)
    requires i < |es| && InsertEntries(es[..i]) == Success(m) && es[i].Success?
    ensures InsertEntries(es[..i + 1]) == Success(m[es[i].value.0 := es[i].value.1])
  {
    assert es[..i + 1][..i] == es[..i];
  }

  /** An entry that fails after accepted ones ends the list with its error. */
  lemma InsertEntriesStopsAt(es: seq<Result<(string, ReplicaSpec)>>, i: nat)
    requires i < |es| && InsertEntries(es[..i]).Success? && es[i].Failure?
    ensures InsertEntries(es) == Failure(es[i].error)
  {
    assert es[..i + 1][..i] == es[..i];
    InsertEntriesPrefixFailure(es, i + 1);
  }

  lemma SpecsUpdate(m: map<string, Replica>, code: string, r: Replica)
    ensures Specs(m[code := r]) == Specs(m)[code := ReplicaSpec(r.udpPort, r.name, r.path)]
  {
  }

  /** The replica-list loop of the constructor: one fresh replica per entry,
      a later entry replacing an earlier one with the same code. */
  method BuildReplicaList(replicas: string) returns (r: Result<map<string, Replica>>)
    ensures r.Failure? <==> ParseReplicaList(replicas).Failure?
    ensures r.Failure? ==> r.error == ParseReplicaList(replicas).error
    ensures r.Success? ==>
              Specs(r.value) == ParseReplicaList(replicas).value && Distinct(r.value) && Pristine(r.value) &&
              forall c :: c in r.value ==> fresh(r.value[c])
  {
    var items := Split(replicas, EntrySep);
    ghost var es := ParseReplicaEntries(items);
    var m: map<string, Replica> := map[];
    var i := 0;
    while i < |items|
      invariant 0 <= i <= |items|
      invariant InsertEntries(es[..i]) == Success(Specs(m))
      invariant Distinct(m) && Pristine(m)
      invariant forall c :: c in m ==> fresh(m[c])
    {
      assert es[i] == ParseReplicaEntry(items[i]);
      var params := Split(items[i], FieldSep);
      if |params| < 3 {
        InsertEntriesStopsAt(es, i);
        return Failure(IndexOutOfBounds(2));
      }
      var port := ParseInt(params[2]);
      if port.None? {
        InsertEntriesStopsAt(es, i);
        return Failure(NumberFormat(params[2]));
      }
      if |params| < 4 {
        InsertEntriesStopsAt(es, i);
        return Failure(IndexOutOfBounds(3));
      }
      var replica := new Replica(port.value, params[0], params[3]);
      InsertEntriesStep(es, i, Specs(m));
      SpecsUpdate(m, params[1], replica);
      m := m[params[1] := replica];
      i := i + 1;
    }
    assert es[..i] == es;
    r := Success(m);
  }

  /** The peer-list loop of the constructor, with fields cut at `fieldSep`. */
  method BuildPeerList(replicaManagers: string, fieldSep: char) returns (r: Result<seq<ReplicaManager>>)
    ensures r == ParsePeerList(replicaManagers, fieldSep)
  {
    var items := Split(replicaManagers, EntrySep);
    ghost var es := ParsePeerEntries(items, fieldSep);
    var peers: seq<ReplicaManager> := [];
    var i := 0;
    while i < |items|
      invariant 0 <= i <= |items|
      invariant AppendEntries(es[..i]) == Success(peers)
    {
      assert es[i] == ParsePeerEntry(items[i], fieldSep);
      var params := Split(items[i], fieldSep);
      if |params| < 1 {
        r := Failure(IndexOutOfBounds(0));
        AppendEntriesStopsAt(es, i);
        return;
      }
      if |params| < 2 {
        r := Failure(IndexOutOfBounds(1));
        AppendEntriesStopsAt(es, i);
        return;
      }
      var port := ParseInt(params[1]);
      if port.None? {
        r := Failure(NumberFormat(params[1]));
        AppendEntriesStopsAt(es, i);
        return;
      }
      AppendEntriesStep(es, i, peers);
      peers := peers + [ReplicaManager(params[0], port.value)];
      i := i + 1;
    }
    assert es[..i] == es;
    r := Success(peers);
  }

  /** The source's constructor: the replica list is parsed first, then the
      peer list with its fields cut at `;`. Any exception aborts
      construction; by `PeerListAsWritten` a built registry never has a
      peer. */
  method Create(replicaManagers: string, replicas: string, javaBin: string) returns (r: Result<RmOperations>)
    ensures r.Failure? <==> ParseReplicaList(replicas).Failure? || ParsePeerList(replicaManagers, EntrySep).Failure?
    ensures r.Failure? ==>
              r.error == if ParseReplicaList(replicas).Failure? then ParseReplicaList(replicas).error
                         else ParsePeerList(replicaManagers, EntrySep).error
    ensures r.Success? ==>
              fresh(r.value) && r.value.Valid() && Pristine(r.value.replicaList) &&
              r.value.javaBin == javaBin &&
              r.value.Config() == ParseReplicaList(replicas).value &&
              r.value.replicaManagers == [] == ParsePeerList(replicaManagers, EntrySep).value
  {
    var list := BuildReplicaList(replicas);
    if list.Failure? {
      return Failure(list.error);
    }
    var peers := BuildPeerList(replicaManagers, EntrySep);
    if peers.Failure? {
      return Failure(peers.error);
    }
    PeerListAsWritten(replicaManagers);
    var ops := new RmOperations(javaBin, list.value, peers.value);
    r := Success(ops);
  }

  /** The constructor with the peer fields cut at `,`, as the configuration
      format intends. */
  method CreateCorrected(replicaManagers: string, replicas: string, javaBin: string) returns (r: Result<RmOperations>)
    ensures r.Failure? <==> ParseReplicaList(replicas).Failure? || ParsePeerList(replicaManagers, FieldSep).Failure?
    ensures r.Failure? ==>
              r.error == if ParseReplicaList(replicas).Failure? then ParseReplicaList(replicas).error
                         else ParsePeerList(replicaManagers, FieldSep).error
    ensures r.Success? ==>
              fresh(r.value) && r.value.Valid() && Pristine(r.value.replicaList) &&
              r.value.javaBin == javaBin &&
              r.value.Config() == ParseReplicaList(replicas).value &&
              r.value.replicaManagers == ParsePeerList(replicaManagers, FieldSep).value
  {
    var list := BuildReplicaList(replicas);
    if list.Failure? {
      return Failure(list.error);
    }
    var peers := BuildPeerList(replicaManagers, FieldSep);
    if peers.Failure? {
      return Failure(peers.error);
    }
    var ops := new RmOperations(javaBin, list.value, peers.value);
    r := Success(ops);
  }
}
