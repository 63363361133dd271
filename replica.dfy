/** One supervised campus server (`schema/Replica`): its fixed launch data,
    a consecutive-failure counter and the handle of the OS process that
    currently backs it. */
module Replicas {
  import opened JavaText

  /** A replica is critical once its counter reaches this many failures. */
  const CriticalThreshold: int := 3

  predicate IsInt32(x: int) { IntMin <= x <= IntMax }

  /** `failures += 1` on a Java `int`: wraps from the largest value to the
      smallest. */
  function Inc32(x: int): (r: int)
    requires IsInt32(x)
    ensures IsInt32(r)
  {
    if x == IntMax then IntMin else x + 1
  }

  predicate Critical(failures: int) { failures >= CriticalThreshold }

  /** The counter after `n` failure reports with no reset in between. */
  function Increments(start: int, n: nat): (r: int)
    requires IsInt32(start)
    ensures IsInt32(r)
  {
    if n == 0 then start else Inc32(Increments(start, n - 1))
  }

  /** Until the counter reaches the top of the `int` range, `n` failure
      reports raise it by exactly `n`. */
  lemma {:induction false} IncrementsAdd(start: int, n: nat)
    requires IsInt32(start) && start + n <= IntMax
    ensures Increments(start, n) == start + n
  {
    if n > 0 {
      IncrementsAdd(start, n - 1);
    }
  }

  /** From a fresh (or reset) counter, the replica is critical exactly from
      the third consecutive failure report on. */
  lemma CriticalAfter(n: nat)
    requires n <= IntMax
    ensures Critical(Increments(0, n)) <==> n >= CriticalThreshold
  {
    IncrementsAdd(0, n);
  }

  /** An OS process started for a replica; only whether it is still alive
      matters here. */
  class Process {
    const command: seq<string>
    var alive: bool

    /** A process just spawned from `command`. */
    constructor (command: seq<string>)
      ensures this.command == command && alive
    {
      this.command := command;
      alive := true;
    }

    /** `Process.destroy`. */
    method Destroy()
      modifies this
      ensures !alive
    {
      alive := false;
    }
  }

  class Replica {
    // Never reassigned after construction.
    const udpPort: int
    const name: string
    const path: string

    var failures: int
    var process: Process?

    ghost predicate Valid()
      reads this
    {
      IsInt32(failures)
    }

    constructor (udpPort: int, name: string, path: string)
      ensures Valid()
      ensures this.udpPort == udpPort && this.name == name && this.path == path
      ensures failures == 0 && process == null
    {
      this.udpPort := udpPort;
      this.name := name;
      this.path := path;
      failures := 0;
      process := null;
    }

    /** Destroys the running process, forgets its handle and clears the
        counter. The source dereferences the handle unguarded; its only
        caller has checked that it is there. */
    method Reset()
      requires Valid() && process != null
      modifies this, process
      ensures Valid()
      ensures !old(process).alive
      ensures process == null && failures == 0
    {
      process.Destroy();
      process := null;
      failures := 0;
    }

    method SetProcess(p: Process?)
      modifies this`process
      ensures process == p
      ensures failures == old(failures)
    {
      process := p;
    }

    method IncrementFailureCount()
      requires Valid()
      modifies this`failures
      ensures Valid()
      ensures failures == Inc32(old(failures))
      ensures process == old(process)
    {
      failures := Inc32(failures);
    }

    /** Despite its name, clears the counter from any value. */
    method DecrementFailureCount()
      modifies this`failures
      ensures Valid()
      ensures failures == 0
      ensures process == old(process)
    {
      failures := 0;
    }

    function IsFailureCountCritical(): bool
      reads this
    {
      Critical(failures)
    }

    function GetUdpPort(): int
    {
      udpPort
    }

    function GetProcess(): Process?
      reads this
    {
      process
    }
  }
}
