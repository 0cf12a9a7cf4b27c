/**
 What a client of the daemon does and is told, as a trace of events, and the
 environment that answers it. What the operating system answers to each call is
 fixed by an arbitrary oracle, so that no code can choose it, and every answer is
 recorded together with what it answers.
 */
module DaemonTrace {
  import opened Wrappers
  import opened Ascii
  import opened AsciiLaws

  /** Whose request is being written: the user's command, or the shutdown request of a restart. */
  datatype Purpose = UserCommand | Shutdown

  datatype FileRead = Contents(text: string) | NotFound | Unreadable

  datatype ErrorKind = WouldBlock | Interrupted | ConnectionReset | ConnectionAborted | OtherKind

  datatype OsError = OsError(kind: ErrorKind, text: string)

  /** A line, empty when the daemon closed the connection without one. */
  datatype LineRead = Line(text: string) | ReadFailed(error: OsError)

  datatype Event =
    | Probed(ready: bool)
    | SupervisedRead(present: bool)
    | VersionRead(version: FileRead)
    | ConfigRead(config: FileRead)
    | PidRead(pid: FileRead)
    | ChildChecked(exited: bool)
    | Waited(ms: nat)
    | ConnectAnswered(error: Option<OsError>)
    | TimeoutSet(reading: bool, refusal: Option<OsError>)
    | RequestWritten(purpose: Purpose, text: string, failure: Option<OsError>)
    | ResponseRead(response: LineRead)
    | StopBegan
    | SocketRemoved
    | Signalled(target: nat, forced: bool)
    | AliveChecked(process: nat, alive: bool)
    | FilesRemoved
    | DirectorySeen(present: bool)
    | DirectoryCreated(created: bool)
    | WriteTested(writable: bool)
    | ExecutableFound(found: bool)
    | Spawned(child: nat)
    | SpawnFailed

  /** What a daemon must publish to be used as it is. */
  datatype Expected = Expected(version: string, fingerprint: string)

  datatype Response = Response(success: bool, body: string)

  predicate Matches(read: FileRead, expected: string) {
    read.Contents? && Trim(read.text) == expected
  }

  /** The event shows that the running daemon is not the one expected. */
  predicate ShowsMismatch(e: Event, want: Expected) {
    (e.VersionRead? && !Matches(e.version, want.version)) ||
    (e.ConfigRead? && !Matches(e.config, want.fingerprint))
  }

  function Pid(read: FileRead): Option<nat> {
    if read.Contents? then ParseU32(Trim(read.text)) else None
  }

  /** White space around it aside, a file that can be read is compared with what is
      expected, and a pid file read as the number printed in it. */
  lemma FilesAreReadTrimmed(before: string, text: string, after: string, expected: string, n: nat)
    requires AllSpaces(before) && AllSpaces(after)
    ensures text == "" || IsBare(text) ==> (Matches(Contents(before + text + after), expected) <==> text == expected)
    ensures !Matches(NotFound, expected) && !Matches(Unreadable, expected)
    ensures Pid(Contents(before + Decimal(n) + after)) == if n < 0x1_0000_0000 then Some(n) else None
    ensures Pid(NotFound) == Pid(Unreadable) == None
  {
    hide Trim, ParseU32, Decimal, AllSpaces, IsSpace;
    if text == "" || IsBare(text) { TrimmingRemovesSpaces(before, text, after); }
    DecimalIsBare(n);
    TrimmingRemovesSpaces(before, Decimal(n), after);
    PrintedNumber(n);
  }

  function Count(n: nat, yes: bool): nat { if yes then n + 1 else n }

  /* ---------- Running totals ---------- */

  /** Requests and connections so far; `userText` is the latest text written for the user. */
  datatype Sent = Sent(
    userWrites: nat,
    userText: Option<string>,
    shutdownWrites: nat,
    connects: nat,
    lastingFailures: nat)

  /** Stops, spawns and all other changes so far. */
  datatype Work = Work(
    stops: nat,
    unjustifiedStops: nat,
    spawned: seq<nat>,
    unjustifiedSpawns: nat,
    effects: nat)

  /** What has been seen. `free`: nobody answered the latest probe, or the files of
      whoever did have been removed since. `cleared`: how many of the checks
      before a spawn have been passed, one after the other. `namedBeforeConfig`:
      the process the pid file named, if it was read right before the latest
      reading of a configuration. */
  datatype Seen = Seen(
    probes: nat,
    readySeen: nat,
    supervisedReads: nat,
    supervisedSeen: nat,
    versionsMatched: nat,
    configsMatched: nat,
    free: bool,
    cleared: nat,
    namedBeforeConfig: Option<nat>,
    probesSinceSpawn: nat,
    readySinceSpawn: nat,
    exitsSinceSpawn: nat)

  datatype Tally = Tally(sent: Sent, work: Work, seen: Seen, last: Option<Event>)

  const NOTHING_YET := Tally(
    Sent(0, None, 0, 0, 0), Work(0, 0, [], 0, 0),
    Seen(0, 0, 0, 0, 0, 0, false, 0, None, 0, 0, 0), None)

  /** A failure before the request was written that is not worth another try. */
  predicate IsLasting(e: Event) {
    match e
    case ConnectAnswered(Some(error)) =>
      var kind := error.kind;
      !(kind.WouldBlock? || kind.Interrupted? || kind.ConnectionReset? || kind.ConnectionAborted?)
    case TimeoutSet(_, refusal) => refusal.Some?
    case _ => false
  }

  function BumpSent(s: Sent, e: Event): Sent {
    match e
    case RequestWritten(UserCommand, text, _) => s.(userWrites := s.userWrites + 1, userText := Some(text))
    case RequestWritten(Shutdown, _, _) => s.(shutdownWrites := s.shutdownWrites + 1)
    case ConnectAnswered(_) => s.(connects := s.connects + 1, lastingFailures := Count(s.lastingFailures, IsLasting(e)))
    case TimeoutSet(_, _) => s.(lastingFailures := Count(s.lastingFailures, IsLasting(e)))
    case _ => s
  }

  function BumpWork(w: Work, e: Event, t: Tally, want: Expected): Work {
    match e
    case StopBegan =>
      w.(stops := w.stops + 1, effects := w.effects + 1,
         unjustifiedStops := Count(w.unjustifiedStops, !(t.last.Some? && ShowsMismatch(t.last.value, want))))
    case Spawned(child) =>
      w.(spawned := w.spawned + [child], effects := w.effects + 1,
         unjustifiedSpawns := Count(w.unjustifiedSpawns, !(t.seen.free && t.seen.cleared == 3)))
    case RequestWritten(Shutdown, _, _) => w.(effects := w.effects + 1)
    case SocketRemoved => w.(effects := w.effects + 1)
    case FilesRemoved => w.(effects := w.effects + 1)
    case Signalled(_, _) => w.(effects := w.effects + 1)
    case DirectoryCreated(_) => w.(effects := w.effects + 1)
    case WriteTested(_) => w.(effects := w.effects + 1)
    case _ => w
  }

  /** The process named by the latest event, if that read the pid file. */
  function NamedBy(last: Option<Event>): Option<nat> {
    if last.Some? && last.value.PidRead? then Pid(last.value.pid) else None
  }

  function Notice(s: Seen, e: Event, last: Option<Event>, want: Expected): Seen {
    match e
    case Probed(ready) =>
      s.(probes := s.probes + 1, readySeen := Count(s.readySeen, ready), free := !ready,
         probesSinceSpawn := s.probesSinceSpawn + 1, readySinceSpawn := Count(s.readySinceSpawn, ready))
    case SupervisedRead(present) =>
      s.(supervisedReads := s.supervisedReads + 1, supervisedSeen := Count(s.supervisedSeen, present))
    case VersionRead(read) => s.(versionsMatched := Count(s.versionsMatched, Matches(read, want.version)))
    case ConfigRead(read) =>
      s.(configsMatched := Count(s.configsMatched, Matches(read, want.fingerprint)), namedBeforeConfig := NamedBy(last))
    case ChildChecked(exited) => s.(exitsSinceSpawn := Count(s.exitsSinceSpawn, exited))
    case FilesRemoved => s.(free := true)
    case DirectorySeen(present) => s.(cleared := if present then 1 else 0)
    case DirectoryCreated(created) => s.(cleared := if created then 1 else 0)
    case WriteTested(writable) => s.(cleared := if writable && s.cleared == 1 then 2 else 0)
    case ExecutableFound(found) => s.(cleared := if found && s.cleared == 2 then 3 else 0)
    case Spawned(_) =>
      s.(free := false, cleared := 0, probesSinceSpawn := 0, readySinceSpawn := 0, exitsSinceSpawn := 0)
    case _ => s
  }

  function Bump(t: Tally, e: Event, want: Expected): Tally {
    Tally(BumpSent(t.sent, e), BumpWork(t.work, e, t, want), Notice(t.seen, e, t.last, want), Some(e))
  }

  function Account(trace: seq<Event>, want: Expected): Tally {
    if trace == [] then NOTHING_YET
    else Bump(Account(trace[..|trace| - 1], want), trace[|trace| - 1], want)
  }

  /* ---------- The environment ---------- */

  /** What the operating system will answer to the n-th call, whatever it is, and
      how much time passes then. */
  datatype Oracle = Oracle(
    yes: nat -> bool,
    refusal: nat -> Option<OsError>,
    file: nat -> FileRead,
    line: nat -> LineRead,
    child: nat -> Option<nat>,
    delay: nat -> nat)

  class Environment {
    const oracle: Oracle
    const session: string
    const want: Expected
    /** Decoding of a response line. */
    const decode: string -> Result<Response, string>
    var calls: nat
    var now: nat
    ghost var trace: seq<Event>

    constructor (oracle: Oracle, session: string, want: Expected, decode: string -> Result<Response, string>)
      ensures this.oracle == oracle && this.session == session && this.want == want && this.decode == decode
      ensures trace == [] && calls == 0
    {
      this.oracle, this.session, this.want, this.decode := oracle, session, want, decode;
      calls, now := 0, 0;
      trace := [];
    }

    ghost function Totals(): Tally
      reads this
    {
      Account(trace, want)
    }

    /** Record one event; time passes meanwhile. */
    method Emit(e: Event)
      modifies this
      ensures trace == old(trace) + [e] && now >= old(now)
      ensures Totals() == Bump(old(Totals()), e, want)
      ensures calls == old(calls) + 1
    {
      assert (trace + [e])[..|trace|] == trace;
      trace := trace + [e];
      now := now + oracle.delay(calls);
      calls := calls + 1;
    }

    method Sleep(ms: nat)
      modifies this
      ensures trace == old(trace) + [Waited(ms)] && now >= old(now) + ms
      ensures Totals() == old(Totals()).(last := Some(Waited(ms)))
    {
      Emit(Waited(ms));
      now := now + ms;
    }

    method Clock() returns (t: nat)
      modifies this
      ensures trace == old(trace) && now == old(now) + oracle.delay(old(calls)) && t == now
      ensures calls == old(calls) + 1
    {
      now := now + oracle.delay(calls);
      calls := calls + 1;
      t := now;
    }

    /** Whether a connect to the session's socket succeeds. */
    method DaemonReady() returns (ready: bool)
      modifies this
      ensures ready == oracle.yes(old(calls)) && calls == old(calls) + 1
      ensures trace == old(trace) + [Probed(ready)] && now >= old(now)
      ensures Totals() == old(Totals()).(seen := Notice(old(Totals()).seen, Probed(ready), None, want),
                                         last := Some(Probed(ready)))
    {
      ready := oracle.yes(calls);
      Emit(Probed(ready));
    }

    method DaemonIsSupervised() returns (present: bool)
      modifies this
      ensures present == oracle.yes(old(calls)) && calls == old(calls) + 1
      ensures trace == old(trace) + [SupervisedRead(present)] && now >= old(now)
      ensures Totals() == old(Totals()).(seen := Notice(old(Totals()).seen, SupervisedRead(present), None, want),
                                         last := Some(SupervisedRead(present)))
    {
      present := oracle.yes(calls);
      Emit(SupervisedRead(present));
    }

    method ReadVersion() returns (read: FileRead)
      modifies this
      ensures read == oracle.file(old(calls)) && calls == old(calls) + 1
      ensures trace == old(trace) + [VersionRead(read)] && now >= old(now)
      ensures Totals() == old(Totals()).(seen := Notice(old(Totals()).seen, VersionRead(read), None, want),
                                         last := Some(VersionRead(read)))
    {
      read := oracle.file(calls);
      Emit(VersionRead(read));
    }

    method ReadConfig() returns (read: FileRead)
      modifies this
      ensures read == oracle.file(old(calls)) && calls == old(calls) + 1
      ensures trace == old(trace) + [ConfigRead(read)] && now >= old(now)
      ensures Totals() == old(Totals()).(seen := Notice(old(Totals()).seen, ConfigRead(read), old(Totals()).last, want),
                                         last := Some(ConfigRead(read)))
    {
      read := oracle.file(calls);
      Emit(ConfigRead(read));
    }

    method ReadPid() returns (read: FileRead)
      modifies this
      ensures read == oracle.file(old(calls)) && calls == old(calls) + 1
      ensures trace == old(trace) + [PidRead(read)] && now >= old(now)
      ensures Totals() == old(Totals()).(last := Some(PidRead(read)))
    {
      read := oracle.file(calls);
      Emit(PidRead(read));
    }

    /** Whether the spawned process has exited. */
    method TryWait() returns (exited: bool)
      modifies this
      ensures exited == oracle.yes(old(calls)) && calls == old(calls) + 1
      ensures trace == old(trace) + [ChildChecked(exited)] && now >= old(now)
      ensures Totals() == old(Totals()).(seen := Notice(old(Totals()).seen, ChildChecked(exited), None, want),
                                         last := Some(ChildChecked(exited)))
    {
      exited := oracle.yes(calls);
      Emit(ChildChecked(exited));
    }

    method Connect() returns (error: Option<OsError>)
      modifies this
      ensures error == oracle.refusal(old(calls)) && calls == old(calls) + 1
      ensures trace == old(trace) + [ConnectAnswered(error)] && now >= old(now)
      ensures Totals() == old(Totals()).(sent := BumpSent(old(Totals()).sent, ConnectAnswered(error)),
                                         last := Some(ConnectAnswered(error)))
    {
      error := oracle.refusal(calls);
      Emit(ConnectAnswered(error));
    }

    method SetTimeout(reading: bool) returns (refusal: Option<OsError>)
      modifies this
      ensures refusal == oracle.refusal(old(calls)) && calls == old(calls) + 1
      ensures trace == old(trace) + [TimeoutSet(reading, refusal)] && now >= old(now)
      ensures Totals() == old(Totals()).(sent := BumpSent(old(Totals()).sent, TimeoutSet(reading, refusal)),
                                         last := Some(TimeoutSet(reading, refusal)))
    {
      refusal := oracle.refusal(calls);
      Emit(TimeoutSet(reading, refusal));
    }

    /** Write the whole text; a failure may leave any part of it written. */
    method WriteAll(purpose: Purpose, text: string) returns (failure: Option<OsError>)
      modifies this
      ensures failure == oracle.refusal(old(calls)) && calls == old(calls) + 1
      ensures trace == old(trace) + [RequestWritten(purpose, text, failure)] && now >= old(now)
      ensures Totals() == Bump(old(Totals()), RequestWritten(purpose, text, failure), want)
    {
      failure := oracle.refusal(calls);
      Emit(RequestWritten(purpose, text, failure));
    }

    method ReadLine() returns (response: LineRead)
      modifies this
      ensures response == oracle.line(old(calls)) && calls == old(calls) + 1
      ensures trace == old(trace) + [ResponseRead(response)] && now >= old(now)
      ensures Totals() == old(Totals()).(last := Some(ResponseRead(response)))
    {
      response := oracle.line(calls);
      Emit(ResponseRead(response));
    }

    method RemoveSocket()
      modifies this
      ensures trace == old(trace) + [SocketRemoved] && now >= old(now)
      ensures Totals() == Bump(old(Totals()), SocketRemoved, want)
    {
      Emit(SocketRemoved);
    }

    method RemoveFiles()
      modifies this
      ensures trace == old(trace) + [FilesRemoved] && now >= old(now)
      ensures Totals() == Bump(old(Totals()), FilesRemoved, want)
    {
      Emit(FilesRemoved);
    }

    method Signal(target: nat, forced: bool)
      modifies this
      ensures trace == old(trace) + [Signalled(target, forced)] && now >= old(now)
      ensures Totals() == Bump(old(Totals()), Signalled(target, forced), want)
    {
      Emit(Signalled(target, forced));
    }

    method IsAlive(process: nat) returns (alive: bool)
      modifies this
      ensures alive == oracle.yes(old(calls)) && calls == old(calls) + 1
      ensures trace == old(trace) + [AliveChecked(process, alive)] && now >= old(now)
      ensures Totals() == old(Totals()).(last := Some(AliveChecked(process, alive)))
    {
      alive := oracle.yes(calls);
      Emit(AliveChecked(process, alive));
    }

    method DirectoryExists() returns (present: bool)
      modifies this
      ensures present == oracle.yes(old(calls)) && calls == old(calls) + 1
      ensures trace == old(trace) + [DirectorySeen(present)] && now >= old(now)
      ensures Totals() == Bump(old(Totals()), DirectorySeen(present), want)
    {
      present := oracle.yes(calls);
      Emit(DirectorySeen(present));
    }

    method CreateDirectory() returns (created: bool)
      modifies this
      ensures created == oracle.yes(old(calls)) && calls == old(calls) + 1
      ensures trace == old(trace) + [DirectoryCreated(created)] && now >= old(now)
      ensures Totals() == Bump(old(Totals()), DirectoryCreated(created), want)
    {
      created := oracle.yes(calls);
      Emit(DirectoryCreated(created));
    }

    method TestWrite() returns (writable: bool)
      modifies this
      ensures writable == oracle.yes(old(calls)) && calls == old(calls) + 1
      ensures trace == old(trace) + [WriteTested(writable)] && now >= old(now)
      ensures Totals() == Bump(old(Totals()), WriteTested(writable), want)
    {
      writable := oracle.yes(calls);
      Emit(WriteTested(writable));
    }

    method FindExecutable() returns (found: bool)
      modifies this
      ensures found == oracle.yes(old(calls)) && calls == old(calls) + 1
      ensures trace == old(trace) + [ExecutableFound(found)] && now >= old(now)
      ensures Totals() == Bump(old(Totals()), ExecutableFound(found), want)
    {
      found := oracle.yes(calls);
      Emit(ExecutableFound(found));
    }

    method Spawn() returns (child: Option<nat>)
      modifies this
      ensures child == oracle.child(old(calls)) && calls == old(calls) + 1
      ensures trace == old(trace) + [if child.Some? then Spawned(child.value) else SpawnFailed] && now >= old(now)
      ensures Totals() == Bump(old(Totals()), if child.Some? then Spawned(child.value) else SpawnFailed, want)
    {
      child := oracle.child(calls);
      Emit(if child.Some? then Spawned(child.value) else SpawnFailed);
    }

    method BeginStop()
      modifies this
      ensures trace == old(trace) + [StopBegan] && now >= old(now)
      ensures Totals() == Bump(old(Totals()), StopBegan, want)
    {
      Emit(StopBegan);
    }
  }

  /* ---------- What the totals mean ---------- */

  predicate IsWrite(e: Event, purpose: Purpose) { e.RequestWritten? && e.purpose == purpose }

  function Writes(trace: seq<Event>, purpose: Purpose): set<nat> {
    set i: nat | i < |trace| && IsWrite(trace[i], purpose)
  }

  lemma OneMoreWrite(trace: seq<Event>, purpose: Purpose)
    requires trace != []
    ensures var n := |trace| - 1;
      |Writes(trace, purpose)| == |Writes(trace[..n], purpose)| + (if IsWrite(trace[n], purpose) then 1 else 0)
  {
    hide IsWrite;
    var n := |trace| - 1;
    assert forall i: nat | i < n :: trace[..n][i] == trace[i];
    assert Writes(trace, purpose) == Writes(trace[..n], purpose) + (if IsWrite(trace[n], purpose) then {n} else {});
  }

  /** The write totals count the write events of the trace. */
  lemma {:induction false} WritesAreCounted(trace: seq<Event>, want: Expected)
    ensures Account(trace, want).sent.userWrites == |Writes(trace, UserCommand)|
    ensures Account(trace, want).sent.shutdownWrites == |Writes(trace, Shutdown)|
  {
    if trace != [] {
      WritesAreCounted(trace[..|trace| - 1], want);
      OneMoreWrite(trace, UserCommand);
      OneMoreWrite(trace, Shutdown);
    }
  }

  datatype Happening =
    | Connecting | LastingFailure | Stopping | Spawning | Changing
    | Probing | Answering | Supervising | Supervised | SameVersion | SameConfig | Exiting

  predicate IsA(kind: Happening, e: Event, want: Expected) {
    match kind
    case Connecting => e.ConnectAnswered?
    case LastingFailure => IsLasting(e)
    case Stopping => e == StopBegan
    case Spawning => e.Spawned?
    case Changing =>
      || e == StopBegan || e.Spawned? || IsWrite(e, Shutdown) || e == SocketRemoved || e == FilesRemoved
      || e.Signalled? || e.DirectoryCreated? || e.WriteTested?
    case Probing => e.Probed?
    case Answering => e == Probed(true)
    case Supervising => e.SupervisedRead?
    case Supervised => e == SupervisedRead(true)
    case SameVersion => e.VersionRead? && Matches(e.version, want.version)
    case SameConfig => e.ConfigRead? && Matches(e.config, want.fingerprint)
    case Exiting => e == ChildChecked(true)
  }

  function HowMany(kind: Happening, trace: seq<Event>, want: Expected): nat {
    if trace == [] then 0
    else Count(HowMany(kind, trace[..|trace| - 1], want), IsA(kind, trace[|trace| - 1], want))
  }

  predicate SentCounts(s: Sent, trace: seq<Event>, want: Expected) {
    s.connects == HowMany(Connecting, trace, want) && s.lastingFailures == HowMany(LastingFailure, trace, want)
  }

  predicate WorkCounts(w: Work, trace: seq<Event>, want: Expected) {
    && w.stops == HowMany(Stopping, trace, want) && |w.spawned| == HowMany(Spawning, trace, want)
    && w.effects == HowMany(Changing, trace, want)
  }

  predicate SeenCounts(s: Seen, trace: seq<Event>, want: Expected) {
    && s.probes == HowMany(Probing, trace, want) && s.readySeen == HowMany(Answering, trace, want)
    && s.supervisedReads == HowMany(Supervising, trace, want)
    && s.supervisedSeen == HowMany(Supervised, trace, want)
    && s.versionsMatched == HowMany(SameVersion, trace, want)
    && s.configsMatched == HowMany(SameConfig, trace, want)
  }

  lemma SentStep(s: Sent, e: Event, want: Expected)
    ensures var r := BumpSent(s, e);
      && r.connects == Count(s.connects, IsA(Connecting, e, want))
      && r.lastingFailures == Count(s.lastingFailures, IsA(LastingFailure, e, want))
  {
  }

  lemma WorkStep(w: Work, e: Event, t: Tally, want: Expected)
    ensures var r := BumpWork(w, e, t, want);
      && r.stops == Count(w.stops, IsA(Stopping, e, want))
      && |r.spawned| == Count(|w.spawned|, IsA(Spawning, e, want))
      && r.effects == Count(w.effects, IsA(Changing, e, want))
  {
    hide ShowsMismatch, Matches;
  }

  lemma SeenStep(s: Seen, e: Event, last: Option<Event>, want: Expected)
    ensures var r := Notice(s, e, last, want);
      && r.probes == Count(s.probes, IsA(Probing, e, want))
      && r.readySeen == Count(s.readySeen, IsA(Answering, e, want))
      && r.supervisedReads == Count(s.supervisedReads, IsA(Supervising, e, want))
      && r.supervisedSeen == Count(s.supervisedSeen, IsA(Supervised, e, want))
      && r.versionsMatched == Count(s.versionsMatched, IsA(SameVersion, e, want))
      && r.configsMatched == Count(s.configsMatched, IsA(SameConfig, e, want))
  {
    hide Matches;
  }

  /** Every other total counts the events of its kind, too. */
  lemma {:induction false} TotalsAreCounts(trace: seq<Event>, want: Expected)
    ensures var t := Account(trace, want);
      SentCounts(t.sent, trace, want) && WorkCounts(t.work, trace, want) && SeenCounts(t.seen, trace, want)
    decreases |trace|
  {
    hide IsA, BumpSent, BumpWork, Notice, Count;
    if trace != [] {
      var n := |trace| - 1;
      var t := Account(trace[..n], want);
      TotalsAreCounts(trace[..n], want);
      SentStep(t.sent, trace[n], want);
      WorkStep(t.work, trace[n], t, want);
      SeenStep(t.seen, trace[n], t.last, want);
    }
  }

  lemma SinceSpawnStep(s: Seen, e: Event, last: Option<Event>, want: Expected)
    requires !e.Spawned?
    ensures var r := Notice(s, e, last, want);
      && r.probesSinceSpawn == Count(s.probesSinceSpawn, IsA(Probing, e, want))
      && r.readySinceSpawn == Count(s.readySinceSpawn, IsA(Answering, e, want))
      && r.exitsSinceSpawn == Count(s.exitsSinceSpawn, IsA(Exiting, e, want))
  {
    hide Matches;
  }

  lemma EndOfJoined(a: seq<Event>, e: Event, b: seq<Event>)
    ensures b == [] ==> a + [e] + b == a + [e] && (a + [e])[..|a|] == a
    ensures b != [] ==>
      && (a + [e] + b)[..|a + [e] + b| - 1] == a + [e] + b[..|b| - 1]
      && (a + [e] + b)[|a + [e] + b| - 1] == b[|b| - 1]
  {
  }

  /** The counts since the latest spawn are those of what followed it, and the last
      child is the one it made. */
  lemma {:induction false} CountsSinceSpawn(a: seq<Event>, child: nat, b: seq<Event>, want: Expected)
    requires forall e | e in b :: !e.Spawned?
    ensures var t := Account(a + [Spawned(child)] + b, want);
      && t.seen.probesSinceSpawn == HowMany(Probing, b, want)
      && t.seen.readySinceSpawn == HowMany(Answering, b, want)
      && t.seen.exitsSinceSpawn == HowMany(Exiting, b, want)
      && t.work.spawned != [] && t.work.spawned[|t.work.spawned| - 1] == child
    decreases |b|
  {
    hide Matches, ShowsMismatch, BumpSent, IsA, Count;
    EndOfJoined(a, Spawned(child), b);
    if b != [] {
      hide Notice;
      var n := |b| - 1;
      assert b[n] in b && forall e | e in b[..n] :: e in b;
      CountsSinceSpawn(a, child, b[..n], want);
      var t := Account(a + [Spawned(child)] + b[..n], want);
      SinceSpawnStep(t.seen, b[n], t.last, want);
    }
  }

  /** The process noted with a configuration is the one the pid file named if that
      was read right before it. */
  lemma {:induction false} NamedRightBefore(a: seq<Event>, read: FileRead, b: seq<Event>, want: Expected)
    requires forall e | e in b :: !e.ConfigRead?
    ensures Account(a + [ConfigRead(read)] + b, want).seen.namedBeforeConfig ==
      if a != [] && a[|a| - 1].PidRead? then Pid(a[|a| - 1].pid) else None
    decreases |b|
  {
    hide Matches, ShowsMismatch, BumpSent, BumpWork, Pid;
    EndOfJoined(a, ConfigRead(read), b);
    if b == [] {
      LastIsLast(a, want);
    } else {
      assert b[|b| - 1] in b && forall e | e in b[..|b| - 1] :: e in b;
      NamedRightBefore(a, read, b[..|b| - 1], want);
    }
  }

  /** The text noted is that of the latest request for the user. */
  lemma {:induction false} LatestRequestIsNoted(a: seq<Event>, text: string, failure: Option<OsError>, b: seq<Event>,
                                                want: Expected)
    requires forall e | e in b :: !IsWrite(e, UserCommand)
    ensures Account(a + [RequestWritten(UserCommand, text, failure)] + b, want).sent.userText == Some(text)
    decreases |b|
  {
    hide Matches, ShowsMismatch, Notice, BumpWork, IsLasting;
    EndOfJoined(a, RequestWritten(UserCommand, text, failure), b);
    if b != [] {
      assert b[|b| - 1] in b && forall e | e in b[..|b| - 1] :: e in b;
      LatestRequestIsNoted(a, text, failure, b[..|b| - 1], want);
    }
  }

  lemma {:induction false} LastIsLast(trace: seq<Event>, want: Expected)
    ensures Account(trace, want).last == if trace == [] then None else Some(trace[|trace| - 1])
  {
  }

  /** A trace without unjustified stops begins every stop right after reading a
      version or a configuration that is not the expected one. */
  lemma {:induction false} StopsAreJustified(trace: seq<Event>, want: Expected)
    requires Account(trace, want).work.unjustifiedStops == 0
    ensures forall i | 0 <= i < |trace| && trace[i] == StopBegan :: i > 0 && ShowsMismatch(trace[i - 1], want)
  {
    hide ShowsMismatch;
    if trace != [] {
      var prefix := trace[..|trace| - 1];
      StopsAreJustified(prefix, want);
      LastIsLast(prefix, want);
      forall i | 0 <= i < |trace| && trace[i] == StopBegan ensures i > 0 && ShowsMismatch(trace[i - 1], want) {
        if i < |prefix| { assert prefix[i] == StopBegan; }
      }
    }
  }

  /** At `j` the way was cleared for a spawn: nobody answered, or files were removed. */
  predicate Clears(trace: seq<Event>, j: nat)
    requires j < |trace|
  {
    && (trace[j] == Probed(false) || trace[j] == FilesRemoved)
    && forall k | j < k < |trace| :: trace[k] != Probed(true) && !trace[k].Spawned?
  }

  lemma StillCleared(trace: seq<Event>, j: nat)
    requires j < |trace| - 1 && Clears(trace[..|trace| - 1], j)
    requires trace[|trace| - 1] != Probed(true) && !trace[|trace| - 1].Spawned?
    ensures Clears(trace, j)
  {
    var prefix := trace[..|trace| - 1];
    assert trace[j] == prefix[j];
    assert forall k | j < k < |prefix| :: trace[k] == prefix[k];
  }

  lemma {:induction false} FreeWasCleared(trace: seq<Event>, want: Expected) returns (j: nat)
    requires Account(trace, want).seen.free
    ensures j < |trace| && Clears(trace, j)
  {
    hide Matches, ShowsMismatch, BumpSent, BumpWork;
    var n := |trace| - 1;
    if trace[n] == Probed(false) || trace[n] == FilesRemoved {
      j := n;
    } else {
      j := FreeWasCleared(trace[..n], want);
      StillCleared(trace, j);
    }
  }

  /** A trace without unjustified spawns has, before every spawn, a probe that
      nobody answered or a removal of files, and since then neither an answered
      probe nor another spawn. */
  lemma {:induction false} SpawnsAreJustified(trace: seq<Event>, want: Expected)
    requires Account(trace, want).work.unjustifiedSpawns == 0
    ensures forall i | 0 <= i < |trace| && trace[i].Spawned? :: exists j | 0 <= j < i :: Clears(trace[..i], j)
  {
    hide Clears, Matches, ShowsMismatch, BumpSent, Notice;
    if trace != [] {
      var n := |trace| - 1;
      var prefix := trace[..n];
      SpawnsAreJustified(prefix, want);
      forall i | 0 <= i < |trace| && trace[i].Spawned? ensures exists j | 0 <= j < i :: Clears(trace[..i], j) {
        if i < n {
          assert prefix[i] == trace[i] && prefix[..i] == trace[..i];
        } else {
          var j := FreeWasCleared(prefix, want);
          assert Clears(trace[..i], j);
        }
      }
    }
  }

  /** The directory was there or could be made, a test file could be written in
      it, and the program was found, in this order. */
  predicate ChecksPassed(trace: seq<Event>, a: nat, b: nat, c: nat) {
    && a < b < c < |trace|
    && (trace[a] == DirectorySeen(true) || trace[a] == DirectoryCreated(true))
    && trace[b] == WriteTested(true) && trace[c] == ExecutableFound(true)
  }

  lemma LastEvent(trace: seq<Event>, want: Expected)
    requires trace != []
    ensures var before := Account(trace[..|trace| - 1], want).seen.cleared; var e := trace[|trace| - 1];
            Account(trace, want).seen.cleared ==
              match e
              case DirectorySeen(present) => if present then 1 else 0
              case DirectoryCreated(created) => if created then 1 else 0
              case WriteTested(writable) => if writable && before == 1 then 2 else 0
              case ExecutableFound(found) => if found && before == 2 then 3 else 0
              case Spawned(_) => 0
              case _ => before
  {
    hide Matches, BumpSent, BumpWork, NamedBy;
  }

  lemma {:induction false} ClearedWasChecked(trace: seq<Event>, want: Expected) returns (a: nat, b: nat, c: nat)
    ensures Account(trace, want).seen.cleared >= 1 ==>
      a < |trace| && (trace[a] == DirectorySeen(true) || trace[a] == DirectoryCreated(true))
    ensures Account(trace, want).seen.cleared >= 2 ==> a < b < |trace| && trace[b] == WriteTested(true)
    ensures Account(trace, want).seen.cleared >= 3 ==> ChecksPassed(trace, a, b, c)
  {
    a, b, c := 0, 0, 0;
    if trace == [] {
      assert Account(trace, want) == NOTHING_YET;
    } else {
      hide Account;
      var n := |trace| - 1;
      LastEvent(trace, want);
      a, b, c := ClearedWasChecked(trace[..n], want);
      match trace[n]
      case DirectorySeen(_) => a := n;
      case DirectoryCreated(_) => a := n;
      case WriteTested(_) => b := n;
      case ExecutableFound(_) => c := n;
      case _ =>
    }
  }

  /** And before every spawn all its checks were passed. */
  lemma {:induction false} ChecksPrecedeSpawns(trace: seq<Event>, want: Expected)
    requires Account(trace, want).work.unjustifiedSpawns == 0
    ensures forall i | 0 <= i < |trace| && trace[i].Spawned? :: exists a, b, c :: ChecksPassed(trace[..i], a, b, c)
  {
    hide ChecksPassed, Matches, BumpSent, Notice;
    if trace != [] {
      var n := |trace| - 1;
      var prefix := trace[..n];
      ChecksPrecedeSpawns(prefix, want);
      forall i | 0 <= i < |trace| && trace[i].Spawned? ensures exists a, b, c :: ChecksPassed(trace[..i], a, b, c) {
        if i < n {
          assert prefix[i] == trace[i] && prefix[..i] == trace[..i];
        } else {
          var a, b, c := ClearedWasChecked(prefix, want);
          assert ChecksPassed(trace[..i], a, b, c);
        }
      }
    }
  }
}
