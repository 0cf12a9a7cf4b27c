/**
 The client's side of the daemon protocol: delivering a command, and finding,
 stopping or starting the daemon that is to run it. What the client concludes is
 tied to what it was told: the contracts speak of the recorded events only.
 */
module DaemonClient {
  import opened Wrappers
  import opened DaemonTrace

  /* ---------- Delivering one command ---------- */

  datatype AttemptError = Connect(error: OsError) | NotSent(reason: string) | OutcomeUnknown(reason: string) {

    /** Only a temporary failure to connect may be tried again. */
    predicate CanRetry() {
      Connect? && (error.kind.WouldBlock? || error.kind.Interrupted? ||
                   error.kind.ConnectionReset? || error.kind.ConnectionAborted?)
    }

    function Message(): string {
      match this
      case Connect(error) => CONNECT_ERROR_PREFIX + error.text
      case NotSent(reason) => NOT_SENT_PREFIX + reason
      case OutcomeUnknown(reason) => UNKNOWN_PREFIX + reason + UNKNOWN_SUFFIX
    }
  }

  const CONNECT_ERROR_PREFIX := "Failed to connect: "
  const NOT_SENT_PREFIX := "Command was not sent: "
  const UNKNOWN_PREFIX := "Command outcome unknown: "
  const UNKNOWN_SUFFIX := ". The command may have executed. Inspect current browser or external state before retrying."
  const EXHAUSTED_SUFFIX := " (after 5 connection attempts; no command was sent)"
  const MAX_CONNECT_ATTEMPTS := 5
  const RETRY_DELAY_MS := 200

  /** The waiting done before this many attempts are over. */
  function Backoff(attempts: nat): nat {
    if attempts <= 1 then 0 else Backoff(attempts - 1) + RETRY_DELAY_MS * (attempts - 1)
  }

  lemma {:induction false} BackoffIsTriangular(attempts: nat)
    ensures 2 * Backoff(attempts) == RETRY_DELAY_MS * attempts * (attempts - 1)
  {
    if attempts > 1 { BackoffIsTriangular(attempts - 1); }
  }

  /** The only errors after which a caller may recover the daemon and resend. */
  predicate DaemonUnreachable(message: string) {
    CONNECT_ERROR_PREFIX <= message
  }

  /** Whatever text the operating system or the daemon supplies, an error
      message invites a resend exactly when it comes from the connect stage. */
  lemma OnlyConnectErrorsInviteResend(e: AttemptError)
    ensures DaemonUnreachable(e.Message()) <==> e.Connect?
  {
    var m := e.Message();
    assert CONNECT_ERROR_PREFIX[0] == 'F';
    match e
    case Connect(error) =>
      assert m[..|CONNECT_ERROR_PREFIX|] == CONNECT_ERROR_PREFIX;
    case NotSent(reason) =>
      assert m[0] == NOT_SENT_PREFIX[0] == 'C';
    case OutcomeUnknown(reason) =>
      assert m[0] == UNKNOWN_PREFIX[0] == 'C';
  }

  lemma MessageShowsUnknownOutcome(e: AttemptError)
    ensures UNKNOWN_PREFIX <= e.Message() <==> e.OutcomeUnknown?
  {
    var m := e.Message();
    match e
    case Connect(error) => assert m[0] == CONNECT_ERROR_PREFIX[0] == 'F' && UNKNOWN_PREFIX[0] == 'C';
    case NotSent(reason) =>
      assert m[8] == NOT_SENT_PREFIX[8] == 'w' && UNKNOWN_PREFIX[8] == 'o';
    case OutcomeUnknown(reason) => assert m[..|UNKNOWN_PREFIX|] == UNKNOWN_PREFIX;
  }

  lemma ExhaustionIsUnreachable(lastError: string)
    requires DaemonUnreachable(lastError)
    ensures DaemonUnreachable(lastError + EXHAUSTED_SUFFIX) && !(UNKNOWN_PREFIX <= lastError + EXHAUSTED_SUFFIX)
  {
    var message := lastError + EXHAUSTED_SUFFIX;
    assert message[..|CONNECT_ERROR_PREFIX|] == CONNECT_ERROR_PREFIX;
    assert message[0] == CONNECT_ERROR_PREFIX[0] == 'F' && UNKNOWN_PREFIX[0] == 'C';
  }

  lemma UnknownIsNotUnreachable(message: string)
    ensures !(UNKNOWN_PREFIX <= message && DaemonUnreachable(message))
  {
    assert UNKNOWN_PREFIX[0] == 'C' && CONNECT_ERROR_PREFIX[0] == 'F';
  }

  datatype CommandFailure = CommandFailure(outcomeUnknown: bool, message: string)

  function WritesOf(t: Tally, purpose: Purpose): nat {
    if purpose.UserCommand? then t.sent.userWrites else t.sent.shutdownWrites
  }

  /** Between the two totals the client wrote `writes` requests of this purpose
      and did nothing else to the session, nor looked at it. */
  predicate Delivered(before: Tally, after: Tally, purpose: Purpose, writes: nat) {
    && WritesOf(after, purpose) == WritesOf(before, purpose) + writes
    && (purpose.UserCommand? ==> after.sent.shutdownWrites == before.sent.shutdownWrites && after.work == before.work)
    && (purpose.Shutdown? ==>
          && after.sent.userWrites == before.sent.userWrites && after.sent.userText == before.sent.userText
          && after.work == before.work.(effects := after.work.effects))
    && after.seen == before.seen
  }

  /** The latest event is a response line from which `x` is decoded. */
  predicate IsAnswer(t: Tally, decode: string -> Result<Response, string>, x: Response) {
    && t.last.Some? && t.last.value.ResponseRead? && t.last.value.response.Line?
    && t.last.value.response.text != "" && decode(t.last.value.response.text) == Ok(x)
  }

  /** Write the request and read one line. From the first write attempt on, no
      failure can prove that the command did not run. */
  method Exchange(env: Environment, purpose: Purpose, request: string) returns (r: Result<Response, AttemptError>)
    modifies env
    ensures env.now >= old(env.now) && old(env.trace) <= env.trace
    ensures Delivered(old(env.Totals()), env.Totals(), purpose, 1)
    ensures purpose.UserCommand? ==> env.Totals().sent.userText == Some(request)
    ensures env.Totals().sent.connects == old(env.Totals()).sent.connects
    ensures env.Totals().sent.lastingFailures == old(env.Totals()).sent.lastingFailures
    ensures r.Err? ==> r.error.OutcomeUnknown?
    ensures match env.Totals().last
            case Some(RequestWritten(p, text, Some(error))) =>
              p == purpose && text == request && r == Err(OutcomeUnknown("failed to send request: " + error.text))
            case Some(ResponseRead(ReadFailed(error))) =>
              r == Err(OutcomeUnknown("failed to read response: " + error.text))
            case Some(ResponseRead(Line(line))) =>
              if line == "" then r == Err(OutcomeUnknown("daemon closed the connection without a response"))
              else (match env.decode(line)
                    case Ok(x) => r == Ok(x)
                    case Err(reason) => r == Err(OutcomeUnknown("invalid response: " + reason)))
            case _ => false
  {
    hide Account;
    var failure := env.WriteAll(purpose, request);
    if failure.Some? {
      return Err(OutcomeUnknown("failed to send request: " + failure.value.text));
    }
    var response := env.ReadLine();
    if response.ReadFailed? {
      return Err(OutcomeUnknown("failed to read response: " + response.error.text));
    }
    if response.text == "" {
      return Err(OutcomeUnknown("daemon closed the connection without a response"));
    }
    var decoded := env.decode(response.text);
    r := if decoded.Ok? then Ok(decoded.value) else Err(OutcomeUnknown("invalid response: " + decoded.error));
  }

  /** Connect and set the timeouts; nothing is written yet. */
  method OpenConnection(env: Environment, purpose: Purpose) returns (error: Option<AttemptError>)
    modifies env
    ensures env.now >= old(env.now) && old(env.trace) < env.trace
    ensures Delivered(old(env.Totals()), env.Totals(), purpose, 0)
    ensures env.Totals().sent.userText == old(env.Totals()).sent.userText
    ensures env.Totals().sent.connects == old(env.Totals()).sent.connects + 1
    ensures (env.Totals().sent.lastingFailures
             == old(env.Totals()).sent.lastingFailures + if error.Some? && !error.value.CanRetry() then 1 else 0)
    ensures match env.Totals().last
            case Some(ConnectAnswered(Some(e))) => error == Some(Connect(e))
            case Some(TimeoutSet(true, Some(e))) => error == Some(NotSent("failed to set read timeout: " + e.text))
            case Some(TimeoutSet(false, Some(e))) => error == Some(NotSent("failed to set write timeout: " + e.text))
            case Some(TimeoutSet(false, None)) => error == None
            case _ => false
  {
    hide Account;
    var refusal := env.Connect();
    if refusal.Some? {
      return Some(Connect(refusal.value));
    }
    refusal := env.SetTimeout(true);
    if refusal.Some? {
      return Some(NotSent("failed to set read timeout: " + refusal.value.text));
    }
    refusal := env.SetTimeout(false);
    if refusal.Some? {
      return Some(NotSent("failed to set write timeout: " + refusal.value.text));
    }
    error := None;
  }

  /** What one attempt makes of the latest event. */
  predicate Reports(env: Environment, last: Option<Event>, request: string, r: Result<Response, AttemptError>) {
    match last
    case Some(ConnectAnswered(Some(error))) => r == Err(Connect(error))
    case Some(TimeoutSet(true, Some(error))) => r == Err(NotSent("failed to set read timeout: " + error.text))
    case Some(TimeoutSet(false, Some(error))) => r == Err(NotSent("failed to set write timeout: " + error.text))
    case Some(RequestWritten(_, text, Some(error))) =>
      text == request && r == Err(OutcomeUnknown("failed to send request: " + error.text))
    case Some(ResponseRead(ReadFailed(error))) => r == Err(OutcomeUnknown("failed to read response: " + error.text))
    case Some(ResponseRead(Line(line))) =>
      if line == "" then r == Err(OutcomeUnknown("daemon closed the connection without a response"))
      else (match env.decode(line)
            case Ok(x) => r == Ok(x)
            case Err(reason) => r == Err(OutcomeUnknown("invalid response: " + reason)))
    case _ => false
  }

  /** One attempt: connect, set the timeouts, write, read. */
  method SendCommandOnce(env: Environment, purpose: Purpose, request: string)
    returns (r: Result<Response, AttemptError>)
    modifies env
    ensures env.now >= old(env.now) && old(env.trace) < env.trace
    ensures Delivered(old(env.Totals()), env.Totals(), purpose, if r.Ok? || r.error.OutcomeUnknown? then 1 else 0)
    ensures (env.Totals().sent.userText
             == if purpose.UserCommand? && (r.Ok? || r.error.OutcomeUnknown?) then Some(request)
                else old(env.Totals()).sent.userText)
    ensures env.Totals().sent.connects == old(env.Totals()).sent.connects + 1
    ensures (env.Totals().sent.lastingFailures
             == old(env.Totals()).sent.lastingFailures +
                if r.Err? && !r.error.OutcomeUnknown? && !r.error.CanRetry() then 1 else 0)
    ensures Reports(env, env.Totals().last, request, r)
    ensures r.Ok? <==> exists x :: IsAnswer(env.Totals(), env.decode, x)
    ensures r.Ok? ==> IsAnswer(env.Totals(), env.decode, r.value)
  {
    hide Account;
    var error := OpenConnection(env, purpose);
    if error.Some? {
      return Err(error.value);
    }
    r := Exchange(env, purpose, request);
    if r.Ok? { assert IsAnswer(env.Totals(), env.decode, r.value); }
  }

  /** What is reported in the end for the result of the last attempt. */
  function Conclude(once: Result<Response, AttemptError>): Result<Response, CommandFailure> {
    match once
    case Ok(x) => Ok(x)
    case Err(e) =>
      Err(CommandFailure(e.OutcomeUnknown?, if e.CanRetry() then e.Message() + EXHAUSTED_SUFFIX else e.Message()))
  }

  lemma ConclusionShowsOutcome(once: Result<Response, AttemptError>)
    ensures once.Err? ==>
      && (UNKNOWN_PREFIX <= Conclude(once).error.message <==> once.error.OutcomeUnknown?)
      && (DaemonUnreachable(Conclude(once).error.message) <==> once.error.Connect?)
  {
    hide DaemonUnreachable, AttemptError.Message;
    if once.Err? {
      OnlyConnectErrorsInviteResend(once.error);
      MessageShowsUnknownOutcome(once.error);
      if once.error.CanRetry() { ExhaustionIsUnreachable(once.error.Message()); }
    }
  }

  /** The latest event is a failure to connect. */
  predicate LastConnectFailed(t: Tally) {
    t.last.Some? && t.last.value.ConnectAnswered? && t.last.value.error.Some?
  }

  /** Deliver a request, retrying temporary connect failures only. However often
      it retries, it starts writing at most once; it reports an unknown outcome
      exactly when it failed after that; its message invites a resend exactly
      when the connect stage is what failed; and it succeeds exactly with what
      the daemon answered. It gives up on the first lasting failure, and on
      temporary ones only after five attempts. `once` is the last attempt. */
  method SendCommandDetailed(env: Environment, purpose: Purpose, encoding: Result<string, string>)
    returns (r: Result<Response, CommandFailure>, ghost once: Result<Response, AttemptError>)
    modifies env
    ensures env.now >= old(env.now) && old(env.trace) <= env.trace
    ensures encoding.Ok? ==> old(env.trace) < env.trace
    ensures encoding.Err? ==>
      && env.trace == old(env.trace)
      && r == Err(CommandFailure(false, NOT_SENT_PREFIX + ("failed to encode request: " + encoding.error)))
      && !DaemonUnreachable(r.error.message)
    ensures r.Err? ==> (r.error.outcomeUnknown <==> UNKNOWN_PREFIX <= r.error.message)
    ensures Delivered(old(env.Totals()), env.Totals(), purpose, if r.Ok? || r.error.outcomeUnknown then 1 else 0)
    ensures encoding.Ok? ==>
      && r == Conclude(once) && Reports(env, env.Totals().last, encoding.value + "\n", once)
      && (r.Err? ==> (DaemonUnreachable(r.error.message) <==> once.error.Connect?))
      && (r.Ok? <==> exists x :: IsAnswer(env.Totals(), env.decode, x))
      && (r.Ok? ==> IsAnswer(env.Totals(), env.decode, r.value))
    ensures purpose.UserCommand? && WritesOf(env.Totals(), purpose) > WritesOf(old(env.Totals()), purpose) ==>
      encoding.Ok? && env.Totals().sent.userText == Some(encoding.value + "\n")
    ensures env.Totals().sent.connects <= old(env.Totals()).sent.connects + MAX_CONNECT_ATTEMPTS
    ensures encoding.Ok? ==> env.Totals().sent.connects > old(env.Totals()).sent.connects
    ensures encoding.Ok? && once.Err? && once.error.CanRetry() ==>
      && env.Totals().sent.connects == old(env.Totals()).sent.connects + MAX_CONNECT_ATTEMPTS
      && env.now >= old(env.now) + 2000
    ensures encoding.Ok? ==> (env.Totals().sent.lastingFailures
                              == old(env.Totals()).sent.lastingFailures +
                                 if once.Err? && !once.error.OutcomeUnknown? && !once.error.CanRetry() then 1 else 0)
  {
    hide Account, DaemonUnreachable, AttemptError.Message, AttemptError.CanRetry, IsAnswer, Reports;
    once := Err(NotSent(""));
    if encoding.Err? {
      EncodingFailureIsNotSent(encoding.error);
      return Err(CommandFailure(false, NOT_SENT_PREFIX + ("failed to encode request: " + encoding.error))), once;
    }
    var request := encoding.value + "\n";
    var lastError := "";
    for attempt := 0 to MAX_CONNECT_ATTEMPTS
      invariant env.now >= old(env.now) + Backoff(attempt) && old(env.trace) <= env.trace
      invariant attempt > 0 ==> old(env.trace) < env.trace
      invariant Delivered(old(env.Totals()), env.Totals(), purpose, 0)
      invariant env.Totals().sent.connects == old(env.Totals()).sent.connects + attempt
      invariant env.Totals().sent.lastingFailures == old(env.Totals()).sent.lastingFailures
      invariant attempt > 0 ==>
        && once.Err? && once.error.CanRetry() && !once.error.OutcomeUnknown? && lastError == once.error.Message()
        && Reports(env, env.Totals().last, request, once) && !(exists x :: IsAnswer(env.Totals(), env.decode, x))
    {
      if attempt > 0 {
        env.Sleep(RETRY_DELAY_MS * attempt);
      }
      var result := SendCommandOnce(env, purpose, request);
      once := result;
      ConclusionShowsOutcome(result);
      if result.Ok? {
        return Ok(result.value), once;
      }
      if !result.error.CanRetry() {
        return Err(CommandFailure(result.error.OutcomeUnknown?, result.error.Message())), once;
      }
      RetriedIsConnect(result.error);
      lastError := result.error.Message();
    }
    r := Err(CommandFailure(false, lastError + EXHAUSTED_SUFFIX));
    ConclusionShowsOutcome(once);
    BackoffIsTriangular(MAX_CONNECT_ATTEMPTS);
  }

  lemma RetriedIsConnect(e: AttemptError)
    ensures e.CanRetry() ==> e.Connect?
  {
  }

  lemma EncodingFailureIsNotSent(reason: string)
    ensures var message := NOT_SENT_PREFIX + ("failed to encode request: " + reason);
            !DaemonUnreachable(message) && !(UNKNOWN_PREFIX <= message)
  {
    hide DaemonUnreachable;
    var e := NotSent("failed to encode request: " + reason);
    OnlyConnectErrorsInviteResend(e);
    MessageShowsUnknownOutcome(e);
  }

  /* ---------- Looking at the running daemon ---------- */

  datatype DaemonResult = DaemonResult(alreadyRunning: bool, restarted: bool)

  datatype EnsureError =
    | Unavailable | VersionDiffers | ConfigDiffers
    | NoDirectory | NameTooLong | NotWritable | NoExecutable | NotSpawned
    | ConcurrentConfig | ExitedEarly | NeverReady

  datatype ConfigStatus = Matching | Missing | Different

  /** The latest thing seen is a published configuration equal to the caller's. */
  predicate SawOwnConfig(t: Tally, want: Expected) {
    t.last.Some? && t.last.value.ConfigRead? && Matches(t.last.value.config, want.fingerprint)
  }

  /** The latest thing seen is a configuration that is not the caller's. */
  predicate SawOtherConfig(t: Tally, want: Expected) {
    t.last.Some? && t.last.value.ConfigRead? && !Matches(t.last.value.config, want.fingerprint)
  }

  /** The latest thing seen is a version that is not the client's. */
  predicate SawOtherVersion(t: Tally, want: Expected) {
    t.last.Some? && t.last.value.VersionRead? && !Matches(t.last.value.version, want.version)
  }

  /** In between only configurations were read, `matched` of them equal to the caller's. */
  predicate OnlyReadConfig(before: Tally, after: Tally, matched: nat) {
    && after.sent == before.sent && after.work == before.work
    && after.seen == before.seen.(configsMatched := before.seen.configsMatched + matched,
                                  namedBeforeConfig := after.seen.namedBeforeConfig)
  }

  method DaemonConfigStatus(env: Environment) returns (status: ConfigStatus)
    modifies env
    ensures env.now >= old(env.now)
    ensures OnlyReadConfig(old(env.Totals()), env.Totals(), if status == Matching then 1 else 0)
    ensures env.Totals().seen.namedBeforeConfig == NamedBy(old(env.Totals()).last)
    ensures |env.trace| == |old(env.trace)| + 1 && old(env.trace) <= env.trace
    ensures env.Totals().last == Some(env.trace[|old(env.trace)|])
    ensures if status == Matching then SawOwnConfig(env.Totals(), env.want) else SawOtherConfig(env.Totals(), env.want)
    ensures status == Missing <==> env.trace[|old(env.trace)|] == ConfigRead(NotFound)
  {
    hide Account, Matches;
    var read := env.ReadConfig();
    MissingNeverMatches(env.want.fingerprint);
    status := if Matches(read, env.want.fingerprint) then Matching
              else if read.NotFound? then Missing else Different;
  }

  lemma MissingNeverMatches(expected: string)
    ensures !Matches(NotFound, expected)
  {
  }

  method DaemonVersionMatches(env: Environment) returns (matches: bool)
    modifies env
    ensures env.now >= old(env.now)
    ensures env.Totals().sent == old(env.Totals()).sent && env.Totals().work == old(env.Totals()).work
    ensures (env.Totals().seen
             == old(env.Totals()).seen.(versionsMatched := Count(old(env.Totals()).seen.versionsMatched, matches)))
    ensures env.Totals().last.Some? && env.Totals().last.value.VersionRead?
    ensures matches <==> Matches(env.Totals().last.value.version, env.want.version)
  {
    hide Account, Matches;
    var read := env.ReadVersion();
    matches := Matches(read, env.want.version);
  }

  /** Read the configuration and, unless it matches, pause. */
  method PollConfig(env: Environment) returns (matches: bool)
    modifies env
    ensures env.now >= old(env.now) && old(env.trace) <= env.trace
    ensures OnlyReadConfig(old(env.Totals()), env.Totals(), if matches then 1 else 0)
    ensures env.Totals().seen.namedBeforeConfig == NamedBy(old(env.Totals()).last)
    ensures NamedBy(env.Totals().last) == None
    ensures if matches then SawOwnConfig(env.Totals(), env.want) else env.now >= old(env.now) + 50
  {
    hide Account, Matches;
    var status := DaemonConfigStatus(env);
    matches := status == Matching;
    if !matches {
      env.Sleep(50);
    }
  }

  /** Poll the configuration until it matches, giving up only after the time-out. */
  method WaitForMatchingDaemon(env: Environment, timeout: nat) returns (matches: bool)
    modifies env
    ensures env.now >= old(env.now) && old(env.trace) <= env.trace
    ensures OnlyReadConfig(old(env.Totals()), env.Totals(), if matches then 1 else 0)
    ensures NamedBy(old(env.Totals()).last) == None ==> env.Totals().seen.namedBeforeConfig == None
    ensures if matches then SawOwnConfig(env.Totals(), env.want) else SawOtherConfig(env.Totals(), env.want)
    ensures !matches ==> env.now >= old(env.now) + timeout
  {
    hide Account, Matches, NamedBy, SawOwnConfig, SawOtherConfig;
    ghost var before := env.Totals();
    var start := env.Clock();
    var t := start;
    while t < start + timeout
      invariant t <= env.now && old(env.now) <= start && old(env.trace) <= env.trace
      invariant OnlyReadConfig(before, env.Totals(), 0)
      invariant NamedBy(before.last) == None ==> NamedBy(env.Totals().last) == None
      decreases start + timeout - t
    {
      matches := PollConfig(env);
      if matches {
        return;
      }
      t := env.Clock();
    }
    var status := DaemonConfigStatus(env);
    matches := status == Matching;
  }

  /** Use the running daemon if it publishes the caller's configuration, at once or,
      if it publishes none yet, within a second. */
  method ReadyExistingDaemon(env: Environment) returns (r: Option<DaemonResult>)
    modifies env
    ensures env.now >= old(env.now)
    ensures OnlyReadConfig(old(env.Totals()), env.Totals(), if r.Some? then 1 else 0)
    ensures r.Some? ==> r == Some(DaemonResult(true, false)) && SawOwnConfig(env.Totals(), env.want)
    ensures r.None? ==> SawOtherConfig(env.Totals(), env.want)
    ensures |env.trace| > |old(env.trace)|
    ensures r.None? ==>
      if env.trace[|old(env.trace)|] == ConfigRead(NotFound) then env.now >= old(env.now) + 1000
      else |env.trace| == |old(env.trace)| + 1
  {
    var status := DaemonConfigStatus(env);
    match status
    case Matching => r := Some(DaemonResult(true, false));
    case Missing =>
      var matches := WaitForMatchingDaemon(env, 1000);
      r := if matches then Some(DaemonResult(true, false)) else None;
    case Different => r := None;
  }

  /** A daemon answers while the child starts: it is new exactly if the pid file
      names the child and the configuration read next is the caller's. */
  method ReadySpawnedDaemon(env: Environment, child: nat, restarted: bool) returns (r: Option<DaemonResult>)
    modifies env
    ensures env.now >= old(env.now)
    ensures OnlyReadConfig(old(env.Totals()), env.Totals(), if r.Some? then 1 else 0)
    ensures if r.Some? then SawOwnConfig(env.Totals(), env.want) else SawOtherConfig(env.Totals(), env.want)
    ensures r.Some? ==> r.value.restarted == restarted
    ensures r.Some? ==> (!r.value.alreadyRunning <==> env.Totals().seen.namedBeforeConfig == Some(child))
  {
    hide Account, Matches, Pid;
    var read := env.ReadPid();
    if Pid(read) == Some(child) {
      var status := DaemonConfigStatus(env);
      if status == Matching {
        return Some(DaemonResult(false, restarted));
      }
    }
    var status := DaemonConfigStatus(env);
    r := if status == Matching then Some(DaemonResult(true, restarted)) else None;
  }

  /** What the client saw last before it gave up with this error. */
  predicate Explains(t: Tally, e: EnsureError, want: Expected) {
    match e
    case Unavailable => t.last == Some(Probed(false))
    case VersionDiffers => SawOtherVersion(t, want)
    case ConfigDiffers => SawOtherConfig(t, want)
    case ConcurrentConfig => SawOtherConfig(t, want) && t.seen.readySinceSpawn == 1
    case ExitedEarly =>
      t.last == Some(Probed(false)) && t.seen.readySinceSpawn == 0 && t.seen.exitsSinceSpawn == 1
    case NeverReady =>
      && t.last == Some(Waited(100)) && t.seen.probesSinceSpawn == 50
      && t.seen.readySinceSpawn == 0 && t.seen.exitsSinceSpawn == 0
    case NoDirectory => t.last == Some(DirectoryCreated(false))
    case NameTooLong => t.last in {Some(DirectorySeen(true)), Some(DirectoryCreated(true))}
    case NotWritable => t.last == Some(WriteTested(false))
    case NoExecutable => t.last == Some(ExecutableFound(false))
    case NotSpawned => t.last == Some(SpawnFailed)
  }

  /** The least time that passes before the client gives up with this error. */
  function Patience(e: EnsureError): nat {
    match e
    case NeverReady => 5000
    case ConcurrentConfig => 1000
    case ExitedEarly => 200
    case _ => 0
  }

  predicate RefusesExisting(e: EnsureError) { e.Unavailable? || e.VersionDiffers? || e.ConfigDiffers? }

  predicate FailsAfterSpawn(e: EnsureError) { e.ConcurrentConfig? || e.ExitedEarly? || e.NeverReady? }

  /** Use a compatible daemon or report why there is none, changing nothing. */
  method RequireExistingDaemon(env: Environment) returns (r: Result<DaemonResult, EnsureError>)
    modifies env
    ensures env.now >= old(env.now)
    ensures env.Totals().sent == old(env.Totals()).sent && env.Totals().work == old(env.Totals()).work
    ensures env.Totals().seen.probes == old(env.Totals()).seen.probes + 1
    ensures env.Totals().seen.supervisedSeen == old(env.Totals()).seen.supervisedSeen
    ensures env.Totals().seen.supervisedReads == old(env.Totals()).seen.supervisedReads
    ensures old(env.Totals()).seen.readySeen <= env.Totals().seen.readySeen
    ensures (env.Totals().seen.configsMatched
             == old(env.Totals()).seen.configsMatched + if r.Ok? then 1 else 0)
    ensures r.Ok? ==>
      && r == Ok(DaemonResult(true, false)) && SawOwnConfig(env.Totals(), env.want)
      && env.Totals().seen.readySeen == old(env.Totals()).seen.readySeen + 1
      && env.Totals().seen.versionsMatched == old(env.Totals()).seen.versionsMatched + 1
    ensures r.Err? ==> RefusesExisting(r.error) && Explains(env.Totals(), r.error, env.want)
  {
    hide Account, Matches, NamedBy;
    var ready := env.DaemonReady();
    if !ready { return Err(Unavailable); }
    var version := DaemonVersionMatches(env);
    if !version { return Err(VersionDiffers); }
    var status := DaemonConfigStatus(env);
    r := if status == Matching then Ok(DaemonResult(true, false)) else Err(ConfigDiffers);
  }

  /* ---------- Stopping a daemon that does not fit ---------- */

  /** The daemon was probed, and nothing else; `free` says what the latest probe said. */
  predicate OnlyProbed(before: Tally, after: Tally) {
    && after.sent == before.sent && after.work == before.work
    && before.seen.probes < after.seen.probes && before.seen.readySeen <= after.seen.readySeen
    && after.seen == before.seen.(probes := after.seen.probes, readySeen := after.seen.readySeen,
                                  free := after.seen.free, probesSinceSpawn := after.seen.probesSinceSpawn,
                                  readySinceSpawn := after.seen.readySinceSpawn)
  }

  /** How many probes nobody answered. */
  function Unanswered(t: Tally): int { t.seen.probes - t.seen.readySeen }

  method WaitForDaemonExit(env: Environment, timeout: nat) returns (gone: bool)
    modifies env
    ensures env.now >= old(env.now) && old(env.trace) <= env.trace
    ensures OnlyProbed(old(env.Totals()), env.Totals()) && env.Totals().seen.free == gone
    ensures env.Totals().last == Some(Probed(!gone))
    ensures Unanswered(env.Totals()) == Unanswered(old(env.Totals())) + if gone then 1 else 0
    ensures !gone ==> env.now >= old(env.now) + timeout
  {
    hide Account, Matches, NamedBy;
    ghost var before := env.Totals();
    var start := env.Clock();
    var t := start;
    while t < start + timeout
      invariant t <= env.now && old(env.now) <= start && old(env.trace) <= env.trace
      invariant env.Totals() == before || OnlyProbed(before, env.Totals())
      invariant Unanswered(env.Totals()) == Unanswered(before)
      decreases start + timeout - t
    {
      var ready := env.DaemonReady();
      if !ready {
        return true;
      }
      env.Sleep(100);
      t := env.Clock();
    }
    var ready := env.DaemonReady();
    gone := !ready;
  }

  /** No user request was written, nothing was spawned and no further stop begun;
      at most one shutdown request was written, and the daemon perhaps probed. */
  predicate OnlyStopping(before: Tally, after: Tally) {
    && after.sent.userWrites == before.sent.userWrites && after.sent.userText == before.sent.userText
    && before.sent.shutdownWrites <= after.sent.shutdownWrites <= before.sent.shutdownWrites + 1
    && after.work == before.work.(effects := after.work.effects)
    && before.seen.probes <= after.seen.probes && before.seen.readySeen <= after.seen.readySeen
    && after.seen == before.seen.(probes := after.seen.probes, readySeen := after.seen.readySeen,
                                  free := after.seen.free, probesSinceSpawn := after.seen.probesSinceSpawn,
                                  readySinceSpawn := after.seen.readySinceSpawn)
  }

  /** The event is an answer that reports success. */
  predicate ReportsSuccess(e: Event, decode: string -> Result<Response, string>) {
    && e.ResponseRead? && e.response.Line? && e.response.text != ""
    && decode(e.response.text).Ok? && decode(e.response.text).value.success
  }

  const SHUTDOWN_REQUEST := "{\"id\":\"restart-close\",\"action\":\"__agent_browser_internal_shutdown\"}"

  /** Ask the daemon to shut down, and wait for that exactly if it agrees. */
  method RequestGracefulShutdown(env: Environment) returns (gone: bool)
    modifies env
    ensures env.now >= old(env.now) && OnlyStopping(old(env.Totals()), env.Totals())
    ensures gone ==> env.Totals().last == Some(Probed(false)) && env.Totals().seen.free
    ensures Unanswered(env.Totals()) == Unanswered(old(env.Totals())) + if gone then 1 else 0
    ensures if env.Totals().seen.probes > old(env.Totals()).seen.probes
            then exists k | |old(env.trace)| <= k < |env.trace| :: ReportsSuccess(env.trace[k], env.decode)
            else !gone && !(env.Totals().last.Some? && ReportsSuccess(env.Totals().last.value, env.decode))
    ensures env.Totals().seen.probes > old(env.Totals()).seen.probes && !gone ==> env.now >= old(env.now) + 5000
  {
    hide Account, Conclude, Reports, Matches, NamedBy, ReportsSuccess, IsAnswer, DaemonUnreachable;
    var sent, once := SendCommandDetailed(env, Shutdown, Ok(SHUTDOWN_REQUEST));
    LastIsLast(env.trace, env.want);
    SuccessIsAnswer(env.Totals(), env.decode);
    if sent.Ok? {
      AnswerDecides(env.Totals(), env.decode, sent.value);
    }
    if sent.Ok? && sent.value.success {
      ghost var k := |env.trace| - 1;
      ghost var answer := env.trace[k];
      assert ReportsSuccess(answer, env.decode);
      gone := WaitForDaemonExit(env, 5000);
      assert env.trace[k] == answer;
    } else {
      gone := false;
    }
  }

  lemma AnswerDecides(t: Tally, decode: string -> Result<Response, string>, x: Response)
    requires IsAnswer(t, decode, x)
    ensures t.last.Some? && (ReportsSuccess(t.last.value, decode) <==> x.success)
  {
  }

  lemma SuccessIsAnswer(t: Tally, decode: string -> Result<Response, string>)
    ensures t.last.Some? && ReportsSuccess(t.last.value, decode) ==> exists x :: IsAnswer(t, decode, x) && x.success
  {
    if t.last.Some? && ReportsSuccess(t.last.value, decode) {
      assert IsAnswer(t, decode, decode(t.last.value.response.text).value);
    }
  }

  /** The way a process is ended: asked once, and forced exactly if it is still there. */
  predicate Ended(trace: seq<Event>, start: nat, process: nat) {
    && start < |trace| && trace[start] == Signalled(process, false)
    && var n := |trace|;
       || (n >= start + 2 && trace[n - 1] == AliveChecked(process, false))
       || (n >= start + 4 && trace[n - 1] == Waited(100) && trace[n - 2] == Signalled(process, true)
           && trace[n - 3] == AliveChecked(process, true))
  }

  /** Terminate the process the pid file names, with a second to comply. */
  method SignalDaemon(env: Environment, process: nat)
    modifies env
    ensures env.now >= old(env.now) && old(env.trace) <= env.trace
    ensures env.Totals().sent == old(env.Totals()).sent && env.Totals().seen == old(env.Totals()).seen
    ensures env.Totals().work == old(env.Totals()).work.(effects := env.Totals().work.effects)
    ensures Ended(env.trace, |old(env.trace)|, process)
  {
    hide Account;
    ghost var before := env.Totals();
    env.Signal(process, false);
    ghost var first := env.trace;
    for i := 0 to 10
      invariant env.now >= old(env.now) && first <= env.trace
      invariant env.Totals().sent == before.sent && env.Totals().seen == before.seen
      invariant env.Totals().work == before.work.(effects := env.Totals().work.effects)
    {
      env.Sleep(100);
      var there := env.IsAlive(process);
      if !there { break; }
    }
    var alive := env.IsAlive(process);
    if alive {
      env.Signal(process, true);
      env.Sleep(100);
    }
  }

  /** The pid file named `read` says whom to end: the trace from `start` on. */
  predicate Killed(trace: seq<Event>, start: nat) {
    && start + 3 <= |trace| && trace[start] == SocketRemoved && trace[start + 1].PidRead?
    && trace[|trace| - 1] == FilesRemoved
    && match Pid(trace[start + 1].pid)
       case None => |trace| == start + 3
       case Some(process) => Ended(trace[..|trace| - 1], start + 2, process)
  }

  /** Remove the socket, end the process the pid file names, and remove the files. */
  method KillStaleDaemon(env: Environment)
    modifies env
    ensures env.now >= old(env.now)
    ensures env.Totals().sent == old(env.Totals()).sent
    ensures env.Totals().work == old(env.Totals()).work.(effects := env.Totals().work.effects)
    ensures env.Totals().seen == old(env.Totals()).seen.(free := true)
    ensures old(env.trace) <= env.trace && Killed(env.trace, |old(env.trace)|)
    ensures env.Totals().last == Some(FilesRemoved)
  {
    hide Account, Pid, Ended;
    env.RemoveSocket();
    var read := env.ReadPid();
    var process := Pid(read);
    if process.Some? {
      SignalDaemon(env, process.value);
    }
    ghost var before := env.trace;
    env.RemoveFiles();
    assert env.trace[..|env.trace| - 1] == before;
  }

  /** The caller has just seen that the running daemon does not fit. It is asked to
      shut down, and killed exactly if it does not. */
  method StopExistingDaemon(env: Environment)
    requires SawOtherConfig(env.Totals(), env.want) || SawOtherVersion(env.Totals(), env.want)
    modifies env
    ensures env.now >= old(env.now)
    ensures env.Totals().work.stops == old(env.Totals()).work.stops + 1
    ensures (OnlyStopping(old(env.Totals()).(work := old(env.Totals()).work.(stops := env.Totals().work.stops)),
                          env.Totals()))
    ensures env.Totals().seen.free
    ensures (Unanswered(env.Totals())
             == Unanswered(old(env.Totals())) + if env.Totals().last == Some(FilesRemoved) then 0 else 1)
    ensures env.Totals().last in {Some(Probed(false)), Some(FilesRemoved)}
  {
    hide Account, Matches, Killed, ReportsSuccess;
    env.BeginStop();
    var gone := RequestGracefulShutdown(env);
    if !gone {
      KillStaleDaemon(env);
    }
  }

  /* ---------- Ensuring that a fitting daemon runs ---------- */

  const MAX_SOCKET_PATH := 103

  /** Nothing happened but checks, which may have made a directory or a file. */
  predicate OnlyPrepared(before: Tally, after: Tally) {
    && after.sent == before.sent && after.work == before.work.(effects := after.work.effects)
    && after.seen == before.seen.(cleared := after.seen.cleared)
  }

  /** Checks made before a daemon is spawned; they may create the directory and a test file. */
  method Preflight(env: Environment, socketPathLength: nat) returns (error: Option<EnsureError>)
    modifies env
    ensures env.now >= old(env.now)
    ensures OnlyPrepared(old(env.Totals()), env.Totals())
    ensures match error
            case None => env.Totals().seen.cleared == 3
            case Some(NoDirectory) => env.Totals().last == Some(DirectoryCreated(false))
            case Some(NameTooLong) => env.Totals().last in {Some(DirectorySeen(true)), Some(DirectoryCreated(true))}
            case Some(NotWritable) => env.Totals().last == Some(WriteTested(false))
            case Some(NoExecutable) => env.Totals().last == Some(ExecutableFound(false))
            case _ => false
    ensures error == Some(NameTooLong) ==> socketPathLength > MAX_SOCKET_PATH
    ensures error.None? ==> socketPathLength <= MAX_SOCKET_PATH
  {
    hide Account;
    var present := env.DirectoryExists();
    if !present {
      var created := env.CreateDirectory();
      if !created { return Some(NoDirectory); }
    }
    if socketPathLength > MAX_SOCKET_PATH { return Some(NameTooLong); }
    var writable := env.TestWrite();
    if !writable { return Some(NotWritable); }
    var found := env.FindExecutable();
    error := if found then None else Some(NoExecutable);
  }

  /** While waiting for the child nothing is changed; so many probes were made, so
      many of them answered, so often the child had exited, and so many
      configurations were the caller's. */
  predicate Awaited(before: Tally, after: Tally, probes: nat, ready: nat, exits: nat, matched: nat) {
    && after.sent == before.sent && after.work == before.work
    && after.seen == before.seen.(
         probes := before.seen.probes + probes,
         readySeen := before.seen.readySeen + ready,
         configsMatched := before.seen.configsMatched + matched,
         free := after.seen.free,
         namedBeforeConfig := after.seen.namedBeforeConfig,
         probesSinceSpawn := before.seen.probesSinceSpawn + probes,
         readySinceSpawn := before.seen.readySinceSpawn + ready,
         exitsSinceSpawn := before.seen.exitsSinceSpawn + exits)
  }

  /** A daemon answers: use it if it publishes the caller's configuration. */
  method AdoptReadyDaemon(env: Environment, restarted: bool) returns (r: Result<DaemonResult, EnsureError>)
    modifies env
    ensures env.now >= old(env.now)
    ensures Awaited(old(env.Totals()), env.Totals(), 0, 0, 0, if r.Ok? then 1 else 0)
    ensures NamedBy(old(env.Totals()).last) == None ==> env.Totals().seen.namedBeforeConfig == None
    ensures r.Ok? ==> r == Ok(DaemonResult(true, restarted)) && SawOwnConfig(env.Totals(), env.want)
    ensures r.Err? ==>
      r.error == ConcurrentConfig && SawOtherConfig(env.Totals(), env.want) && env.now >= old(env.now) + 1000
  {
    hide Account, Matches, NamedBy;
    var matches := WaitForMatchingDaemon(env, 1000);
    r := if matches then Ok(DaemonResult(true, restarted)) else Err(ConcurrentConfig);
  }

  /** If the child has exited, it may have lost the session to a concurrent
      start: use that winner, else report the exit. */
  method CheckChild(env: Environment, restarted: bool) returns (answer: Option<Result<DaemonResult, EnsureError>>)
    modifies env
    ensures env.now >= old(env.now)
    ensures match answer
            case None =>
              && Awaited(old(env.Totals()), env.Totals(), 0, 0, 0, 0)
              && env.Totals().last == Some(ChildChecked(false))
            case Some(Err(ExitedEarly)) =>
              && Awaited(old(env.Totals()), env.Totals(), 1, 0, 1, 0)
              && env.Totals().last == Some(Probed(false)) && env.now >= old(env.now) + 200
            case Some(Err(e)) =>
              && Awaited(old(env.Totals()), env.Totals(), 1, 1, 1, 0)
              && e == ConcurrentConfig && SawOtherConfig(env.Totals(), env.want) && env.now >= old(env.now) + 1000
            case Some(Ok(result)) =>
              && Awaited(old(env.Totals()), env.Totals(), 1, 1, 1, 1)
              && result == DaemonResult(true, restarted) && SawOwnConfig(env.Totals(), env.want)
              && env.Totals().seen.namedBeforeConfig == None
  {
    hide Account, Matches, SawOwnConfig, SawOtherConfig;
    var exited := env.TryWait();
    if !exited { return None; }
    env.Sleep(200);
    var ready := env.DaemonReady();
    if !ready { return Some(Err(ExitedEarly)); }
    var r := AdoptReadyDaemon(env, restarted);
    answer := Some(r);
  }

  /** A daemon answers while the child starts: it is the child, or a winner to adopt. */
  method AcceptReadyDaemon(env: Environment, child: nat, restarted: bool)
    returns (r: Result<DaemonResult, EnsureError>)
    modifies env
    ensures env.now >= old(env.now)
    ensures Awaited(old(env.Totals()), env.Totals(), 0, 0, 0, if r.Ok? then 1 else 0)
    ensures r.Ok? ==> r.value.restarted == restarted && SawOwnConfig(env.Totals(), env.want)
    ensures r.Ok? ==> (!r.value.alreadyRunning <==> env.Totals().seen.namedBeforeConfig == Some(child))
    ensures r.Err? ==>
      r.error == ConcurrentConfig && SawOtherConfig(env.Totals(), env.want) && env.now >= old(env.now) + 1000
  {
    hide Account, Matches, SawOwnConfig;
    var result := ReadySpawnedDaemon(env, child, restarted);
    if result.Some? {
      return Ok(result.value);
    }
    r := AdoptReadyDaemon(env, restarted);
  }

  /** Wait for the spawned child, or for a concurrent winner, to become ready. A
      probe that is answered is always acted upon: it ends the wait, with success
      exactly if the caller's configuration is then read. */
  method AwaitSpawnedDaemon(env: Environment, child: nat, restarted: bool)
    returns (r: Result<DaemonResult, EnsureError>, ghost probes: nat, ghost ready: nat, ghost exits: nat)
    modifies env
    ensures env.now >= old(env.now)
    ensures Awaited(old(env.Totals()), env.Totals(), probes, ready, exits, if r.Ok? then 1 else 0)
    ensures r.Ok? ==> r.value.restarted == restarted && SawOwnConfig(env.Totals(), env.want) && ready == 1
    ensures r.Ok? ==> (!r.value.alreadyRunning <==> env.Totals().seen.namedBeforeConfig == Some(child))
    ensures r.Err? ==> env.now >= old(env.now) + Patience(r.error)
    ensures r.Err? ==>
      match r.error
      case NeverReady => probes == 50 && ready == 0 && exits == 0 && env.Totals().last == Some(Waited(100))
      case ExitedEarly => ready == 0 && exits == 1 && env.Totals().last == Some(Probed(false))
      case ConcurrentConfig => ready == 1 && SawOtherConfig(env.Totals(), env.want)
      case _ => false
  {
    hide Account, Matches, SawOwnConfig, SawOtherConfig;
    ghost var before := env.Totals();
    probes, ready, exits := 0, 0, 0;
    for i := 0 to 50
      invariant env.now >= old(env.now) + 100 * i
      invariant Awaited(before, env.Totals(), i, 0, 0, 0)
      invariant i > 0 ==> env.Totals().last == Some(Waited(100))
    {
      var answered := env.DaemonReady();
      if answered {
        r := AcceptReadyDaemon(env, child, restarted);
        probes, ready := i + 1, 1;
        return;
      }
      var answer := CheckChild(env, restarted);
      if answer.Some? {
        probes, exits := i + 2, 1;
        ready := if answer.value == Err(ExitedEarly) then 0 else 1;
        return answer.value, probes, ready, exits;
      }
      env.Sleep(100);
    }
    r, probes := Err(NeverReady), 50;
  }

  /** Spawn a daemon and wait for it, or for the daemon that won the race. */
  method SpawnDaemon(env: Environment, socketPathLength: nat, restarted: bool)
    returns (r: Result<DaemonResult, EnsureError>)
    requires env.Totals().seen.free
    modifies env
    ensures env.now >= old(env.now)
    ensures env.Totals().sent == old(env.Totals()).sent
    ensures var before, after := old(env.Totals()), env.Totals();
      && after.work == before.work.(effects := after.work.effects, spawned := after.work.spawned)
      && (after.work.spawned == before.work.spawned
          || (|after.work.spawned| == |before.work.spawned| + 1 && before.work.spawned < after.work.spawned))
      && before.seen.probes <= after.seen.probes
      && after.seen.supervisedReads == before.seen.supervisedReads
      && after.seen.supervisedSeen == before.seen.supervisedSeen
      && after.seen.versionsMatched == before.seen.versionsMatched
      && after.seen.configsMatched == before.seen.configsMatched + if r.Ok? then 1 else 0
    ensures r.Ok? ==>
      && r.value.restarted == restarted && SawOwnConfig(env.Totals(), env.want)
      && env.Totals().seen.readySeen == old(env.Totals()).seen.readySeen + 1
      && |env.Totals().work.spawned| == |old(env.Totals()).work.spawned| + 1
      && (!r.value.alreadyRunning <==>
            env.Totals().seen.namedBeforeConfig == Some(env.Totals().work.spawned[|old(env.Totals()).work.spawned|]))
    ensures r.Err? ==>
      && !RefusesExisting(r.error) && Explains(env.Totals(), r.error, env.want)
      && env.now >= old(env.now) + Patience(r.error)
      && old(env.Totals()).seen.readySeen <= env.Totals().seen.readySeen
      && (FailsAfterSpawn(r.error) <==> |env.Totals().work.spawned| == |old(env.Totals()).work.spawned| + 1)
    ensures r == Err(NameTooLong) ==> socketPathLength > MAX_SOCKET_PATH
    ensures |env.Totals().work.spawned| > |old(env.Totals()).work.spawned| ==> socketPathLength <= MAX_SOCKET_PATH
  {
    hide Account, Matches, SawOwnConfig, SawOtherConfig, SawOtherVersion, NamedBy;
    var error := Preflight(env, socketPathLength);
    if error.Some? { return Err(error.value); }
    var child := env.Spawn();
    if child.None? { return Err(NotSpawned); }
    ghost var probes, ready, exits;
    r, probes, ready, exits := AwaitSpawnedDaemon(env, child.value, restarted);
  }

  /** The daemon that answers is reused, left to its supervisor, or stopped. */
  method ReuseOrStop(env: Environment) returns (answer: Option<Result<DaemonResult, EnsureError>>)
    modifies env
    ensures env.now >= old(env.now)
    ensures env.Totals().seen.supervisedReads == old(env.Totals()).seen.supervisedReads + 1
    ensures (env.Totals().seen.configsMatched
             == old(env.Totals()).seen.configsMatched + if answer.Some? && answer.value.Ok? then 1 else 0)
    ensures old(env.Totals()).seen.readySeen <= env.Totals().seen.readySeen
    ensures old(env.Totals()).seen.probes <= env.Totals().seen.probes
    ensures (env.Totals().seen.supervisedSeen
             == old(env.Totals()).seen.supervisedSeen) || (env.Totals().seen.supervisedSeen
             == old(env.Totals()).seen.supervisedSeen + 1 && answer.Some?)
    ensures answer.Some? ==> env.Totals().sent == old(env.Totals()).sent && env.Totals().work == old(env.Totals()).work
    ensures answer.Some? && answer.value.Ok? ==>
      && answer.value == Ok(DaemonResult(true, false)) && SawOwnConfig(env.Totals(), env.want)
      && env.Totals().seen.versionsMatched == old(env.Totals()).seen.versionsMatched + 1
    ensures answer.Some? && answer.value.Err? ==>
      && RefusesExisting(answer.value.error) && Explains(env.Totals(), answer.value.error, env.want)
      && env.Totals().seen.supervisedSeen == old(env.Totals()).seen.supervisedSeen + 1
    ensures answer.None? ==>
      && env.Totals().seen.free && env.Totals().seen.supervisedSeen == old(env.Totals()).seen.supervisedSeen
      && env.Totals().sent.userWrites == old(env.Totals()).sent.userWrites
      && env.Totals().sent.userText == old(env.Totals()).sent.userText
      && env.Totals().sent.shutdownWrites <= old(env.Totals()).sent.shutdownWrites + 1
      && (env.Totals().work
          == old(env.Totals()).work.(stops := old(env.Totals()).work.stops + 1, effects := env.Totals().work.effects))
  {
    hide Account, Matches, NamedBy, Explains, SawOwnConfig;
    var supervised := env.DaemonIsSupervised();
    if supervised {
      var r := RequireExistingDaemon(env);
      return Some(r);
    }
    var version := DaemonVersionMatches(env);
    if version {
      var existing := ReadyExistingDaemon(env);
      if existing.Some? {
        return Some(Ok(existing.value));
      }
    }
    StopExistingDaemon(env);
    answer := None;
  }

  /** What one call to EnsureDaemon may do. */
  predicate EnsureContract(before: Tally, after: Tally, want: Expected, requireExisting: bool,
                           r: Result<DaemonResult, EnsureError>)
  {
    // At most one stop and one spawn, and never a user request.
    && before.work.stops <= after.work.stops <= before.work.stops + 1
    && (after.work.spawned == before.work.spawned
        || (|after.work.spawned| == |before.work.spawned| + 1 && before.work.spawned < after.work.spawned))
    && after.sent.userWrites == before.sent.userWrites && after.sent.userText == before.sent.userText
    && after.sent.shutdownWrites <= before.sent.shutdownWrites + (after.work.stops - before.work.stops)
    && after.seen.probes > before.seen.probes
    // A daemon is stopped only after it answered, was found unsupervised, and a
    // read showed that it does not fit.
    && after.work.unjustifiedStops == before.work.unjustifiedStops
    && (after.work.stops > before.work.stops ==>
          && !requireExisting && after.seen.readySeen > before.seen.readySeen
          && after.seen.supervisedReads > before.seen.supervisedReads
          && after.seen.supervisedSeen == before.seen.supervisedSeen)
    // A daemon is spawned only after all checks, when nobody answers or what
    // answered was removed.
    && after.work.unjustifiedSpawns == before.work.unjustifiedSpawns
    // It succeeds exactly when a configuration read is the caller's, which is then
    // the last thing done, on a daemon that answered; without a spawn, only if the
    // version was the caller's as well.
    && after.seen.configsMatched == before.seen.configsMatched + (if r.Ok? then 1 else 0)
    && (r.Ok? ==> SawOwnConfig(after, want) && after.seen.readySeen > before.seen.readySeen)
    && (r.Ok? && after.work.spawned == before.work.spawned ==> after.seen.versionsMatched > before.seen.versionsMatched)
    && (r.Ok? ==> (r.value.restarted <==> after.work.stops == before.work.stops + 1))
    && (r.Ok? && r.value.restarted ==> after.work.spawned != before.work.spawned)
    // A daemon counts as new exactly when the pid file, read right before that
    // configuration, named this call's child.
    && (r.Ok? ==> (!r.value.alreadyRunning <==>
                     && |after.work.spawned| > |before.work.spawned|
                     && after.seen.namedBeforeConfig == Some(after.work.spawned[|before.work.spawned|])))
    // A required or supervised daemon is never touched, nor its files.
    && (requireExisting || after.seen.supervisedSeen > before.seen.supervisedSeen ==>
          after.work == before.work && after.sent == before.sent)
    // Failure says what was seen last, and which part of the work was reached.
    && (r.Err? ==> Explains(after, r.error, want))
    && (r.Err? ==> (RefusesExisting(r.error) <==>
                      requireExisting || after.seen.supervisedSeen > before.seen.supervisedSeen))
    && (r.Err? ==> (FailsAfterSpawn(r.error) <==> after.work.spawned != before.work.spawned))
  }

  method EnsureDaemon(env: Environment, requireExisting: bool, socketPathLength: nat)
    returns (r: Result<DaemonResult, EnsureError>)
    modifies env
    ensures env.now >= old(env.now)
    ensures EnsureContract(old(env.Totals()), env.Totals(), env.want, requireExisting, r)
    ensures r.Err? ==> env.now >= old(env.now) + Patience(r.error)
    ensures r == Err(NameTooLong) ==> socketPathLength > MAX_SOCKET_PATH
    ensures |env.Totals().work.spawned| > |old(env.Totals()).work.spawned| ==> socketPathLength <= MAX_SOCKET_PATH
  {
    hide Account, Matches, NamedBy, Explains, SawOwnConfig;
    if requireExisting {
      r := RequireExistingDaemon(env);
      return;
    }
    var restarted := false;
    var ready := env.DaemonReady();
    if ready {
      var answer := ReuseOrStop(env);
      if answer.Some? {
        return answer.value;
      }
      restarted := true;
    }
    r := SpawnDaemon(env, socketPathLength, restarted);
  }

  /* ---------- A command with recovery ---------- */

  /** What a caller may conclude about the user's request from the result alone. */
  predicate AtMostOnceContract(writes: nat, r: Result<Response, string>) {
    && writes <= 1
    && (r.Ok? ==> writes == 1)
    && (r.Err? ==> (writes == 1 <==> UNKNOWN_PREFIX <= r.error))
    && (r.Err? && DaemonUnreachable(r.error) ==> writes == 0)
  }

  method SendCommand(env: Environment, encoding: Result<string, string>) returns (r: Result<Response, string>)
    modifies env
    ensures env.now >= old(env.now)
    ensures env.Totals().sent.userWrites >= old(env.Totals()).sent.userWrites
    ensures AtMostOnceContract(env.Totals().sent.userWrites - old(env.Totals()).sent.userWrites, r)
    ensures Delivered(old(env.Totals()), env.Totals(), UserCommand,
                      env.Totals().sent.userWrites - old(env.Totals()).sent.userWrites)
    ensures env.Totals().sent.userWrites > old(env.Totals()).sent.userWrites ==>
      encoding.Ok? && env.Totals().sent.userText == Some(encoding.value + "\n")
    ensures r.Ok? ==> IsAnswer(env.Totals(), env.decode, r.value)
    ensures encoding.Err? ==> env.trace == old(env.trace) && r.Err? && !DaemonUnreachable(r.error)
    ensures encoding.Ok? ==>
      && (r.Ok? <==> exists x :: IsAnswer(env.Totals(), env.decode, x))
      && (r.Err? && DaemonUnreachable(r.error) <==> LastConnectFailed(env.Totals()))
      && !SawOwnConfig(env.Totals(), env.want)
  {
    var sent, once := SendCommandDetailed(env, UserCommand, encoding);
    hide Account, DaemonUnreachable, Conclude;
    if sent.Ok? {
      r := Ok(sent.value);
    } else {
      UnknownIsNotUnreachable(sent.error.message);
      r := Err(sent.error.message);
    }
  }

  /** Send the command; if the daemon could not be reached, make sure one runs
      and send once more. Whatever happens in between, including the stopping of
      another daemon, the command is written at most once, and a daemon made sure
      of is always sent to. */
  method SendCommandWithRespawn(env: Environment, encoding: Result<string, string>,
                                requireExisting: bool, socketPathLength: nat)
    returns (r: Result<Response, string>)
    modifies env
    ensures env.Totals().sent.userWrites >= old(env.Totals()).sent.userWrites
    ensures AtMostOnceContract(env.Totals().sent.userWrites - old(env.Totals()).sent.userWrites, r)
    ensures env.Totals().sent.userWrites > old(env.Totals()).sent.userWrites ==>
      encoding.Ok? && env.Totals().sent.userText == Some(encoding.value + "\n")
    ensures r.Ok? ==> IsAnswer(env.Totals(), env.decode, r.value)
    ensures encoding.Ok? ==> (r.Ok? <==> exists x :: IsAnswer(env.Totals(), env.decode, x))
    ensures |old(env.Totals()).work.spawned| <= |env.Totals().work.spawned| <= |old(env.Totals()).work.spawned| + 1
    ensures env.Totals().work.stops <= old(env.Totals()).work.stops + 1
    ensures env.Totals().work.unjustifiedStops == old(env.Totals()).work.unjustifiedStops
    ensures env.Totals().work.unjustifiedSpawns == old(env.Totals()).work.unjustifiedSpawns
    ensures requireExisting ==>
      env.Totals().work == old(env.Totals()).work && env.Totals().seen == old(env.Totals()).seen
    ensures encoding.Ok? && r.Err? && DaemonUnreachable(r.error) && !requireExisting ==>
      env.Totals().seen.probes > old(env.Totals()).seen.probes
    ensures encoding.Ok? ==> !SawOwnConfig(env.Totals(), env.want)
  {
    hide Account, DaemonUnreachable, Matches;
    var first := SendCommand(env, encoding);
    if first.Err? && DaemonUnreachable(first.error) && !requireExisting {
      var ensured := EnsureDaemon(env, requireExisting, socketPathLength);
      if ensured.Ok? {
        r := SendCommand(env, encoding);
        return;
      }
    }
    r := first;
  }

  datatype FailureCode = CommandOutcomeUnknown | BrowserRuntimeUnavailable

  datatype FailedResponse = FailedResponse(message: string, code: FailureCode)

  /** Deliver only to a daemon that is already running, and to any that is. The
      failure code tells the caller exactly whether the command may have run. */
  method SendCommandIfRunning(env: Environment, encoding: Result<string, string>)
    returns (r: Result<Response, FailedResponse>)
    modifies env
    ensures env.Totals().seen.probes == old(env.Totals()).seen.probes + 1
    ensures (Delivered(old(env.Totals()).(seen := env.Totals().seen), env.Totals(), UserCommand,
                       if r.Ok? || r.error.code.CommandOutcomeUnknown? then 1 else 0))
    ensures env.Totals().sent.userWrites > old(env.Totals()).sent.userWrites ==>
      encoding.Ok? && env.Totals().sent.userText == Some(encoding.value + "\n")
    ensures r.Ok? ==> IsAnswer(env.Totals(), env.decode, r.value)
    ensures encoding.Ok? ==> (r.Ok? <==> exists x :: IsAnswer(env.Totals(), env.decode, x))
    ensures r.Err? && r.error.code.CommandOutcomeUnknown? ==> UNKNOWN_PREFIX <= r.error.message
    ensures env.Totals().seen.free ==>
      && env.Totals().last == Some(Probed(false))
      && r == Err(FailedResponse("No browser session '" + env.session + "' is running. Nothing was changed.",
                                 BrowserRuntimeUnavailable))
    ensures !env.Totals().seen.free && encoding.Ok? ==>
      env.Totals().sent.connects > old(env.Totals()).sent.connects
  {
    hide Account, DaemonUnreachable, Conclude, Reports;
    var ready := env.DaemonReady();
    if !ready {
      var message := "No browser session '" + env.session + "' is running. Nothing was changed.";
      return Err(FailedResponse(message, BrowserRuntimeUnavailable));
    }
    var sent, once := SendCommandDetailed(env, UserCommand, encoding);
    r := match sent
         case Ok(x) => Ok(x)
         case Err(e) =>
           var code := if e.outcomeUnknown then CommandOutcomeUnknown else BrowserRuntimeUnavailable;
           Err(FailedResponse(e.message, code));
  }

  /* ---------- Any number of rounds ---------- */

  /** One send and its result, for a caller that resends. */
  datatype Round = Round(writes: nat, result: Result<Response, string>)

  /** Every round keeps the contract of a send, and all but the last ended in an
      error that invites another. */
  predicate ResentOnlyWhenInvited(rounds: seq<Round>) {
    && rounds != []
    && (forall i | 0 <= i < |rounds| :: AtMostOnceContract(rounds[i].writes, rounds[i].result))
    && forall i | 0 <= i < |rounds| - 1 :: rounds[i].result.Err? && DaemonUnreachable(rounds[i].result.error)
  }

  function TotalWrites(rounds: seq<Round>): nat {
    if rounds == [] then 0 else rounds[0].writes + TotalWrites(rounds[1..])
  }

  /** However many times a caller resends, as long as it does so only after
      errors that invite it, the command is written at most once; a success
      means exactly once, and the last error tells whether it was written. */
  lemma {:induction false} ResendingNeverReplays(rounds: seq<Round>)
    requires ResentOnlyWhenInvited(rounds)
    ensures AtMostOnceContract(TotalWrites(rounds), rounds[|rounds| - 1].result)
  {
    if |rounds| == 1 {
      assert TotalWrites(rounds[1..]) == 0;
    } else {
      assert DaemonUnreachable(rounds[0].result.error) && rounds[0].writes == 0;
      ResendingNeverReplays(rounds[1..]);
    }
  }

  lemma {:induction false} TotalWritesExtended(rounds: seq<Round>, last: Round)
    ensures TotalWrites(rounds + [last]) == TotalWrites(rounds) + last.writes
  {
    if rounds == [] {
      assert rounds + [last] == [last];
      assert TotalWrites([last][1..]) == 0;
    } else {
      assert (rounds + [last])[1..] == rounds[1..] + [last];
      TotalWritesExtended(rounds[1..], last);
    }
  }

  lemma OneMoreRound(rounds: seq<Round>, last: Round)
    requires AtMostOnceContract(last.writes, last.result)
    requires rounds == [] || (ResentOnlyWhenInvited(rounds) && rounds[|rounds| - 1].result.Err?
                              && DaemonUnreachable(rounds[|rounds| - 1].result.error))
    ensures ResentOnlyWhenInvited(rounds + [last]) && TotalWrites(rounds + [last]) == TotalWrites(rounds) + last.writes
  {
    TotalWritesExtended(rounds, last);
    hide AtMostOnceContract, DaemonUnreachable, TotalWrites;
    var all := rounds + [last];
    assert all[|rounds|] == last;
    forall i | 0 <= i < |all| ensures AtMostOnceContract(all[i].writes, all[i].result) {
      if i < |rounds| { assert all[i] == rounds[i]; }
    }
    forall i | 0 <= i < |all| - 1 ensures all[i].result.Err? && DaemonUnreachable(all[i].result.error) {
      assert all[i] == rounds[i];
    }
  }

  /** Recover the daemon, if that is possible, and send again. */
  method SendAgain(env: Environment, encoding: Result<string, string>, socketPathLength: nat)
    returns (r: Result<Response, string>)
    modifies env
    ensures env.Totals().sent.userWrites >= old(env.Totals()).sent.userWrites
    ensures AtMostOnceContract(env.Totals().sent.userWrites - old(env.Totals()).sent.userWrites, r)
  {
    var ensured := EnsureDaemon(env, false, socketPathLength);
    r := SendCommand(env, encoding);
  }

  /** A caller that resends up to `limit` times, each time recovering the daemon
      first, and only after errors that invite it. On the trace of all its rounds
      together the command is written at most once, and the result tells whether
      it was. */
  method SendWhileUnreachable(env: Environment, encoding: Result<string, string>, limit: nat, socketPathLength: nat)
    returns (r: Result<Response, string>)
    modifies env
    ensures env.Totals().sent.userWrites >= old(env.Totals()).sent.userWrites
    ensures AtMostOnceContract(env.Totals().sent.userWrites - old(env.Totals()).sent.userWrites, r)
  {
    hide AtMostOnceContract, ResentOnlyWhenInvited, TotalWrites, Account, Delivered, IsAnswer, SawOwnConfig,
         LastConnectFailed, DaemonUnreachable;
    ghost var start := env.Totals().sent.userWrites;
    r := SendCommand(env, encoding);
    ghost var rounds := [Round(env.Totals().sent.userWrites - start, r)];
    OneMoreRound([], rounds[0]);
    NoRoundsWriteNothing();
    assert [] + rounds == rounds;
    for i := 0 to limit
      invariant env.Totals().sent.userWrites == start + TotalWrites(rounds)
      invariant rounds != [] && ResentOnlyWhenInvited(rounds) && rounds[|rounds| - 1].result == r
    {
      if r.Ok? || !DaemonUnreachable(r.error) {
        break;
      }
      ghost var before := env.Totals().sent.userWrites;
      r := SendAgain(env, encoding, socketPathLength);
      ghost var last := Round(env.Totals().sent.userWrites - before, r);
      OneMoreRound(rounds, last);
      rounds := rounds + [last];
    }
    ResendingNeverReplays(rounds);
  }

  lemma NoRoundsWriteNothing()
    ensures TotalWrites([]) == 0
  {
  }
}
