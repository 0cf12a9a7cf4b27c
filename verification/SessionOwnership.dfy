/**
 The session-ownership protocol: any number of daemons start, run, stop and
 crash on one session, contending on a lock file and publishing sidecar files.
 The step function below is total over the environment: every answer the
 operating system may give is part of the action, so a list of actions is one
 interleaving of all the processes.
 */
module SessionOwnership {
  import opened Wrappers

  type ProcId = nat

  /** The session's files: the lock file and the sidecars. */
  datatype File = Lock | Pid | Version | Config | Stream | Socket | Engine | Provider | Extensions | Supervised

  /** Who may be bound to the socket: a process of the protocol, or a daemon from before there was a lock. */
  datatype Agent = Daemon(id: ProcId) | Legacy

  /** What is in a file; the lock file is known by its inode. */
  datatype Content = Inode(id: nat) | Text(text: string) | Bound(agent: Agent)

  /** What a process is started with; it decides what it publishes. */
  datatype Launch = Launch(pid: string, version: string, config: Option<string>, supervised: bool)

  datatype Outcome = NotOpened | RefusedByLock | RefusedBySocket | PublishFailed | BindFailed | Finished | Crashed

  datatype Phase =
    | Idle
    | Opened
    | Locked
    | Cleaning(removed: nat)
    | Publishing(written: nat)
    | Owner
    | Listening
    | Draining
    | Dropping(removed: nat, outcome: Outcome)
    | Done(outcome: Outcome)

  /** `kept` names the files whose removal failed in the process's latest cleanup. */
  datatype Process = Process(launch: Launch, phase: Phase, inode: nat, kept: set<File>)

  datatype State = State(
    holder: map<nat, ProcId>,
    files: map<File, Content>,
    listening: set<Agent>,
    procs: map<ProcId, Process>)

  /** `left` is what a failed write leaves behind: the file as it was, or some text. */
  datatype WriteResult = Written | WriteFailed(left: Option<string>)

  datatype Action =
    | OpenLock(p: ProcId, newInode: nat)
    | FailToOpen(p: ProcId)
    | TryLock(p: ProcId)
    | CheckReady(p: ProcId, answered: bool)
    | RemoveNext(p: ProcId, ok: bool)
    | PublishNext(p: ProcId, result: WriteResult)
    | TouchSidecar(p: ProcId, file: File, content: Option<string>)
    | Bind(p: ProcId, ok: bool)
    | CloseListener(p: ProcId)
    | BeginDrop(p: ProcId)
    | Crash(p: ProcId)
    | CrashInWrite(p: ProcId, left: string)
    | LegacyExit

  const CLEANUP_ORDER: seq<File> :=
    [Pid, Version, Config, Stream, Socket, Engine, Provider, Extensions, Supervised]

  const PUBLISH_ORDER: seq<File> := [Pid, Version, Config, Supervised]

  /** The inode of the lock file, if there is one. */
  function LockFile(s: State): Option<nat> {
    if Lock in s.files && s.files[Lock].Inode? then Some(s.files[Lock].id) else None
  }

  /** The files apart from the lock file. */
  function Sidecars(files: map<File, Content>): map<File, Content> { files - {Lock} }

  function Intended(l: Launch, f: File): Option<string> {
    match f
    case Pid => Some(l.pid)
    case Version => Some(l.version)
    case Config => l.config
    case Supervised => if l.supervised then Some("1") else None
    case _ => None
  }

  /** The files of PUBLISH_ORDER. */
  predicate IsMetadata(f: File) {
    f.Pid? || f.Version? || f.Config? || f.Supervised?
  }

  predicate HoldsLock(phase: Phase) {
    phase.Locked? || phase.Cleaning? || phase.Publishing? || Owns(phase) || phase.Dropping?
  }

  predicate InCleanup(phase: Phase) { phase.Cleaning? || phase.Dropping? }

  /** Between a successful acquire and the start of Drop. */
  predicate Owns(phase: Phase) {
    phase.Owner? || phase.Listening? || phase.Draining?
  }

  /** A connect to the session's socket file reaches a listener. */
  predicate Reachable(s: State) {
    Socket in s.files && s.files[Socket].Bound? && s.files[Socket].agent in s.listening
  }

  /* ---------- One step ---------- */

  function SetPhase(s: State, p: ProcId, phase: Phase): State
    requires p in s.procs
  {
    s.(procs := s.procs[p := s.procs[p].(phase := phase)])
  }

  /** The process ends: its lock and its listener go with it. */
  function Leave(s: State, p: ProcId, outcome: Outcome): State
    requires p in s.procs
  {
    SetPhase(s, p, Done(outcome)).(
      holder := map i | i in s.holder && s.holder[i] != p :: s.holder[i],
      listening := s.listening - {Daemon(p)})
  }

  function RemoveFile(s: State, p: ProcId, f: File, ok: bool): State
    requires p in s.procs
  {
    if ok then s.(files := s.files - {f})
    else s.(procs := s.procs[p := s.procs[p].(kept := s.procs[p].kept + {f})])
  }

  function AfterRemoval(s: State, p: ProcId, phase: Phase): State
    requires p in s.procs && InCleanup(phase)
  {
    if phase.removed < |CLEANUP_ORDER| then SetPhase(s, p, phase)
    else match phase
      case Cleaning(_) => SetPhase(s, p, Publishing(0))
      case Dropping(_, outcome) => Leave(s, p, outcome)
  }

  function StartDrop(s: State, p: ProcId, outcome: Outcome): State
    requires p in s.procs
  {
    s.(procs := s.procs[p := s.procs[p].(phase := Dropping(0, outcome), kept := {})])
  }

  function AfterWrite(s: State, p: ProcId, written: nat): State
    requires p in s.procs
  {
    SetPhase(s, p, if written < |PUBLISH_ORDER| then Publishing(written) else Owner)
  }

  function Step(s: State, a: Action): Option<State> {
    if a.LegacyExit? then Some(s.(listening := s.listening - {Legacy}))
    else if a.p !in s.procs then None
    else
      var proc := s.procs[a.p];
      match a
      case OpenLock(p, newInode) =>
        if proc.phase != Idle then None else
        var inode := LockFile(s).GetOr(newInode);
        Some(s.(files := s.files[Lock := Inode(inode)],
                procs := s.procs[p := proc.(phase := Opened, inode := inode)]))
      case FailToOpen(p) =>
        if proc.phase != Idle then None else Some(Leave(s, p, NotOpened))
      case TryLock(p) =>
        if proc.phase != Opened then None
        else if proc.inode in s.holder then Some(Leave(s, p, RefusedByLock))
        else Some(SetPhase(s, p, Locked).(holder := s.holder[proc.inode := p]))
      case CheckReady(p, answered) =>
        if proc.phase != Locked || (answered && !Reachable(s)) then None
        else if answered then Some(Leave(s, p, RefusedBySocket))
        else Some(s.(procs := s.procs[p := proc.(phase := Cleaning(0), kept := {})]))
      case RemoveNext(p, ok) =>
        (match proc.phase
         case Cleaning(k) =>
           if k >= |CLEANUP_ORDER| then None
           else Some(AfterRemoval(RemoveFile(s, p, CLEANUP_ORDER[k], ok), p, Cleaning(k + 1)))
         case Dropping(k, outcome) =>
           if k >= |CLEANUP_ORDER| then None
           else Some(AfterRemoval(RemoveFile(s, p, CLEANUP_ORDER[k], ok), p, Dropping(k + 1, outcome)))
         case _ => None)
      case PublishNext(p, result) =>
        if !proc.phase.Publishing? || proc.phase.written >= |PUBLISH_ORDER| then None else
        var k := proc.phase.written;
        var f := PUBLISH_ORDER[k];
        (match Intended(proc.launch, f)
         case None => Some(AfterWrite(s, p, k + 1))
         case Some(value) =>
           (match result
            case Written => Some(AfterWrite(s.(files := s.files[f := Text(value)]), p, k + 1))
            case WriteFailed(None) => Some(StartDrop(s, p, PublishFailed))
            case WriteFailed(Some(text)) =>
              Some(StartDrop(s.(files := s.files[f := Text(text)]), p, PublishFailed))))
      case TouchSidecar(p, f, content) =>
        if !Owns(proc.phase) || f !in {Stream, Engine, Provider, Extensions} then None
        else (match content
          case Some(text) => Some(s.(files := s.files[f := Text(text)]))
          case None => Some(s.(files := s.files - {f})))
      case Bind(p, ok) =>
        if proc.phase != Owner || (ok && Socket in s.files) then None
        else if ok then
          Some(SetPhase(s, p, Listening).(
            files := s.files[Socket := Bound(Daemon(p))], listening := s.listening + {Daemon(p)}))
        else Some(StartDrop(s, p, BindFailed))
      case CloseListener(p) =>
        if proc.phase != Listening then None
        else Some(SetPhase(s, p, Draining).(listening := s.listening - {Daemon(p)}))
      case BeginDrop(p) =>
        if proc.phase != Draining then None else Some(StartDrop(s, p, Finished))
      case Crash(p) =>
        if proc.phase.Done? || proc.phase.Idle? then None else Some(Leave(s, p, Crashed))
      case CrashInWrite(p, left) =>
        if !proc.phase.Publishing? || proc.phase.written >= |PUBLISH_ORDER| then None else
        var f := PUBLISH_ORDER[proc.phase.written];
        if Intended(proc.launch, f).None? then None
        else Some(Leave(s.(files := s.files[f := Text(left)]), p, Crashed))
  }

  function Run(s: State, acts: seq<Action>): Option<State>
    decreases |acts|
  {
    if acts == [] then Some(s)
    else match Step(s, acts[0])
      case None => None
      case Some(next) => Run(next, acts[1..])
  }

  /** Nobody has started yet. Any stale files may lie around, and a daemon from
      before the lock may be listening. */
  predicate Init(s: State) {
    && s.holder == map[]
    && s.listening <= {Legacy}
    && forall p | p in s.procs :: s.procs[p].phase == Idle
  }

  /* ---------- The invariant ---------- */

  /** File `f` holds what `proc` publishes: its value, or, when it has none,
      nothing, unless the stale file could not be removed. */
  predicate Published(files: map<File, Content>, launch: Launch, kept: set<File>, f: File) {
    match Intended(launch, f)
    case Some(value) => f in files && files[f] == Text(value)
    case None => Cleared(files, kept, f)
  }

  predicate Cleared(files: map<File, Content>, kept: set<File>, f: File) {
    f in files ==> f in kept
  }

  /** The first `k` files are published, and no sidecar but theirs is left over. */
  predicate PublishedUpTo(files: map<File, Content>, launch: Launch, kept: set<File>, k: nat)
    requires k <= |PUBLISH_ORDER|
  {
    && (forall f | f in PUBLISH_ORDER[..k] :: Published(files, launch, kept, f))
    && (forall f | f !in PUBLISH_ORDER[..k] && f != Lock :: Cleared(files, kept, f))
  }

  predicate FilesMatchPhase(files: map<File, Content>, p: ProcId, proc: Process) {
    match proc.phase
    case Cleaning(k) =>
      && k < |CLEANUP_ORDER|
      && forall f | f in CLEANUP_ORDER[..k] :: Cleared(files, proc.kept, f)
    case Dropping(k, _) =>
      && k < |CLEANUP_ORDER|
      && forall f | f in CLEANUP_ORDER[..k] :: Cleared(files, proc.kept, f)
    case Publishing(k) => k < |PUBLISH_ORDER| && PublishedUpTo(files, proc.launch, proc.kept, k)
    case Owner => forall f | IsMetadata(f) :: Published(files, proc.launch, proc.kept, f)
    case Listening =>
      && (forall f | IsMetadata(f) :: Published(files, proc.launch, proc.kept, f))
      && Socket in files && files[Socket] == Bound(Daemon(p))
    case Draining => forall f | IsMetadata(f) :: Published(files, proc.launch, proc.kept, f)
    case _ => true
  }

  predicate ProcInv(s: State, p: ProcId)
    requires p in s.procs
  {
    var proc := s.procs[p];
    && (!proc.phase.Idle? && !proc.phase.Done? ==> LockFile(s) == Some(proc.inode))
    && (HoldsLock(proc.phase) ==> proc.inode in s.holder && s.holder[proc.inode] == p)
    && (Daemon(p) in s.listening <==> proc.phase.Listening?)
    && FilesMatchPhase(s.files, p, proc)
  }

  predicate HolderInv(s: State) {
    forall i | i in s.holder ::
      LockFile(s) == Some(i) && s.holder[i] in s.procs && HoldsLock(s.procs[s.holder[i]].phase)
  }

  predicate ListenerInv(s: State) {
    forall a | a in s.listening :: a.Legacy? || a.id in s.procs
  }

  predicate Inv(s: State) {
    HolderInv(s) && ListenerInv(s) && forall p {:trigger ProcInv(s, p)} | p in s.procs :: ProcInv(s, p)
  }

  /* ---------- Every step keeps it ---------- */

  lemma HoldersAreUnique(s: State, p: ProcId, q: ProcId)
    requires Inv(s) && p in s.procs && q in s.procs
    requires HoldsLock(s.procs[p].phase) && HoldsLock(s.procs[q].phase)
    ensures p == q
  {
    assert ProcInv(s, p) && ProcInv(s, q);
  }

  /** A process that does not hold the lock changes no file of the session but
      the lock file, which it may create. */
  lemma OnlyTheHolderTouchesFiles(s: State, a: Action)
    requires Step(s, a).Some?
    requires a.LegacyExit? || !HoldsLock(s.procs[a.p].phase) || s.procs[a.p].phase.Locked?
    ensures Sidecars(Step(s, a).value.files) == Sidecars(s.files)
  {
  }

  lemma CleanupCoversEverySidecar(f: File)
    ensures f in CLEANUP_ORDER <==> f != Lock
  {
    assert CLEANUP_ORDER[0] == Pid && CLEANUP_ORDER[1] == Version && CLEANUP_ORDER[2] == Config;
    assert CLEANUP_ORDER[3] == Stream && CLEANUP_ORDER[4] == Socket && CLEANUP_ORDER[5] == Engine;
    assert CLEANUP_ORDER[6] == Provider && CLEANUP_ORDER[7] == Extensions && CLEANUP_ORDER[8] == Supervised;
  }

  lemma PublishOrderIsTheMetadata(f: File)
    ensures f in PUBLISH_ORDER <==> IsMetadata(f)
  {
    assert PUBLISH_ORDER[0] == Pid && PUBLISH_ORDER[1] == Version;
    assert PUBLISH_ORDER[2] == Config && PUBLISH_ORDER[3] == Supervised;
  }

  /** Neither cleanup nor publication names the lock file, so no step that finds
      it there removes it, replaces it or writes to it. */
  lemma StepKeepsLockFile(s: State, a: Action)
    requires Step(s, a).Some? && LockFile(s).Some?
    ensures LockFile(Step(s, a).value) == LockFile(s)
  {
    CleanupCoversEverySidecar(Lock);
    PublishOrderIsTheMetadata(Lock);
  }

  /** What a phase asks of the files does not concern the lock file. */
  lemma PhaseIgnoresLockFile(files: map<File, Content>, later: map<File, Content>, p: ProcId, proc: Process)
    requires Sidecars(later) == Sidecars(files) && FilesMatchPhase(files, p, proc)
    ensures FilesMatchPhase(later, p, proc)
  {
    CleanupCoversEverySidecar(Lock);
    PublishOrderIsTheMetadata(Lock);
    assert forall f | f != Lock :: (f in later <==> f in Sidecars(later)) && (f in files <==> f in Sidecars(files));
    assert forall f | f != Lock && f in files :: Sidecars(files)[f] == files[f] && later[f] == Sidecars(later)[f];
  }

  /** The steps of a process that does not yet hold the session for good. */
  predicate IsEarly(a: Action) {
    a.LegacyExit? || a.OpenLock? || a.TryLock? || a.CheckReady? || IsExit(a)
  }

  predicate IsExit(a: Action) { a.FailToOpen? || a.Crash? || a.CrashInWrite? }

  lemma EarlyStepKeepsHolders(s: State, a: Action)
    requires Inv(s) && Step(s, a).Some? && IsEarly(a)
    ensures HolderInv(Step(s, a).value)
  {
    hide FilesMatchPhase, Intended;
    if !a.LegacyExit? { assert ProcInv(s, a.p); }
    if LockFile(s).Some? { StepKeepsLockFile(s, a); }
  }

  lemma LateStepKeepsHolders(s: State, a: Action)
    requires Inv(s) && Step(s, a).Some? && !IsEarly(a)
    ensures HolderInv(Step(s, a).value)
  {
    hide FilesMatchPhase, Intended, LockFile;
    assert ProcInv(s, a.p);
    if LockFile(s).Some? { StepKeepsLockFile(s, a); }
  }

  lemma StepKeepsHolders(s: State, a: Action)
    requires Inv(s) && Step(s, a).Some?
    ensures HolderInv(Step(s, a).value)
  {
    hide Step, Inv;
    if IsEarly(a) { EarlyStepKeepsHolders(s, a); } else { LateStepKeepsHolders(s, a); }
  }

  lemma StepKeepsOthers(s: State, a: Action, q: ProcId)
    requires Inv(s) && Step(s, a).Some? && q in s.procs
    requires a.LegacyExit? || a.p != q
    ensures q in Step(s, a).value.procs && ProcInv(Step(s, a).value, q)
  {
    assert ProcInv(s, q);
    if !a.LegacyExit? {
      assert ProcInv(s, a.p);
      if HoldsLock(s.procs[q].phase) && HoldsLock(s.procs[a.p].phase) {
        HoldersAreUnique(s, a.p, q);
      } else if HoldsLock(s.procs[q].phase) {
        OnlyTheHolderTouchesFiles(s, a);
        PhaseIgnoresLockFile(s.files, Step(s, a).value.files, q, s.procs[q]);
      }
    }
    if LockFile(s).Some? { StepKeepsLockFile(s, a); }
  }

  lemma RemovalClears(s: State, p: ProcId, k: nat, ok: bool)
    requires p in s.procs && k < |CLEANUP_ORDER|
    requires forall f | f in CLEANUP_ORDER[..k] :: Cleared(s.files, s.procs[p].kept, f)
    ensures var t := RemoveFile(s, p, CLEANUP_ORDER[k], ok);
      && (forall f | f in CLEANUP_ORDER[..k + 1] :: Cleared(t.files, t.procs[p].kept, f))
      && (k + 1 == |CLEANUP_ORDER| ==> forall f | f != Lock :: Cleared(t.files, t.procs[p].kept, f))
  {
    assert CLEANUP_ORDER[..k + 1] == CLEANUP_ORDER[..k] + [CLEANUP_ORDER[k]];
    if k + 1 == |CLEANUP_ORDER| {
      var t := RemoveFile(s, p, CLEANUP_ORDER[k], ok);
      assert CLEANUP_ORDER[..k + 1] == CLEANUP_ORDER;
      forall f | f != Lock ensures Cleared(t.files, t.procs[p].kept, f) { CleanupCoversEverySidecar(f); }
    }
  }

  lemma RemovalKeepsActor(s: State, a: Action)
    requires Inv(s) && Step(s, a).Some? && a.RemoveNext?
    ensures a.p in Step(s, a).value.procs && ProcInv(Step(s, a).value, a.p)
  {
    assert ProcInv(s, a.p);
    RemovalClears(s, a.p, s.procs[a.p].phase.removed, a.ok);
  }

  lemma PublicationExtends(files: map<File, Content>, later: map<File, Content>, launch: Launch,
                           kept: set<File>, k: nat)
    requires k < |PUBLISH_ORDER| && PublishedUpTo(files, launch, kept, k)
    requires var f := PUBLISH_ORDER[k];
             later == match Intended(launch, f)
                      case None => files
                      case Some(value) => files[f := Text(value)]
    ensures PublishedUpTo(later, launch, kept, k + 1)
    ensures k + 1 == |PUBLISH_ORDER| ==> forall f | IsMetadata(f) :: Published(later, launch, kept, f)
  {
    hide IsMetadata;
    var done := PUBLISH_ORDER[..k + 1];
    assert done == PUBLISH_ORDER[..k] + [PUBLISH_ORDER[k]];
    assert PUBLISH_ORDER[..|PUBLISH_ORDER|] == PUBLISH_ORDER;
    forall f { PublishOrderIsTheMetadata(f); }
    forall f | f in done ensures Published(later, launch, kept, f) {
      assert f in PUBLISH_ORDER[..k] || f == PUBLISH_ORDER[k];
      PublishOrderIsTheMetadata(f);
    }
  }

  lemma PublicationKeepsActor(s: State, a: Action)
    requires Inv(s) && Step(s, a).Some? && a.PublishNext?
    ensures a.p in Step(s, a).value.procs && ProcInv(Step(s, a).value, a.p)
  {
    hide PublishedUpTo, Published, Cleared, Intended;
    assert ProcInv(s, a.p);
    var proc := s.procs[a.p];
    var k := proc.phase.written;
    if Step(s, a).value.procs[a.p].phase.Dropping? {
      assert CLEANUP_ORDER[..0] == [];
      PublishOrderIsTheMetadata(Lock);
    } else {
      PublicationExtends(s.files, Step(s, a).value.files, proc.launch, proc.kept, k);
      PublishOrderIsTheMetadata(Lock);
    }
  }

  lemma LockingKeepsActor(s: State, a: Action)
    requires Inv(s) && Step(s, a).Some? && (a.OpenLock? || a.TryLock?)
    ensures a.p in Step(s, a).value.procs && ProcInv(Step(s, a).value, a.p)
  {
    assert ProcInv(s, a.p);
  }

  lemma ReadyCheckKeepsActor(s: State, a: Action)
    requires Inv(s) && Step(s, a).Some? && a.CheckReady?
    ensures a.p in Step(s, a).value.procs && ProcInv(Step(s, a).value, a.p)
  {
    assert ProcInv(s, a.p);
  }

  lemma SidecarKeepsActor(s: State, a: Action)
    requires Inv(s) && Step(s, a).Some? && a.TouchSidecar?
    ensures a.p in Step(s, a).value.procs && ProcInv(Step(s, a).value, a.p)
  {
    assert ProcInv(s, a.p);
  }

  lemma BindKeepsActor(s: State, a: Action)
    requires Inv(s) && Step(s, a).Some? && a.Bind?
    ensures a.p in Step(s, a).value.procs && ProcInv(Step(s, a).value, a.p)
  {
    assert ProcInv(s, a.p);
  }

  lemma LeavingKeepsActor(s: State, a: Action)
    requires Inv(s) && Step(s, a).Some? && (a.CloseListener? || a.BeginDrop? || IsExit(a))
    ensures a.p in Step(s, a).value.procs && ProcInv(Step(s, a).value, a.p)
  {
    assert ProcInv(s, a.p);
  }

  lemma StepKeepsProcess(s: State, a: Action, q: ProcId)
    requires Inv(s) && Step(s, a).Some? && q in s.procs
    ensures q in Step(s, a).value.procs && ProcInv(Step(s, a).value, q)
  {
    if a.LegacyExit? || a.p != q { StepKeepsOthers(s, a, q); }
    else if a.RemoveNext? { RemovalKeepsActor(s, a); }
    else if a.PublishNext? { PublicationKeepsActor(s, a); }
    else if a.OpenLock? || a.TryLock? { LockingKeepsActor(s, a); }
    else if a.CheckReady? { ReadyCheckKeepsActor(s, a); }
    else if a.TouchSidecar? { SidecarKeepsActor(s, a); }
    else if a.Bind? { BindKeepsActor(s, a); }
    else { LeavingKeepsActor(s, a); }
  }

  lemma StepKeepsProcessSet(s: State, a: Action)
    requires Step(s, a).Some?
    ensures Step(s, a).value.procs.Keys == s.procs.Keys
    ensures ListenerInv(s) ==> ListenerInv(Step(s, a).value)
  {
  }

  lemma StepKeepsInv(s: State, a: Action)
    requires Inv(s) && Step(s, a).Some?
    ensures Inv(Step(s, a).value) && Step(s, a).value.procs.Keys == s.procs.Keys
  {
    StepKeepsHolders(s, a);
    StepKeepsProcessSet(s, a);
    var t := Step(s, a).value;
    forall q | q in t.procs ensures ProcInv(t, q) {
      assert q in s.procs;
      StepKeepsProcess(s, a, q);
    }
  }

  lemma {:induction false} RunKeepsInv(s: State, acts: seq<Action>)
    requires Inv(s) && Run(s, acts).Some?
    ensures Inv(Run(s, acts).value) && Run(s, acts).value.procs.Keys == s.procs.Keys
    decreases |acts|
  {
    if acts != [] {
      StepKeepsInv(s, acts[0]);
      RunKeepsInv(Step(s, acts[0]).value, acts[1..]);
    }
  }

  lemma InitSatisfiesInv(s: State)
    requires Init(s)
    ensures Inv(s)
  {
    forall p | p in s.procs ensures ProcInv(s, p) { assert s.procs[p].phase == Idle; }
  }

  /* ---------- What every run guarantees ---------- */

  /** At most one process owns the session, however the starters interleave and crash. */
  lemma OwnershipIsExclusive(s: State, acts: seq<Action>, p: ProcId, q: ProcId)
    requires Init(s) && Run(s, acts).Some?
    requires var t := Run(s, acts).value;
      p in t.procs && q in t.procs && HoldsLock(t.procs[p].phase) && HoldsLock(t.procs[q].phase)
    ensures p == q
  {
    InitSatisfiesInv(s);
    RunKeepsInv(s, acts);
    HoldersAreUnique(Run(s, acts).value, p, q);
  }

  /** From a successful acquire to the start of Drop the session's metadata is
      exactly the owner's, and while it listens the socket file leads to it. The
      only exception is a file the owner has no value for and could not remove. */
  lemma MetadataIsTheOwners(s: State, acts: seq<Action>, p: ProcId)
    requires Init(s) && Run(s, acts).Some?
    requires p in Run(s, acts).value.procs && Owns(Run(s, acts).value.procs[p].phase)
    ensures var t := Run(s, acts).value; var proc := t.procs[p];
      && Pid in t.files && t.files[Pid] == Text(proc.launch.pid)
      && Version in t.files && t.files[Version] == Text(proc.launch.version)
      && (proc.launch.config.Some? ==> Config in t.files && t.files[Config] == Text(proc.launch.config.value))
      && (proc.launch.config.None? && Config !in proc.kept ==> Config !in t.files)
      && (proc.launch.supervised ==> Supervised in t.files && t.files[Supervised] == Text("1"))
      && (!proc.launch.supervised && Supervised !in proc.kept ==> Supervised !in t.files)
      && (proc.phase.Listening? ==> Reachable(t) && t.files[Socket] == Bound(Daemon(p)))
  {
    InitSatisfiesInv(s);
    RunKeepsInv(s, acts);
    var t := Run(s, acts).value; var proc := t.procs[p];
    assert ProcInv(t, p);
    assert forall f | IsMetadata(f) :: Published(t.files, proc.launch, proc.kept, f);
    assert Published(t.files, proc.launch, proc.kept, Pid) && Published(t.files, proc.launch, proc.kept, Version);
    assert Published(t.files, proc.launch, proc.kept, Config) && Published(t.files, proc.launch, proc.kept, Supervised);
  }

  /** The lock file is never removed or replaced, so all starters contend on one inode. */
  lemma {:induction false} LockFileIsForever(s: State, acts: seq<Action>)
    requires Run(s, acts).Some? && LockFile(s).Some?
    ensures LockFile(Run(s, acts).value) == LockFile(s)
    decreases |acts|
  {
    if acts != [] {
      StepKeepsLockFile(s, acts[0]);
      LockFileIsForever(Step(s, acts[0]).value, acts[1..]);
    }
  }

  lemma StartersShareOneInode(s: State, acts: seq<Action>, p: ProcId)
    requires Init(s) && Run(s, acts).Some? && p in Run(s, acts).value.procs
    ensures var t := Run(s, acts).value;
      !t.procs[p].phase.Idle? && !t.procs[p].phase.Done? ==> LockFile(t) == Some(t.procs[p].inode)
  {
    InitSatisfiesInv(s);
    RunKeepsInv(s, acts);
    assert ProcInv(Run(s, acts).value, p);
  }

  /* ---------- A refused or failed start is harmless ---------- */

  /** The start ended before it cleaned anything up. */
  predicate Refused(outcome: Outcome) {
    outcome.NotOpened? || outcome.RefusedByLock? || outcome.RefusedBySocket?
  }

  /** The process got past all refusals. */
  predicate Admitted(phase: Phase) {
    match phase
    case Cleaning(_) => true
    case Publishing(_) => true
    case Dropping(_, outcome) => !Refused(outcome)
    case Done(outcome) => !Refused(outcome)
    case _ => Owns(phase)
  }

  /** No step of `p` along the run changes a sidecar. */
  predicate Inert(s: State, acts: seq<Action>, p: ProcId)
    requires Run(s, acts).Some?
    decreases |acts|
  {
    acts != [] ==>
      && (!acts[0].LegacyExit? && acts[0].p == p ==> Sidecars(Step(s, acts[0]).value.files) == Sidecars(s.files))
      && Inert(Step(s, acts[0]).value, acts[1..], p)
  }

  lemma AdmissionIsFinal(s: State, a: Action, p: ProcId)
    requires Step(s, a).Some? && p in s.procs && Admitted(s.procs[p].phase)
    ensures p in Step(s, a).value.procs && Admitted(Step(s, a).value.procs[p].phase)
  {
    var t := Step(s, a).value;
    if a.LegacyExit? || a.p != p {
      assert t.procs[p] == s.procs[p];
    } else if a.RemoveNext? {
      assert InCleanup(s.procs[p].phase);
    } else if a.PublishNext? {
      assert t.procs[p].phase in {Owner, Dropping(0, PublishFailed), Publishing(s.procs[p].phase.written + 1)};
    }
  }

  lemma {:induction false} AdmittedRunsStayAdmitted(s: State, acts: seq<Action>, p: ProcId)
    requires Run(s, acts).Some? && p in s.procs && Admitted(s.procs[p].phase)
    ensures p in Run(s, acts).value.procs && Admitted(Run(s, acts).value.procs[p].phase)
    decreases |acts|
  {
    if acts != [] {
      AdmissionIsFinal(s, acts[0], p);
      AdmittedRunsStayAdmitted(Step(s, acts[0]).value, acts[1..], p);
    }
  }

  lemma UnadmittedStepsChangeNothing(s: State, a: Action)
    requires Step(s, a).Some? && !a.LegacyExit? && !Admitted(s.procs[a.p].phase)
    requires !s.procs[a.p].phase.Dropping?
    ensures Sidecars(Step(s, a).value.files) == Sidecars(s.files) && !Step(s, a).value.procs[a.p].phase.Dropping?
  {
  }

  /** A start that could not open the lock file, or was refused by the lock or
      because a daemon answers on the socket, changed none of the session's
      files at any point of the run. */
  lemma {:induction false} RefusedStartIsInert(s: State, acts: seq<Action>, p: ProcId)
    requires Run(s, acts).Some? && p in s.procs && p in Run(s, acts).value.procs
    requires !s.procs[p].phase.Dropping?
    requires var last := Run(s, acts).value.procs[p].phase; last.Done? && Refused(last.outcome)
    ensures Inert(s, acts, p)
    decreases |acts|
  {
    if Admitted(s.procs[p].phase) {
      AdmittedRunsStayAdmitted(s, acts, p);
    } else if acts != [] {
      var t := Step(s, acts[0]).value;
      StepKeepsProcessSet(s, acts[0]);
      if !acts[0].LegacyExit? && acts[0].p == p { UnadmittedStepsChangeNothing(s, acts[0]); }
      else { assert t.procs[p] == s.procs[p]; }
      RefusedStartIsInert(t, acts[1..], p);
    }
  }

  /** When a cleanup that ends a process is over, the lock is free, and no file
      of the session is left except those that could not be removed. After a
      failed publication that covers the half-written metadata. */
  lemma DropLeavesNothing(s: State, acts: seq<Action>, a: Action)
    requires Init(s) && Run(s, acts).Some?
    requires var t := Run(s, acts).value;
      && Step(t, a).Some? && a.RemoveNext? && t.procs[a.p].phase.Dropping?
      && Step(t, a).value.procs[a.p].phase.Done?
    ensures var u := Step(Run(s, acts).value, a).value;
      u.holder == map[] && Sidecars(u.files).Keys <= u.procs[a.p].kept && LockFile(u).Some?
  {
    InitSatisfiesInv(s);
    RunKeepsInv(s, acts);
    var t := Run(s, acts).value;
    assert ProcInv(t, a.p);
    RemovalClears(t, a.p, t.procs[a.p].phase.removed, a.ok);
    var r := RemoveFile(t, a.p, CLEANUP_ORDER[t.procs[a.p].phase.removed], a.ok);
    var u := Step(t, a).value;
    forall f | f in Sidecars(u.files) ensures f in u.procs[a.p].kept {
      assert Cleared(r.files, r.procs[a.p].kept, f);
    }
    StepKeepsLockFile(t, a);
  }

  /* ---------- No history wedges the session ---------- */

  lemma {:induction false} RunAppend(s: State, acts: seq<Action>, a: Action)
    requires Run(s, acts).Some?
    ensures Run(s, acts + [a]) == Step(Run(s, acts).value, a)
    decreases |acts|
  {
    if acts == [] {
      assert (acts + [a])[1..] == [];
    } else {
      assert (acts + [a])[1..] == acts[1..] + [a];
      RunAppend(Step(s, acts[0]).value, acts[1..], a);
    }
  }

  /** The metadata a launch has published after its first `k` files. */
  function Metadata(launch: Launch, k: nat): map<File, Content>
    requires k <= |PUBLISH_ORDER|
  {
    if k == 0 then map[] else
    match Intended(launch, PUBLISH_ORDER[k - 1])
    case None => Metadata(launch, k - 1)
    case Some(value) => Metadata(launch, k - 1)[PUBLISH_ORDER[k - 1] := Text(value)]
  }

  lemma SoloClaim(s: State, p: ProcId) returns (acts: seq<Action>)
    requires Inv(s) && p in s.procs && s.procs[p].phase == Idle && s.holder == map[] && !Reachable(s)
    ensures Run(s, acts).Some? && p in Run(s, acts).value.procs
    ensures Run(s, acts).value.procs[p].phase == Cleaning(0)
    ensures Run(s, acts).value.procs[p].launch == s.procs[p].launch
  {
    RunAppend(s, [], OpenLock(p, 0));
    acts := [OpenLock(p, 0)];
    assert [] + [OpenLock(p, 0)] == acts;
    RunAppend(s, acts, TryLock(p));
    acts := acts + [TryLock(p)];
    RunAppend(s, acts, CheckReady(p, false));
    acts := acts + [CheckReady(p, false)];
  }

  lemma SoloCleanup(s: State, p: ProcId) returns (acts: seq<Action>)
    requires p in s.procs && s.procs[p].phase == Cleaning(0)
    ensures Run(s, acts).Some? && p in Run(s, acts).value.procs
    ensures Run(s, acts).value.procs[p].phase == Publishing(0)
    ensures Run(s, acts).value.procs[p].launch == s.procs[p].launch
    ensures Sidecars(Run(s, acts).value.files) == map[]
  {
    acts := [];
    var t := s;
    for k := 0 to |CLEANUP_ORDER|
      invariant Run(s, acts) == Some(t) && p in t.procs && t.procs[p].launch == s.procs[p].launch
      invariant t.procs[p].phase == if k < |CLEANUP_ORDER| then Cleaning(k) else Publishing(0)
      invariant forall f | f in CLEANUP_ORDER[..k] :: f !in t.files
    {
      assert CLEANUP_ORDER[..k + 1] == CLEANUP_ORDER[..k] + [CLEANUP_ORDER[k]];
      RunAppend(s, acts, RemoveNext(p, true));
      t := Step(t, RemoveNext(p, true)).value;
      acts := acts + [RemoveNext(p, true)];
    }
    forall f | f != Lock ensures f !in t.files {
      CleanupCoversEverySidecar(f);
      assert CLEANUP_ORDER[..|CLEANUP_ORDER|] == CLEANUP_ORDER;
    }
  }

  lemma SoloWrite(s: State, p: ProcId, k: nat)
    requires k < |PUBLISH_ORDER| && p in s.procs && s.procs[p].phase == Publishing(k)
    requires Sidecars(s.files) == Metadata(s.procs[p].launch, k)
    ensures var t := Step(s, PublishNext(p, Written));
      && t.Some? && p in t.value.procs && t.value.procs[p].launch == s.procs[p].launch
      && t.value.procs[p].phase == (if k + 1 < |PUBLISH_ORDER| then Publishing(k + 1) else Owner)
      && Sidecars(t.value.files) == Metadata(s.procs[p].launch, k + 1)
  {
    PublishOrderIsTheMetadata(Lock);
  }

  lemma SoloPublish(s: State, p: ProcId) returns (acts: seq<Action>)
    requires p in s.procs && s.procs[p].phase == Publishing(0) && Sidecars(s.files) == map[]
    ensures Run(s, acts).Some? && p in Run(s, acts).value.procs
    ensures Run(s, acts).value.procs[p].phase == Owner
    ensures Sidecars(Run(s, acts).value.files) == Metadata(s.procs[p].launch, |PUBLISH_ORDER|)
  {
    acts := [];
    var t := s;
    for k := 0 to |PUBLISH_ORDER|
      invariant Run(s, acts) == Some(t) && p in t.procs && t.procs[p].launch == s.procs[p].launch
      invariant t.procs[p].phase == if k < |PUBLISH_ORDER| then Publishing(k) else Owner
      invariant Sidecars(t.files) == Metadata(s.procs[p].launch, k)
    {
      SoloWrite(t, p, k);
      RunAppend(s, acts, PublishNext(p, Written));
      t := Step(t, PublishNext(p, Written)).value;
      acts := acts + [PublishNext(p, Written)];
    }
  }

  lemma {:induction false} RunConcat(s: State, xs: seq<Action>, ys: seq<Action>)
    requires Run(s, xs).Some?
    ensures Run(s, xs + ys) == Run(Run(s, xs).value, ys)
    decreases |xs|
  {
    if xs == [] {
      assert xs + ys == ys;
    } else {
      assert (xs + ys)[1..] == xs[1..] + ys;
      RunConcat(Step(s, xs[0]).value, xs[1..], ys);
    }
  }

  lemma MetadataHasNoSocket(launch: Launch, k: nat)
    requires k <= |PUBLISH_ORDER|
    ensures Socket !in Metadata(launch, k)
  {
  }

  /** After any run, however many processes crashed and wherever, once nobody
      holds the lock and no daemon answers, a fresh starter can claim the
      session; the directory then holds its metadata and socket and nothing stale. */
  lemma NextStarterSucceeds(s: State, past: seq<Action>, p: ProcId) returns (acts: seq<Action>)
    requires Init(s) && Run(s, past).Some?
    requires var t := Run(s, past).value;
      p in t.procs && t.procs[p].phase == Idle && t.holder == map[] && !Reachable(t)
    ensures var t := Run(s, past).value;
      && Run(t, acts).Some? && p in Run(t, acts).value.procs
      && Run(t, acts).value.procs[p].phase == Listening
      && (Sidecars(Run(t, acts).value.files)
          == Metadata(t.procs[p].launch, |PUBLISH_ORDER|)[Socket := Bound(Daemon(p))])
  {
    InitSatisfiesInv(s);
    RunKeepsInv(s, past);
    var t := Run(s, past).value;
    var launch := t.procs[p].launch;
    var claim := SoloClaim(t, p);
    var t1 := Run(t, claim).value;
    var cleanup := SoloCleanup(t1, p);
    var t2 := Run(t1, cleanup).value;
    var publish := SoloPublish(t2, p);
    var t3 := Run(t2, publish).value;
    MetadataHasNoSocket(launch, |PUBLISH_ORDER|);
    RunConcat(t, claim, cleanup);
    RunConcat(t, claim + cleanup, publish);
    RunAppend(t, claim + cleanup + publish, Bind(p, true));
    acts := claim + cleanup + publish + [Bind(p, true)];
  }

  /** The lock is free, and nothing but a daemon from before the lock can
      answer, as soon as every started process is gone. */
  lemma AbandonedSessionIsFree(s: State, past: seq<Action>)
    requires Init(s) && Run(s, past).Some?
    requires var t := Run(s, past).value;
      forall p | p in t.procs :: t.procs[p].phase.Idle? || t.procs[p].phase.Done?
    ensures Run(s, past).value.holder == map[] && Run(s, past).value.listening <= {Legacy}
  {
    InitSatisfiesInv(s);
    RunKeepsInv(s, past);
    var t := Run(s, past).value;
    assert HolderInv(t) && ListenerInv(t);
    forall p | p in t.procs ensures Daemon(p) !in t.listening { assert ProcInv(t, p); }
    assert forall i | i in t.holder :: t.holder[i] in t.procs && HoldsLock(t.procs[t.holder[i]].phase);
    assert t.holder.Keys == {};
    assert forall a | a in t.listening :: a.Legacy?;
  }
}
