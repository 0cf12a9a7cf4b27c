/**
 The daemon's side of session ownership as it is written: acquire, cleanup and
 drop as sequential code, with any steps of other processes between any two
 of its own. Each access to the session directory is one step of the protocol.
 */
module DaemonSession {
  import opened Sequences
  import opened Wrappers
  import opened SessionOwnership

  /** A call on the session directory and the answer of the operating system. */
  datatype Call =
    | OpenedLock(ok: bool)
    | TriedLock(ok: bool)
    | Probed(answered: bool)
    | Removed(file: File, ok: bool)
    | Wrote(file: File, ok: bool)

  /** One whole cleanup: every file of the list, in order, and `kept` holds those
      whose removal failed. */
  predicate IsCleanup(calls: seq<Call>, kept: set<File>) {
    && |calls| == |CLEANUP_ORDER|
    && forall i | 0 <= i < |calls| :: calls[i] == Removed(CLEANUP_ORDER[i], CLEANUP_ORDER[i] !in kept)
  }

  predicate TriesEveryFile(calls: seq<Call>) {
    && |calls| == |CLEANUP_ORDER|
    && forall i | 0 <= i < |calls| :: calls[i].Removed? && calls[i].file == CLEANUP_ORDER[i]
  }

  /** The files a launch writes among the first `k` of the list. */
  function Writes(launch: Launch, k: nat): seq<File>
    requires k <= |PUBLISH_ORDER|
  {
    if k == 0 then []
    else Writes(launch, k - 1) + if Intended(launch, PUBLISH_ORDER[k - 1]).Some? then [PUBLISH_ORDER[k - 1]] else []
  }

  function AllWritten(files: seq<File>): seq<Call> {
    if files == [] then [] else AllWritten(files[..|files| - 1]) + [Wrote(files[|files| - 1], true)]
  }

  /** The call, if any, that publishes the next file. */
  function WritesNext(launch: Launch, k: nat, ok: bool): seq<Call>
    requires k < |PUBLISH_ORDER|
  {
    if Intended(launch, PUBLISH_ORDER[k]).Some? then [Wrote(PUBLISH_ORDER[k], ok)] else []
  }

  function AfterWriting(k: nat): Phase {
    if k + 1 < |PUBLISH_ORDER| then Publishing(k + 1) else Owner
  }

  /** Everything the launch publishes was written, in order. */
  predicate IsPublication(calls: seq<Call>, launch: Launch) {
    calls == AllWritten(Writes(launch, |PUBLISH_ORDER|))
  }

  /** Writing succeeded up to some file of the launch, and failed there. */
  predicate IsBrokenPublication(calls: seq<Call>, launch: Launch) {
    exists k | 0 <= k < |PUBLISH_ORDER| :: BreaksAt(calls, launch, k)
  }

  predicate BreaksAt(calls: seq<Call>, launch: Launch, k: nat)
    requires k < |PUBLISH_ORDER|
  {
    && Intended(launch, PUBLISH_ORDER[k]).Some?
    && calls == AllWritten(Writes(launch, k)) + [Wrote(PUBLISH_ORDER[k], false)]
  }

  /** A whole cleanup and then the publication; or a publication that breaks off,
      and another whole cleanup. */
  predicate IsEstablishment(calls: seq<Call>, launch: Launch, kept: set<File>, ok: bool) {
    var n := |CLEANUP_ORDER|;
    if ok then |calls| >= n && IsCleanup(calls[..n], kept) && IsPublication(calls[n..], launch)
    else
      && |calls| >= 2 * n && TriesEveryFile(calls[..n])
      && IsBrokenPublication(calls[n..|calls| - n], launch)
      && IsCleanup(calls[|calls| - n..], kept)
  }

  /** What happens around the n-th call, whatever it is: what the operating system
      will answer, and which steps the other processes take before it. */
  datatype Oracle = Oracle(
    yes: nat -> bool,
    write: nat -> WriteResult,
    inode: nat -> nat,
    others: nat -> seq<Action>)

  class SessionDirectory {
    const oracle: Oracle
    /** The number of the next call. */
    var turn: nat
    var state: State
    /** How many steps of the process that is followed here have changed a sidecar. */
    ghost var changes: nat
    /** Its calls on the directory, with their answers. */
    ghost var calls: seq<Call>

    constructor (oracle: Oracle, s: State)
      requires Init(s)
      ensures this.oracle == oracle && turn == 0
      ensures state == s && Inv(state) && changes == 0 && calls == []
    {
      this.oracle, turn := oracle, 0;
      state, changes, calls := s, 0, [];
      InitSatisfiesInv(s);
    }

    /** What `p` may rely on while the others run. None of it is its own doing. */
    twostate predicate OthersRan(p: ProcId)
      reads this
    {
      && Inv(state) && changes == old(changes) && calls == old(calls) && turn == old(turn)
      && state.procs.Keys == old(state.procs.Keys)
      && p in state.procs && p in old(state.procs) && state.procs[p] == old(state.procs[p])
      && (HoldsLock(state.procs[p].phase) ==> Sidecars(state.files) == old(Sidecars(state.files)))
    }

    /** The steps the others take before this call, as far as they are possible. */
    method Interference(p: ProcId)
      requires Inv(state) && p in state.procs
      modifies this
      ensures OthersRan(p)
    {
      var steps := oracle.others(turn);
      for i := 0 to |steps|
        invariant OthersRan(p)
      {
        var a := steps[i];
        if (a.LegacyExit? || a.p != p) && Step(state, a).Some? {
          StepKeepsInv(state, a);
          OthersLeaveProcessAlone(state, a, p);
          state := Step(state, a).value;
        }
      }
    }

    /** One step of the process that is followed. What it is told is logged. */
    method Perform(a: Action, ghost made: seq<Call>)
      requires Inv(state) && !a.LegacyExit? && Step(state, a).Some?
      modifies this
      ensures state == Step(old(state), a).value && calls == old(calls) + made
      ensures turn == old(turn) + 1
      ensures Inv(state) && state.procs.Keys == old(state.procs.Keys)
      ensures changes == old(changes) + if Sidecars(state.files) == old(Sidecars(state.files)) then 0 else 1
    {
      StepKeepsInv(state, a);
      ghost var before := Sidecars(state.files);
      state := Step(state, a).value;
      if Sidecars(state.files) != before {
        changes := changes + 1;
      }
      calls := calls + made;
      turn := turn + 1;
    }

    /* The calls, answered by the oracle. */

    /** Open the lock file, creating it and its directory if need be. */
    method OpenLockFile(p: ProcId) returns (ok: bool)
      requires Inv(state) && p in state.procs && state.procs[p].phase == Idle
      modifies this
      ensures Inv(state) && p in state.procs && state.procs[p].launch == old(state.procs[p].launch)
      ensures state.procs[p].phase == if ok then Opened else Done(NotOpened)
      ensures changes == old(changes) && calls == old(calls) + [OpenedLock(ok)] && turn == old(turn) + 1
      ensures ok == oracle.yes(old(turn))
    {
      Interference(p);
      ok := oracle.yes(turn);
      var a := if ok then OpenLock(p, oracle.inode(turn)) else FailToOpen(p);
      OnlyTheHolderTouchesFiles(state, a);
      Perform(a, [OpenedLock(ok)]);
    }

    /** Try to lock the open file, which works exactly if nobody holds it. */
    method TryLockFile(p: ProcId) returns (ok: bool)
      requires Inv(state) && p in state.procs && state.procs[p].phase == Opened
      modifies this
      ensures Inv(state) && p in state.procs && state.procs[p].launch == old(state.procs[p].launch)
      ensures state.procs[p].phase == if ok then Locked else Done(RefusedByLock)
      ensures changes == old(changes) && calls == old(calls) + [TriedLock(ok)] && turn == old(turn) + 1
    {
      Interference(p);
      ok := state.procs[p].inode !in state.holder;
      OnlyTheHolderTouchesFiles(state, TryLock(p));
      Perform(TryLock(p), [TriedLock(ok)]);
    }

    /** Probe the socket; the probe may also fail although a listener is there. */
    method ProbeSocket(p: ProcId) returns (answered: bool)
      requires Inv(state) && p in state.procs && state.procs[p].phase == Locked
      modifies this
      ensures Inv(state) && p in state.procs && state.procs[p].launch == old(state.procs[p].launch)
      ensures state.procs[p].phase == if answered then Done(RefusedBySocket) else Cleaning(0)
      ensures !answered ==> state.procs[p].kept == {}
      ensures changes == old(changes) && calls == old(calls) + [Probed(answered)] && turn == old(turn) + 1
      ensures answered == (oracle.yes(old(turn)) && Reachable(state))
    {
      Interference(p);
      answered := oracle.yes(turn) && Reachable(state);
      OnlyTheHolderTouchesFiles(state, CheckReady(p, answered));
      ProbeKeepsListener(state, p, answered);
      Perform(CheckReady(p, answered), [Probed(answered)]);
    }

    /** The removal of the next file, which may fail. */
    method RemoveNextFile(p: ProcId)
      requires Inv(state) && p in state.procs
      requires InCleanup(state.procs[p].phase) && state.procs[p].phase.removed < |CLEANUP_ORDER|
      modifies this
      ensures Inv(state) && p in state.procs && state.procs[p].launch == old(state.procs[p].launch)
      ensures state.procs[p].phase == AfterRemoving(old(state.procs[p].phase))
      ensures state.procs[p].phase.Done? ==> state.holder == map[] && Sidecars(state.files).Keys <= state.procs[p].kept
      ensures var f := CLEANUP_ORDER[old(state.procs[p].phase).removed];
        && calls == old(calls) + [Removed(f, oracle.yes(old(turn)))] && turn == old(turn) + 1
        && state.procs[p].kept == old(state.procs[p].kept) + if oracle.yes(old(turn)) then {} else {f}
    {
      Interference(p);
      var ok := oracle.yes(turn);
      RemovalAdvances(state, p, ok);
      Perform(RemoveNext(p, ok), [Removed(CLEANUP_ORDER[state.procs[p].phase.removed], ok)]);
    }

    /** Write the next metadata file, if the launch has a value for it; a failed
        write may leave any text behind. */
    method PublishNextFile(p: ProcId, k: nat, launch: Launch) returns (ok: bool)
      requires Inv(state) && p in state.procs && k < |PUBLISH_ORDER|
      requires state.procs[p].phase == Publishing(k) && state.procs[p].launch == launch
      modifies this
      ensures Inv(state) && p in state.procs && state.procs[p].launch == launch
      ensures state.procs[p].phase == if ok then AfterWriting(k) else Dropping(0, PublishFailed)
      ensures state.procs[p].kept == if ok then old(state.procs[p].kept) else {}
      ensures ok <==> oracle.write(old(turn)).Written? || Intended(launch, PUBLISH_ORDER[k]).None?
      ensures calls == old(calls) + WritesNext(launch, k, ok)
    {
      Interference(p);
      var result := oracle.write(turn);
      ok := result.Written? || Intended(launch, PUBLISH_ORDER[k]).None?;
      Perform(PublishNext(p, result), WritesNext(launch, k, ok));
    }

    /* The daemon's own code. */

    /** The removals of one cleanup. */
    method Cleanup(p: ProcId)
      requires Inv(state) && p in state.procs
      requires InCleanup(state.procs[p].phase) && state.procs[p].phase.removed == 0 && state.procs[p].kept == {}
      modifies this
      ensures Inv(state) && p in state.procs && state.procs[p].launch == old(state.procs[p].launch)
      ensures state.procs[p].phase == AfterCleanup(old(state.procs[p].phase))
      ensures state.procs[p].phase.Done? ==> state.holder == map[] && Sidecars(state.files).Keys <= state.procs[p].kept
      ensures old(calls) <= calls && |calls| == |old(calls)| + |CLEANUP_ORDER|
      ensures IsCleanup(calls[|old(calls)|..], state.procs[p].kept) && TriesEveryFile(calls[|old(calls)|..])
    {
      hide Inv, RemovedSoFar, IsCleanup, TriesEveryFile;
      ghost var start := state.procs[p].phase;
      ghost var before := calls;
      AllRemoved(calls[|before|..], {});
      for k := 0 to |CLEANUP_ORDER|
        invariant Inv(state) && p in state.procs && state.procs[p].launch == old(state.procs[p].launch)
        invariant k < |CLEANUP_ORDER| ==> state.procs[p].phase == start.(removed := k)
        invariant k == |CLEANUP_ORDER| ==> state.procs[p].phase == AfterCleanup(start)
        invariant state.procs[p].phase.Done? ==>
          state.holder == map[] && Sidecars(state.files).Keys <= state.procs[p].kept
        invariant before <= calls && |calls| == |before| + k
        invariant RemovedSoFar(calls[|before|..], state.procs[p].kept)
      {
        ghost var sofar, kept := calls[|before|..], state.procs[p].kept;
        RemoveNextFile(p);
        assert calls[|before|..] == sofar + [calls[|calls| - 1]];
        OneMoreRemoval(sofar, kept, CLEANUP_ORDER[k], calls[|calls| - 1], state.procs[p].kept);
      }
      AllRemoved(calls[|before|..], state.procs[p].kept);
    }

    /** Write the metadata in order, stopping at the first failure. */
    method Publish(p: ProcId) returns (ok: bool)
      requires Inv(state) && p in state.procs && state.procs[p].phase == Publishing(0)
      modifies this
      ensures Inv(state) && p in state.procs && state.procs[p].launch == old(state.procs[p].launch)
      ensures state.procs[p].phase == if ok then Owner else Dropping(0, PublishFailed)
      ensures state.procs[p].kept == if ok then old(state.procs[p].kept) else {}
      ensures old(calls) <= calls
      ensures if ok then IsPublication(calls[|old(calls)|..], state.procs[p].launch)
              else IsBrokenPublication(calls[|old(calls)|..], state.procs[p].launch)
    {
      hide Inv, AllWritten, Writes, IsBrokenPublication, WritesNext;
      ghost var before, kept := calls, state.procs[p].kept;
      var launch := state.procs[p].launch;
      OneMoreWrite(launch, 0);
      for k := 0 to |PUBLISH_ORDER|
        invariant Inv(state) && p in state.procs && state.procs[p].launch == launch && state.procs[p].kept == kept
        invariant state.procs[p].phase == if k < |PUBLISH_ORDER| then Publishing(k) else Owner
        invariant calls == before + AllWritten(Writes(launch, k))
      {
        ok := PublishNextFile(p, k, launch);
        OneMoreWrite(launch, k);
        ConcatIsAssociative(before, AllWritten(Writes(launch, k)), WritesNext(launch, k, ok));
        if !ok {
          BrokenAt(AllWritten(Writes(launch, k)) + WritesNext(launch, k, false), launch, k);
          return;
        }
      }
      ok := true;
    }

    /** The three hurdles before anything is changed, each taken once. */
    method Admit(p: ProcId) returns (refusal: Option<Outcome>)
      requires Inv(state) && p in state.procs && state.procs[p].phase == Idle
      modifies this
      ensures Inv(state) && p in state.procs && state.procs[p].launch == old(state.procs[p].launch)
      ensures changes == old(changes) && (refusal == Some(NotOpened) <==> !oracle.yes(old(turn)))
      ensures refusal.Some? ==> Refused(refusal.value) && state.procs[p].phase == Done(refusal.value)
      ensures refusal.None? ==> state.procs[p].phase == Cleaning(0) && state.procs[p].kept == {}
      ensures calls == old(calls) +
                       match refusal
                       case None => [OpenedLock(true), TriedLock(true), Probed(false)]
                       case Some(NotOpened) => [OpenedLock(false)]
                       case Some(RefusedByLock) => [OpenedLock(true), TriedLock(false)]
                       case Some(_) => [OpenedLock(true), TriedLock(true), Probed(true)]
    {
      hide Inv;
      var found := OpenLockFile(p);
      if !found {
        return Some(NotOpened);
      }
      var locked := TryLockFile(p);
      if !locked {
        return Some(RefusedByLock);
      }
      var answered := ProbeSocket(p);
      refusal := if answered then Some(RefusedBySocket) else None;
    }

    /** Clean up and publish; if publishing fails, clean up again. */
    method Establish(p: ProcId) returns (ok: bool)
      requires Inv(state) && p in state.procs && state.procs[p].phase == Cleaning(0) && state.procs[p].kept == {}
      modifies this
      ensures Inv(state) && p in state.procs && state.procs[p].launch == old(state.procs[p].launch)
      ensures state.procs[p].phase == if ok then Owner else Done(PublishFailed)
      ensures !ok ==> state.holder == map[] && Sidecars(state.files).Keys <= state.procs[p].kept
      ensures old(calls) <= calls
      ensures IsEstablishment(calls[|old(calls)|..], state.procs[p].launch, state.procs[p].kept, ok)
    {
      hide Inv, IsPublication, IsBrokenPublication, IsCleanup, TriesEveryFile;
      ghost var c0 := calls;
      Cleanup(p);
      ghost var c1 := calls;
      ok := Publish(p);
      ghost var c2 := calls;
      if !ok {
        Cleanup(p);
      }
      CutCalls(c0, c1, c2, calls);
    }

    /** Claim the session: Ok with exactly the caller's metadata published, or a
        refusal, none of whose steps changed a file, or a failed publication
        after which nothing is left behind. Which of these it is, is decided by
        the answers it got, each asked for once and in this order. */
    method Acquire(p: ProcId) returns (r: Result<(), Outcome>)
      requires Inv(state) && p in state.procs && state.procs[p].phase == Idle
      modifies this
      ensures Inv(state) && p in state.procs && state.procs[p].launch == old(state.procs[p].launch)
      ensures r.Ok? ==>
        && state.procs[p].phase == Owner
        && forall f | IsMetadata(f) :: Published(state.files, state.procs[p].launch, state.procs[p].kept, f)
      ensures r.Err? ==> state.procs[p].phase == Done(r.error) && (Refused(r.error) || r.error == PublishFailed)
      ensures r.Err? && Refused(r.error) ==> changes == old(changes)
      ensures r == Err(PublishFailed) ==>
        state.holder == map[] && Sidecars(state.files).Keys <= state.procs[p].kept
      ensures old(calls) <= calls
      ensures var made := calls[|old(calls)|..];
        && (r == Err(NotOpened) <==> made == [OpenedLock(false)])
        && (r == Err(RefusedByLock) <==> made == [OpenedLock(true), TriedLock(false)])
        && (r == Err(RefusedBySocket) <==> made == [OpenedLock(true), TriedLock(true), Probed(true)])
        && (r.Ok? || r == Err(PublishFailed) ==>
              && |made| >= 3 && made[..3] == [OpenedLock(true), TriedLock(true), Probed(false)]
              && IsEstablishment(made[3..], state.procs[p].launch, state.procs[p].kept, r.Ok?))
      ensures r == Err(NotOpened) <==> !oracle.yes(old(turn))
    {
      hide Inv, IsEstablishment, Published, IsMetadata;
      var refusal := Admit(p);
      if refusal.Some? {
        return Err(refusal.value);
      }
      ghost var before, admitted := old(calls), calls;
      var ok := Establish(p);
      AfterAdmission(before, [OpenedLock(true), TriedLock(true), Probed(false)], admitted, calls);
      assert calls[|before|..][2] == calls[|before|..][..3][2] == Probed(false);
      if !ok {
        return Err(PublishFailed);
      }
      OwnerHasPublished(state, p);
      r := Ok(());
    }

    /** The owner's destructor, after its listener is closed. */
    method Drop(p: ProcId)
      requires Inv(state) && p in state.procs && state.procs[p].phase == Draining
      modifies this
      ensures Inv(state) && p in state.procs && state.procs[p].phase == Done(Finished)
      ensures state.holder == map[] && Sidecars(state.files).Keys <= state.procs[p].kept
      ensures old(calls) <= calls && IsCleanup(calls[|old(calls)|..], state.procs[p].kept)
    {
      Interference(p);
      Perform(BeginDrop(p), []);
      Cleanup(p);
    }
  }

  /** The stretches of calls, cut where the phases begin. */
  lemma CutCalls(c0: seq<Call>, c1: seq<Call>, c2: seq<Call>, c3: seq<Call>)
    requires c0 <= c1 <= c2 <= c3
    ensures var made := c3[|c0|..];
      && made[..|c1| - |c0|] == c1[|c0|..]
      && made[|c1| - |c0|..|c2| - |c0|] == c2[|c1|..]
      && made[|c2| - |c0|..] == c3[|c2|..]
  {
  }

  lemma AfterAdmission(c0: seq<Call>, first: seq<Call>, c1: seq<Call>, c2: seq<Call>)
    requires c1 == c0 + first && c1 <= c2
    ensures c0 <= c2 && |c2| >= |c0| + |first|
    ensures c2[|c0|..][..|first|] == first && c2[|c0|..][|first|..] == c2[|c1|..]
  {
  }

  predicate RemovedSoFar(calls: seq<Call>, kept: set<File>) {
    && |calls| <= |CLEANUP_ORDER|
    && (forall i | 0 <= i < |calls| :: calls[i] == Removed(CLEANUP_ORDER[i], CLEANUP_ORDER[i] !in kept))
    && forall f | f in kept :: f in CLEANUP_ORDER[..|calls|]
  }

  lemma AllRemoved(calls: seq<Call>, kept: set<File>)
    ensures calls == [] && kept == {} ==> RemovedSoFar(calls, kept)
    ensures RemovedSoFar(calls, kept) && |calls| == |CLEANUP_ORDER| ==> IsCleanup(calls, kept) && TriesEveryFile(calls)
  {
  }

  lemma OneMoreRemoval(calls: seq<Call>, kept: set<File>, f: File, last: Call, later: set<File>)
    requires RemovedSoFar(calls, kept) && |calls| < |CLEANUP_ORDER| && f == CLEANUP_ORDER[|calls|]
    requires (last == Removed(f, true) && later == kept) || (last == Removed(f, false) && later == kept + {f})
    ensures RemovedSoFar(calls + [last], later)
  {
    FilesAreDistinct();
    var k := |calls|;
    assert CLEANUP_ORDER[..k + 1] == CLEANUP_ORDER[..k] + [f];
    assert f !in CLEANUP_ORDER[..k];
  }

  lemma FilesAreDistinct()
    ensures forall i, j | 0 <= i < j < |CLEANUP_ORDER| :: CLEANUP_ORDER[i] != CLEANUP_ORDER[j]
  {
  }

  lemma BrokenAt(calls: seq<Call>, launch: Launch, k: nat)
    requires k < |PUBLISH_ORDER| && Intended(launch, PUBLISH_ORDER[k]).Some?
    requires calls == AllWritten(Writes(launch, k)) + WritesNext(launch, k, false)
    ensures IsBrokenPublication(calls, launch)
  {
    assert BreaksAt(calls, launch, k);
  }

  lemma OwnerHasPublished(s: State, p: ProcId)
    requires Inv(s) && p in s.procs && s.procs[p].phase == Owner
    ensures forall f | IsMetadata(f) :: Published(s.files, s.procs[p].launch, s.procs[p].kept, f)
  {
    assert ProcInv(s, p);
  }

  lemma OneMoreWrite(launch: Launch, k: nat)
    requires k < |PUBLISH_ORDER|
    ensures AllWritten(Writes(launch, 0)) == []
    ensures AllWritten(Writes(launch, k + 1)) == AllWritten(Writes(launch, k)) + WritesNext(launch, k, true)
  {
    var before, f := Writes(launch, k), PUBLISH_ORDER[k];
    assert (before + [f])[..|before|] == before;
    assert before + [] == before;
  }

  /** The listener that a probe finds, or misses, is still there after it. */
  lemma ProbeKeepsListener(s: State, p: ProcId, answered: bool)
    requires Inv(s) && Step(s, CheckReady(p, answered)).Some?
    ensures Reachable(Step(s, CheckReady(p, answered)).value) == Reachable(s)
  {
    assert ProcInv(s, p);
  }

  lemma OthersLeaveProcessAlone(s: State, a: Action, p: ProcId)
    requires Inv(s) && Step(s, a).Some? && p in s.procs
    requires a.LegacyExit? || a.p != p
    ensures Step(s, a).value.procs.Keys == s.procs.Keys
    ensures Step(s, a).value.procs[p] == s.procs[p]
    ensures HoldsLock(s.procs[p].phase) ==> Sidecars(Step(s, a).value.files) == Sidecars(s.files)
  {
    StepKeepsProcessSet(s, a);
    if HoldsLock(s.procs[p].phase) {
      if a.LegacyExit? || !HoldsLock(s.procs[a.p].phase) { OnlyTheHolderTouchesFiles(s, a); }
      else { HoldersAreUnique(s, a.p, p); }
    }
  }

  /** Where a whole cleanup leads. */
  function AfterCleanup(phase: Phase): Phase
    requires InCleanup(phase)
  {
    if phase.Cleaning? then Publishing(0) else Done(phase.outcome)
  }

  function AfterRemoving(phase: Phase): Phase
    requires InCleanup(phase)
  {
    if phase.removed + 1 < |CLEANUP_ORDER| then phase.(removed := phase.removed + 1) else AfterCleanup(phase)
  }

  lemma RemovalAdvances(s: State, p: ProcId, ok: bool)
    requires Inv(s) && p in s.procs && InCleanup(s.procs[p].phase)
    requires s.procs[p].phase.removed < |CLEANUP_ORDER|
    ensures Step(s, RemoveNext(p, ok)).Some?
    ensures var u := Step(s, RemoveNext(p, ok)).value;
      && u.procs[p].phase == AfterRemoving(s.procs[p].phase)
      && u.procs[p].launch == s.procs[p].launch
      && (u.procs[p].phase.Done? ==> u.holder == map[] && Sidecars(u.files).Keys <= u.procs[p].kept)
  {
    assert ProcInv(s, p);
    var k := s.procs[p].phase.removed;
    RemovalClears(s, p, k, ok);
    var r := RemoveFile(s, p, CLEANUP_ORDER[k], ok);
    var u := Step(s, RemoveNext(p, ok)).value;
    if u.procs[p].phase.Done? {
      forall f | f in Sidecars(u.files) ensures f in u.procs[p].kept {
        assert Cleared(r.files, r.procs[p].kept, f);
      }
    }
  }
}
