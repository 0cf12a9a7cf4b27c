/**
 Walking the socket directory: list the live daemons and remove the files that
 dead ones left behind.
 */
module DaemonWalk {
  import opened Ascii
  import opened AsciiLaws
  import opened Wrappers

  datatype File = Text(text: string) | Unreadable

  type Files = map<string, File>

  /** The sidecar files that are cleaned up with a session. */
  function FilesOf(session: string): set<string> {
    {session + ".pid", session + ".version", session + ".config", session + ".stream", session + ".sock"}
  }

  function StripSuffix(name: string, suffix: string): (r: Option<string>)
    ensures r.Some? ==> name == r.value + suffix
  {
    if |suffix| <= |name| && name[|name| - |suffix|..] == suffix
    then Some(name[..|name| - |suffix|]) else None
  }

  function PidIn(files: Files, name: string): Option<nat> {
    if name in files && files[name].Text? then ParseU32(Trim(files[name].text)) else None
  }

  function VersionIn(files: Files, session: string): Option<string> {
    var name := session + ".version";
    if name in files && files[name].Text? && Trim(files[name].text) != "" then Some(Trim(files[name].text)) else None
  }

  /** The session's pid file names a living process. */
  predicate Live(files: Files, alive: set<nat>, session: string) {
    var pid := PidIn(files, session + ".pid");
    pid.Some? && pid.value in alive
  }

  datatype ActiveSession = ActiveSession(name: string, pid: nat, version: Option<string>)
  datatype CleanReason = ProcessGone | UnreadablePidFile | OrphanedSocket | DashboardGone
  datatype CleanedSession = CleanedSession(name: string, reason: CleanReason)
  datatype DashboardInfo = DashboardInfo(pid: nat, alive: bool)

  datatype Inventory = Inventory(
    sessions: seq<ActiveSession>,
    cleaned: seq<CleanedSession>,
    dashboard: Option<DashboardInfo>)
  {
    function Then(later: Inventory): Inventory {
      Inventory(sessions + later.sessions, cleaned + later.cleaned, later.dashboard.Or(dashboard))
    }
  }

  const EMPTY := Inventory([], [], None)
  const DASHBOARD := "dashboard.pid"

  function FoundSession(s: ActiveSession): Inventory { Inventory([s], [], None) }
  function FoundStale(name: string, reason: CleanReason): Inventory {
    Inventory([], [CleanedSession(name, reason)], None)
  }

  /** The session a directory entry is the pid file of, for the walk. */
  function SessionOf(entry: string): Option<string> {
    var session := StripSuffix(entry, ".pid");
    if entry == DASHBOARD || session == Some("") then None else session
  }

  predicate DashboardIsGone(files: Files, alive: set<nat>) {
    var pid := PidIn(files, DASHBOARD);
    pid.Some? && pid.value !in alive
  }

  /** The files removed because of one entry, in the first pass. */
  function Drops(files: Files, alive: set<nat>, entry: string): set<string> {
    if entry == DASHBOARD then
      if DashboardIsGone(files, alive) then {DASHBOARD, "dashboard.config"} else {}
    else
      var session := SessionOf(entry);
      if session.Some? && !Live(files, alive, session.value) then FilesOf(session.value) else {}
  }

  /** What is reported because of one entry, in the first pass. */
  function Sees(files: Files, alive: set<nat>, entry: string): Inventory {
    var pid := PidIn(files, entry);
    if entry == DASHBOARD then
      if pid.None? then EMPTY
      else
        Inventory([], if pid.value in alive then [] else [CleanedSession("dashboard", DashboardGone)],
                  Some(DashboardInfo(pid.value, pid.value in alive)))
    else
      var session := SessionOf(entry);
      if session.None? then EMPTY
      else if pid.None? then FoundStale(session.value, UnreadablePidFile)
      else if pid.value !in alive then FoundStale(session.value, ProcessGone)
      else FoundSession(ActiveSession(session.value, pid.value, VersionIn(files, session.value)))
  }

  /** The session whose socket has no pid file, for an entry of the second pass. */
  function OrphanOf(files: Files, entry: string): Option<string> {
    var session := StripSuffix(entry, ".sock");
    if session.Some? && session.value != "" && session.value + ".pid" !in files then session else None
  }

  function OrphanDrops(files: Files, entry: string): set<string> {
    var orphan := OrphanOf(files, entry);
    if orphan.Some? then FilesOf(orphan.value) else {}
  }

  function OrphanSees(files: Files, entry: string): Inventory {
    var orphan := OrphanOf(files, entry);
    if orphan.Some? then FoundStale(orphan.value, OrphanedSocket) else EMPTY
  }

  function AllDrops(files: Files, alive: set<nat>, entries: seq<string>): set<string> {
    if entries == [] then {}
    else AllDrops(files, alive, entries[..|entries| - 1]) + Drops(files, alive, entries[|entries| - 1])
  }

  function AllSees(files: Files, alive: set<nat>, entries: seq<string>): Inventory {
    if entries == [] then EMPTY
    else AllSees(files, alive, entries[..|entries| - 1]).Then(Sees(files, alive, entries[|entries| - 1]))
  }

  function AllOrphanDrops(files: Files, entries: seq<string>): set<string> {
    if entries == [] then {}
    else AllOrphanDrops(files, entries[..|entries| - 1]) + OrphanDrops(files, entries[|entries| - 1])
  }

  function AllOrphanSees(files: Files, entries: seq<string>): Inventory {
    if entries == [] then EMPTY
    else AllOrphanSees(files, entries[..|entries| - 1]).Then(OrphanSees(files, entries[|entries| - 1]))
  }

  /** A listing of the directory: every name once, in any order. */
  ghost predicate Lists(entries: seq<string>, files: Files) {
    && (forall n :: n in entries <==> n in files)
    && (forall i, j | 0 <= i < j < |entries| :: entries[i] != entries[j])
  }

  /** The directory after each pass, whatever the order of the listing. */
  ghost function AfterFirst(files: Files, alive: set<nat>): Files {
    map n | n in files && !(exists e | e in files :: n in Drops(files, alive, e)) :: files[n]
  }

  ghost function AfterSecond(files: Files): Files {
    map n | n in files && !(exists e | e in files :: n in OrphanDrops(files, e)) :: files[n]
  }

  ghost function AfterWalk(files: Files, alive: set<nat>): Files { AfterSecond(AfterFirst(files, alive)) }

  /* ---------- Names ---------- */

  /** No two sidecar names coincide, whatever the session names are. */
  lemma SidecarsAreApart(x: string, e: string, y: string, f: string)
    requires e in {".pid", ".version", ".config", ".stream", ".sock"}
    requires f in {".pid", ".version", ".config", ".stream", ".sock"}
    requires x + e == y + f
    ensures x == y && e == f
  {
    assert (x + e)[|x + e| - 1] == e[|e| - 1] && (y + f)[|y + f| - 1] == f[|f| - 1];
    assert |x| == |y|;
    assert (x + e)[..|x|] == x && (y + f)[..|y|] == y;
  }

  lemma SidecarsHaveOneSession(n: string, x: string, y: string)
    requires n in FilesOf(x) && n in FilesOf(y)
    ensures x == y
  {
    var e :| e in {".pid", ".version", ".config", ".stream", ".sock"} && n == x + e;
    var f :| f in {".pid", ".version", ".config", ".stream", ".sock"} && n == y + f;
    SidecarsAreApart(x, e, y, f);
  }

  function SuffixLess(name: string, suffix: string): string
    requires |suffix| <= |name|
  {
    name[..|name| - |suffix|]
  }

  lemma SuffixStrips(x: string, suffix: string)
    ensures StripSuffix(x + suffix, suffix) == Some(x)
  {
  }

  /** A sidecar is removed in the first pass only because of its own pid file,
      and never if that names a living process. */
  lemma DroppedByOwnPid(files: Files, alive: set<nat>, entry: string, n: string, x: string)
    requires n in Drops(files, alive, entry) && n in FilesOf(x)
    ensures entry == x + ".pid" && !Live(files, alive, x)
  {
    hide StripSuffix, PidIn;
    if entry == DASHBOARD {
      assert "dashboard" + ".pid" == DASHBOARD && "dashboard" + ".config" == "dashboard.config";
      SidecarsHaveOneSession(n, x, "dashboard");
    } else {
      SidecarsHaveOneSession(n, x, SessionOf(entry).value);
    }
  }

  lemma OrphanDroppedBySocket(files: Files, entry: string, n: string, x: string)
    requires n in OrphanDrops(files, entry) && n in FilesOf(x)
    ensures entry == x + ".sock" && x + ".pid" !in files && x != ""
  {
    hide StripSuffix;
    SidecarsHaveOneSession(n, x, OrphanOf(files, entry).value);
  }

  /* ---------- The walk ---------- */

  class SocketDirectory {
    var files: Files
    const alive: set<nat>
    /** Whether the directory can be listed. */
    const readable: bool

    constructor (files: Files, alive: set<nat>, readable: bool)
      ensures this.files == files && this.alive == alive && this.readable == readable
    {
      this.files, this.alive, this.readable := files, alive, readable;
    }

    method ReadDir() returns (entries: seq<string>)
      ensures Lists(entries, files)
    {
      entries := [];
      var rest := files.Keys;
      while rest != {}
        invariant rest <= files.Keys
        invariant forall n :: n in entries <==> n in files && n !in rest
        invariant forall i, j | 0 <= i < j < |entries| :: entries[i] != entries[j]
      {
        var n :| n in rest;
        entries, rest := entries + [n], rest - {n};
      }
    }

    method CleanupStaleFiles(session: string)
      modifies this
      ensures files == old(files) - FilesOf(session)
    {
      files := files - {session + ".pid"};
      files := files - {session + ".version"};
      files := files - {session + ".config"};
      files := files - {session + ".stream"};
      files := files - {session + ".sock"};
    }

    method VisitDashboard(inventory: Inventory) returns (r: Inventory)
      modifies this
      ensures files == old(files) - Drops(old(files), alive, DASHBOARD)
      ensures r == inventory.Then(Sees(old(files), alive, DASHBOARD))
    {
      hide PidIn, SessionOf, Live;
      r := inventory;
      var pid := PidIn(files, DASHBOARD);
      if pid.Some? {
        var living := pid.value in alive;
        r := r.(dashboard := Some(DashboardInfo(pid.value, living)));
        if !living {
          files := files - {DASHBOARD};
          files := files - {"dashboard.config"};
          r := r.(cleaned := r.cleaned + [CleanedSession("dashboard", DashboardGone)]);
        }
      }
    }

    /** One round of the first loop. */
    method VisitEntry(entry: string, inventory: Inventory) returns (r: Inventory)
      modifies this
      ensures files == old(files) - Drops(old(files), alive, entry)
      ensures r == inventory.Then(Sees(old(files), alive, entry))
    {
      hide PidIn, StripSuffix, FilesOf, VersionIn;
      if entry == DASHBOARD {
        r := VisitDashboard(inventory);
        return;
      }
      r := inventory;
      var session := SessionOf(entry);
      if session.None? {
        return;
      }
      var pid := PidIn(files, entry);
      if pid.None? {
        CleanupStaleFiles(session.value);
        r := r.(cleaned := r.cleaned + [CleanedSession(session.value, UnreadablePidFile)]);
        return;
      }
      if pid.value !in alive {
        CleanupStaleFiles(session.value);
        r := r.(cleaned := r.cleaned + [CleanedSession(session.value, ProcessGone)]);
        return;
      }
      var version := VersionIn(files, session.value);
      r := r.(sessions := r.sessions + [ActiveSession(session.value, pid.value, version)]);
    }

    /** One round of the second loop. */
    method VisitSocket(entry: string, inventory: Inventory) returns (r: Inventory)
      modifies this
      ensures files == old(files) - OrphanDrops(old(files), entry)
      ensures r == inventory.Then(OrphanSees(old(files), entry))
    {
      hide StripSuffix, FilesOf;
      r := inventory;
      var session := StripSuffix(entry, ".sock");
      if session.Some? {
        if session.value == "" {
          return;
        }
        if session.value + ".pid" !in files {
          CleanupStaleFiles(session.value);
          r := r.(cleaned := r.cleaned + [CleanedSession(session.value, OrphanedSocket)]);
        }
      }
    }

    /** List the daemons and clean up: the outcome is that of judging every
        entry by the directory as it was when the pass began. */
    method WalkDaemons() returns (inventory: Inventory, ghost first: seq<string>, ghost second: seq<string>)
      modifies this
      ensures !readable ==> files == old(files) && inventory == EMPTY
      ensures readable ==>
        && files == AfterWalk(old(files), alive)
        && Lists(first, old(files)) && Lists(second, AfterFirst(old(files), alive))
        && (inventory == AllSees(old(files), alive, first).Then(AllOrphanSees(AfterFirst(old(files), alive), second)))
    {
      hide Drops, Sees, OrphanDrops, OrphanSees, AllDrops, AllSees, AllOrphanDrops, AllOrphanSees;
      inventory, first, second := EMPTY, [], [];
      if !readable {
        return;
      }
      ghost var before := files;
      var entries := ReadDir();
      first := entries;
      FirstStep(before, alive, entries, 0);
      for i := 0 to |entries|
        invariant files == before - AllDrops(before, alive, entries[..i])
        invariant inventory == AllSees(before, alive, entries[..i])
      {
        FirstStep(before, alive, entries, i);
        inventory := VisitEntry(entries[i], inventory);
      }
      assert entries[..|entries|] == entries;
      FirstPassIsComplete(before, alive, entries);
      ghost var between, found := files, inventory;
      var sockets := ReadDir();
      second := sockets;
      SecondStep(between, sockets, 0);
      for i := 0 to |sockets|
        invariant files == between - AllOrphanDrops(between, sockets[..i])
        invariant inventory == found.Then(AllOrphanSees(between, sockets[..i]))
      {
        SecondStep(between, sockets, i);
        inventory := VisitSocket(sockets[i], inventory);
      }
      assert sockets[..|sockets|] == sockets;
      SecondPassIsComplete(between, sockets);
    }
  }

  /** What was removed before does not change what an entry amounts to. */
  lemma FirstStep(files: Files, alive: set<nat>, entries: seq<string>, i: nat)
    requires Lists(entries, files) && i <= |entries|
    ensures AllDrops(files, alive, entries[..0]) == {} && AllSees(files, alive, entries[..0]) == EMPTY
    ensures i < |entries| ==>
      var now := files - AllDrops(files, alive, entries[..i]);
      && Drops(now, alive, entries[i]) == Drops(files, alive, entries[i])
      && Sees(now, alive, entries[i]) == Sees(files, alive, entries[i])
      && now - Drops(files, alive, entries[i]) == files - AllDrops(files, alive, entries[..i + 1])
      && (AllSees(files, alive, entries[..i + 1])
          == AllSees(files, alive, entries[..i]).Then(Sees(files, alive, entries[i])))
  {
    hide Drops, Sees;
    if i < |entries| {
      assert entries[..i + 1][..i] == entries[..i];
      var now := files - AllDrops(files, alive, entries[..i]);
      JudgedAlike(files, alive, entries[..i], entries[i]);
    }
  }

  lemma {:induction false} AllDropsComeFromOne(files: Files, alive: set<nat>, entries: seq<string>, n: string)
    ensures n in AllDrops(files, alive, entries) <==> exists e | e in entries :: n in Drops(files, alive, e)
  {
    hide Drops;
    if entries != [] {
      var k := |entries| - 1;
      assert entries == entries[..k] + [entries[k]];
      AllDropsComeFromOne(files, alive, entries[..k], n);
    }
  }

  lemma JudgedBy(files: Files, now: Files, alive: set<nat>, entry: string)
    requires entry == DASHBOARD || SessionOf(entry).Some? ==> PidIn(now, entry) == PidIn(files, entry)
    requires SessionOf(entry).Some? ==>
      VersionIn(now, SessionOf(entry).value) == VersionIn(files, SessionOf(entry).value)
    ensures Drops(now, alive, entry) == Drops(files, alive, entry)
    ensures Sees(now, alive, entry) == Sees(files, alive, entry)
  {
    hide PidIn, VersionIn, StripSuffix, FilesOf;
    if SessionOf(entry).Some? { assert SessionOf(entry).value + ".pid" == entry; }
  }

  lemma ReadAlike(files: Files, dropped: set<string>, name: string, session: string)
    ensures name !in dropped ==> PidIn(files - dropped, name) == PidIn(files, name)
    ensures session + ".version" !in dropped ==> VersionIn(files - dropped, session) == VersionIn(files, session)
  {
    hide ParseU32, Trim;
  }

  lemma JudgedAlike(files: Files, alive: set<nat>, done: seq<string>, entry: string)
    requires entry !in done
    ensures var now := files - AllDrops(files, alive, done);
            && Drops(now, alive, entry) == Drops(files, alive, entry)
            && Sees(now, alive, entry) == Sees(files, alive, entry)
  {
    hide Drops, AllDrops, Sees, PidIn, VersionIn, FilesOf;
    var now := files - AllDrops(files, alive, done);
    if entry == DASHBOARD {
      assert "dashboard" + ".pid" == DASHBOARD;
      PidIsSidecar("dashboard");
      SidecarStays(files, alive, done, entry, "dashboard");
      ReadAlike(files, AllDrops(files, alive, done), entry, "dashboard");
    } else if SessionOf(entry).Some? {
      var x := SessionOf(entry).value;
      assert x + ".pid" == entry;
      PidIsSidecar(x);
      SidecarStays(files, alive, done, entry, x);
      SidecarStays(files, alive, done, x + ".version", x);
      ReadAlike(files, AllDrops(files, alive, done), entry, x);
    }
    JudgedBy(files, now, alive, entry);
  }

  /** The sidecars of a session stay until its own pid file is visited. */
  lemma SidecarStays(files: Files, alive: set<nat>, done: seq<string>, n: string, x: string)
    requires n in FilesOf(x) && x + ".pid" !in done
    ensures n !in AllDrops(files, alive, done)
  {
    hide FilesOf, Drops, AllDrops;
    AllDropsComeFromOne(files, alive, done, n);
    if n in AllDrops(files, alive, done) {
      var e :| e in done && n in Drops(files, alive, e);
      DroppedByOwnPid(files, alive, e, n, x);
    }
  }

  lemma FirstPassIsComplete(files: Files, alive: set<nat>, entries: seq<string>)
    requires Lists(entries, files)
    ensures files - AllDrops(files, alive, entries) == AfterFirst(files, alive)
  {
    hide Drops, AllDrops;
    forall n | n in files ensures n in AllDrops(files, alive, entries) <==> n !in AfterFirst(files, alive) {
      AllDropsComeFromOne(files, alive, entries, n);
    }
  }

  lemma {:induction false} AllOrphanDropsComeFromOne(files: Files, entries: seq<string>, n: string)
    ensures n in AllOrphanDrops(files, entries) <==> exists e | e in entries :: n in OrphanDrops(files, e)
  {
    hide OrphanDrops;
    if entries != [] {
      var k := |entries| - 1;
      assert entries == entries[..k] + [entries[k]];
      AllOrphanDropsComeFromOne(files, entries[..k], n);
    }
  }

  lemma OrphansStayTheSame(files: Files, done: seq<string>, entry: string)
    ensures OrphanOf(files - AllOrphanDrops(files, done), entry) == OrphanOf(files, entry)
  {
    hide OrphanDrops, AllOrphanDrops;
    var session := StripSuffix(entry, ".sock");
    if session.Some? {
      var pid := session.value + ".pid";
      AllOrphanDropsComeFromOne(files, done, pid);
      if pid in AllOrphanDrops(files, done) {
        var e :| e in done && pid in OrphanDrops(files, e);
        OrphanDroppedBySocket(files, e, pid, session.value);
      }
    }
  }

  lemma SecondStep(files: Files, entries: seq<string>, i: nat)
    requires i <= |entries|
    ensures AllOrphanDrops(files, entries[..0]) == {} && AllOrphanSees(files, entries[..0]) == EMPTY
    ensures i < |entries| ==>
      var now := files - AllOrphanDrops(files, entries[..i]);
      && OrphanDrops(now, entries[i]) == OrphanDrops(files, entries[i])
      && OrphanSees(now, entries[i]) == OrphanSees(files, entries[i])
      && now - OrphanDrops(files, entries[i]) == files - AllOrphanDrops(files, entries[..i + 1])
      && (AllOrphanSees(files, entries[..i + 1])
          == AllOrphanSees(files, entries[..i]).Then(OrphanSees(files, entries[i])))
  {
    if i < |entries| {
      assert entries[..i + 1][..i] == entries[..i];
      OrphansStayTheSame(files, entries[..i], entries[i]);
    }
  }

  lemma SecondPassIsComplete(files: Files, entries: seq<string>)
    requires Lists(entries, files)
    ensures files - AllOrphanDrops(files, entries) == AfterSecond(files)
  {
    hide OrphanDrops, AllOrphanDrops;
    forall n | n in files ensures n in AllOrphanDrops(files, entries) <==> n !in AfterSecond(files) {
      AllOrphanDropsComeFromOne(files, entries, n);
    }
  }

  /* ---------- What a walk leaves behind ---------- */

  /** Nothing of a session whose pid file names a living process is removed or
      changed, not even of a process that is no daemon of this program. */
  lemma LiveSessionsAreUntouched(files: Files, alive: set<nat>, x: string, n: string)
    requires Live(files, alive, x) && n in FilesOf(x) && n in files
    ensures n in AfterWalk(files, alive) && AfterWalk(files, alive)[n] == files[n]
  {
    hide Live, FilesOf, AfterWalk;
    OnlyDeadSessionsLoseFiles(files, alive, n);
    forall y | n in FilesOf(y) ensures y == x { SidecarsHaveOneSession(n, x, y); }
  }

  /** Whatever a walk removes is a sidecar of a session whose pid file, if there
      is one, names no living process; all other files stay as they were. */
  lemma OnlyDeadSessionsLoseFiles(files: Files, alive: set<nat>, n: string)
    requires n in files
    ensures n !in AfterWalk(files, alive) ==> exists x :: n in FilesOf(x) && !Live(files, alive, x)
    ensures n in AfterWalk(files, alive) ==> AfterWalk(files, alive)[n] == files[n]
  {
    hide Live, StripSuffix, PidIn;
    var between := AfterFirst(files, alive);
    if n !in between {
      var e :| e in files && n in Drops(files, alive, e);
      var x := if e == DASHBOARD then "dashboard" else SessionOf(e).value;
      assert "dashboard" + ".pid" == DASHBOARD && "dashboard" + ".config" == "dashboard.config";
      assert n in FilesOf(x);
      DroppedByOwnPid(files, alive, e, n, x);
    } else if n !in AfterSecond(between) {
      var e :| e in between && n in OrphanDrops(between, e);
      var x := OrphanOf(between, e).value;
      OrphanDroppedBySocket(between, e, n, x);
      if Live(files, alive, x) { PidOfTheLivingStays(files, alive, x); }
    }
  }

  lemma PidOfTheLivingStays(files: Files, alive: set<nat>, x: string)
    requires Live(files, alive, x)
    ensures x + ".pid" in AfterFirst(files, alive)
  {
    var pid := x + ".pid";
    assert pid in files;
    PidIsSidecar(x);
    hide Live, Drops, FilesOf;
    forall e | e in files ensures pid !in Drops(files, alive, e) {
      if pid in Drops(files, alive, e) { DroppedByOwnPid(files, alive, e, pid, x); }
    }
  }

  lemma PidIsSidecar(x: string)
    ensures x + ".pid" in FilesOf(x) && x + ".version" in FilesOf(x) && x + ".sock" in FilesOf(x)
  {
  }

  /** After a walk every session pid file names a living process. */
  lemma PidFilesNameTheLiving(files: Files, alive: set<nat>, x: string)
    requires x != "" && x != "dashboard" && x + ".pid" in AfterWalk(files, alive)
    ensures Live(AfterWalk(files, alive), alive, x) && Live(files, alive, x)
  {
    hide OrphanDrops, PidIn;
    var pid := x + ".pid";
    SuffixStrips(x, ".pid");
    assert "dashboard" + ".pid" == DASHBOARD && SuffixLess(pid, ".pid") == x;
    assert pid in files && pid !in Drops(files, alive, pid);
    PidIsSidecar(x);
    SamePid(files, AfterWalk(files, alive), pid);
  }

  lemma SamePid(files: Files, later: Files, name: string)
    requires name in later && name in files && later[name] == files[name]
    ensures PidIn(later, name) == PidIn(files, name)
  {
  }

  /** After a walk every socket has its pid file. */
  lemma SocketsHavePidFiles(files: Files, alive: set<nat>, x: string)
    requires x != ""
    ensures x + ".sock" in AfterWalk(files, alive) ==> x + ".pid" in AfterWalk(files, alive)
  {
    hide Drops;
    var between := AfterFirst(files, alive);
    var sock, pid := x + ".sock", x + ".pid";
    SuffixStrips(x, ".sock");
    PidIsSidecar(x);
    if sock in AfterWalk(files, alive) {
      assert sock in between && sock !in OrphanDrops(between, sock);
      assert pid in between;
      forall e | e in between ensures pid !in OrphanDrops(between, e) {
        if pid in OrphanDrops(between, e) { OrphanDroppedBySocket(between, e, pid, x); }
      }
    }
  }

  lemma NothingIsStale(files: Files, alive: set<nat>, entry: string)
    requires entry in AfterWalk(files, alive)
    ensures Drops(AfterWalk(files, alive), alive, entry) == {}
    ensures Sees(AfterWalk(files, alive), alive, entry).cleaned == []
    ensures OrphanDrops(AfterWalk(files, alive), entry) == {}
    ensures OrphanSees(AfterWalk(files, alive), entry).cleaned == []
  {
    hide OrphanDrops, PidIn, AfterSecond;
    var after := AfterWalk(files, alive);
    OrphansAreGone(files, alive, entry);
    if entry == DASHBOARD {
      DashboardIsNotGone(files, alive);
    } else if SessionOf(entry).Some? {
      var x := SessionOf(entry).value;
      assert x + ".pid" == entry;
      NameIsNotDashboard(x);
      PidFilesNameTheLiving(files, alive, x);
    }
  }

  lemma NameIsNotDashboard(x: string)
    requires x + ".pid" != DASHBOARD
    ensures x != "dashboard"
  {
    assert "dashboard" + ".pid" == DASHBOARD;
  }

  lemma DashboardIsNotGone(files: Files, alive: set<nat>)
    requires DASHBOARD in AfterWalk(files, alive)
    ensures !DashboardIsGone(AfterWalk(files, alive), alive)
  {
    hide OrphanDrops, PidIn;
    assert DASHBOARD in files && DASHBOARD !in Drops(files, alive, DASHBOARD);
    SamePid(files, AfterWalk(files, alive), DASHBOARD);
  }

  lemma OrphansAreGone(files: Files, alive: set<nat>, entry: string)
    requires entry in AfterWalk(files, alive)
    ensures OrphanOf(AfterWalk(files, alive), entry) == None
    ensures OrphanDrops(AfterWalk(files, alive), entry) == {}
    ensures OrphanSees(AfterWalk(files, alive), entry).cleaned == []
  {
    hide AfterWalk, StripSuffix;
    var session := StripSuffix(entry, ".sock");
    if session.Some? && session.value != "" { SocketsHavePidFiles(files, alive, session.value); }
  }

  lemma {:induction false} NothingCleaned(files: Files, alive: set<nat>, entries: seq<string>)
    requires forall e | e in entries :: e in AfterWalk(files, alive)
    ensures AllSees(AfterWalk(files, alive), alive, entries).cleaned == []
    ensures AllOrphanSees(AfterWalk(files, alive), entries).cleaned == []
  {
    hide AfterWalk, Sees, OrphanSees;
    if entries != [] {
      var k := |entries| - 1;
      assert entries[k] in entries && forall e | e in entries[..k] :: e in entries;
      NothingIsStale(files, alive, entries[k]);
      NothingCleaned(files, alive, entries[..k]);
    }
  }

  /** A walk reaches a fixpoint: a second one, whatever the order of its
      listings, removes no file and reports nothing cleaned. */
  lemma SecondWalkCleansNothing(files: Files, alive: set<nat>, first: seq<string>, second: seq<string>)
    requires Lists(first, AfterWalk(files, alive))
    requires Lists(second, AfterFirst(AfterWalk(files, alive), alive))
    ensures AfterWalk(AfterWalk(files, alive), alive) == AfterWalk(files, alive)
    ensures AllSees(AfterWalk(files, alive), alive, first)
              .Then(AllOrphanSees(AfterFirst(AfterWalk(files, alive), alive), second)).cleaned == []
  {
    hide Drops, OrphanDrops, AllSees, AllOrphanSees;
    var after := AfterWalk(files, alive);
    forall e | e in after ensures Drops(after, alive, e) == {} && OrphanDrops(after, e) == {} {
      NothingIsStale(files, alive, e);
    }
    assert AfterFirst(after, alive) == after;
    assert AfterSecond(after) == after;
    NothingCleaned(files, alive, first);
    NothingCleaned(files, alive, second);
  }

  /* ---------- What a walk reports ---------- */

  /** The session as the directory describes it. */
  predicate Describes(files: Files, alive: set<nat>, s: ActiveSession) {
    && s.name != "" && s.name != "dashboard"
    && PidIn(files, s.name + ".pid") == Some(s.pid) && s.pid in alive
    && s.version == VersionIn(files, s.name)
  }

  lemma SeenSessionIsDescribed(files: Files, alive: set<nat>, entry: string, s: ActiveSession)
    ensures s in Sees(files, alive, entry).sessions <==> entry == s.name + ".pid" && Describes(files, alive, s)
  {
    hide PidIn, VersionIn;
    assert "dashboard" + ".pid" == DASHBOARD;
    SuffixStrips(s.name, ".pid");
    if entry == s.name + ".pid" && s.name != "dashboard" { SidecarsDiffer(s.name, "dashboard"); }
  }

  lemma SidecarsDiffer(x: string, y: string)
    requires x != y
    ensures x + ".pid" != y + ".pid"
  {
    if x + ".pid" == y + ".pid" { SidecarsAreApart(x, ".pid", y, ".pid"); }
  }

  lemma {:induction false} ReportedByOne(files: Files, alive: set<nat>, entries: seq<string>, s: ActiveSession)
    ensures s in AllSees(files, alive, entries).sessions
            <==> exists e | e in entries :: s in Sees(files, alive, e).sessions
  {
    hide Sees;
    if entries != [] {
      var k := |entries| - 1;
      assert entries == entries[..k] + [entries[k]];
      ReportedByOne(files, alive, entries[..k], s);
    }
  }

  lemma {:induction false} OrphansAreNoSessions(files: Files, entries: seq<string>)
    ensures AllOrphanSees(files, entries).sessions == []
  {
    if entries != [] { OrphansAreNoSessions(files, entries[..|entries| - 1]); }
  }

  /** The sessions reported are exactly those whose pid file names a living
      process, with that process and the version beside it. */
  lemma ReportIsExact(files: Files, alive: set<nat>, first: seq<string>, second: seq<string>, s: ActiveSession)
    requires Lists(first, files)
    ensures (s in AllSees(files, alive, first).Then(AllOrphanSees(AfterFirst(files, alive), second)).sessions
             <==> Describes(files, alive, s))
  {
    hide Sees, AllSees, Describes, AllOrphanSees;
    OrphansAreNoSessions(AfterFirst(files, alive), second);
    ReportedByOne(files, alive, first, s);
    forall e ensures s in Sees(files, alive, e).sessions <==> e == s.name + ".pid" && Describes(files, alive, s) {
      SeenSessionIsDescribed(files, alive, e, s);
    }
    if Describes(files, alive, s) { DescribedIsListed(files, alive, s); }
  }

  lemma DescribedIsListed(files: Files, alive: set<nat>, s: ActiveSession)
    requires Describes(files, alive, s)
    ensures s.name + ".pid" in files
  {
  }

  /** A pid file is read as the number printed in it, a version file as its text,
      without the white space around them. */
  lemma SidecarsAreRead(files: Files, session: string, before: string, n: nat, v: string, after: string)
    requires AllSpaces(before) && AllSpaces(after)
    ensures session + ".pid" in files && files[session + ".pid"] == Text(before + Decimal(n) + after) ==>
      PidIn(files, session + ".pid") == if n < 0x1_0000_0000 then Some(n) else None
    ensures IsBare(v) && session + ".version" in files && files[session + ".version"] == Text(before + v + after) ==>
      VersionIn(files, session) == Some(v)
  {
    hide Trim, ParseU32, Decimal, AllSpaces, IsSpace, Prints;
    var digits := Decimal(n);
    DecimalIsBare(n);
    TrimmingRemovesSpaces(before, digits, after);
    PrintedNumber(n);
    if IsBare(v) { TrimmingRemovesSpaces(before, v, after); }
  }

  /* ---------- What becomes of a session ---------- */

  /** Its pid file names no living process, or it has a socket and no pid file. */
  predicate IsStale(files: Files, alive: set<nat>, x: string) {
    if x + ".pid" in files then !Live(files, alive, x) else x + ".sock" in files
  }

  /** A stale session loses each of its five files; any other keeps what it has. */
  lemma StaleSessionsLoseEverything(files: Files, alive: set<nat>, x: string, ending: string)
    requires x != "" && x != "dashboard"
    requires ending in [".pid", ".version", ".config", ".stream", ".sock"]
    ensures x + ending in AfterWalk(files, alive) <==> x + ending in files && !IsStale(files, alive, x)
  {
    var n := x + ending;
    assert n in FilesOf(x);
    hide Live, FilesOf, AfterFirst, AfterSecond;
    if IsStale(files, alive, x) { StaleFileGoes(files, alive, x, n); }
    else if n in files { OtherFileStays(files, alive, x, n); }
    assert n !in files ==> n !in AfterFirst(files, alive) && n !in AfterSecond(AfterFirst(files, alive)) by {
      NothingAppears(files, alive, n);
    }
  }

  lemma NothingAppears(files: Files, alive: set<nat>, n: string)
    ensures n !in files ==> n !in AfterFirst(files, alive)
    ensures n !in AfterFirst(files, alive) ==> n !in AfterSecond(AfterFirst(files, alive))
  {
    hide Drops, OrphanDrops;
  }

  lemma StaleFileGoes(files: Files, alive: set<nat>, x: string, n: string)
    requires x != "" && x != "dashboard" && n in FilesOf(x) && IsStale(files, alive, x)
    ensures n !in AfterWalk(files, alive)
  {
    hide Live, FilesOf, Drops, OrphanDrops;
    var pid, sock, between := x + ".pid", x + ".sock", AfterFirst(files, alive);
    if pid in files {
      PidFileDropsAll(files, alive, x);
    } else {
      PidIsSidecar(x);
      forall e | e in files ensures sock !in Drops(files, alive, e) {
        if sock in Drops(files, alive, e) { DroppedByOwnPid(files, alive, e, sock, x); }
      }
      assert sock in between && pid !in between;
      SocketDropsAll(between, x);
    }
  }

  lemma PidFileDropsAll(files: Files, alive: set<nat>, x: string)
    requires x != "" && x != "dashboard" && !Live(files, alive, x)
    ensures Drops(files, alive, x + ".pid") == FilesOf(x)
  {
    hide Live, FilesOf, StripSuffix;
    SuffixStrips(x, ".pid");
    assert "dashboard" + ".pid" == DASHBOARD;
    SidecarsDiffer(x, "dashboard");
  }

  lemma SocketDropsAll(files: Files, x: string)
    requires x != "" && x + ".pid" !in files
    ensures OrphanDrops(files, x + ".sock") == FilesOf(x)
  {
    hide FilesOf, StripSuffix;
    SuffixStrips(x, ".sock");
  }

  lemma OtherFileStays(files: Files, alive: set<nat>, x: string, n: string)
    requires n in FilesOf(x) && n in files && !IsStale(files, alive, x)
    ensures n in AfterWalk(files, alive)
  {
    hide Live, FilesOf, Drops, OrphanDrops;
    var between := AfterFirst(files, alive);
    forall e | e in files ensures n !in Drops(files, alive, e) {
      if n in Drops(files, alive, e) { DroppedByOwnPid(files, alive, e, n, x); }
    }
    if Live(files, alive, x) { PidOfTheLivingStays(files, alive, x); }
    forall e | e in between ensures n !in OrphanDrops(between, e) {
      if n in OrphanDrops(between, e) { OrphanDroppedBySocket(between, e, n, x); }
    }
  }

  /* ---------- What a walk says it cleaned ---------- */

  /** The reasons, as the directory shows them before the walk. The dashboard's pid
      file is judged apart, and removing it can leave an orphaned socket. */
  predicate IsCleaned(files: Files, alive: set<nat>, c: CleanedSession) {
    var pid := PidIn(files, c.name + ".pid");
    match c.reason
    case ProcessGone =>
      c.name !in ["", "dashboard"] && pid.Some? && pid.value !in alive
    case UnreadablePidFile =>
      c.name !in ["", "dashboard"] && c.name + ".pid" in files && pid.None?
    case DashboardGone =>
      c.name == "dashboard" && pid.Some? && pid.value !in alive
    case OrphanedSocket =>
      && c.name != "" && c.name + ".sock" in files
      && (c.name + ".pid" !in files || (c.name == "dashboard" && pid.Some? && pid.value !in alive))
  }

  lemma SeenAsCleaned(files: Files, alive: set<nat>, entry: string, c: CleanedSession)
    requires entry in files
    ensures c in Sees(files, alive, entry).cleaned
      <==> entry == c.name + ".pid" && !c.reason.OrphanedSocket? && IsCleaned(files, alive, c)
    ensures |Sees(files, alive, entry).cleaned| <= 1 && |Sees(files, alive, entry).sessions| <= 1
  {
    hide PidIn, VersionIn;
    assert "dashboard" + ".pid" == DASHBOARD;
    SuffixStrips(c.name, ".pid");
    if entry == c.name + ".pid" && c.name != "dashboard" { SidecarsDiffer(c.name, "dashboard"); }
  }

  lemma SeenAsOrphan(files: Files, entry: string, c: CleanedSession)
    ensures c in OrphanSees(files, entry).cleaned
      <==> entry == c.name + ".sock" && c.reason.OrphanedSocket? && c.name != "" && c.name + ".pid" !in files
    ensures |OrphanSees(files, entry).cleaned| <= 1 && OrphanSees(files, entry).dashboard == None
  {
    SuffixStrips(c.name, ".sock");
  }

  predicate AllDiffer<T(==)>(s: seq<T>) {
    forall i, j | 0 <= i < j < |s| :: s[i] != s[j]
  }

  lemma DifferTogether<T>(xs: seq<T>, ys: seq<T>)
    requires AllDiffer(xs) && AllDiffer(ys) && forall y | y in ys :: y !in xs
    ensures AllDiffer(xs + ys)
  {
    assert forall j | 0 <= j < |ys| :: ys[j] in ys;
  }

  /** Each report of the first pass comes from one entry, and comes once. */
  lemma {:induction false} CleanedByOne(files: Files, alive: set<nat>, entries: seq<string>)
    requires AllDiffer(entries) && forall e | e in entries :: e in files
    ensures AllDiffer(AllSees(files, alive, entries).cleaned)
    ensures forall c :: c in AllSees(files, alive, entries).cleaned <==>
                        c.name + ".pid" in entries && !c.reason.OrphanedSocket? && IsCleaned(files, alive, c)
    decreases |entries|
  {
    hide Sees, IsCleaned;
    if entries != [] {
      var k := |entries| - 1;
      assert entries == entries[..k] + [entries[k]];
      CleanedByOne(files, alive, entries[..k]);
      forall c ensures c in Sees(files, alive, entries[k]).cleaned
        <==> entries[k] == c.name + ".pid" && !c.reason.OrphanedSocket? && IsCleaned(files, alive, c)
      {
        SeenAsCleaned(files, alive, entries[k], c);
      }
      SeenAsCleaned(files, alive, entries[k], CleanedSession("", ProcessGone));
      DifferTogether(AllSees(files, alive, entries[..k]).cleaned, Sees(files, alive, entries[k]).cleaned);
    }
  }

  lemma {:induction false} OrphanedByOne(files: Files, entries: seq<string>)
    requires AllDiffer(entries)
    ensures AllDiffer(AllOrphanSees(files, entries).cleaned) && AllOrphanSees(files, entries).dashboard == None
    ensures forall c :: c in AllOrphanSees(files, entries).cleaned <==>
                        && c.name + ".sock" in entries && c.reason.OrphanedSocket?
                        && c.name != "" && c.name + ".pid" !in files
    decreases |entries|
  {
    hide OrphanSees;
    if entries != [] {
      var k := |entries| - 1;
      assert entries == entries[..k] + [entries[k]];
      OrphanedByOne(files, entries[..k]);
      forall c ensures c in OrphanSees(files, entries[k]).cleaned
        <==> entries[k] == c.name + ".sock" && c.reason.OrphanedSocket? && c.name != "" && c.name + ".pid" !in files
      {
        SeenAsOrphan(files, entries[k], c);
      }
      SeenAsOrphan(files, entries[k], CleanedSession("", ProcessGone));
      DifferTogether(AllOrphanSees(files, entries[..k]).cleaned, OrphanSees(files, entries[k]).cleaned);
    }
  }

  /** The sessions are reported once each. */
  lemma {:induction false} SessionsDiffer(files: Files, alive: set<nat>, entries: seq<string>)
    requires AllDiffer(entries) && forall e | e in entries :: e in files
    ensures AllDiffer(AllSees(files, alive, entries).sessions)
    decreases |entries|
  {
    hide Sees, Describes;
    if entries != [] {
      var k := |entries| - 1;
      assert entries == entries[..k] + [entries[k]];
      SessionsDiffer(files, alive, entries[..k]);
      SeenAsCleaned(files, alive, entries[k], CleanedSession("", ProcessGone));
      forall s | s in Sees(files, alive, entries[k]).sessions
        ensures s !in AllSees(files, alive, entries[..k]).sessions
      {
        ReportedByOne(files, alive, entries[..k], s);
        forall e | e in entries[..k] ensures s !in Sees(files, alive, e).sessions {
          SeenSessionIsDescribed(files, alive, e, s);
          SeenSessionIsDescribed(files, alive, entries[k], s);
        }
      }
      DifferTogether(AllSees(files, alive, entries[..k]).sessions, Sees(files, alive, entries[k]).sessions);
    }
  }

  lemma {:induction false} DashboardIsSeen(files: Files, alive: set<nat>, entries: seq<string>)
    ensures AllSees(files, alive, entries).dashboard ==
      if DASHBOARD in entries && PidIn(files, DASHBOARD).Some?
      then Some(DashboardInfo(PidIn(files, DASHBOARD).value, PidIn(files, DASHBOARD).value in alive)) else None
    decreases |entries|
  {
    hide PidIn, VersionIn;
    if entries != [] {
      var k := |entries| - 1;
      assert entries == entries[..k] + [entries[k]];
      DashboardIsSeen(files, alive, entries[..k]);
    }
  }

  lemma OrphanAfterFirst(files: Files, alive: set<nat>, x: string)
    requires x != ""
    ensures (x + ".sock" in AfterFirst(files, alive) && x + ".pid" !in AfterFirst(files, alive))
      <==> IsCleaned(files, alive, CleanedSession(x, OrphanedSocket))
  {
    hide PidIn, Drops, FilesOf;
    var pid, sock := x + ".pid", x + ".sock";
    PidIsSidecar(x);
    assert "dashboard" + ".pid" == DASHBOARD;
    assert forall e | e in files && (pid in Drops(files, alive, e) || sock in Drops(files, alive, e)) :: e == pid by {
      forall e | e in files && (pid in Drops(files, alive, e) || sock in Drops(files, alive, e)) ensures e == pid {
        if pid in Drops(files, alive, e) { DroppedByOwnPid(files, alive, e, pid, x); }
        else { DroppedByOwnPid(files, alive, e, sock, x); }
      }
    }
    PidFileDrops(files, alive, x);
  }

  lemma PidFileDrops(files: Files, alive: set<nat>, x: string)
    requires x != ""
    ensures var d := Drops(files, alive, x + ".pid");
      && (x + ".pid" in d <==> if x == "dashboard" then DashboardIsGone(files, alive) else !Live(files, alive, x))
      && (x + ".sock" in d <==> x != "dashboard" && !Live(files, alive, x))
  {
    hide PidIn, StripSuffix, FilesOf, Live;
    SuffixStrips(x, ".pid");
    PidIsSidecar(x);
    assert "dashboard" + ".pid" == DASHBOARD;
    if x == "dashboard" {
      SocketIsNoConfig();
    } else {
      SidecarsDiffer(x, "dashboard");
    }
  }

  lemma SocketIsNoConfig()
    ensures "dashboard" + ".sock" !in {DASHBOARD, "dashboard.config"}
  {
    assert "dashboard" + ".sock" == "dashboard.sock";
    assert "dashboard.sock"[10] == 's' && DASHBOARD[10] == 'p' && "dashboard.config"[10] == 'c';
  }

  /** The report of what was cleaned holds exactly what the directory gave a reason
      for, each once, and the dashboard is reported exactly if its pid can be read. */
  lemma CleanedIsExact(files: Files, alive: set<nat>, first: seq<string>, second: seq<string>)
    requires Lists(first, files) && Lists(second, AfterFirst(files, alive))
    ensures
      var report := AllSees(files, alive, first).Then(AllOrphanSees(AfterFirst(files, alive), second));
      var pid := PidIn(files, "dashboard.pid");
      && (forall c :: c in report.cleaned <==> IsCleaned(files, alive, c))
      && AllDiffer(report.cleaned) && AllDiffer(report.sessions)
      && report.dashboard == (if pid.Some? then Some(DashboardInfo(pid.value, pid.value in alive)) else None)
  {
    hide AllSees, AllOrphanSees, IsCleaned, AfterFirst, PidIn;
    CleanedByOne(files, alive, first);
    OrphanedByOne(AfterFirst(files, alive), second);
    SessionsDiffer(files, alive, first);
    OrphansAreNoSessions(AfterFirst(files, alive), second);
    DashboardIsSeen(files, alive, first);
    PidIsListed(files, alive);
    var left, right := AllSees(files, alive, first), AllOrphanSees(AfterFirst(files, alive), second);
    forall c ensures c in left.cleaned + right.cleaned <==> IsCleaned(files, alive, c) {
      if c.reason.OrphanedSocket? && c.name != "" {
        OrphanAfterFirst(files, alive, c.name);
        assert c == CleanedSession(c.name, OrphanedSocket);
      }
    }
    DifferTogether(left.cleaned, right.cleaned);
    assert left.sessions + right.sessions == left.sessions;
  }

  lemma PidIsListed(files: Files, alive: set<nat>)
    ensures PidIn(files, DASHBOARD).Some? ==> DASHBOARD in files
    ensures forall c: CleanedSession | !c.reason.OrphanedSocket? && IsCleaned(files, alive, c) ::
              c.name + ".pid" in files
    ensures forall c: CleanedSession | c.reason.OrphanedSocket? && IsCleaned(files, alive, c) :: c.name != ""
  {
  }
}
